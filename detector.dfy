/**
 * The scan orchestration of detector.go: building the composite detector
 * from a configuration, and for each walked entry the mode check, the path
 * normalisation, the include/exclude filter and the records that
 * processing one file appends to the shared container.
 *
 * The filesystem, the walk, the goroutines and the detectors themselves are
 * not modelled.  A walk is the sequence of callback invocations it makes;
 * the outcome of opening and rewinding a file and what each detector finds
 * in it are given with each entry.  Dispatched files are processed one after
 * another in walk order, which is one of the schedules the goroutines allow.
 */
module Detector {
  import opened Wrappers
  import opened Glob

  /** The SingleFileDetector variants NewWithError can install. */
  datatype Kind = Bidi | Unicode

  /** The record codes the orchestrator writes itself; a detector's own codes are `Violation`. */
  datatype Code = ErrIODirectory | ErrIOFile | ErrIOSeek | Violation(name: string)

  datatype Record = Record(code: Code, details: string, file: string, line: int, column: int)

  datatype Config = Config(
    directory: string,
    includes: seq<string>,
    excludes: seq<string>,
    parallelism: nat,
    detectBidi: bool,
    detectUnicode: bool)

  /** The `detector` struct: read-only once NewWithError has built it. */
  datatype Scanner = Scanner(
    fileDetectors: seq<Kind>,
    config: Config,
    compiledInclude: seq<Pattern>,
    compiledExclude: seq<Pattern>)

  /** A glob of the configuration that compile refused, with compile's error. */
  datatype PatternFailure = PatternFailure(pattern: string, cause: CompileError)

  /** "failed to compile include pattern ..." and "failed to compile exclude pattern ...". */
  datatype ConfigError = IncludeError(failure: PatternFailure) | ExcludeError(failure: PatternFailure)

  /**
   * The Errors container: an append-only sequence of records.  Its locking
   * is not modelled; appends happen one at a time.
   */
  class Errors {
    var records: seq<Record>

    constructor ()
      ensures records == []
    {
      records := [];
    }

    method Add(code: Code, details: string, file: string, line: int, column: int)
      modifies this
      ensures records == old(records) + [Record(code, details, file, line, column)]
    {
      records := records + [Record(code, details, file, line, column)];
    }

    method AddAll(rs: seq<Record>)
      modifies this
      ensures records == old(records) + rs
    {
      records := records + rs;
    }
  }

  // ---------------------------------------------------------------------
  // NewWithError

  /** The detectors NewWithError installs: BIDI first, then Unicode, each only when enabled. */
  function Detectors(c: Config): (r: seq<Kind>)
    ensures Bidi in r <==> c.detectBidi
    ensures Unicode in r <==> c.detectUnicode
    ensures forall i, j :: 0 <= i < j < |r| ==> r[i] == Bidi && r[j] == Unicode
  {
    (if c.detectBidi then [Bidi] else []) + (if c.detectUnicode then [Unicode] else [])
  }

  /** The globs compiled one after another; the first that fails stops the others. */
  function CompileAll(globs: seq<string>, compiles: string -> bool): (r: Result<seq<Pattern>, PatternFailure>)
    ensures r.Success? ==> |r.value| == |globs|
    ensures r.Failure? ==> r.error.pattern in globs
    decreases |globs|
  {
    if globs == [] then Success([])
    else
      var last := globs[|globs| - 1];
      match CompileAll(globs[..|globs| - 1], compiles)
      case Failure(e) => Failure(e)
      case Success(ps) =>
        match CompileSpec(last, compiles)
        case Failure(e) => Failure(PatternFailure(last, e))
        case Success(p) => Success(ps + [p])
  }

  /**
   * NewWithError as a value: a nil configuration is replaced by the
   * defaults, includes are compiled before excludes, and the first failing
   * pattern is the error.
   */
  function NewSpec(config: Option<Config>, defaults: Config, compiles: string -> bool): (r: Result<Scanner, ConfigError>)
    ensures var c := if config.None? then defaults else config.value;
      r.Success? ==>
        r.value.config == c && r.value.fileDetectors == Detectors(c) &&
        |r.value.compiledInclude| == |c.includes| && |r.value.compiledExclude| == |c.excludes|
    ensures var c := if config.None? then defaults else config.value;
      r.Failure? && r.error.IncludeError? ==> r.error.failure.pattern in c.includes
    ensures var c := if config.None? then defaults else config.value;
      r.Failure? && r.error.ExcludeError? ==>
        r.error.failure.pattern in c.excludes && CompileAll(c.includes, compiles).Success?
  {
    var c := if config.None? then defaults else config.value;
    match CompileAll(c.includes, compiles)
    case Failure(e) => Failure(IncludeError(e))
    case Success(inc) =>
      match CompileAll(c.excludes, compiles)
      case Failure(e) => Failure(ExcludeError(e))
      case Success(exc) => Success(Scanner(Detectors(c), c, inc, exc))
  }

  /** One of the two loops of NewWithError: fill a slice of the globs' length, index by index. */
  method CompilePatterns(globs: seq<string>, compiles: string -> bool) returns (r: Result<seq<Pattern>, PatternFailure>)
    ensures r == CompileAll(globs, compiles)
  {
    var compiled := new Pattern[|globs|](_ => Pattern(""));
    for i := 0 to |globs|
      invariant CompileAll(globs[..i], compiles) == Success(compiled[..i])
    {
      var p := Compile(globs[i], compiles);
      CompileAllStep(globs, i, compiles, p);
      if p.Failure? {
        CompileAllFailureSticks(globs, i + 1, compiles);
        return Failure(PatternFailure(globs[i], p.error));
      }
      compiled[i] := p.value;
      assert compiled[..i + 1] == compiled[..i] + [p.value];
    }
    assert globs[..|globs|] == globs;
    assert compiled[..] == compiled[..|globs|];
    return Success(compiled[..]);
  }

  lemma CompileAllStep(globs: seq<string>, i: nat, compiles: string -> bool, p: Result<Pattern, CompileError>)
    requires i < |globs| && p == CompileSpec(globs[i], compiles)
    ensures var prior := CompileAll(globs[..i], compiles);
      CompileAll(globs[..i + 1], compiles) ==
        if prior.Failure? then prior
        else if p.Failure? then Failure(PatternFailure(globs[i], p.error))
        else Success(prior.value + [p.value])
  {
    assert globs[..i + 1][..i] == globs[..i];
  }

  /** Once a prefix of the globs fails, the whole list fails with the same error. */
  lemma {:induction false} CompileAllFailureSticks(globs: seq<string>, j: nat, compiles: string -> bool)
    requires j <= |globs| && CompileAll(globs[..j], compiles).Failure?
    ensures CompileAll(globs, compiles) == CompileAll(globs[..j], compiles)
    decreases |globs| - j
  {
    if j < |globs| {
      CompileAllStep(globs, j, compiles, CompileSpec(globs[j], compiles));
      CompileAllFailureSticks(globs, j + 1, compiles);
    } else {
      assert globs[..j] == globs;
    }
  }

  method NewWithError(config: Option<Config>, defaults: Config, compiles: string -> bool) returns (r: Result<Scanner, ConfigError>)
    ensures r == NewSpec(config, defaults, compiles)
  {
    var c := defaults;
    if config.Some? {
      c := config.value;
    }
    var fileDetectors: seq<Kind> := [];
    if c.detectBidi {
      fileDetectors := fileDetectors + [Bidi];
    }
    if c.detectUnicode {
      fileDetectors := fileDetectors + [Unicode];
    }
    assert fileDetectors == Detectors(c);
    var inc := CompilePatterns(c.includes, compiles);
    if inc.Failure? {
      return Failure(IncludeError(inc.error));
    }
    var exc := CompilePatterns(c.excludes, compiles);
    if exc.Failure? {
      return Failure(ExcludeError(exc.error));
    }
    return Success(Scanner(fileDetectors, c, inc.value, exc.value));
  }

  // ---------------------------------------------------------------------
  // The walk callback: mode, path, filter

  /** The bits of os.FileMode that Mode().Type() keeps. */
  datatype ModeBit = ModeDir | ModeSymlink | ModeDevice | ModeNamedPipe | ModeSocket | ModeCharDevice | ModeIrregular

  /**
   * The switch of the walk callback as written: the entry is skipped when
   * its type equals one of the seven single bits.
   */
  predicate SkippedAsWritten(t: set<ModeBit>)
    ensures SkippedAsWritten(t) ==> |t| == 1
  {
    t == {ModeDir} || t == {ModeSymlink} || t == {ModeDevice} || t == {ModeNamedPipe} ||
    t == {ModeSocket} || t == {ModeCharDevice} || t == {ModeIrregular}
  }

  /** The skip the comments of the switch describe: everything that is not a regular file. */
  predicate Skipped(t: set<ModeBit>)
    ensures SkippedAsWritten(t) ==> Skipped(t)
  {
    t != {}
  }

  /** The directory prefix removed from walked paths: the directory with one trailing slash. */
  function RemovePrefix(directory: string): (r: string)
    ensures |r| > 0 && r[|r| - 1] == '/'
    ensures directory <= r && |r| <= |directory| + 1
    ensures directory != [] && directory[|directory| - 1] == '/' ==> r == directory
  {
    if |directory| > 0 && directory[|directory| - 1] == '/' then directory else directory + "/"
  }

  /** strings.TrimPrefix. */
  function TrimPrefix(s: string, prefix: string): (r: string)
    ensures prefix <= s ==> prefix + r == s
    ensures !(prefix <= s) ==> r == s
  {
    if prefix <= s then s[|prefix|..] else s
  }

  /** The path reported for a walked path, filepath.ToSlash taken as the identity. */
  function ReportedPath(path: string, directory: string): string
  {
    TrimPrefix(path, RemovePrefix(directory))
  }

  /** Some pattern of the list matches the name. */
  function MatchesAny(ps: seq<Pattern>, name: string, regexMatch: (string, string) -> bool): bool
  {
    if ps == [] then false else Match(ps[0], name, regexMatch) || MatchesAny(ps[1..], name, regexMatch)
  }

  /** The filter: an empty include list admits everything, and any matching exclude pattern refuses. */
  function ShouldScan(s: Scanner, name: string, regexMatch: (string, string) -> bool): bool
  {
    (|s.config.includes| == 0 || MatchesAny(s.compiledInclude, name, regexMatch)) &&
    !MatchesAny(s.compiledExclude, name, regexMatch)
  }

  /**
   * The filter as the callback runs it: the include scan sets a flag and
   * breaks at the first match, the exclude scan returns at the first match.
   */
  method Admit(s: Scanner, name: string, regexMatch: (string, string) -> bool) returns (dispatch: bool)
    ensures dispatch == ShouldScan(s, name, regexMatch)
  {
    if |s.config.includes| != 0 {
      var found := false;
      var i := 0;
      while i < |s.compiledInclude|
        invariant 0 <= i <= |s.compiledInclude|
        invariant MatchesAny(s.compiledInclude, name, regexMatch) ==
          (found || MatchesAny(s.compiledInclude[i..], name, regexMatch))
        invariant !found
      {
        assert s.compiledInclude[i..][1..] == s.compiledInclude[i + 1..];
        if Match(s.compiledInclude[i], name, regexMatch) {
          found := true;
          break;
        }
        i := i + 1;
      }
      if !found {
        return false;
      }
    }
    var j := 0;
    while j < |s.compiledExclude|
      invariant 0 <= j <= |s.compiledExclude|
      invariant MatchesAny(s.compiledExclude, name, regexMatch) == MatchesAny(s.compiledExclude[j..], name, regexMatch)
    {
      assert s.compiledExclude[j..][1..] == s.compiledExclude[j + 1..];
      if Match(s.compiledExclude[j], name, regexMatch) {
        return false;
      }
      j := j + 1;
    }
    return true;
  }

  // ---------------------------------------------------------------------
  // processFile

  /** The error Seek reports on the nil handle os.Open returns on failure. */
  const NilSeekError: string := "invalid argument"

  /**
   * What the filesystem and the detectors do with one file: the error of
   * opening it, if any; the error of the rewind before the detector at
   * each position, if any; and the records each detector finds under a
   * path label.
   */
  datatype FileOutcome = FileOutcome(
    openError: Option<string>,
    seekError: nat -> Option<string>,
    found: (Kind, string) -> seq<Record>)

  /** The seek error before the detector at position i: always one on a file that did not open. */
  function SeekResult(o: FileOutcome, i: nat): Option<string>
  {
    if o.openError.Some? then Some(NilSeekError) else o.seekError(i)
  }

  /** What the detector at position i contributes: a seek error record, or its findings. */
  function DetectorBlock(ds: seq<Kind>, i: nat, path: string, reportedPath: string, o: FileOutcome): seq<Record>
    requires i < |ds|
  {
    match SeekResult(o, i)
    case Some(msg) => [Record(ErrIOSeek, msg, path, 0, 0)]
    case None => o.found(ds[i], reportedPath)
  }

  /** The blocks of the detectors at positions i and later, in order. */
  function DetectorRecords(ds: seq<Kind>, i: nat, path: string, reportedPath: string, o: FileOutcome): (r: seq<Record>)
    requires i <= |ds|
    ensures o.openError.Some? ==> |r| == |ds| - i
    decreases |ds| - i
  {
    if i == |ds| then [] else DetectorBlock(ds, i, path, reportedPath, o) + DetectorRecords(ds, i + 1, path, reportedPath, o)
  }

  /** Everything processing one file appends: an open error record, if any, then each detector's block. */
  function FileRecords(ds: seq<Kind>, path: string, reportedPath: string, o: FileOutcome): (r: seq<Record>)
    ensures o.openError.Some? ==> |r| == 1 + |ds| && r[0] == Record(ErrIOFile, o.openError.value, path, 0, 0)
  {
    (if o.openError.Some? then [Record(ErrIOFile, o.openError.value, path, 0, 0)] else []) +
    DetectorRecords(ds, 0, path, reportedPath, o)
  }

  lemma DetectorRecordsStep(ds: seq<Kind>, i: nat, path: string, reportedPath: string, o: FileOutcome)
    requires i < |ds|
    ensures DetectorRecords(ds, i, path, reportedPath, o) ==
      DetectorBlock(ds, i, path, reportedPath, o) + DetectorRecords(ds, i + 1, path, reportedPath, o)
  {
  }

  lemma AppendAssoc(a: seq<Record>, b: seq<Record>, c: seq<Record>)
    ensures a + (b + c) == (a + b) + c
  {
  }

  method ProcessFile(s: Scanner, path: string, reportedPath: string, o: FileOutcome, container: Errors)
    modifies container
    ensures container.records == old(container.records) + FileRecords(s.fileDetectors, path, reportedPath, o)
  {
    var ds := s.fileDetectors;
    ghost var all := DetectorRecords(ds, 0, path, reportedPath, o);
    ghost var opening := if o.openError.Some? then [Record(ErrIOFile, o.openError.value, path, 0, 0)] else [];
    if o.openError.Some? {
      container.Add(ErrIOFile, o.openError.value, path, 0, 0);
    }
    ghost var head := container.records;
    AppendAssoc(old(container.records), opening, all);
    for i := 0 to |ds|
      invariant head + all == container.records + DetectorRecords(ds, i, path, reportedPath, o)
    {
      ghost var before := container.records;
      ghost var block := DetectorBlock(ds, i, path, reportedPath, o);
      DetectorRecordsStep(ds, i, path, reportedPath, o);
      AppendAssoc(before, block, DetectorRecords(ds, i + 1, path, reportedPath, o));
      var seek := SeekResult(o, i);
      if seek.Some? {
        container.Add(ErrIOSeek, seek.value, path, 0, 0);
        continue;
      }
      container.AddAll(o.found(ds[i], reportedPath));
    }
    assert container.records + [] == container.records;
  }

  // ---------------------------------------------------------------------
  // Run

  /** One walked entry: its path, its mode type and what processing it would find. */
  datatype Entry = Entry(path: string, mode: set<ModeBit>, outcome: FileOutcome)

  /** A call of the walk callback: an entry, or the error the walk passes for an unreadable one. */
  datatype WalkEvent = Visit(entry: Entry) | WalkFailure(message: string)

  /** The record a failed walk leaves, without a file. */
  function DirectoryRecord(message: string): Record
  {
    Record(ErrIODirectory, message, "", 0, 0)
  }

  /**
   * The records one entry contributes when the mode test is `skip`: none
   * when its type is skipped or the filter refuses its reported path.
   */
  function EntryRecords(skip: set<ModeBit> -> bool, s: Scanner, e: Entry, regexMatch: (string, string) -> bool): (r: seq<Record>)
    ensures r != [] ==> !skip(e.mode) && ShouldScan(s, ReportedPath(e.path, s.config.directory), regexMatch)
    ensures !skip(e.mode) && ShouldScan(s, ReportedPath(e.path, s.config.directory), regexMatch) && e.outcome.openError.Some? ==>
      |r| == 1 + |s.fileDetectors| && r[0] == Record(ErrIOFile, e.outcome.openError.value, e.path, 0, 0)
  {
    var reported := ReportedPath(e.path, s.config.directory);
    if skip(e.mode) || !ShouldScan(s, reported, regexMatch) then []
    else FileRecords(s.fileDetectors, e.path, reported, e.outcome)
  }

  /**
   * Run, in walk order, with the mode test `skip`: each entry's records; the
   * first failure stops the walk and leaves one directory record after all
   * the files dispatched.  Run itself uses the switch as written,
   * `SkippedAsWritten`; `Skipped` gives the run the comments of the switch
   * describe.
   */
  function RunRecords(skip: set<ModeBit> -> bool, s: Scanner, events: seq<WalkEvent>, regexMatch: (string, string) -> bool): seq<Record>
  {
    if events == [] then []
    else match events[0]
      case WalkFailure(msg) => [DirectoryRecord(msg)]
      case Visit(e) => EntryRecords(skip, s, e, regexMatch) + RunRecords(skip, s, events[1..], regexMatch)
  }

  /** The walk callback for one entry: the mode switch as written, reported path, filter, processFile. */
  method VisitEntry(s: Scanner, e: Entry, regexMatch: (string, string) -> bool, container: Errors)
    modifies container
    ensures container.records == old(container.records) + EntryRecords(SkippedAsWritten, s, e, regexMatch)
  {
    if SkippedAsWritten(e.mode) {
      return;
    }
    var reported := ReportedPath(e.path, s.config.directory);
    var dispatch := Admit(s, reported, regexMatch);
    if !dispatch {
      return;
    }
    ProcessFile(s, e.path, reported, e.outcome, container);
  }

  lemma RunStep(skip: set<ModeBit> -> bool, s: Scanner, events: seq<WalkEvent>, i: nat, regexMatch: (string, string) -> bool)
    requires i < |events|
    ensures RunRecords(skip, s, events[i..], regexMatch) ==
      if events[i].WalkFailure? then [DirectoryRecord(events[i].message)]
      else EntryRecords(skip, s, events[i].entry, regexMatch) + RunRecords(skip, s, events[i + 1..], regexMatch)
  {
    assert events[i..][1..] == events[i + 1..];
  }

  method Run(s: Scanner, events: seq<WalkEvent>, regexMatch: (string, string) -> bool) returns (records: seq<Record>)
    ensures records == RunRecords(SkippedAsWritten, s, events, regexMatch)
  {
    var container := new Errors();
    var err: Option<string> := None;
    var i := 0;
    while i < |events|
      invariant 0 <= i <= |events|
      invariant RunRecords(SkippedAsWritten, s, events, regexMatch) == container.records + RunRecords(SkippedAsWritten, s, events[i..], regexMatch)
      invariant err.None?
      decreases |events| - i
    {
      RunStep(SkippedAsWritten, s, events, i, regexMatch);
      match events[i] {
        case WalkFailure(msg) =>
          err := Some(msg);
          break;
        case Visit(e) =>
          ghost var before := container.records;
          VisitEntry(s, e, regexMatch, container);
          AppendAssoc(before, EntryRecords(SkippedAsWritten, s, e, regexMatch), RunRecords(SkippedAsWritten, s, events[i + 1..], regexMatch));
      }
      i := i + 1;
    }
    if err.Some? {
      container.Add(ErrIODirectory, err.value, "", 0, 0);
    } else {
      assert events[i..] == [];
    }
    return container.records;
  }
}
