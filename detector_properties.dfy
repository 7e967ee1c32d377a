/**
 * What detector.go guarantees, stated over the model of the Detector
 * module: how the composite detector is built, how walked paths are
 * reported, which entries are skipped, how the filter decides, and which
 * records processing a file and running a walk produce.
 */
module DetectorProperties {
  import opened Wrappers
  import opened Glob
  import opened Detector

  // ---------------------------------------------------------------------
  // NewWithError

  /** On success the patterns are the globs' own compilations, one per glob, in order. */
  lemma {:induction false} CompileAllSucceeds(globs: seq<string>, compiles: string -> bool)
    ensures CompileAll(globs, compiles).Success? ==>
      var ps := CompileAll(globs, compiles).value;
      |ps| == |globs| && forall i :: 0 <= i < |globs| ==> CompileSpec(globs[i], compiles) == Success(ps[i])
    decreases |globs|
  {
    if globs != [] && CompileAll(globs, compiles).Success? {
      var n := |globs| - 1;
      var init := globs[..n];
      CompileAllSucceeds(init, compiles);
      var prior := CompileAll(init, compiles).value;
      var p := CompileSpec(globs[n], compiles).value;
      assert CompileAll(globs, compiles).value == prior + [p];
      forall i | 0 <= i < |globs|
        ensures CompileSpec(globs[i], compiles) == Success((prior + [p])[i])
      {
        if i < n {
          assert init[i] == globs[i];
        }
      }
    }
  }

  /** The glob at position i is the first that fails, and e names it with its own error. */
  predicate FirstFailureAt(globs: seq<string>, i: nat, e: PatternFailure, compiles: string -> bool)
  {
    i < |globs| && globs[i] == e.pattern && CompileSpec(globs[i], compiles) == Failure(e.cause) &&
    forall j :: 0 <= j < i ==> CompileSpec(globs[j], compiles).Success?
  }

  lemma FirstFailureExtends(globs: seq<string>, n: nat, i: nat, e: PatternFailure, compiles: string -> bool)
    requires n <= |globs| && FirstFailureAt(globs[..n], i, e, compiles)
    ensures FirstFailureAt(globs, i, e, compiles)
  {
    assert globs[i] == globs[..n][i];
    assert forall j :: 0 <= j < i ==> globs[j] == globs[..n][j];
  }

  /** When the first n globs compile together, each of them compiles on its own. */
  lemma PrefixCompiles(globs: seq<string>, n: nat, compiles: string -> bool)
    requires n <= |globs| && CompileAll(globs[..n], compiles).Success?
    ensures forall j :: 0 <= j < n ==> CompileSpec(globs[j], compiles).Success?
  {
    var init := globs[..n];
    CompileAllSucceeds(init, compiles);
    forall j | 0 <= j < n
      ensures CompileSpec(globs[j], compiles).Success?
    {
      assert globs[j] == init[j];
    }
  }

  lemma LastFailureIsFirst(globs: seq<string>, compiles: string -> bool)
    requires globs != [] && CompileAll(globs[..|globs| - 1], compiles).Success?
    requires CompileAll(globs, compiles).Failure?
    ensures FirstFailureAt(globs, |globs| - 1, CompileAll(globs, compiles).error, compiles)
  {
    var n := |globs| - 1;
    assert CompileSpec(globs[n], compiles).Failure?;
    assert CompileAll(globs, compiles).error == PatternFailure(globs[n], CompileSpec(globs[n], compiles).error);
    PrefixCompiles(globs, n, compiles);
  }

  /** On failure the error names the first glob that fails, with that glob's own error. */
  lemma {:induction false} CompileAllFails(globs: seq<string>, compiles: string -> bool)
    ensures CompileAll(globs, compiles).Failure? ==>
      exists i :: FirstFailureAt(globs, i, CompileAll(globs, compiles).error, compiles)
    decreases |globs|
  {
    if globs != [] && CompileAll(globs, compiles).Failure? {
      var n := |globs| - 1;
      var e := CompileAll(globs, compiles).error;
      if CompileAll(globs[..n], compiles).Failure? {
        CompileAllFails(globs[..n], compiles);
        assert CompileAll(globs[..n], compiles).error == e;
        var i :| FirstFailureAt(globs[..n], i, e, compiles);
        FirstFailureExtends(globs, n, i, e, compiles);
      } else {
        LastFailureIsFirst(globs, compiles);
      }
    }
  }

  /** Compiling a list of globs succeeds exactly when every glob compiles. */
  lemma CompileAllMeaning(globs: seq<string>, compiles: string -> bool)
    ensures CompileAll(globs, compiles).Success? <==>
      forall i :: 0 <= i < |globs| ==> CompileSpec(globs[i], compiles).Success?
  {
    CompileAllSucceeds(globs, compiles);
    CompileAllFails(globs, compiles);
  }

  /**
   * A configuration builds a detector exactly when all its include and
   * exclude globs compile.  The detector then holds BIDI before Unicode,
   * each only when enabled, and one compiled pattern per glob in order.
   */
  lemma NewSucceeds(config: Option<Config>, defaults: Config, compiles: string -> bool)
    ensures var c := if config.None? then defaults else config.value;
      NewSpec(config, defaults, compiles).Success? <==>
        (forall i :: 0 <= i < |c.includes| ==> CompileSpec(c.includes[i], compiles).Success?) &&
        (forall i :: 0 <= i < |c.excludes| ==> CompileSpec(c.excludes[i], compiles).Success?)
    ensures var c := if config.None? then defaults else config.value;
      NewSpec(config, defaults, compiles).Success? ==>
        var d := NewSpec(config, defaults, compiles).value;
        d.config == c && d.fileDetectors == Detectors(c) &&
        |d.compiledInclude| == |c.includes| && |d.compiledExclude| == |c.excludes| &&
        (forall i :: 0 <= i < |c.includes| ==> CompileSpec(c.includes[i], compiles) == Success(d.compiledInclude[i])) &&
        (forall i :: 0 <= i < |c.excludes| ==> CompileSpec(c.excludes[i], compiles) == Success(d.compiledExclude[i]))
  {
    var c := if config.None? then defaults else config.value;
    CompileAllMeaning(c.includes, compiles);
    CompileAllMeaning(c.excludes, compiles);
    CompileAllSucceeds(c.includes, compiles);
    CompileAllSucceeds(c.excludes, compiles);
  }

  /**
   * A failing include glob is reported before any exclude glob is looked
   * at, and an exclude error means every include compiled.
   */
  lemma NewFailsAtFirstPattern(config: Option<Config>, defaults: Config, compiles: string -> bool)
    ensures var c := if config.None? then defaults else config.value;
      var r := NewSpec(config, defaults, compiles);
      r.Failure? && r.error.IncludeError? ==>
        exists i :: 0 <= i < |c.includes| && c.includes[i] == r.error.failure.pattern &&
          CompileSpec(c.includes[i], compiles) == Failure(r.error.failure.cause) &&
          forall j :: 0 <= j < i ==> CompileSpec(c.includes[j], compiles).Success?
    ensures var c := if config.None? then defaults else config.value;
      var r := NewSpec(config, defaults, compiles);
      r.Failure? && r.error.ExcludeError? ==>
        (forall i :: 0 <= i < |c.includes| ==> CompileSpec(c.includes[i], compiles).Success?) &&
        exists i :: 0 <= i < |c.excludes| && c.excludes[i] == r.error.failure.pattern &&
          CompileSpec(c.excludes[i], compiles) == Failure(r.error.failure.cause) &&
          forall j :: 0 <= j < i ==> CompileSpec(c.excludes[j], compiles).Success?
  {
    var c := if config.None? then defaults else config.value;
    CompileAllFails(c.includes, compiles);
    CompileAllMeaning(c.includes, compiles);
    CompileAllFails(c.excludes, compiles);
  }

  // ---------------------------------------------------------------------
  // Paths

  /** A path under the directory is reported relative to it, whether or not the directory ends in a slash. */
  lemma ReportedPathUnder(directory: string, relative: string)
    ensures ReportedPath(RemovePrefix(directory) + relative, directory) == relative
  {
    var p := RemovePrefix(directory);
    assert p <= p + relative;
    assert (p + relative)[|p|..] == relative;
  }

  /** A path not under the directory-with-slash is reported unchanged; this includes the directory itself without its slash. */
  lemma ReportedPathOutside(path: string, directory: string)
    requires !(RemovePrefix(directory) <= path)
    ensures ReportedPath(path, directory) == path
  {
  }

  /** The reported path is always a tail of the walked path. */
  lemma ReportedPathIsTail(path: string, directory: string)
    ensures var r := ReportedPath(path, directory);
      |r| <= |path| && path[|path| - |r|..] == r
  {
    var p := RemovePrefix(directory);
    var r := ReportedPath(path, directory);
    if p <= path {
      assert p + r == path;
      assert path[|p|..] == r;
    }
  }

  // ---------------------------------------------------------------------
  // Modes

  /** The switch as written skips exactly the types made of a single bit. */
  lemma SkippedAsWrittenSingleBit(t: set<ModeBit>)
    ensures SkippedAsWritten(t) <==> |t| == 1
  {
    if |t| == 1 {
      var b :| b in t;
      assert t == {b} by {
        if exists x :: x in t && x != b {
          var x :| x in t && x != b;
          assert {b, x} <= t;
          assert |{b, x}| == 2;
          SubsetCard({b, x}, t);
        }
      }
      match b
      case ModeDir =>
      case ModeSymlink =>
      case ModeDevice =>
      case ModeNamedPipe =>
      case ModeSocket =>
      case ModeCharDevice =>
      case ModeIrregular =>
    }
  }

  lemma SubsetCard(a: set<ModeBit>, b: set<ModeBit>)
    requires a <= b
    ensures |a| <= |b|
  {
    var rest := b - a;
    assert b == a + rest;
    assert a * rest == {};
  }

  /**
   * The comments of the switch promise to skip every entry that is not a
   * regular file; the switch as written misses exactly the types with more
   * than one bit.
   */
  lemma SkipDifference(t: set<ModeBit>)
    ensures SkippedAsWritten(t) ==> Skipped(t)
    ensures Skipped(t) && !SkippedAsWritten(t) <==> |t| >= 2
  {
    SkippedAsWrittenSingleBit(t);
  }

  /** A character device's type is ModeDevice|ModeCharDevice: the switch as written lets it through. */
  lemma CharDeviceNotSkippedAsWritten()
    ensures !SkippedAsWritten({ModeDevice, ModeCharDevice})
    ensures Skipped({ModeDevice, ModeCharDevice})
  {
    SkippedAsWrittenSingleBit({ModeDevice, ModeCharDevice});
    assert |{ModeDevice, ModeCharDevice}| == 2;
  }

  // ---------------------------------------------------------------------
  // Filter

  lemma {:induction false} MatchesAnyExists(ps: seq<Pattern>, name: string, regexMatch: (string, string) -> bool)
    ensures MatchesAny(ps, name, regexMatch) <==> exists i :: 0 <= i < |ps| && Match(ps[i], name, regexMatch)
  {
    if ps != [] {
      MatchesAnyExists(ps[1..], name, regexMatch);
      if exists i :: 0 <= i < |ps| && Match(ps[i], name, regexMatch) {
        var i :| 0 <= i < |ps| && Match(ps[i], name, regexMatch);
        if i > 0 {
          assert ps[1..][i - 1] == ps[i];
        }
      }
      if exists i :: 0 <= i < |ps[1..]| && Match(ps[1..][i], name, regexMatch) {
        var i :| 0 <= i < |ps[1..]| && Match(ps[1..][i], name, regexMatch);
        assert ps[i + 1] == ps[1..][i];
      }
    }
  }

  /**
   * A name is scanned exactly when the include list is empty or some
   * include pattern matches it, and no exclude pattern matches it.
   */
  lemma ShouldScanMeaning(s: Scanner, name: string, regexMatch: (string, string) -> bool)
    ensures ShouldScan(s, name, regexMatch) <==>
      (|s.config.includes| == 0 || exists i :: 0 <= i < |s.compiledInclude| && Match(s.compiledInclude[i], name, regexMatch)) &&
      !exists i :: 0 <= i < |s.compiledExclude| && Match(s.compiledExclude[i], name, regexMatch)
  {
    MatchesAnyExists(s.compiledInclude, name, regexMatch);
    MatchesAnyExists(s.compiledExclude, name, regexMatch);
  }

  /** Exclude takes precedence: a name an exclude pattern matches is never scanned, whatever the includes say. */
  lemma ExcludeWins(s: Scanner, name: string, regexMatch: (string, string) -> bool, i: nat)
    requires i < |s.compiledExclude| && Match(s.compiledExclude[i], name, regexMatch)
    ensures !ShouldScan(s, name, regexMatch)
  {
    MatchesAnyExists(s.compiledExclude, name, regexMatch);
  }

  // ---------------------------------------------------------------------
  // processFile

  /** The record a failed rewind of the nil handle leaves. */
  function NilSeekRecord(path: string): Record
  {
    Record(ErrIOSeek, NilSeekError, path, 0, 0)
  }

  lemma {:induction false} NilSeeks(ds: seq<Kind>, i: nat, path: string, reportedPath: string, o: FileOutcome)
    requires i <= |ds| && o.openError.Some?
    ensures DetectorRecords(ds, i, path, reportedPath, o) == seq(|ds| - i, _ => NilSeekRecord(path))
    decreases |ds| - i
  {
    if i < |ds| {
      NilSeeks(ds, i + 1, path, reportedPath, o);
      assert DetectorBlock(ds, i, path, reportedPath, o) == [NilSeekRecord(path)];
      assert [NilSeekRecord(path)] + seq(|ds| - (i + 1), _ => NilSeekRecord(path)) == seq(|ds| - i, _ => NilSeekRecord(path));
    }
  }

  /**
   * A file that does not open leaves its open error and then, because the
   * detector loop still runs on the nil handle, one seek error per
   * detector; no detector is run.
   */
  lemma OpenFailureRecords(ds: seq<Kind>, path: string, reportedPath: string, o: FileOutcome)
    requires o.openError.Some?
    ensures FileRecords(ds, path, reportedPath, o) ==
      [Record(ErrIOFile, o.openError.value, path, 0, 0)] + seq(|ds|, _ => NilSeekRecord(path))
    ensures |FileRecords(ds, path, reportedPath, o)| == 1 + |ds|
  {
    NilSeeks(ds, 0, path, reportedPath, o);
  }

  /** The blocks of the detectors at positions i up to, not including, j, in order. */
  function BlocksBetween(ds: seq<Kind>, i: nat, j: nat, path: string, reportedPath: string, o: FileOutcome): seq<Record>
    requires i <= j <= |ds|
    decreases j - i
  {
    if i == j then [] else DetectorBlock(ds, i, path, reportedPath, o) + BlocksBetween(ds, i + 1, j, path, reportedPath, o)
  }

  /** The findings of the detectors at positions i up to, not including, j, in order. */
  function Findings(ds: seq<Kind>, i: nat, j: nat, reportedPath: string, o: FileOutcome): seq<Record>
    requires i <= j <= |ds|
    decreases j - i
  {
    if i == j then [] else o.found(ds[i], reportedPath) + Findings(ds, i + 1, j, reportedPath, o)
  }

  lemma {:induction false} DetectorRecordsBlocks(ds: seq<Kind>, i: nat, path: string, reportedPath: string, o: FileOutcome)
    requires i <= |ds|
    ensures DetectorRecords(ds, i, path, reportedPath, o) == BlocksBetween(ds, i, |ds|, path, reportedPath, o)
    decreases |ds| - i
  {
    if i < |ds| {
      DetectorRecordsBlocks(ds, i + 1, path, reportedPath, o);
    }
  }

  /** Where the file opened and every rewind from i to j succeeds, the blocks are the detectors' findings. */
  lemma {:induction false} CleanBlocks(ds: seq<Kind>, i: nat, j: nat, path: string, reportedPath: string, o: FileOutcome)
    requires i <= j <= |ds| && o.openError.None?
    requires forall k :: i <= k < j ==> o.seekError(k).None?
    ensures BlocksBetween(ds, i, j, path, reportedPath, o) == Findings(ds, i, j, reportedPath, o)
    decreases j - i
  {
    if i < j {
      CleanBlocks(ds, i + 1, j, path, reportedPath, o);
    }
  }

  /** A file that opens and rewinds every time gets exactly its detectors' findings, in detector order. */
  lemma CleanFileRecords(ds: seq<Kind>, path: string, reportedPath: string, o: FileOutcome)
    requires o.openError.None?
    requires forall k :: 0 <= k < |ds| ==> o.seekError(k).None?
    ensures FileRecords(ds, path, reportedPath, o) == Findings(ds, 0, |ds|, reportedPath, o)
  {
    DetectorRecordsBlocks(ds, 0, path, reportedPath, o);
    CleanBlocks(ds, 0, |ds|, path, reportedPath, o);
  }

  /**
   * The records of a file split at any detector position: the blocks of
   * the detectors before it, then its own block, then the blocks of the
   * detectors after it.
   */
  lemma {:induction false} DetectorRecordsSplit(ds: seq<Kind>, i: nat, k: nat, path: string, reportedPath: string, o: FileOutcome)
    requires i <= k < |ds|
    ensures DetectorRecords(ds, i, path, reportedPath, o) ==
      BlocksBetween(ds, i, k, path, reportedPath, o) + DetectorBlock(ds, k, path, reportedPath, o) +
      DetectorRecords(ds, k + 1, path, reportedPath, o)
    decreases k - i
  {
    var rest := DetectorRecords(ds, k + 1, path, reportedPath, o);
    var block := DetectorBlock(ds, k, path, reportedPath, o);
    if i == k {
      assert DetectorRecords(ds, i, path, reportedPath, o) == [] + block + rest;
    } else {
      DetectorRecordsSplit(ds, i + 1, k, path, reportedPath, o);
      var before := BlocksBetween(ds, i + 1, k, path, reportedPath, o);
      var head := DetectorBlock(ds, i, path, reportedPath, o);
      assert DetectorRecords(ds, i, path, reportedPath, o) == head + (before + block + rest);
      assert head + (before + block + rest) == (head + before) + block + rest;
    }
  }

  /**
   * A file that opens, where only the rewind before detector k fails: the
   * findings of the detectors before k, then one seek record with the
   * rewind's message in place of detector k's findings, then the findings
   * of the detectors after k.
   */
  lemma SingleSeekFailure(ds: seq<Kind>, k: nat, path: string, reportedPath: string, o: FileOutcome)
    requires k < |ds| && o.openError.None? && o.seekError(k).Some?
    requires forall j :: 0 <= j < |ds| && j != k ==> o.seekError(j).None?
    ensures FileRecords(ds, path, reportedPath, o) ==
      Findings(ds, 0, k, reportedPath, o) + [Record(ErrIOSeek, o.seekError(k).value, path, 0, 0)] +
      Findings(ds, k + 1, |ds|, reportedPath, o)
  {
    DetectorRecordsSplit(ds, 0, k, path, reportedPath, o);
    DetectorRecordsBlocks(ds, k + 1, path, reportedPath, o);
    CleanBlocks(ds, 0, k, path, reportedPath, o);
    CleanBlocks(ds, k + 1, |ds|, path, reportedPath, o);
    assert FileRecords(ds, path, reportedPath, o) == [] + DetectorRecords(ds, 0, path, reportedPath, o);
  }

  // ---------------------------------------------------------------------
  // Run

  predicate NoFailure(events: seq<WalkEvent>)
  {
    forall i :: 0 <= i < |events| ==> events[i].Visit?
  }

  /**
   * A walk without failures contributes its entries' records in order, and
   * the run goes on after it; this holds for any mode test, the switch as
   * written included.
   */
  lemma {:induction false} RunAppend(skip: set<ModeBit> -> bool, s: Scanner, a: seq<WalkEvent>, b: seq<WalkEvent>, regexMatch: (string, string) -> bool)
    requires NoFailure(a)
    ensures RunRecords(skip, s, a + b, regexMatch) == RunRecords(skip, s, a, regexMatch) + RunRecords(skip, s, b, regexMatch)
  {
    if a == [] {
      assert a + b == b;
    } else {
      assert (a + b)[0] == a[0];
      assert (a + b)[1..] == a[1..] + b;
      assert NoFailure(a[1..]) by {
        forall i | 0 <= i < |a[1..]| ensures a[1..][i].Visit? {
          assert a[1..][i] == a[i + 1];
        }
      }
      RunAppend(skip, s, a[1..], b, regexMatch);
    }
  }

  /**
   * A walk failure ends the run: its one directory record, without a file
   * and at 0/0, comes after the records of everything dispatched before,
   * and nothing after the failure is visited.
   */
  lemma FailureEndsRun(skip: set<ModeBit> -> bool, s: Scanner, a: seq<WalkEvent>, message: string, b: seq<WalkEvent>, regexMatch: (string, string) -> bool)
    requires NoFailure(a)
    ensures RunRecords(skip, s, a + [WalkFailure(message)] + b, regexMatch) ==
      RunRecords(skip, s, a, regexMatch) + [DirectoryRecord(message)]
  {
    RunAppend(skip, s, a, [WalkFailure(message)] + b, regexMatch);
    assert a + [WalkFailure(message)] + b == a + ([WalkFailure(message)] + b);
  }

  /** An entry that is skipped for its mode or refused by the filter adds no record. */
  lemma UnscannedAddsNothing(skip: set<ModeBit> -> bool, s: Scanner, e: Entry, b: seq<WalkEvent>, regexMatch: (string, string) -> bool)
    requires skip(e.mode) || !ShouldScan(s, ReportedPath(e.path, s.config.directory), regexMatch)
    ensures RunRecords(skip, s, [Visit(e)] + b, regexMatch) == RunRecords(skip, s, b, regexMatch)
  {
    assert ([Visit(e)] + b)[1..] == b;
  }

  /**
   * The run the comments of the mode switch describe: only regular files
   * are read, and an entry of any other type, a character device included,
   * adds no record.
   */
  lemma NonRegularAddsNothing(s: Scanner, e: Entry, b: seq<WalkEvent>, regexMatch: (string, string) -> bool)
    requires e.mode != {}
    ensures RunRecords(Skipped, s, [Visit(e)] + b, regexMatch) == RunRecords(Skipped, s, b, regexMatch)
  {
    UnscannedAddsNothing(Skipped, s, e, b, regexMatch);
  }

  /**
   * Run as written dispatches a character device the filter admits: the
   * device's file records come before the rest of the run, and when it
   * cannot be opened they are its open error and one seek error per
   * detector.  The intended run adds nothing for it.
   */
  lemma CharDeviceDispatchedAsWritten(s: Scanner, path: string, o: FileOutcome, b: seq<WalkEvent>, regexMatch: (string, string) -> bool)
    requires ShouldScan(s, ReportedPath(path, s.config.directory), regexMatch)
    ensures var e := Entry(path, {ModeDevice, ModeCharDevice}, o);
      RunRecords(SkippedAsWritten, s, [Visit(e)] + b, regexMatch) ==
        FileRecords(s.fileDetectors, path, ReportedPath(path, s.config.directory), o) + RunRecords(SkippedAsWritten, s, b, regexMatch)
    ensures o.openError.Some? ==> |FileRecords(s.fileDetectors, path, ReportedPath(path, s.config.directory), o)| == 1 + |s.fileDetectors|
    ensures var e := Entry(path, {ModeDevice, ModeCharDevice}, o);
      RunRecords(Skipped, s, [Visit(e)] + b, regexMatch) == RunRecords(Skipped, s, b, regexMatch)
  {
    var e := Entry(path, {ModeDevice, ModeCharDevice}, o);
    CharDeviceNotSkippedAsWritten();
    assert ([Visit(e)] + b)[0] == Visit(e);
    assert ([Visit(e)] + b)[1..] == b;
  }

  /**
   * The switch as written and the intended skip give the same run on every
   * walk whose entries have at most one mode bit: they differ only on
   * entries such as character devices.
   */
  lemma {:induction false} RunsAgreeOnSingleBits(s: Scanner, events: seq<WalkEvent>, regexMatch: (string, string) -> bool)
    requires forall i :: 0 <= i < |events| && events[i].Visit? ==> |events[i].entry.mode| <= 1
    ensures RunRecords(SkippedAsWritten, s, events, regexMatch) == RunRecords(Skipped, s, events, regexMatch)
  {
    if events != [] && events[0].Visit? {
      var tail := events[1..];
      assert forall i :: 0 <= i < |tail| && tail[i].Visit? ==> |tail[i].entry.mode| <= 1 by {
        forall i | 0 <= i < |tail| && tail[i].Visit? ensures |tail[i].entry.mode| <= 1 {
          assert tail[i] == events[i + 1];
        }
      }
      RunsAgreeOnSingleBits(s, tail, regexMatch);
      SkipDifference(events[0].entry.mode);
    }
  }

  /** A walk without failures leaves no directory record of its own: every record comes from some dispatched file. */
  lemma {:induction false} RecordsComeFromFiles(skip: set<ModeBit> -> bool, s: Scanner, events: seq<WalkEvent>, regexMatch: (string, string) -> bool, r: Record)
    requires NoFailure(events) && r in RunRecords(skip, s, events, regexMatch)
    ensures exists i :: 0 <= i < |events| && r in EntryRecords(skip, s, events[i].entry, regexMatch)
  {
    var head := EntryRecords(skip, s, events[0].entry, regexMatch);
    var tail := events[1..];
    assert RunRecords(skip, s, events, regexMatch) == head + RunRecords(skip, s, tail, regexMatch);
    if r !in head {
      assert NoFailure(tail) by {
        forall i | 0 <= i < |tail| ensures tail[i].Visit? {
          assert tail[i] == events[i + 1];
        }
      }
      RecordsComeFromFiles(skip, s, tail, regexMatch, r);
      var i :| 0 <= i < |tail| && r in EntryRecords(skip, s, tail[i].entry, regexMatch);
      assert tail[i] == events[i + 1];
    }
  }
}
