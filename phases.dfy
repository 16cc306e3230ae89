/**
 * The four record-by-record phases of a run (download, extraction,
 * correction, load): what each phase does to one record, and the facts about
 * those rules that the sweeps over the whole manifest rely on. Everything the
 * pipeline learns from the outside world (HTTP attempts, archive contents,
 * line counts, database outcomes) is an oracle the phase is given.
 */
module Phases {
  import opened Wrappers
  import opened Text
  import opened Manifest
  import opened Naming
  import opened Sweeps

  /** Download attempts per archive. */
  const MaxAttempts: nat := 3

  /** What opening an archive yields: its member names in archive order, a corrupt archive, or another error. */
  datatype ZipOutcome = Members(names: seq<string>) | BadZip | Unreadable

  /**
   * What correcting one extracted file yields: the raw read (or encoding
   * sniff) raised, the rewrite raised, or both line counts were taken, each
   * `None` when counting raised.
   */
  datatype CorrectionRun = ReadFailed | WriteFailed | Counted(original: Option<nat>, corrected: Option<nat>)

  /** What loading one file into its table yields: an exception, or the row count afterwards. */
  datatype LoadRun = Raised | Rows(count: int)

  /** One phase, with the oracles it consults. */
  datatype Phase =
    | Download(attempt: (string, nat) -> bool)
    | Extract(zip: string -> ZipOutcome, tempDir: string)
    | Correct(run: string -> CorrectionRun, destDir: string)
    | Load(schema: string, load: (string, string) -> LoadRun)

  /** The line counter's answer: the number of lines, or -1 when reading raised. */
  function LineCount(read: Option<nat>): (c: int)
    ensures c >= -1
    ensures c == -1 <==> read.None?
  {
    if read.Some? then read.value else -1
  }

  /** The correction check: equal counts, the original one not the error value. */
  predicate LinesMatch(original: int, corrected: int)
  {
    original == corrected && original != -1
  }

  /** A correction validates exactly when both files were counted and the counts agree. */
  lemma LinesMatchIffBothCounted(original: Option<nat>, corrected: Option<nat>)
    ensures LinesMatch(LineCount(original), LineCount(corrected)) <==> original.Some? && original == corrected
  {
  }

  /** The load check: the recorded count parses as an integer equal to the table's rows. */
  predicate RowsMatch(validated: Option<string>, rows: int)
  {
    validated.Some? && ParseInt(validated.value) == Some(rows)
  }

  /** The count the correction phase records is read back unchanged by the load check. */
  lemma ValidatedCountRoundTrip(n: nat, rows: int)
    ensures RowsMatch(Some(NatToDecimal(n)), rows) <==> rows == n
  {
    DecimalRoundTrip(n);
  }

  /** The first successful attempt at index `from` or later, among the allowed ones. */
  function FirstSuccess(attempt: (string, nat) -> bool, url: string, from: nat): (t: Option<nat>)
    requires from <= MaxAttempts
    ensures t.Some? ==> from <= t.value < MaxAttempts && attempt(url, t.value)
    ensures forall j :: from <= j < MaxAttempts && (t.None? || j < t.value) ==> !attempt(url, j)
    decreases MaxAttempts - from
  {
    if from == MaxAttempts then None
    else if attempt(url, from) then Some(from)
    else FirstSuccess(attempt, url, from + 1)
  }

  /** How many attempts the download of `url` makes: up to and including the first success. */
  function AttemptsMade(attempt: (string, nat) -> bool, url: string): (n: nat)
    ensures 1 <= n <= MaxAttempts
    ensures n < MaxAttempts ==> attempt(url, n - 1)
  {
    match FirstSuccess(attempt, url, 0)
    case Some(t) => t + 1
    case None => MaxAttempts
  }

  /** `n` requests for `url`. */
  function Fetches(url: string, n: nat): (calls: seq<Action>)
    ensures |calls| == n
    ensures forall i :: 0 <= i < n ==> calls[i] == Fetch(url)
  {
    if n == 0 then [] else Fetches(url, n - 1) + [Fetch(url)]
  }

  /**
   * The retry loop of one download: try up to three times, stop at the first
   * success. `tries` is the number of requests made.
   */
  method FetchWithRetry(attempt: (string, nat) -> bool, url: string) returns (ok: bool, tries: nat)
    ensures ok <==> exists t :: 0 <= t < MaxAttempts && attempt(url, t)
    ensures 1 <= tries <= MaxAttempts
    ensures forall t :: 0 <= t < tries - 1 ==> !attempt(url, t)
    ensures ok ==> attempt(url, tries - 1)
    ensures !ok ==> tries == MaxAttempts
    ensures tries == AttemptsMade(attempt, url)
    ensures ok == FirstSuccess(attempt, url, 0).Some?
  {
    ok, tries := false, 0;
    while tries < MaxAttempts
      invariant tries <= MaxAttempts
      invariant forall t :: 0 <= t < tries ==> !attempt(url, t)
      invariant FirstSuccess(attempt, url, 0) == FirstSuccess(attempt, url, tries)
    {
      var success := attempt(url, tries);
      tries := tries + 1;
      if success {
        ok := true;
        return;
      }
    }
  }

  /** Which records a phase works on. */
  predicate Gate(p: Phase, r: FileRecord)
  {
    match p
    case Download(_) => r.download == Pending
    case Extract(_, _) => r.download == Success && r.extract == Pending
    case Correct(_, _) => r.extract == Success && r.correct == Pending
    case Load(_, _) => r.correct == Success && r.load == Pending
  }

  /** Download: a pending archive becomes downloaded iff one of its three attempts succeeds. */
  function DownloadEffect(attempt: (string, nat) -> bool, r: FileRecord): (e: Effect)
    ensures e.Update? && e.save
    ensures e.rec == r.(download := e.rec.download)
    ensures e.rec.download == Success <==> exists t :: 0 <= t < MaxAttempts && attempt(r.url, t)
    ensures e.rec.download == Failed <==> !exists t :: 0 <= t < MaxAttempts && attempt(r.url, t)
    ensures e.calls == Fetches(r.url, AttemptsMade(attempt, r.url))
  {
    var ok := FirstSuccess(attempt, r.url, 0).Some?;
    Update(Fetches(r.url, AttemptsMade(attempt, r.url)), r.(download := if ok then Success else Failed), true)
  }

  /**
   * Extraction: a readable archive records one path per member; a corrupt one
   * marks the extraction failed and sends the download back to pending.
   */
  function ExtractEffect(zip: string -> ZipOutcome, tempDir: string, r: FileRecord): (e: Effect)
    ensures e.Crash? <==> zip(r.zipPath).Unreadable?
    ensures e.Update? ==> e.save && e.calls == [Unzip(r.zipPath)]
    ensures e.Update? && zip(r.zipPath).Members? ==>
              e.rec == r.(extract := Success, extracted := MemberPaths(tempDir, zip(r.zipPath).names))
    ensures e.Update? && zip(r.zipPath).BadZip? ==> e.rec == r.(extract := Failed, download := Pending)
  {
    match zip(r.zipPath)
    case Members(names) => Update([Unzip(r.zipPath)], r.(extract := Success, extracted := MemberPaths(tempDir, names)), true)
    case BadZip => Update([Unzip(r.zipPath)], r.(extract := Failed, download := Pending), true)
    case Unreadable => Crash([Unzip(r.zipPath)])
  }

  /**
   * Correction of the first extracted member: it succeeds iff both line
   * counts were taken and agree, and then records the count; the corrected
   * path is recorded once the names are computed, even when it fails.
   */
  function CorrectEffect(run: string -> CorrectionRun, destDir: string, r: FileRecord): (e: Effect)
    ensures e.Crash? <==> r.extracted == []
    ensures e.Crash? ==> e.calls == []
    ensures e.Update? ==> e.save && e.calls == [Transcode(r.extracted[0])]
    ensures e.Update? ==> e.rec.correct in {Success, Failed}
    ensures e.Update? ==> e.rec == r.(correct := e.rec.correct, correctedPath := e.rec.correctedPath,
                                      validatedLines := e.rec.validatedLines)
    ensures e.Update? ==>
              (e.rec.correct == Success <==>
                 run(r.extracted[0]).Counted? && run(r.extracted[0]).original.Some? &&
                 run(r.extracted[0]).original == run(r.extracted[0]).corrected)
    ensures e.Update? && e.rec.correct == Success ==>
              e.rec.validatedLines == Some(NatToDecimal(run(r.extracted[0]).original.value))
    ensures e.Update? && e.rec.correct == Failed ==> e.rec.validatedLines == r.validatedLines
    ensures e.Update? ==>
              e.rec.correctedPath == if run(r.extracted[0]).ReadFailed? then r.correctedPath
                                     else Some(CorrectedPath(destDir, r.extracted[0]))
  {
    if r.extracted == [] then Crash([])
    else
      var original := r.extracted[0];
      var target := CorrectedPath(destDir, original);
      match run(original)
      case ReadFailed => Update([Transcode(original)], r.(correct := Failed), true)
      case WriteFailed => Update([Transcode(original)], r.(correct := Failed, correctedPath := Some(target)), true)
      case Counted(a, b) =>
        if LinesMatch(LineCount(a), LineCount(b)) then
          Update([Transcode(original)],
                 r.(correct := Success, correctedPath := Some(target), validatedLines := Some(NatToDecimal(b.value))), true)
        else
          Update([Transcode(original)], r.(correct := Failed, correctedPath := Some(target)), true)
  }

  /**
   * The table a corrected file is routed to, if any: the table of the routing
   * token of its file name, which always lies in the `rfb_` namespace.
   */
  function RoutedTable(correctedPath: string): (t: Option<string>)
    ensures t.Some? ==> |t.value| > 4 && t.value[..4] == "rfb_"
  {
    TableFor(RoutingToken(Basename(correctedPath)))
  }

  /**
   * Load: an unrouted file is marked skipped without a save or any database
   * work; a routed one truncates its table and succeeds iff the recorded line
   * count equals the table's row count afterwards.
   */
  function LoadEffect(schema: string, load: (string, string) -> LoadRun, r: FileRecord): (e: Effect)
    ensures e.Crash? <==> r.correctedPath.None?
    ensures e.Crash? ==> e.calls == []
    ensures e.Update? ==> e.rec == r.(load := e.rec.load)
    ensures e.Update? ==> (e.rec.load == Skipped <==> RoutedTable(r.correctedPath.value).None?)
    ensures e.Update? && e.rec.load == Skipped ==> e.calls == [] && !e.save
    ensures e.Update? && e.rec.load != Skipped ==>
              e.save && e.rec.load in {Success, Failed} &&
              e.calls == [Truncate(schema + "." + RoutedTable(r.correctedPath.value).value)]
    ensures e.Update? ==>
              (e.rec.load == Success <==>
                 RoutedTable(r.correctedPath.value).Some? &&
                 exists n :: load(r.correctedPath.value, schema + "." + RoutedTable(r.correctedPath.value).value) == Rows(n) &&
                             RowsMatch(r.validatedLines, n))
  {
    match r.correctedPath
    case None => Crash([])
    case Some(path) =>
      match RoutedTable(path)
      case None => Update([], r.(load := Skipped), false)
      case Some(table) =>
        var qualified := schema + "." + table;
        var ok := match load(path, qualified)
                  case Raised => false
                  case Rows(n) => RowsMatch(r.validatedLines, n);
        Update([Truncate(qualified)], r.(load := if ok then Success else Failed), true)
  }

  /** What a phase does with one record: nothing unless its gate is open. */
  function EffectOf(p: Phase, r: FileRecord): (e: Effect)
    ensures e.Skip? <==> !Gate(p, r)
    ensures e.Update? ==> e.rec.url == r.url && e.rec.zipPath == r.zipPath
  {
    if !Gate(p, r) then Skip
    else
      match p
      case Download(attempt) => DownloadEffect(attempt, r)
      case Extract(zip, tempDir) => ExtractEffect(zip, tempDir, r)
      case Correct(run, destDir) => CorrectEffect(run, destDir, r)
      case Load(schema, load) => LoadEffect(schema, load, r)
  }

  /** The work of a phase on one record, the download's retry loop included. */
  method Perform(p: Phase, r: FileRecord) returns (e: Effect)
    ensures e == EffectOf(p, r)
  {
    if p.Download? && r.download == Pending {
      var ok, tries := FetchWithRetry(p.attempt, r.url);
      e := Update(Fetches(r.url, tries), r.(download := if ok then Success else Failed), true);
    } else {
      e := EffectOf(p, r);
    }
  }

  /** The per-record rule of a phase, as a sweep applies it. */
  function Rule(p: Phase): FileRecord -> Effect
  {
    r => EffectOf(p, r)
  }

  /** The record after a phase has visited it (unchanged when skipped or crashed). */
  function After(p: Phase, r: FileRecord): FileRecord
  {
    Updated(Rule(p), r)
  }

  /** After a phase has visited a record without crashing, a second visit does nothing. */
  lemma PhaseIdempotent(p: Phase)
    ensures SettlesAtOnce(Rule(p))
  {
    forall r | !EffectOf(p, r).Crash?
      ensures EffectOf(p, After(p, r)).Skip?
    {
      match p
      case Download(_) =>
      case Extract(_, _) =>
      case Correct(_, _) =>
      case Load(_, _) =>
    }
  }

  /** The download phase never crashes: every failure of a request is caught. */
  lemma DownloadNeverCrashes(attempt: (string, nat) -> bool)
    ensures NeverCrashes(Rule(Download(attempt)))
  {
    forall r
      ensures !EffectOf(Download(attempt), r).Crash?
    {
    }
  }

  /** Each phase keeps the gating invariant of a record. */
  lemma EffectPreservesConsistent(p: Phase)
    ensures KeepsConsistent(Rule(p))
  {
    forall r | Consistent(r)
      ensures Consistent(After(p, r))
    {
      match p
      case Download(_) =>
      case Extract(_, _) =>
      case Correct(_, _) =>
      case Load(_, _) =>
    }
  }

  /** A phase other than load saves the manifest after every record it updates. */
  lemma EarlyPhaseSavesEveryUpdate(p: Phase)
    requires !p.Load?
    ensures SavesEveryUpdate(Rule(p))
  {
    forall r | EffectOf(p, r).Update?
      ensures EffectOf(p, r).save
    {
    }
  }

  /** Download, extraction and correction never change a record's load status. */
  lemma EarlyPhaseKeepsLoad(p: Phase)
    requires !p.Load?
    ensures KeepsLoad(Rule(p))
  {
    forall r
      ensures After(p, r).load == r.load
    {
    }
  }

  /** On records the pipeline wrote itself, the load phase never meets a missing corrected path. */
  lemma LoadNeverCrashesOnConsistent(schema: string, load: (string, string) -> LoadRun, r: FileRecord)
    requires Consistent(r)
    ensures !EffectOf(Load(schema, load), r).Crash?
  {
  }

  /** An archive with no members passes extraction and then crashes the correction phase. */
  lemma EmptyArchiveCrashesCorrection(zip: string -> ZipOutcome, tempDir: string,
                                      run: string -> CorrectionRun, destDir: string, r: FileRecord)
    requires r.download == Success && r.extract == Pending && r.correct == Pending
    requires zip(r.zipPath) == Members([])
    ensures After(Extract(zip, tempDir), r).extract == Success
    ensures EffectOf(Correct(run, destDir), After(Extract(zip, tempDir), r)).Crash?
  {
  }

  /**
   * A corrupt archive: extraction fails and resets the download, so the next
   * run downloads it again, but its extraction stays failed and it is never
   * extracted again.
   */
  lemma CorruptArchiveNeverReextracted(zip: string -> ZipOutcome, tempDir: string,
                                       attempt: (string, nat) -> bool,
                                       zip2: string -> ZipOutcome, tempDir2: string, r: FileRecord)
    requires r.download == Success && r.extract == Pending
    requires zip(r.zipPath).BadZip?
    ensures After(Extract(zip, tempDir), r).download == Pending
    ensures After(Extract(zip, tempDir), r).extract == Failed
    ensures EffectOf(Download(attempt), After(Extract(zip, tempDir), r)).Update?
    ensures EffectOf(Extract(zip2, tempDir2), After(Download(attempt), After(Extract(zip, tempDir), r))).Skip?
  {
  }

  /**
   * A phase walking any manifest, a fresh one or one an earlier run left,
   * acts only for the records its gate lets through: each of its actions is
   * a save or a call made for such a record.
   */
  lemma PhaseActsOnlyOnOpenGates(p: Phase, ks: seq<string>, m: map<string, FileRecord>, a: Action)
    requires Distinct(ks) && forall k :: k in ks ==> k in m
    requires a in Sweep(ks, m, Rule(p)).trace
    ensures exists k :: k in ks && Gate(p, m[k]) && (a.Save? || a in EffectOf(p, m[k]).calls)
  {
    SweepActsOnlyOnOpenGates(ks, m, Rule(p), a);
  }

  /** So a download phase requests only archives still pending, never one an earlier run settled. */
  lemma DownloadFetchesOnlyPending(attempt: (string, nat) -> bool, ks: seq<string>, m: map<string, FileRecord>,
                                   u: string)
    requires Distinct(ks) && forall k :: k in ks ==> k in m
    requires Fetch(u) in Sweep(ks, m, Rule(Download(attempt))).trace
    ensures exists k :: k in ks && m[k].download == Pending && m[k].url == u
  {
    PhaseActsOnlyOnOpenGates(Download(attempt), ks, m, Fetch(u));
    var k :| k in ks && Gate(Download(attempt), m[k]) && Fetch(u) in EffectOf(Download(attempt), m[k]).calls;
    var calls := EffectOf(Download(attempt), m[k]).calls;
    var i :| 0 <= i < |calls| && calls[i] == Fetch(u);
  }

  /**
   * A resumed correction whose extracted file is gone (the run starts by
   * deleting the temporary folder): opening it raises inside the handled
   * block, so correction is marked failed, and it is never tried again.
   */
  lemma VanishedExtractionFailsCorrection(run: string -> CorrectionRun, destDir: string,
                                          run2: string -> CorrectionRun, destDir2: string, r: FileRecord)
    requires r.extract == Success && r.correct == Pending && r.extracted != []
    requires run(r.extracted[0]).ReadFailed?
    ensures After(Correct(run, destDir), r) == r.(correct := Failed)
    ensures EffectOf(Correct(run2, destDir2), After(Correct(run, destDir), r)).Skip?
  {
  }

  /**
   * Every routed file truncates its table before loading, so two files
   * routed to the same table each truncate it: the second load replaces the
   * rows of the first.
   */
  lemma SharedTableTruncatedPerFile(schema: string, load: (string, string) -> LoadRun, r1: FileRecord, r2: FileRecord)
    requires Gate(Load(schema, load), r1) && Gate(Load(schema, load), r2)
    requires r1.correctedPath.Some? && r2.correctedPath.Some?
    requires RoutedTable(r1.correctedPath.value).Some?
    requires RoutedTable(r1.correctedPath.value) == RoutedTable(r2.correctedPath.value)
    ensures EffectOf(Load(schema, load), r1).calls == EffectOf(Load(schema, load), r2).calls
              == [Truncate(schema + "." + RoutedTable(r1.correctedPath.value).value)]
  {
  }

  /** A routed record loads successfully iff the table ends up with exactly the recorded count of rows. */
  lemma LoadChecksRecordedCount(schema: string, load: (string, string) -> LoadRun, c: FileRecord, path: string, n: nat)
    requires c.correct == Success && c.load == Pending
    requires c.correctedPath == Some(path) && c.validatedLines == Some(NatToDecimal(n))
    requires RoutedTable(path).Some?
    ensures After(Load(schema, load), c).load == Success <==>
              load(path, schema + "." + RoutedTable(path).value) == Rows(n)
  {
    var qualified := schema + "." + RoutedTable(path).value;
    var e := LoadEffect(schema, load, c);
    assert EffectOf(Load(schema, load), c) == e;
    assert e.Update? && After(Load(schema, load), c) == e.rec;
    match load(path, qualified)
    case Raised =>
      assert !e.rec.load.Success?;
    case Rows(k) =>
      ValidatedCountRoundTrip(n, k);
      assert e.rec.load == Success <==> RowsMatch(c.validatedLines, k);
  }

  /** What a successful correction records: its path and the common line count. */
  lemma CorrectionRecords(run: string -> CorrectionRun, destDir: string, r: FileRecord)
    requires Gate(Correct(run, destDir), r) && r.extracted != []
    requires After(Correct(run, destDir), r).correct == Success
    ensures run(r.extracted[0]).Counted? && run(r.extracted[0]).original.Some?
    ensures After(Correct(run, destDir), r) ==
              r.(correct := Success, correctedPath := Some(CorrectedPath(destDir, r.extracted[0])),
                 validatedLines := Some(NatToDecimal(run(r.extracted[0]).original.value)))
  {
  }

  /**
   * The count a successful correction records is the one the load check
   * compares: a routed file loads successfully iff the table ends up with
   * exactly as many rows as the original file had lines.
   */
  lemma CorrectedCountChecksLoad(run: string -> CorrectionRun, destDir: string,
                                 schema: string, load: (string, string) -> LoadRun, r: FileRecord)
    requires Gate(Correct(run, destDir), r) && r.extracted != [] && r.load == Pending
    requires After(Correct(run, destDir), r).correct == Success
    requires RoutedTable(CorrectedPath(destDir, r.extracted[0])).Some?
    ensures run(r.extracted[0]).Counted? && run(r.extracted[0]).original.Some?
    ensures After(Load(schema, load), After(Correct(run, destDir), r)).load == Success <==>
              load(CorrectedPath(destDir, r.extracted[0]),
                   schema + "." + RoutedTable(CorrectedPath(destDir, r.extracted[0])).value)
                == Rows(run(r.extracted[0]).original.value)
  {
    CorrectionRecords(run, destDir, r);
    LoadChecksRecordedCount(schema, load, After(Correct(run, destDir), r),
                            CorrectedPath(destDir, r.extracted[0]), run(r.extracted[0]).original.value);
  }

  /** In the load phase a skipped record is not saved: the manifest written last may lack its new status. */
  lemma SkippedLoadNotSaved(schema: string, load: (string, string) -> LoadRun, k: string, r: FileRecord)
    requires Gate(Load(schema, load), r) && r.correctedPath.Some?
    requires RoutedTable(r.correctedPath.value).None?
    ensures var s := Sweep([k], map[k := r], Rule(Load(schema, load)));
            s.records[k].load == Skipped && s.trace == [] && !s.crashed
  {
    assert [k][..0] == [];
  }
}
