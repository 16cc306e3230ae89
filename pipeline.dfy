/**
 * One run of the pipeline: validate the typed target date, derive the
 * month's names, plan (or resume) the manifest, run the four phases over the
 * manifest in place, and report.
 */
module Pipeline {
  import opened Wrappers
  import opened Text
  import opened Manifest
  import opened Naming
  import opened Sweeps
  import opened Phases
  import opened Reports
  import opened Planning

  /** The manifest of the running pipeline, updated record by record. */
  class ManifestStore {
    /** The keys in insertion order; no phase adds or removes a key. */
    const order: seq<string>
    var records: map<string, FileRecord>
    /** Every externally visible action so far, manifest saves included. */
    ghost var trace: seq<Action>

    ghost predicate Valid()
      reads this
    {
      WellFormed(ManifestValue(order, records))
    }

    function Value(): ManifestValue
      reads this
    {
      ManifestValue(order, records)
    }

    constructor (mv: ManifestValue)
      requires WellFormed(mv)
      ensures Valid() && Value() == mv && trace == []
    {
      order := mv.order;
      records := mv.records;
      trace := [];
    }

    /** The effect `e` on the record under `k`: the record is replaced, the actions logged, the manifest saved. */
    method Apply(k: string, e: Effect) returns (crashed: bool)
      requires Valid() && k in records
      modifies this
      ensures Valid()
      ensures Progress(records, trace, crashed) == Take(Progress(old(records), old(trace), false), k, e)
    {
      crashed := false;
      match e
      case Skip =>
      case Update(calls, rec, save) =>
        trace := trace + calls;
        records := records[k := rec];
        if save {
          trace := trace + [Save(records)];
        }
      case Crash(calls) =>
        trace := trace + calls;
        crashed := true;
    }

    /** The phase `p` visits the record under `k`. */
    method Step(k: string, p: Phase) returns (crashed: bool)
      requires Valid() && k in records
      modifies this
      ensures Valid()
      ensures Progress(records, trace, crashed) == Visit(Progress(old(records), old(trace), false), k, Rule(p))
    {
      var e := Perform(p, records[k]);
      crashed := Apply(k, e);
    }

    /**
     * The phase `p`, started on the records `m0` after the actions `t0`, has
     * visited the first `i` keys and stands as the phase's specification says.
     */
    ghost predicate Resuming(i: nat, p: Phase, m0: map<string, FileRecord>, t0: seq<Action>, crashed: bool)
      reads this
    {
      && i <= |order| && Valid() && m0.Keys == records.Keys
      && Progress(records, trace, crashed) == Resumed(t0, Sweep(order[..i], m0, Rule(p)))
    }

    /** The phase `p`, having visited the first `i` keys without a crash, visits key `i`. */
    method Advance(i: nat, p: Phase, ghost m0: map<string, FileRecord>, ghost t0: seq<Action>) returns (crashed: bool)
      requires i < |order| && Resuming(i, p, m0, t0, false)
      modifies this
      ensures Resuming(i + 1, p, m0, t0, crashed)
    {
      SweepExtend(order, i, m0, Rule(p));
      VisitResumed(t0, Sweep(order[..i], m0, Rule(p)), order[i], Rule(p));
      crashed := Step(order[i], p);
    }

    /** The phase `p` visits the records in manifest order, stopping at a crash. */
    method RunPhase(p: Phase) returns (crashed: bool)
      requires Valid()
      modifies this
      ensures Valid()
      ensures Progress(records, trace, crashed) == Resumed(old(trace), Sweep(order, old(records), Rule(p)))
    {
      ghost var m0, t0 := records, trace;
      var i := 0;
      crashed := false;
      while i < |order| && !crashed
        invariant Resuming(i, p, m0, t0, crashed)
        decreases |order| - i
      {
        crashed := Advance(i, p, m0, t0);
        i := i + 1;
      }
      SweepFinished(order, i, m0, Rule(p));
    }

    /** The download phase: every pending archive is fetched with up to three attempts. */
    method DownloadPhase(attempt: (string, nat) -> bool)
      requires Valid()
      modifies this
      ensures Valid()
      ensures Progress(records, trace, false) == Resumed(old(trace), Sweep(order, old(records), Rule(Download(attempt))))
      ensures forall k :: k in order ==> records[k] == After(Download(attempt), old(records)[k])
    {
      DownloadNeverCrashes(attempt);
      SweepNeverCrashes(order, records, Rule(Download(attempt)));
      SweepPointwise(order, records, Rule(Download(attempt)));
      var _ := RunPhase(Download(attempt));
    }

    /** The extraction phase; `crashed` when opening an archive raised an error other than a corrupt archive. */
    method ExtractPhase(zip: string -> ZipOutcome, tempDir: string) returns (crashed: bool)
      requires Valid()
      modifies this
      ensures Valid()
      ensures Progress(records, trace, crashed) == Resumed(old(trace), Sweep(order, old(records), Rule(Extract(zip, tempDir))))
    {
      crashed := RunPhase(Extract(zip, tempDir));
    }

    /** The correction phase; `crashed` when a record to correct has no extracted file. */
    method CorrectPhase(run: string -> CorrectionRun, destDir: string) returns (crashed: bool)
      requires Valid()
      modifies this
      ensures Valid()
      ensures Progress(records, trace, crashed) == Resumed(old(trace), Sweep(order, old(records), Rule(Correct(run, destDir))))
    {
      crashed := RunPhase(Correct(run, destDir));
    }

    /**
     * The load phase. When connecting or creating the schema fails it changes
     * nothing; `crashed` when a record to load has no corrected path.
     */
    method LoadPhase(connected: bool, schema: string, load: (string, string) -> LoadRun) returns (crashed: bool)
      requires Valid()
      modifies this
      ensures Valid()
      ensures Progress(records, trace, crashed) ==
                if connected then Resumed(old(trace), Sweep(order, old(records), Rule(Load(schema, load))))
                else Progress(old(records), old(trace), false)
    {
      if !connected {
        return false;
      }
      crashed := RunPhase(Load(schema, load));
    }
  }

  /** Where the pipeline keeps its files. */
  datatype Config = Config(destRoot: string, downloadsDir: string, tempDir: string)

  /** What the four phases learn from outside: the download attempts, the archives, the corrections and the database. */
  datatype Oracles = Oracles(
    attempt: (string, nat) -> bool,
    zip: string -> ZipOutcome,
    correction: string -> CorrectionRun,
    connected: bool,
    load: (string, string) -> LoadRun)

  /**
   * Everything a run learns from outside: whether the locale could be set,
   * the capitalised month name, the manifest file of an earlier run, the
   * listing's links, and what the phases learn.
   */
  datatype Environment = Environment(
    localeOk: bool,
    monthName: string,
    stored: Option<ManifestValue>,
    listing: Option<seq<Option<string>>>,
    oracles: Oracles)

  /** How a run ends. */
  datatype RunOutcome =
    | BadDate                                        // the typed date was rejected
    | NotStarted                                     // planning gave no manifest, or an empty one
    | Crashed(at: ManifestValue)                     // an uncaught exception, with the manifest as it was
    | Finished(final: ManifestValue, report: Report) // all phases ran

  /** The target (year, month) when the typed text is a valid first-of-month date and the locale can be set. */
  function TargetDate(yearText: string, monthText: string, localeOk: bool): (d: Option<(nat, nat)>)
    ensures d.Some? ==> 1 <= d.value.0 <= 9999 && 1 <= d.value.1 <= 12 && localeOk
    ensures d.Some? ==> ParseInt(yearText) == Some(d.value.0) && ParseInt(monthText) == Some(d.value.1)
  {
    var y := ParseInt(yearText);
    var m := ParseInt(monthText);
    if y.Some? && 1 <= y.value <= 9999 && m.Some? && 1 <= m.value <= 12 && localeOk
    then Some((y.value, m.value))
    else None
  }

  /** A year and month typed in decimal are accepted as they are; out-of-range ones are refused. */
  lemma TargetDateOfDecimal(year: nat, month: nat)
    ensures TargetDate(NatToDecimal(year), NatToDecimal(month), true) ==
              if 1 <= year <= 9999 && 1 <= month <= 12 then Some((year, month)) else None
  {
    DecimalRoundTrip(year);
    DecimalRoundTrip(month);
  }

  /** The manifest a run leaves behind once it got past planning. */
  function EndManifest(outcome: RunOutcome): ManifestValue
    requires outcome.Crashed? || outcome.Finished?
  {
    if outcome.Crashed? then outcome.at else outcome.final
  }

  /**
   * The phases and the report over a non-empty planned manifest: they end in
   * a crash or with a report of the final manifest, and keep its keys and
   * their order.
   */
  function PhasesSpec(mv: ManifestValue, o: Oracles, tempDir: string, destDir: string, schema: string): (out: RunOutcome)
    requires WellFormed(mv)
    ensures out.Crashed? || out.Finished?
    ensures EndManifest(out).order == mv.order && EndManifest(out).records.Keys == mv.records.Keys
    ensures out.Finished? ==> out.report == ReportOf(mv.order, out.final.records)
  {
    var d := Sweep(mv.order, mv.records, Rule(Download(o.attempt)));
    var x := Sweep(mv.order, d.records, Rule(Extract(o.zip, tempDir)));
    if x.crashed then Crashed(ManifestValue(mv.order, x.records))
    else
      var c := Sweep(mv.order, x.records, Rule(Correct(o.correction, destDir)));
      if c.crashed then Crashed(ManifestValue(mv.order, c.records))
      else
        var l := if o.connected then Sweep(mv.order, c.records, Rule(Load(schema, o.load)))
                 else Progress(c.records, [], false);
        if l.crashed then Crashed(ManifestValue(mv.order, l.records))
        else Finished(ManifestValue(mv.order, l.records), ReportOf(mv.order, l.records))
  }

  /**
   * The outcome of a whole run: a rejected date stops it before anything
   * else; without a stored manifest a failed listing request stops it before
   * any phase; a non-empty stored manifest always reaches the phases, which
   * keep its keys and their order.
   */
  function RunSpec(cfg: Config, yearText: string, monthText: string, env: Environment): (out: RunOutcome)
    requires env.stored.Some? ==> WellFormed(env.stored.value)
    ensures out.BadDate? <==> TargetDate(yearText, monthText, env.localeOk).None?
    ensures TargetDate(yearText, monthText, env.localeOk).Some? && env.stored.None? && env.listing.None? ==>
              out.NotStarted?
    ensures TargetDate(yearText, monthText, env.localeOk).Some? && env.stored.Some? &&
            env.stored.value.records != map[] ==>
              (out.Crashed? || out.Finished?) && EndManifest(out).order == env.stored.value.order &&
              EndManifest(out).records.Keys == env.stored.value.records.Keys
  {
    match TargetDate(yearText, monthText, env.localeOk)
    case None => BadDate
    case Some((y, m)) =>
      var year := YearText(y);
      var month := MonthText(m);
      var planned := PlanResult(ListingUrl(year, month), cfg.downloadsDir, env.stored, env.listing);
      if planned.None? || planned.value.records == map[] then NotStarted
      else PhasesSpec(planned.value, env.oracles, cfg.tempDir, DestDir(cfg.destRoot, year, m, env.monthName),
                      SchemaName(year, month))
  }

  /** The main sequence. */
  method RunPipeline(cfg: Config, yearText: string, monthText: string, env: Environment) returns (outcome: RunOutcome)
    requires env.stored.Some? ==> WellFormed(env.stored.value)
    ensures outcome == RunSpec(cfg, yearText, monthText, env)
  {
    var date := TargetDate(yearText, monthText, env.localeOk);
    if date.None? {
      return BadDate;
    }
    var (y, m) := date.value;
    var year := YearText(y);
    var month := MonthText(m);
    var destDir := DestDir(cfg.destRoot, year, m, env.monthName);
    var schema := SchemaName(year, month);
    var planned := Plan(ListingUrl(year, month), cfg.downloadsDir, env.stored, env.listing);
    if planned.None? || planned.value.records == map[] {
      return NotStarted;
    }
    var store := new ManifestStore(planned.value);
    store.DownloadPhase(env.oracles.attempt);
    var crashed := store.ExtractPhase(env.oracles.zip, cfg.tempDir);
    if crashed {
      return Crashed(store.Value());
    }
    crashed := store.CorrectPhase(env.oracles.correction, destDir);
    if crashed {
      return Crashed(store.Value());
    }
    crashed := store.LoadPhase(env.oracles.connected, schema, env.oracles.load);
    if crashed {
      return Crashed(store.Value());
    }
    var report := FinalReport(store.Value());
    return Finished(store.Value(), report);
  }

  /** A resumed run never consults the listing: the stored manifest decides everything. */
  lemma ResumeIgnoresListing(cfg: Config, yearText: string, monthText: string, env: Environment,
                             listing: Option<seq<Option<string>>>)
    requires env.stored.Some? && WellFormed(env.stored.value)
    ensures RunSpec(cfg, yearText, monthText, env) == RunSpec(cfg, yearText, monthText, env.(listing := listing))
  {
    var other := env.(listing := listing);
    assert other.oracles == env.oracles;
    match TargetDate(yearText, monthText, env.localeOk)
    case None =>
    case Some((y, m)) =>
      var base := ListingUrl(YearText(y), MonthText(m));
      assert PlanResult(base, cfg.downloadsDir, env.stored, env.listing) ==
             PlanResult(base, cfg.downloadsDir, other.stored, other.listing);
  }

  /**
   * Past a valid date, a run reaches the phases exactly when planning yields
   * a manifest with at least one entry; otherwise it ends before any phase.
   */
  lemma StartsIffManifestNonEmpty(cfg: Config, yearText: string, monthText: string, env: Environment)
    requires env.stored.Some? ==> WellFormed(env.stored.value)
    requires TargetDate(yearText, monthText, env.localeOk).Some?
    ensures var date := TargetDate(yearText, monthText, env.localeOk).value;
            var planned := PlanResult(ListingUrl(YearText(date.0), MonthText(date.1)), cfg.downloadsDir,
                                      env.stored, env.listing);
            RunSpec(cfg, yearText, monthText, env).NotStarted? <==> planned.None? || planned.value.records == map[]
  {
  }

  /** A stored manifest without entries (the file held `{}`) never reaches the phases. */
  lemma EmptyStoredNeverStarts(cfg: Config, yearText: string, monthText: string, env: Environment)
    requires env.stored.Some? && WellFormed(env.stored.value) && env.stored.value.records == map[]
    requires TargetDate(yearText, monthText, env.localeOk).Some?
    ensures RunSpec(cfg, yearText, monthText, env).NotStarted?
  {
  }

  /** Nor does a fresh run whose listing has no link ending in ".zip". */
  lemma NoArchiveLinksNeverStarts(cfg: Config, yearText: string, monthText: string, env: Environment)
    requires env.stored.None? && env.listing.Some?
    requires forall i :: 0 <= i < |env.listing.value| ==> !IsArchiveLink(env.listing.value[i])
    requires TargetDate(yearText, monthText, env.localeOk).Some?
    ensures RunSpec(cfg, yearText, monthText, env).NotStarted?
  {
    var date := TargetDate(yearText, monthText, env.localeOk).value;
    var mv := Planned(ListingUrl(YearText(date.0), MonthText(date.1)), cfg.downloadsDir, env.listing.value);
    assert forall k :: k !in mv.records;
    assert mv.records == map[];
  }

  /**
   * A fresh run whose listing has an archive link reaches the phases, and
   * the manifest it leaves holds one entry per archive link and no other.
   */
  lemma ArchiveLinkStarts(cfg: Config, yearText: string, monthText: string, env: Environment, i: nat)
    requires env.stored.None? && env.listing.Some?
    requires i < |env.listing.value| && IsArchiveLink(env.listing.value[i])
    requires TargetDate(yearText, monthText, env.localeOk).Some?
    ensures var out := RunSpec(cfg, yearText, monthText, env);
            && (out.Crashed? || out.Finished?)
            && forall k :: k in EndManifest(out).records <==>
                 exists j :: 0 <= j < |env.listing.value| && env.listing.value[j] == Some(k) &&
                             IsArchiveLink(env.listing.value[j])
  {
    var date := TargetDate(yearText, monthText, env.localeOk).value;
    var year, month := YearText(date.0), MonthText(date.1);
    var mv := Planned(ListingUrl(year, month), cfg.downloadsDir, env.listing.value);
    assert env.listing.value[i].value in mv.records;
    assert PlanResult(ListingUrl(year, month), cfg.downloadsDir, env.stored, env.listing) == Some(mv);
    var destDir, schema := DestDir(cfg.destRoot, year, date.1, env.monthName), SchemaName(year, month);
    var out := PhasesSpec(mv, env.oracles, cfg.tempDir, destDir, schema);
    assert RunSpec(cfg, yearText, monthText, env) == out;
    assert EndManifest(out).records.Keys == mv.records.Keys;
  }

  /** The manifest a run ends with, when it got that far. */
  predicate EndsConsistent(outcome: RunOutcome)
  {
    match outcome
    case Crashed(mv) => AllConsistent(mv.records)
    case Finished(mv, _) => AllConsistent(mv.records)
    case _ => true
  }

  /** The phases keep the gating invariant of every record, whether they finish or crash. */
  lemma PhasesKeepConsistent(mv: ManifestValue, o: Oracles, tempDir: string, destDir: string, schema: string)
    requires WellFormed(mv) && AllConsistent(mv.records)
    ensures EndsConsistent(PhasesSpec(mv, o, tempDir, destDir, schema))
  {
    var download, extract := Download(o.attempt), Extract(o.zip, tempDir);
    var correct, load := Correct(o.correction, destDir), Load(schema, o.load);
    EffectPreservesConsistent(download);
    EffectPreservesConsistent(extract);
    EffectPreservesConsistent(correct);
    EffectPreservesConsistent(load);
    var d := Sweep(mv.order, mv.records, Rule(download));
    SweepPreservesConsistent(mv.order, mv.records, Rule(download));
    var x := Sweep(mv.order, d.records, Rule(extract));
    SweepPreservesConsistent(mv.order, d.records, Rule(extract));
    var c := Sweep(mv.order, x.records, Rule(correct));
    SweepPreservesConsistent(mv.order, x.records, Rule(correct));
    SweepPreservesConsistent(mv.order, c.records, Rule(load));
  }

  /**
   * Starting from a fresh plan, or from a stored manifest that satisfies the
   * gating invariant, every manifest a run leaves satisfies it: no phase
   * moves past a phase that has not succeeded.
   */
  lemma RunKeepsConsistent(cfg: Config, yearText: string, monthText: string, env: Environment)
    requires env.stored.Some? ==> WellFormed(env.stored.value) && AllConsistent(env.stored.value.records)
    ensures EndsConsistent(RunSpec(cfg, yearText, monthText, env))
  {
    match TargetDate(yearText, monthText, env.localeOk)
    case None =>
    case Some((y, m)) =>
      var year := YearText(y);
      var month := MonthText(m);
      var base := ListingUrl(year, month);
      var planned := PlanResult(base, cfg.downloadsDir, env.stored, env.listing);
      if env.stored.None? && env.listing.Some? {
        PlannedConsistent(base, cfg.downloadsDir, env.listing.value);
      }
      if planned.Some? && planned.value.records != map[] {
        var destDir, schema := DestDir(cfg.destRoot, year, m, env.monthName), SchemaName(year, month);
        assert RunSpec(cfg, yearText, monthText, env) == PhasesSpec(planned.value, env.oracles, cfg.tempDir, destDir, schema);
        PhasesKeepConsistent(planned.value, env.oracles, cfg.tempDir, destDir, schema);
      }
  }

  /** When the database cannot be reached, the phases leave every load status as they found it, crash or not. */
  lemma DisconnectedKeepsLoadStatus(mv: ManifestValue, o: Oracles, tempDir: string, destDir: string, schema: string)
    requires WellFormed(mv) && !o.connected
    ensures forall k :: k in mv.records ==>
              EndManifest(PhasesSpec(mv, o, tempDir, destDir, schema)).records[k].load == mv.records[k].load
  {
    var download, extract, correct := Download(o.attempt), Extract(o.zip, tempDir), Correct(o.correction, destDir);
    EarlyPhaseKeepsLoad(download);
    EarlyPhaseKeepsLoad(extract);
    EarlyPhaseKeepsLoad(correct);
    var d := Sweep(mv.order, mv.records, Rule(download));
    SweepKeepsLoad(mv.order, mv.records, Rule(download));
    var x := Sweep(mv.order, d.records, Rule(extract));
    SweepKeepsLoad(mv.order, d.records, Rule(extract));
    SweepKeepsLoad(mv.order, x.records, Rule(correct));
  }

  /**
   * Every run starts by deleting the downloads folder, so on a resumed run an
   * archive that an earlier run downloaded but did not extract is gone, and
   * opening it raises an error that is not a corrupt-archive error. The
   * phases then crash in extraction, and leave that record as it was.
   */
  lemma VanishedArchiveCrashes(mv: ManifestValue, o: Oracles, tempDir: string, destDir: string, schema: string, k: string)
    requires WellFormed(mv) && k in mv.records
    requires mv.records[k].download == Success && mv.records[k].extract == Pending
    requires o.zip(mv.records[k].zipPath).Unreadable?
    ensures PhasesSpec(mv, o, tempDir, destDir, schema).Crashed?
    ensures PhasesSpec(mv, o, tempDir, destDir, schema).at.records[k] == mv.records[k]
  {
    var download, extract := Download(o.attempt), Extract(o.zip, tempDir);
    assert Rule(download)(mv.records[k]).Skip?;
    var d := Sweep(mv.order, mv.records, Rule(download));
    SweepKeepsSkipped(mv.order, mv.records, Rule(download), k);
    assert Rule(extract)(d.records[k]).Crash?;
    SweepCrashesOn(mv.order, d.records, Rule(extract), k);
  }

  /**
   * A resumed run that meets such a vanished archive crashes, and the
   * manifest it leaves is well formed and holds the same record.
   */
  lemma VanishedArchiveCrashesRun(cfg: Config, yearText: string, monthText: string, env: Environment, k: string)
    requires env.stored.Some? && WellFormed(env.stored.value) && k in env.stored.value.records
    requires TargetDate(yearText, monthText, env.localeOk).Some?
    requires env.stored.value.records[k].download == Success && env.stored.value.records[k].extract == Pending
    requires env.oracles.zip(env.stored.value.records[k].zipPath).Unreadable?
    ensures RunSpec(cfg, yearText, monthText, env).Crashed?
    ensures RunSpec(cfg, yearText, monthText, env).at.records[k] == env.stored.value.records[k]
    ensures WellFormed(RunSpec(cfg, yearText, monthText, env).at)
  {
    var (y, m) := TargetDate(yearText, monthText, env.localeOk).value;
    var year, month := YearText(y), MonthText(m);
    var mv := env.stored.value;
    var destDir, schema := DestDir(cfg.destRoot, year, m, env.monthName), SchemaName(year, month);
    assert RunSpec(cfg, yearText, monthText, env) == PhasesSpec(mv, env.oracles, cfg.tempDir, destDir, schema);
    VanishedArchiveCrashes(mv, env.oracles, cfg.tempDir, destDir, schema, k);
  }

  /**
   * So every later run resumed from the manifest a crashed run left crashes
   * at the same archive again: the run never gets past extraction.
   */
  lemma VanishedArchiveCrashesEveryResume(cfg: Config, yearText: string, monthText: string, env: Environment, k: string)
    requires env.stored.Some? && WellFormed(env.stored.value) && k in env.stored.value.records
    requires TargetDate(yearText, monthText, env.localeOk).Some?
    requires env.stored.value.records[k].download == Success && env.stored.value.records[k].extract == Pending
    requires env.oracles.zip(env.stored.value.records[k].zipPath).Unreadable?
    ensures RunSpec(cfg, yearText, monthText, env).Crashed?
    ensures var next := env.(stored := Some(RunSpec(cfg, yearText, monthText, env).at));
            WellFormed(next.stored.value) && RunSpec(cfg, yearText, monthText, next).Crashed?
  {
    VanishedArchiveCrashesRun(cfg, yearText, monthText, env, k);
    var next := env.(stored := Some(RunSpec(cfg, yearText, monthText, env).at));
    VanishedArchiveCrashesRun(cfg, yearText, monthText, next, k);
  }

  lemma DownloadFirstTry(r: FileRecord, attempt: (string, nat) -> bool)
    requires r.download == Pending && attempt(r.url, 0)
    ensures After(Download(attempt), r) == r.(download := Success)
  {
    assert FirstSuccess(attempt, r.url, 0) == Some(0);
  }

  lemma ExtractOneMember(r: FileRecord, zip: string -> ZipOutcome, tempDir: string, name: string)
    requires r.download == Success && r.extract == Pending && zip(r.zipPath) == Members([name])
    ensures After(Extract(zip, tempDir), r) == r.(extract := Success, extracted := [Join(tempDir, name)])
  {
    assert MemberPaths(tempDir, [name]) == [Join(tempDir, name)];
  }

  lemma LoadKeepsOtherFields(schema: string, load: (string, string) -> LoadRun, r: FileRecord)
    ensures After(Load(schema, load), r) == r.(load := After(Load(schema, load), r).load)
  {
  }

  /**
   * The path of one archive through all four phases when everything works:
   * the first request succeeds, the archive holds one member, both line
   * counts agree, the member routes to a table and the table ends up with
   * that many rows.
   */
  lemma ArchiveHappyPath(r: FileRecord, attempt: (string, nat) -> bool, zip: string -> ZipOutcome, tempDir: string,
                         run: string -> CorrectionRun, destDir: string,
                         schema: string, load: (string, string) -> LoadRun, name: string, n: nat)
    requires r.download == Pending && r.extract == Pending && r.correct == Pending && r.load == Pending
    requires attempt(r.url, 0)
    requires zip(r.zipPath) == Members([name])
    requires run(Join(tempDir, name)) == Counted(Some(n), Some(n))
    requires RoutedTable(CorrectedPath(destDir, Join(tempDir, name))).Some?
    requires load(CorrectedPath(destDir, Join(tempDir, name)),
                  schema + "." + RoutedTable(CorrectedPath(destDir, Join(tempDir, name))).value) == Rows(n)
    ensures var done := After(Load(schema, load), After(Correct(run, destDir),
                          After(Extract(zip, tempDir), After(Download(attempt), r))));
            && done.download == Success && done.extract == Success
            && done.correct == Success && done.load == Success
            && done.validatedLines == Some(NatToDecimal(n))
            && done.correctedPath == Some(CorrectedPath(destDir, Join(tempDir, name)))
  {
    var r1 := After(Download(attempt), r);
    DownloadFirstTry(r, attempt);
    var r2 := After(Extract(zip, tempDir), r1);
    ExtractOneMember(r1, zip, tempDir, name);
    var r3 := After(Correct(run, destDir), r2);
    CorrectionRecords(run, destDir, r2);
    CorrectedCountChecksLoad(run, destDir, schema, load, r2);
    LoadKeepsOtherFields(schema, load, r3);
  }

  /**
   * When the phases finish with the database reachable, each record ends as
   * the four phase rules, applied in turn, leave it.
   */
  lemma PhasesFinishedPointwise(mv: ManifestValue, o: Oracles, tempDir: string, destDir: string, schema: string)
    requires WellFormed(mv) && o.connected
    requires PhasesSpec(mv, o, tempDir, destDir, schema).Finished?
    ensures forall k :: k in mv.records ==>
              PhasesSpec(mv, o, tempDir, destDir, schema).final.records[k] ==
                After(Load(schema, o.load), After(Correct(o.correction, destDir),
                  After(Extract(o.zip, tempDir), After(Download(o.attempt), mv.records[k]))))
  {
    var download, extract := Download(o.attempt), Extract(o.zip, tempDir);
    var correct, load := Correct(o.correction, destDir), Load(schema, o.load);
    DownloadNeverCrashes(o.attempt);
    SweepNeverCrashes(mv.order, mv.records, Rule(download));
    SweepPointwise(mv.order, mv.records, Rule(download));
    var d := Sweep(mv.order, mv.records, Rule(download));
    SweepPointwise(mv.order, d.records, Rule(extract));
    var x := Sweep(mv.order, d.records, Rule(extract));
    SweepPointwise(mv.order, x.records, Rule(correct));
    var c := Sweep(mv.order, x.records, Rule(correct));
    SweepPointwise(mv.order, c.records, Rule(load));
  }

  /**
   * A one-entry manifest whose record every phase in turn moves on, with the
   * database reachable, finishes with the record the four phases leave.
   */
  lemma OneRecordRunFinishes(k: string, r: FileRecord, o: Oracles, tempDir: string, destDir: string, schema: string)
    requires o.connected
    requires var r1 := After(Download(o.attempt), r);
             var r2 := After(Extract(o.zip, tempDir), r1);
             var r3 := After(Correct(o.correction, destDir), r2);
             r1 != r && r2 != r1 && r3 != r2 && After(Load(schema, o.load), r3) != r3
    ensures var r4 := After(Load(schema, o.load), After(Correct(o.correction, destDir),
                        After(Extract(o.zip, tempDir), After(Download(o.attempt), r))));
            PhasesSpec(ManifestValue([k], map[k := r]), o, tempDir, destDir, schema) ==
              Finished(ManifestValue([k], map[k := r4]), ReportOf([k], map[k := r4]))
  {
    var download, extract := Download(o.attempt), Extract(o.zip, tempDir);
    var correct, load := Correct(o.correction, destDir), Load(schema, o.load);
    var r1 := After(download, r);
    var r2 := After(extract, r1);
    var r3 := After(correct, r2);
    SweepSingleMoves(k, r, Rule(download));
    SweepSingleMoves(k, r1, Rule(extract));
    SweepSingleMoves(k, r2, Rule(correct));
    SweepSingleMoves(k, r3, Rule(load));
  }

  /**
   * The end-to-end case for a one-archive manifest under the working
   * conditions of `ArchiveHappyPath`: the run finishes, the archive's file is
   * loaded, and the report counts one success and lists no failure.
   */
  lemma OneArchiveRunSucceeds(k: string, r: FileRecord, o: Oracles, tempDir: string, destDir: string,
                              schema: string, name: string, table: string, n: nat)
    requires r.download == Pending && r.extract == Pending && r.correct == Pending && r.load == Pending
    requires o.connected && o.attempt(r.url, 0)
    requires o.zip(r.zipPath) == Members([name])
    requires o.correction(Join(tempDir, name)) == Counted(Some(n), Some(n))
    requires RoutedTable(CorrectedPath(destDir, Join(tempDir, name))) == Some(table)
    requires o.load(CorrectedPath(destDir, Join(tempDir, name)), schema + "." + table) == Rows(n)
    ensures var out := PhasesSpec(ManifestValue([k], map[k := r]), o, tempDir, destDir, schema);
            && out.Finished?
            && k in out.final.records && out.final.records[k].load == Success
            && out.report == Report(1, 0, [])
  {
    var download, extract := Download(o.attempt), Extract(o.zip, tempDir);
    var correct, load := Correct(o.correction, destDir), Load(schema, o.load);
    ArchiveHappyPath(r, o.attempt, o.zip, tempDir, o.correction, destDir, schema, o.load, name, n);
    var r1 := After(download, r);
    DownloadFirstTry(r, o.attempt);
    var r2 := After(extract, r1);
    ExtractOneMember(r1, o.zip, tempDir, name);
    var r3 := After(correct, r2);
    var r4 := After(load, r3);
    LoadKeepsOtherFields(schema, o.load, r3);
    assert r3.correct != r2.correct;
    assert r4.load != r3.load by { EarlyPhaseKeepsLoad(correct); }
    OneRecordRunFinishes(k, r, o, tempDir, destDir, schema);
    OneLoadedReport(k, map[k := r4]);
  }

  /** The report of a one-entry manifest whose file was loaded. */
  lemma OneLoadedReport(k: string, m: map<string, FileRecord>)
    requires k in m && m[k].load == Success
    ensures ReportOf([k], m) == Report(1, 0, [])
  {
    assert [k][..0] == [];
    assert Successes([k], m) == Successes([], m) + 1;
    assert Failures([k], m) == Failures([], m);
  }
}
