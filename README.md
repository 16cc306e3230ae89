# RFB open-data ETL pipeline: a verified model of its phase sequencer

The Receita Federal (the Brazilian federal revenue service) publishes a
monthly snapshot of its company registry as a directory of zip archives. The
pipeline in `src/main.py` fetches one month of that snapshot and loads it
into PostgreSQL. A JSON *manifest* records how far each archive has got. The
pipeline saves the manifest after each step, and a later run for the same
month reuses it and skips the steps already done. The resume is only partial,
though. Every run starts by deleting the downloads folder and the temporary
extraction folder. So work an interrupted run left in those folders is lost,
and the manifest still points at it (see below).

Each manifest entry is keyed by the archive's file name and holds four
statuses: download, extraction, correction and load. Each status is
`pendente`, `sucesso`, `falhou` or `ignorada`; here they are Pending,
Success, Failed and Skipped.

A run goes like this:

1. It reads a year and a month and builds the target date.
2. Planning reuses the manifest of an earlier run if one exists. Otherwise it
   builds a new manifest from the `.zip` links of the month's listing page.
3. Four phases then sweep the manifest in key order:
   - download retries each archive up to three times;
   - extraction unzips it; a corrupt archive sends it back to download;
   - correction transcodes the first extracted member to UTF-8 with a BOM and
     checks that the line count did not change;
   - load routes the corrected file to one of ten tables by a token taken
     from its name, reloads that table and checks the row count against the
     line count.
4. The run ends with a report of the loads that did not succeed.

## How the model is organised

- `wrappers.dfy` (Wrappers): the `Option` type.
- `text.dfy` (Text): the string and path operations the program uses.
  - `os.path.basename`, `join` and `splitext`;
  - `str.split`, `upper` and `endswith`;
  - `int()` and `str()` on numbers.
- `manifest.dfy` (Manifest):
  - the manifest record and its four statuses;
  - the actions the run performs on the outside world (fetch, unzip,
    transcode, truncate, save the manifest);
  - the gating invariant `Consistent`: a later phase status is set only when
    the earlier phase succeeded.
- `naming.dfy` (Naming): the names the run builds.
  - the listing URL, the schema name, the destination directory and the
    corrected file name;
  - the table-routing token and the table map.
- `routing_cases.dfy` (RoutingCases): two worked routing cases.
- `sweep.dfy` (Sweeps): one phase, generic over the per-record rule.
  - One phase is a left-to-right sweep over the manifest keys.
  - Each record is skipped, updated (with its external actions and a
    manifest save) or crashes the run.
- `phases.dfy` (Phases):
  - the four per-record rules, with the outside world passed in as oracle
    functions;
  - the download retry loop;
  - the properties each rule has.
- `planning.dfy` (Planning): the planning phase.
- `report.dfy` (Reports): the final report.
- `pipeline.dfy` (Pipeline):
  - the manifest as a mutable object (`ManifestStore`) whose phase methods
    are loops proved equal to the sweeps;
  - the whole run as a method proved equal to its specification function;
  - the properties of whole runs.

The outside world is a set of oracles:
- whether download attempt *t* of a URL succeeds;
- what opening an archive yields: its members, a corrupt archive, or another
  error;
- what transcoding a file yields: an exception, or the two line counts;
- whether the database connection and schema creation succeed;
- what loading a file into a table yields: an exception, or the table's row
  count afterwards.

In the program, an exception that no handler catches ends the process. The
model calls this a *crash*: the run stops and keeps the manifest as it was
last changed. Three cases crash:
- opening an archive raises an error other than `BadZipFile`;
- an extracted archive has no members, so indexing its first member fails;
- a record that reaches load has no corrected path.

Where the prose documentation of the program and its code differ, the model
follows the code:
- **A corrupt archive is never re-extracted.** Extraction of a corrupt
  archive sets the download status back to pending. The documentation
  describes this as making the archive eligible for a fresh attempt. But
  extraction also leaves its own status at failed, and extraction only runs
  on a pending status. So the archive is downloaded again on the next run
  but never extracted again (`CorruptArchiveNeverReextracted`).
- **Some per-file failures stop the whole run.** The documentation says
  per-file failures never stop the pipeline. In the code, the three crashes
  above do stop it.
- **A skipped load is not saved by itself.** The load phase `continue`s past
  the save when a file has no table (`SkippedLoadNotSaved`). The status
  reaches disk only with a later save.
- **Routing ignores the extension.** The documentation says the token is the
  last dot-separated segment of the name. The code splits off the extension
  before adding the `__corrigido` marker, so the token comes from the stem.
  A member named `dados.EMPRECSV` is therefore skipped, not loaded
  (`ExtensionTokenNotRouted`).
- **A resumed run cannot use what an earlier run left in its folders.**
  Every run starts by deleting the downloads folder and the temporary
  extraction folder (`limpar_pastas_temporarias`). The documentation calls a
  stopped run recoverable from the manifest. But a record whose archive was
  downloaded and not yet extracted now points at a deleted file. Opening it
  raises an error that is not a corrupt-archive error, so the run crashes.
  The crashed run leaves that record as it was, so every later run crashes
  at the same archive (`VanishedArchiveCrashesEveryResume`). A record whose
  archive was extracted but not yet corrected points at a deleted member.
  Its correction is marked failed, and is never tried again
  (`VanishedExtractionFailsCorrection`).
- **Files routed to the same table replace each other.** Every routed file
  truncates its table before loading (`SharedTableTruncatedPerFile`). Each
  file's row check compares against the table as that file left it. So
  several files for one table can all be marked loaded while the table holds
  only the last one's rows.
- **An empty manifest never starts.** A listing with no archives yields an
  empty manifest, and the code tests it with `if manifesto:`. So the run
  stops without running any phase (`NoArchiveLinksNeverStarts`). A stored
  empty manifest does the same on every later run (`EmptyStoredNeverStarts`).
  A run reaches the phases exactly when planning yields a manifest with at
  least one entry (`StartsIffManifestNonEmpty`).

## Model

| member | source | states |
|---|---|---|
| Phases.LinesMatch | src/main.py:136 | defines the correction check: the two counts are equal and the original one is not -1 (characterised by `Phases.LinesMatchIffBothCounted`) |
| Phases.RowsMatch | src/main.py:186-195 | defines the load check: a recorded count is present, parses as an integer, and equals the table's row count (characterised by `Phases.ValidatedCountRoundTrip`) |
| Phases.Gate | src/main.py:76-167 | defines which records each phase works on: download a pending download; extraction a downloaded archive with pending extraction; correction an extracted archive with pending correction; load a corrected file with pending load |
| Phases.RoutedTable | src/main.py:169-174 | the table of a corrected file is looked up by the routing token of its base name; any table it yields lies in the `rfb_` namespace |
| Phases.LineCount | src/main.py:36-41 | the line counter gives -1 exactly when reading raised, and otherwise a count of at least 0 |
| Phases.LinesMatchIffBothCounted | src/main.py:122-142 | correction validates exactly when the original count was taken and the corrected count is equal to it; two failed counts (-1 and -1) never validate |
| Phases.ValidatedCountRoundTrip | src/main.py:186-200 | the stored line count, written as text and read back with `int`, matches a row count exactly when the two numbers are equal |
| Phases.FirstSuccess | src/main.py:78-87 | the first attempt index below 3 that succeeds, with every earlier attempt failing |
| Phases.AttemptsMade | src/main.py:78-90 | a download makes between 1 and 3 attempts, and stops early only after a success |
| Phases.FetchWithRetry | src/main.py:76-92 | the retry loop succeeds exactly when one of the three attempts succeeds; the attempts before the last one all failed; a failure uses all three |
| Phases.DownloadEffect | src/main.py:75-93 | a pending download becomes Success exactly when some attempt succeeds, and Failed otherwise; only the download status changes; one fetch per attempt, then a save |
| Phases.ExtractEffect | src/main.py:97-109 | a corrupt archive sets extraction to Failed and download back to Pending; a readable one sets Success and records the member paths in archive order; any other error crashes the run; each outcome is saved |
| Phases.CorrectEffect | src/main.py:113-146 | an empty member list crashes the run; otherwise correction succeeds exactly when both line counts were taken and agree; on success the decimal count is recorded; the corrected path is recorded once the read succeeds; only the correction fields change |
| Phases.LoadEffect | src/main.py:166-204 | a missing corrected path crashes the run; an unrouted file becomes Skipped with no truncate and no save; a routed file truncates its table and becomes Success exactly when the row count equals the recorded line count, Failed otherwise; only the load status changes |
| Phases.EffectOf | src/main.py:76-167 | a phase leaves a record alone exactly when its gate is closed: download needs Pending; extraction needs a downloaded archive and Pending; correction needs an extracted archive and Pending; load needs a corrected file and Pending. No phase changes a record's URL or zip path |
| Phases.Perform | src/main.py:75-204 | the per-record step the phase loops execute computes that phase's rule for the record, running the download retry loop where the record needs one |
| Phases.PhaseIdempotent | src/main.py:76-167 | each phase settles a record in one visit: after a non-crashing visit the same phase leaves the record alone |
| Phases.PhaseActsOnlyOnOpenGates | src/main.py:76-167 | a phase walking any manifest, fresh or left by an earlier run, acts only for records its gate lets through: each action is a save or a call made for such a record, so a resumed run repeats no settled work |
| Phases.DownloadFetchesOnlyPending | src/main.py:75-87 | every archive request of a download phase is the URL of a record whose download was still pending |
| Phases.DownloadNeverCrashes | src/main.py:78-92 | the download phase never crashes the run; network errors are recorded as failures |
| Phases.EffectPreservesConsistent | src/main.py:73-204 | every phase keeps the gating invariant of a record: a later status is set only after the earlier phase succeeded, and a successful correction has both a path and a line count |
| Phases.EarlyPhaseSavesEveryUpdate | src/main.py:93-146 | download, extraction and correction save the manifest after every record they change |
| Phases.EarlyPhaseKeepsLoad | src/main.py:73-146 | download, extraction and correction never change a load status |
| Phases.LoadNeverCrashesOnConsistent | src/main.py:166-168 | on a record that satisfies the gating invariant, the load phase does not crash |
| Phases.EmptyArchiveCrashesCorrection | src/main.py:104-115 | an archive with no members is marked extracted, and then crashes the correction phase |
| Phases.CorruptArchiveNeverReextracted | src/main.py:76-108 | after a corrupt archive, the next download fetches it again, but extraction then skips it |
| Phases.VanishedExtractionFailsCorrection | src/main.py:113-146 | when reading the extracted member fails, correction is marked Failed, nothing else changes, and no later correction visits the record again |
| Phases.SharedTableTruncatedPerFile | src/main.py:176-189 | two files routed to the same table each truncate that same table before loading |
| Phases.LoadChecksRecordedCount | src/main.py:186-200 | a routed load succeeds exactly when the table ends with as many rows as the correction counted |
| Phases.CorrectionRecords | src/main.py:124-139 | a successful correction records the corrected path in the destination directory and the original line count, and changes nothing else |
| Phases.CorrectedCountChecksLoad | src/main.py:133-197 | after a successful correction, a routed load succeeds exactly when the table's row count equals the original file's line count |
| Phases.SkippedLoadNotSaved | src/main.py:176-178 | a file with no table is marked Skipped without a truncate and without a manifest save |
| Sweeps.Take | src/main.py:75-93 | one visit keeps the manifest's keys; it crashes only on a crashing effect; a skip changes nothing |
| Sweeps.Visit | src/main.py:75-93 | one visit replaces exactly the visited record by the rule's update of it |
| Sweeps.Sweep | src/main.py:75-93 | a phase keeps the manifest's keys and leaves records outside the visited keys unchanged |
| Sweeps.SweepAfterCrash | src/main.py:97-109 | after a crash no further record is visited |
| Sweeps.SweepPointwise | src/main.py:75-93 | a phase that does not crash updates every record independently: each ends as its own update |
| Sweeps.SweepCrashKeepsPrefix | src/main.py:97-146 | a crashing phase stops at the first record whose update crashes; the manifest keeps the updates of the records before it and nothing else |
| Sweeps.SweepNoCrashedVisit | src/main.py:75-146 | in a phase that completes, no visited record's update crashes |
| Sweeps.SweepKeepsSkipped | src/main.py:75-204 | a record the phase leaves alone keeps its value through the whole phase |
| Sweeps.SweepCrashesOn | src/main.py:97-109 | a record whose visit crashes makes the phase crash, at it or earlier, and is left as it was |
| Sweeps.SweepAllSkip | src/main.py:75-204 | a phase whose gate is closed for every record changes nothing and performs no action |
| Sweeps.SweepIdempotent | src/main.py:75-204 | rerunning a completed phase on its own result changes nothing and performs no action |
| Sweeps.SweepActsOnlyOnOpenGates | src/main.py:75-204 | every action of a phase walk, over any manifest, is a save or a call made for a record whose rule did not skip it, as that record was when the walk began |
| Sweeps.SweepSingle | src/main.py:75-93 | a phase walk over a one-entry manifest is one visit: the record becomes its update, and the walk crashes exactly when the rule raises |
| Sweeps.SweepSingleMoves | src/main.py:75-93 | a phase walk over a one-entry manifest whose rule changes the record completes, with the record changed |
| Sweeps.SweepNeverCrashes | src/main.py:75-93 | a phase whose rule never crashes completes |
| Sweeps.SweepPreservesConsistent | src/main.py:75-204 | a phase whose rule keeps the gating invariant keeps it for the whole manifest, crash or not |
| Sweeps.LastSaveIsFinal | src/main.py:93-146 | when a phase that saves after every update completes, its last action saved exactly the manifest it ends with, so a crash later loses nothing of it |
| Sweeps.SweepKeepsLoad | src/main.py:73-146 | a phase whose rule never touches load statuses leaves all of them unchanged |
| Pipeline.ManifestStore.Apply | src/main.py:92-93 | applying one record's outcome updates the manifest in place and appends its actions and the save to the trace |
| Pipeline.ManifestStore.Step | src/main.py:75-93 | one iteration of a phase loop has exactly the effect of one visit of the sweep |
| Pipeline.ManifestStore.Advance | src/main.py:75-93 | each loop iteration extends the sweep over one more key |
| Pipeline.ManifestStore.RunPhase | src/main.py:75-204 | a phase loop over the manifest leaves the records, the trace and the crash flag exactly as the sweep over the key order does |
| Pipeline.ManifestStore.DownloadPhase | src/main.py:73-93 | the download phase completes, and each record ends as its own download update |
| Pipeline.ManifestStore.ExtractPhase | src/main.py:95-109 | the extraction phase is the extraction sweep |
| Pipeline.ManifestStore.CorrectPhase | src/main.py:111-146 | the correction phase is the correction sweep |
| Pipeline.ManifestStore.LoadPhase | src/main.py:148-204 | with a database connection the load phase is the load sweep; without one it returns and changes nothing |
| Planning.IsArchiveLink | src/main.py:59-60 | defines the links planning keeps: an `href` that is present and ends in `.zip` |
| Planning.PlannedRecord | src/main.py:61-65 | defines the planned record of a kept link: the listing URL followed by the link, stored in the downloads folder under the link's name, every status Pending |
| Planning.Planned | src/main.py:58-65 | the planned manifest has one entry per distinct `.zip` link and no other, each a fresh record with every status Pending; its keys are distinct |
| Planning.Plan | src/main.py:45-71 | planning returns a stored manifest unchanged; otherwise it returns nothing exactly when the listing request failed, and the planned manifest when it succeeded |
| Planning.FirstLink | src/main.py:58-61 | the first position of a link in the listing |
| Planning.PlannedInFirstOccurrenceOrder | src/main.py:58-65 | the manifest lists the archives in the order of their first links |
| Planning.PlannedConsistent | src/main.py:61-65 | a freshly planned manifest satisfies the gating invariant |
| Manifest.Consistent | src/main.py:76-167 | defines the gating invariant: extraction, correction and load statuses move only after the previous phase succeeded, and a successful correction carries its path and count (preserved by `Phases.EffectPreservesConsistent`) |
| Manifest.NewRecord | src/main.py:61-65 | a planned record has all four statuses Pending, its URL and zip path, and no extraction or correction data |
| Naming.ListingUrl | src/main.py:52 | the listing URL is the fixed base followed by `year-month/` |
| Naming.ListingUrlInjective | src/main.py:52 | different target months have different listing URLs |
| Naming.SchemaName | src/main.py:246 | the schema name is `rfb_` followed by the year and the month |
| Naming.SchemaNameInjective | src/main.py:246 | different target months load into different schemas |
| Naming.MemberPaths | src/main.py:104 | the extracted paths are the archive's member names joined to the temporary directory, in archive order |
| Naming.CorrectedName | src/main.py:124-125 | the corrected name adds the 11-character marker and keeps names free of `/` |
| Naming.CorrectedPath | src/main.py:124-126 | the corrected copy is written into the destination folder; its base name, which the load phase later routes by, is the corrected base name of the extracted member |
| Naming.YearText | src/main.py:240 | the year text of the target date reads back with `int` as the year |
| Naming.MonthText | src/main.py:241 | the month text of the target date has two digits and reads back with `int` as the month |
| Naming.DestDir | src/main.py:245 | the destination folder is `<root>/<year>/<month>. <month name>`; for a month name without `/`, its last component is `<month>. <month name>` |
| Naming.RoutingToken | src/main.py:171-173 | the routing token: the text before the first marker, split on `.`, last part, upper-cased; it never contains `.` or a lower-case ASCII letter (the partner lemma `Naming.RoutingTokenIsLastSegment` gives it as the last segment) |
| Naming.TableFor | src/main.py:150-155 | a token has a table exactly when it is one of the ten known tokens, and every table name starts with `rfb_` |
| Naming.RoutingTokenIsLastSegment | src/main.py:171-173 | the routing token is the upper-cased last dot-separated segment of the name before the marker |
| Naming.RoutingIgnoresExtension | src/main.py:124-125 | for a stem free of the marker, the routing token of the corrected name comes from the stem alone, never from the extension |
| Naming.StripMarkerRestoresName | src/main.py:171 | removing the marker from a corrected name gives back the original name |
| RoutingCases.ExtensionTokenNotRouted | src/main.py:171-177 | `dados.EMPRECSV` yields the token `DADOS`, which has no table |
| RoutingCases.BareTokenRouted | src/main.py:171-174 | `EMPRECSV` is routed to `rfb_empresas` |
| Text.Basename | src/main.py:116 | the base name is the part of the path after its last `/`: a suffix with no `/`, as long as the text after the last `/` |
| Text.Join | src/main.py:64 | defines `posixpath.join` of two components: an absolute name replaces the folder; otherwise the name is appended, with a `/` in between unless the folder is empty or already ends in `/` (partner: `Text.BasenameOfJoin`) |
| Text.EndsWith | src/main.py:60 | defines `str.endswith`: the suffix is the last part of the text |
| Text.BasenameOfJoin | src/main.py:126 | the base name of a joined path is the joined name |
| Text.SplitExt | src/main.py:124 | the stem and the extension concatenate to the name; the extension is non-empty exactly when the last `.` lies in the last path component and something other than a `.` precedes it there; a non-empty extension starts at that last `.` |
| Text.BeforeFirst | src/main.py:171 | the text before the first marker is a prefix of the name that contains no marker; the marker starts right after it when it is shorter than the name, and no occurrence of the marker in the name starts inside it |
| Text.Split | src/main.py:172 | the parts contain no separator; there is more than one exactly when the separator occurs; the last part follows the last separator |
| Text.SplitJoin | src/main.py:172 | joining the parts of a split with the separator gives back the text |
| Text.Upper | src/main.py:173 | upper-casing keeps the length and upper-cases every character |
| Text.NatToDecimal | src/main.py:139 | `str(n)` is a non-empty string of digits with no leading zero, except for 0 itself |
| Text.ParseInt | src/main.py:186 | `int(s)` on an optional sign followed by decimal digits; it accepts no empty text (partner: `Text.DecimalRoundTrip`) |
| Text.DecimalRoundTrip | src/main.py:139-186 | a count written with `str` reads back with `int` as the same number |
| Text.DecimalInjective | src/main.py:139 | different counts are written differently |
| Pipeline.TargetDate | src/main.py:230-238 | a target date exists only when both inputs parse as integers, the month is 1 to 12, the year is 1 to 9999 and the locale is available |
| Pipeline.TargetDateOfDecimal | src/main.py:234-241 | typed decimal numbers give a target date exactly when they form a valid year and month |
| Pipeline.PhasesSpec | src/main.py:257-262 | the phases in order, each over the previous one's manifest, stopping at a crash, with the load phase skipped when there is no connection; the result is a crash or a report of the final manifest, and keeps the keys and their order (record by record: `Pipeline.PhasesFinishedPointwise`) |
| Pipeline.RunSpec | src/main.py:230-262 | a whole run: a rejected date stops it first; without a stored manifest a failed listing request means no phase runs; a non-empty stored manifest always reaches the phases, which keep its keys and order (the converse: `Pipeline.StartsIffManifestNonEmpty`) |
| Pipeline.StartsIffManifestNonEmpty | src/main.py:255-257 | past a valid date, a run reaches the phases exactly when planning yields a manifest with at least one entry |
| Pipeline.EmptyStoredNeverStarts | src/main.py:46-48 | a stored manifest without entries never reaches the phases |
| Pipeline.NoArchiveLinksNeverStarts | src/main.py:52-66 | a fresh run whose listing has no link ending in ".zip" never reaches the phases |
| Pipeline.ArchiveLinkStarts | src/main.py:52-66 | a fresh run whose listing has an archive link reaches the phases, and the manifest it leaves holds one entry per archive link and no other |
| Pipeline.RunPipeline | src/main.py:230-262 | a whole run, from the typed date through planning, the four phases and the report, ends as its specification says |
| Pipeline.ResumeIgnoresListing | src/main.py:47-49 | when a manifest is stored, the listing page has no influence on the run |
| Pipeline.PhasesKeepConsistent | src/main.py:257-262 | the four phases keep the gating invariant of every record, whether the run completes or crashes |
| Pipeline.RunKeepsConsistent | src/main.py:255-262 | a run started from a consistent manifest, or from a new plan, ends with a consistent manifest |
| Pipeline.DisconnectedKeepsLoadStatus | src/main.py:156-164 | when the database cannot be reached, the phases leave every load status as it was, whether they crash or finish |
| Pipeline.VanishedArchiveCrashes | src/main.py:97-109 | a record downloaded but not extracted whose archive cannot be opened (the cleanup deleted it) crashes the phases, and the crashed manifest keeps that record |
| Pipeline.VanishedArchiveCrashesRun | src/main.py:225-262 | a resumed run meeting such an archive crashes, leaving a well-formed manifest that still holds that record |
| Pipeline.VanishedArchiveCrashesEveryResume | src/main.py:225-262 | the next run resumed from the crashed run's manifest crashes again, so the run never gets past extraction |
| Pipeline.DownloadFirstTry | src/main.py:78-92 | a pending archive whose first attempt succeeds is marked downloaded, and nothing else changes |
| Pipeline.ExtractOneMember | src/main.py:101-104 | a one-member archive is marked extracted, with that member's path in the temporary directory |
| Pipeline.LoadKeepsOtherFields | src/main.py:166-204 | the load phase changes only the load status of a record |
| Pipeline.ArchiveHappyPath | src/main.py:75-204 | an archive that downloads, extracts one member, keeps its line count and loads the same number of rows ends with all four statuses Success, its corrected path and its line count recorded |
| Pipeline.PhasesFinishedPointwise | src/main.py:257-261 | when the phases finish with a database connection, each record ends as the download, extraction, correction and load rules, applied in turn, leave it |
| Pipeline.OneRecordRunFinishes | src/main.py:257-261 | a one-entry manifest whose record every phase moves on finishes, with the record the four phases leave and the report of it |
| Pipeline.OneArchiveRunSucceeds | src/main.py:257-262 | a one-archive manifest under working conditions finishes with the file loaded and a report of one success and no failure |
| Pipeline.OneLoadedReport | src/main.py:206-222 | the report of a one-entry manifest whose file was loaded counts one success and lists no failure |
| Reports.Failures | src/main.py:217-221 | the failure list holds exactly the entries whose load status is not Success, each with that status |
| Reports.ReportCountsAll | src/main.py:208-213 | successes and failures add up to the number of manifest entries |
| Reports.FailuresInOrder | src/main.py:219-221 | failures are listed in manifest order |
| Reports.CountLoads | src/main.py:208-213 | the counting loop counts the successful loads, and counts every other entry as a failure |
| Reports.ListFailures | src/main.py:219-221 | the listing loop produces the failure list |
| Reports.FinalReport | src/main.py:206-221 | the report counts every entry once; its failure count is the length of its failure list; it lists exactly the entries that did not load, in manifest order |

## Left out

- HTTP is not modelled: the listing request and parsing the page with BeautifulSoup and lxml. The listing is an input: the `href` of each anchor, or nothing when the request failed.
- Streaming an archive to disk, the per-attempt timeout and the 5-second sleep between attempts are not modelled. An attempt is an oracle that succeeds or fails.
- Zip extraction, `chardet` encoding detection and transcoding are oracles, so the bytes of the files are not modelled.
- SQLAlchemy, the connection string and pandas chunked loading are not modelled. The database is a connected flag and a per-file oracle giving an exception or a row count. Schema creation is not recorded as an action.
- JSON persistence is not modelled. A manifest save is recorded as an action holding a snapshot of the records. The save at the end of planning is not in the trace. A stored manifest is assumed well formed: one record per key, with the fields the phases read.
- `limpar_pastas_temporarias` is not modelled as an operation; the file system is not part of the model. Its effect on a resumed run reaches the model through the oracles: after the cleanup, the archive oracle answers with an error that is not a corrupt-archive error for every archive an earlier run downloaded, and the correction oracle answers that reading failed for every member an earlier run extracted. `VanishedArchiveCrashesEveryResume` and `VanishedExtractionFailsCorrection` state what follows.
- `os.makedirs` and the manifest file path are not modelled, because they only touch the file system.
- `input()` and `locale.setlocale` become inputs: the typed text and a flag saying whether the locale exists. The localised month name is an input, so its capitalisation is not modelled.
- Text.ParseInt: accepts an optional sign followed by digits. Python's `int()` also accepts surrounding whitespace and `_` separators; those forms are not modelled.
- Naming.YearText: writes the year without leading zeros. `strftime("%Y")` for years below 1000 depends on the platform; that padding is not modelled.
- Text.Upper: upper-cases ASCII letters only. Non-ASCII case mapping is not modelled.
- Exceptions other than the three modelled crashes are not modelled. This includes disk full, permission errors and a malformed stored manifest.
- The text `relatorio_final` prints is not modelled. The report is a value: the two counts and the failed entries with their load status.
- Paths follow POSIX `os.path` (`posixpath`): `Text.Basename` and `Text.SplitExt` split only on `/`, and `Text.Join` inserts `/`. Under Windows, where `os.path` is `ntpath` and `\` also separates, the model does not apply.
- `ETL.py`, at the repository root, is not part of this model.
