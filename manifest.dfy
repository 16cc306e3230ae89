/**
 * The manifest: the persisted progress ledger of one (year, month) run, a
 * mapping from each archive's published file name to its record.
 */
module Manifest {
  import opened Wrappers

  /**
   * The value of a phase field. In the manifest file these are the strings
   * "pendente", "sucesso", "falhou" and "ignorada".
   */
  datatype Status = Pending | Success | Failed | Skipped

  /**
   * One archive's record. `extracted` is "arquivos_extraidos" (empty while the
   * key is absent), `correctedPath` is "caminho_corrigido" and
   * `validatedLines` is "validacao_linhas", the decimal text of the line count.
   */
  datatype FileRecord = FileRecord(
    url: string,
    zipPath: string,
    download: Status,
    extract: Status,
    correct: Status,
    load: Status,
    extracted: seq<string>,
    correctedPath: Option<string>,
    validatedLines: Option<string>)

  /** The record planning creates for a listed archive: all four phases pending. */
  function NewRecord(url: string, zipPath: string): (r: FileRecord)
    ensures r.download == r.extract == r.correct == r.load == Pending
    ensures r.url == url && r.zipPath == zipPath
    ensures r.extracted == [] && r.correctedPath.None? && r.validatedLines.None?
  {
    FileRecord(url, zipPath, Pending, Pending, Pending, Pending, [], None, None)
  }

  /** An externally visible effect of the pipeline, in the order it happens. */
  datatype Action =
    | Fetch(url: string)                              // one HTTP GET of an archive
    | Unzip(path: string)                             // opening an archive
    | Transcode(path: string)                         // reading and rewriting an extracted file
    | Truncate(table: string)                         // TRUNCATE TABLE before a load
    | Save(snapshot: map<string, FileRecord>)         // writing the manifest file

  /** A manifest as a value: the keys in insertion order and the records they map to. */
  datatype ManifestValue = ManifestValue(order: seq<string>, records: map<string, FileRecord>)

  predicate Distinct(s: seq<string>)
  {
    forall i, j :: 0 <= i < j < |s| ==> s[i] != s[j]
  }

  /** The order lists every key exactly once, as a dictionary's iteration order does. */
  predicate WellFormed(mv: ManifestValue)
  {
    && Distinct(mv.order)
    && (forall k :: k in mv.order ==> k in mv.records)
    && (forall k :: k in mv.records ==> k in mv.order)
  }

  /**
   * What the phase gates guarantee of every record the pipeline itself wrote:
   * a later phase has left "pending" only once the earlier one succeeded, and a
   * successful correction has recorded its path and line count.
   */
  predicate Consistent(r: FileRecord)
  {
    && (r.extract == Success ==> r.download == Success)
    && (r.correct != Pending ==> r.extract == Success)
    && (r.load != Pending ==> r.correct == Success)
    && (r.correct == Success ==> r.correctedPath.Some? && r.validatedLines.Some?)
  }

  predicate AllConsistent(m: map<string, FileRecord>)
  {
    forall k :: k in m ==> Consistent(m[k])
  }

  /** A freshly planned record satisfies the gating invariant. */
  lemma NewRecordConsistent(url: string, zipPath: string)
    ensures Consistent(NewRecord(url, zipPath))
  {
  }
}
