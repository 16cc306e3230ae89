/**
 * Names the pipeline derives: the listing URL and schema of a target month,
 * the destination folder, the extracted and corrected file paths, and the
 * routing of a corrected file to its destination table.
 */
module Naming {
  import opened Wrappers
  import opened Text

  const ListingBase := "https://arquivos.receitafederal.gov.br/dados/cnpj/dados_abertos_cnpj/"

  /** The marker put between the stem and the extension of a corrected file. */
  const Marker := "__corrigido"

  /** `strftime("%Y")` of the target date: text that reads back as the year. */
  function YearText(year: nat): (t: string)
    ensures ParseInt(t) == Some(year)
  {
    DecimalRoundTrip(year);
    NatToDecimal(year)
  }

  /** `strftime("%m")` of the target date: two digits that read back as the month. */
  function MonthText(month: nat): (t: string)
    requires month < 100
    ensures |t| == 2 && ParseInt(t) == Some(month)
  {
    var t := TwoDigits(month);
    assert IsDigit(t[0]);
    t
  }

  /** The directory listing of one month's snapshot. */
  function ListingUrl(year: string, month: string): (u: string)
    ensures |u| == |ListingBase| + |year| + |month| + 2
    ensures u[..|ListingBase|] == ListingBase && u[|u| - 1] == '/'
  {
    ListingBase + year + "-" + month + "/"
  }

  /** The database schema of one month's snapshot. */
  function SchemaName(year: string, month: string): (s: string)
    ensures |s| == 4 + |year| + |month| && s[..4] == "rfb_"
  {
    "rfb_" + year + month
  }

  /** Two target dates share a listing URL only if they are the same date. */
  lemma ListingUrlInjective(y1: nat, m1: nat, y2: nat, m2: nat)
    requires m1 < 100 && m2 < 100
    requires ListingUrl(YearText(y1), MonthText(m1)) == ListingUrl(YearText(y2), MonthText(m2))
    ensures y1 == y2 && m1 == m2
  {
    var u := ListingUrl(YearText(y1), MonthText(m1));
    var n := |ListingBase|;
    assert |YearText(y1)| == |YearText(y2)|;
    assert u[n..|u| - 4] == YearText(y1);
    assert u[n..|u| - 4] == YearText(y2);
    DecimalInjective(y1, y2);
    assert u[|u| - 3..|u| - 1] == MonthText(m1) == MonthText(m2);
  }

  /** Two target dates share a schema only if they are the same date: one schema per month. */
  lemma SchemaNameInjective(y1: nat, m1: nat, y2: nat, m2: nat)
    requires m1 < 100 && m2 < 100
    requires SchemaName(YearText(y1), MonthText(m1)) == SchemaName(YearText(y2), MonthText(m2))
    ensures y1 == y2 && m1 == m2
  {
    var s := SchemaName(YearText(y1), MonthText(m1));
    assert |YearText(y1)| == |YearText(y2)|;
    assert s[4..|s| - 2] == YearText(y1);
    assert s[4..|s| - 2] == YearText(y2);
    DecimalInjective(y1, y2);
    assert s[|s| - 2..] == MonthText(m1) == MonthText(m2);
  }

  /**
   * The destination folder `<root>/<year>/<month number>. <month name>`: for a
   * month name without '/', its last component is the month's folder.
   */
  function DestDir(root: string, year: string, month: nat, monthName: string): (d: string)
    ensures '/' !in monthName ==> Basename(d) == NatToDecimal(month) + ". " + monthName
  {
    var folder := NatToDecimal(month) + ". " + monthName;
    assert '/' !in monthName ==> '/' !in folder;
    if '/' in monthName then Join(Join(root, year), folder)
    else
      BasenameOfJoin(Join(root, year), folder);
      Join(Join(root, year), folder)
  }

  /** The paths of the extracted members, one per archive entry, in archive order. */
  function MemberPaths(tempDir: string, names: seq<string>): (paths: seq<string>)
    ensures |paths| == |names|
    ensures forall i :: 0 <= i < |names| ==> paths[i] == Join(tempDir, names[i])
  {
    seq(|names|, i requires 0 <= i < |names| => Join(tempDir, names[i]))
  }

  /** `<stem>__corrigido<ext>`, where (stem, ext) is `splitext` of the file name. */
  function CorrectedName(fileName: string): (n: string)
    ensures |n| == |fileName| + |Marker|
    ensures '/' !in fileName ==> '/' !in n
  {
    var (stem, ext) := SplitExt(fileName);
    assert forall i :: 0 <= i < |stem| ==> stem[i] == fileName[i];
    assert forall i :: 0 <= i < |ext| ==> ext[i] == fileName[|stem| + i];
    stem + Marker + ext
  }

  /**
   * Where the corrected copy of an extracted file is written: the file name
   * the load phase later sees is the corrected name of the extracted member.
   */
  function CorrectedPath(destDir: string, originalPath: string): (p: string)
    ensures Basename(p) == CorrectedName(Basename(originalPath))
  {
    BasenameOfJoin(destDir, CorrectedName(Basename(originalPath)));
    Join(destDir, CorrectedName(Basename(originalPath)))
  }

  /**
   * The table-routing token of a corrected file name: the text before the first
   * "__corrigido", split on '.', last part if there are several, else the only
   * part, upper-cased. The token has no '.' and no lower-case letter.
   */
  function RoutingToken(fileName: string): (t: string)
    ensures '.' !in t
    ensures forall i :: 0 <= i < |t| ==> !('a' <= t[i] <= 'z')
  {
    var base := BeforeFirst(fileName, Marker);
    var parts := Split(base, '.');
    if |parts| > 1 then Upper(parts[|parts| - 1]) else Upper(parts[0])
  }

  /** The fixed token-to-table map of the load phase. */
  const Tables: map<string, string> := map[
    "EMPRECSV" := "rfb_empresas", "ESTABELE" := "rfb_estabelecimentos", "SOCIOCSV" := "rfb_socios",
    "SIMPLES" := "rfb_simples", "CNAECSV" := "rfb_cnaes", "MOTIV" := "rfb_motivos",
    "MUNIC" := "rfb_municipios", "NATJU" := "rfb_naturezas", "PAIS" := "rfb_paises",
    "QUALS" := "rfb_qualificacoes"]

  /** `mapa_tabelas.get(token)`. */
  function TableFor(token: string): (t: Option<string>)
    ensures t.Some? <==> token in Tables
    ensures t.Some? ==> |t.value| > 4 && t.value[..4] == "rfb_"
  {
    if token in Tables then Some(Tables[token]) else None
  }

  /** The text after the last '.' of `s`, or all of `s`. */
  function LastSegment(s: string): (r: string)
    ensures '.' !in r
  {
    s[LastIndexOf(s, '.') + 1..]
  }

  /** Both branches of the routing rule take the last dot-separated segment. */
  lemma RoutingTokenIsLastSegment(fileName: string)
    ensures RoutingToken(fileName) == Upper(LastSegment(BeforeFirst(fileName, Marker)))
  {
  }

  /** The marker cannot start inside a text free of it and end inside the marker itself. */
  lemma NoMarkerStraddle(stem: string, ext: string, i: nat)
    requires i < |stem| < i + |Marker|
    ensures !OccursAt(stem + Marker + ext, Marker, i)
  {
    var n := stem + Marker + ext;
    var w := n[i..i + |Marker|];
    var d := |stem| - i;
    assert n[|stem|] == n[|stem| + 1] == '_';
    assert Marker[2..] == "corrigido" && '_' !in "corrigido";
    if d >= 2 {
      assert w[d] == '_';
      assert Marker[d] == Marker[2..][d - 2];
      assert w[d] != Marker[d];
    } else {
      assert w[2] == '_' != Marker[2];
    }
  }

  /** In `<stem>__corrigido<ext>` with a stem free of the marker, the first marker is the inserted one. */
  lemma MarkerFirstAt(stem: string, ext: string)
    requires forall j: nat :: !OccursAt(stem, Marker, j)
    ensures BeforeFirst(stem + Marker + ext, Marker) == stem
  {
    var n := stem + Marker + ext;
    assert n[|stem|..|stem| + |Marker|] == Marker;
    assert OccursAt(n, Marker, |stem|);
    forall j: nat | j < |stem|
      ensures !OccursAt(n, Marker, j)
    {
      if j + |Marker| <= |stem| {
        assert n[j..j + |Marker|] == stem[j..j + |Marker|];
        assert !OccursAt(stem, Marker, j);
      } else {
        NoMarkerStraddle(stem, ext, j);
      }
    }
    assert n[..|stem|] == stem;
  }

  /**
   * The routing token of a corrected file depends only on the stem of the
   * original name: the original extension never takes part in the lookup.
   */
  lemma RoutingIgnoresExtension(fileName: string)
    requires forall j: nat :: !OccursAt(SplitExt(fileName).0, Marker, j)
    ensures RoutingToken(CorrectedName(fileName)) == Upper(LastSegment(SplitExt(fileName).0))
  {
    var (stem, ext) := SplitExt(fileName);
    MarkerFirstAt(stem, ext);
  }

  /** Removing the marker from a corrected name gives the original name back. */
  lemma StripMarkerRestoresName(fileName: string)
    requires forall j: nat :: !OccursAt(SplitExt(fileName).0, Marker, j)
    ensures var c := CorrectedName(fileName);
            var before := BeforeFirst(c, Marker);
            |before| + |Marker| <= |c| && before + c[|before| + |Marker|..] == fileName
  {
    var (stem, ext) := SplitExt(fileName);
    MarkerFirstAt(stem, ext);
    var c := stem + Marker + ext;
    assert c[|stem| + |Marker|..] == ext;
  }

  lemma ShortTextFreeOfMarker(s: string)
    requires |s| < |Marker|
    ensures forall j: nat :: !OccursAt(s, Marker, j)
  {
  }
}
