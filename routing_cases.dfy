/**
 * Worked cases of the table-routing rule of the load phase. Each case is a
 * chain of small lemmas, one string operation per step: split off the
 * extension, take the last dot-separated segment, upper-case it, look the
 * token up. The literal name is a parameter fixed by a `requires`, so each
 * step reasons about one literal and one operation at a time; reasoning
 * about every operation on the literal at once is far more costly for the
 * verifier. The last lemma of each chain states the case.
 */
module RoutingCases {
  import opened Wrappers
  import opened Text
  import opened Naming

  lemma SplitExtOfPlain(name: string)
    requires '.' !in name
    ensures SplitExt(name) == (name, "")
  {
  }

  lemma LastSegmentOfPlain(s: string)
    requires '.' !in s
    ensures LastSegment(s) == s
  {
  }

  lemma PlainStemFreeOfMarker(name: string)
    requires '.' !in name && |name| < |Marker|
    ensures forall j: nat :: !OccursAt(SplitExt(name).0, Marker, j)
  {
    SplitExtOfPlain(name);
    ShortTextFreeOfMarker(name);
  }

  lemma PlainNameRouting(name: string)
    requires '.' !in name && |name| < |Marker|
    ensures RoutingToken(CorrectedName(name)) == Upper(LastSegment(SplitExt(name).0))
  {
    PlainStemFreeOfMarker(name);
    RoutingIgnoresExtension(name);
  }

  /** A short name without a dot keeps no extension, so it is routed by the whole name. */
  lemma PlainNameToken(name: string)
    requires '.' !in name && |name| < |Marker|
    ensures RoutingToken(CorrectedName(name)) == Upper(name)
  {
    PlainNameRouting(name);
    SplitExtOfPlain(name);
    LastSegmentOfPlain(name);
  }

  lemma SplitExtDados(name: string)
    requires name == "dados.EMPRECSV"
    ensures SplitExt(name) == ("dados", ".EMPRECSV")
  {
    assert name[5] == '.' && name[0] != '.';
    assert LastIndexOf(name, '.') == 5;
    assert LastIndexOf(name, '/') == -1;
    assert name[..5] == "dados" && name[5..] == ".EMPRECSV";
  }

  lemma DadosRouting(name: string)
    requires name == "dados.EMPRECSV"
    ensures RoutingToken(CorrectedName(name)) == Upper(LastSegment("dados"))
  {
    SplitExtDados(name);
    ShortTextFreeOfMarker("dados");
    RoutingIgnoresExtension(name);
  }

  lemma DadosStemIsLastSegment(stem: string)
    requires stem == "dados"
    ensures LastSegment(stem) == stem
  {
    LastSegmentOfPlain(stem);
  }

  lemma DadosUpper(stem: string)
    requires stem == "dados"
    ensures Upper(stem) == "DADOS"
  {
    UpperIs(stem, "DADOS");
  }

  lemma DadosToken(name: string)
    requires name == "dados.EMPRECSV"
    ensures RoutingToken(CorrectedName(name)) == "DADOS"
  {
    DadosRouting(name);
    DadosStemIsLastSegment("dados");
    DadosUpper("dados");
  }

  lemma DadosUnmapped(token: string)
    requires token == "DADOS"
    ensures TableFor(token).None?
  {
  }

  /**
   * A member named `<stem>.<TOKEN>` is routed by the last segment of its stem,
   * not by its extension: "dados.EMPRECSV" gives the token "DADOS", which
   * no table is mapped to, so the load phase marks it skipped.
   */
  lemma ExtensionTokenNotRouted(name: string)
    requires name == "dados.EMPRECSV"
    ensures RoutingToken(CorrectedName(name)) == "DADOS"
    ensures TableFor(RoutingToken(CorrectedName(name))).None?
  {
    DadosToken(name);
    DadosUnmapped(RoutingToken(CorrectedName(name)));
  }

  lemma EmpresasPlain(name: string)
    requires name == "EMPRECSV"
    ensures '.' !in name && |name| < |Marker|
  {
  }

  lemma EmpresasUpper(name: string)
    requires name == "EMPRECSV"
    ensures Upper(name) == name
  {
    UpperIs(name, name);
  }

  lemma EmpresasRouting(name: string)
    requires name == "EMPRECSV"
    ensures RoutingToken(CorrectedName(name)) == Upper(name)
  {
    EmpresasPlain(name);
    PlainNameToken(name);
  }

  lemma BareToken(name: string)
    requires name == "EMPRECSV"
    ensures RoutingToken(CorrectedName(name)) == "EMPRECSV"
  {
    EmpresasRouting(name);
    EmpresasUpper(name);
  }

  lemma EmpresasMapped(token: string)
    requires token == "EMPRECSV"
    ensures TableFor(token) == Some("rfb_empresas")
  {
  }

  /** A member named after a known token, without extension, is routed to that token's table. */
  lemma BareTokenRouted(name: string)
    requires name == "EMPRECSV"
    ensures TableFor(RoutingToken(CorrectedName(name))) == Some("rfb_empresas")
  {
    BareToken(name);
    EmpresasMapped(RoutingToken(CorrectedName(name)));
  }
}
