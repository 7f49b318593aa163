/** The chapter lists of the academic work templates, looked up by the
    template's name. */
module Templates {

  /** A template: its name and the titles of its chapters, in order. */
  datatype Template = Template(name: string, chapters: seq<string>)

  const Tcc := "Trabalho de Conclusão de Curso (TCC)"
  const Paper := "Artigo Científico"
  const Dissertation := "Dissertação de Mestrado"
  const Thesis := "Tese de Doutorado"

  /** The templates, in the order they are declared. */
  const Catalogue: seq<Template> := [
    Template(Tcc, ["INTRODUÇÃO", "FUNDAMENTAÇÃO TEÓRICA", "METODOLOGIA",
                   "ANÁLISE E RESULTADOS", "CONCLUSÃO"]),
    Template(Paper, ["INTRODUÇÃO", "MATERIAIS E MÉTODOS", "RESULTADOS", "DISCUSSÃO",
                     "CONCLUSÃO"]),
    Template(Dissertation, ["INTRODUÇÃO", "REVISÃO DA LITERATURA", "METODOLOGIA",
                            "RESULTADOS", "DISCUSSÃO", "CONCLUSÃO"]),
    Template(Thesis, ["INTRODUÇÃO", "ESTADO DA ARTE", "PROPOSTA DO TRABALHO",
                      "VALIDAÇÃO E RESULTADOS", "DISCUSSÃO", "CONCLUSÃO GERAL"])
  ]

  /** The names of the templates, in order. */
  function Names(ts: seq<Template>): (names: seq<string>)
    ensures |names| == |ts|
    ensures forall i :: 0 <= i < |ts| ==> names[i] == ts[i].name
  {
    if ts == [] then [] else [ts[0].name] + Names(ts[1..])
  }

  /** The chapters of the first template called `name`; none when no
      template has that name. */
  function Lookup(ts: seq<Template>, name: string): seq<string> {
    if ts == [] then []
    else if ts[0].name == name then ts[0].chapters
    else Lookup(ts[1..], name)
  }

  predicate DistinctNames(ts: seq<Template>) {
    forall i, j :: 0 <= i < j < |ts| ==> ts[i].name != ts[j].name
  }

  /** The names offered to the user. */
  function TemplateNames(): seq<string> {
    Names(Catalogue)
  }

  /** The chapter list of the template called `name`. */
  function ChaptersOf(name: string): seq<string> {
    Lookup(Catalogue, name)
  }

  /** With distinct names, looking up a template's name yields its chapters. */
  lemma {:induction false} LookupFinds(ts: seq<Template>, i: int)
    requires DistinctNames(ts)
    requires 0 <= i < |ts|
    ensures Lookup(ts, ts[i].name) == ts[i].chapters
  {
    if i > 0 {
      assert ts[0].name != ts[i].name;
      LookupFinds(ts[1..], i - 1);
    }
  }

  /** A name no template has yields no chapters. */
  lemma {:induction false} LookupMisses(ts: seq<Template>, name: string)
    requires forall i :: 0 <= i < |ts| ==> ts[i].name != name
    ensures Lookup(ts, name) == []
  {
    if ts != [] {
      LookupMisses(ts[1..], name);
    }
  }

  /** The names come in declaration order, the TCC first. */
  lemma NamesInOrder()
    ensures TemplateNames() == [Tcc, Paper, Dissertation, Thesis]
  {
  }

  /** Each declared name yields exactly its declared chapter list. */
  lemma KnownTemplates()
    ensures ChaptersOf(Tcc) == Catalogue[0].chapters && |ChaptersOf(Tcc)| == 5
    ensures ChaptersOf(Paper) == Catalogue[1].chapters && |ChaptersOf(Paper)| == 5
    ensures ChaptersOf(Dissertation) == Catalogue[2].chapters && |ChaptersOf(Dissertation)| == 6
    ensures ChaptersOf(Thesis) == Catalogue[3].chapters && |ChaptersOf(Thesis)| == 6
  {
    assert DistinctNames(Catalogue);
    LookupFinds(Catalogue, 0);
    LookupFinds(Catalogue, 1);
    LookupFinds(Catalogue, 2);
    LookupFinds(Catalogue, 3);
  }

  /** A name that is not offered yields the empty list. */
  lemma UnknownTemplate(name: string)
    requires name !in TemplateNames()
    ensures ChaptersOf(name) == []
  {
    LookupMisses(Catalogue, name);
  }

  /** A name yields chapters exactly when it is offered, and every chapter
      list opens with the introduction. */
  lemma ChaptersOfOffered(name: string)
    ensures ChaptersOf(name) != [] <==> name in TemplateNames()
    ensures name in TemplateNames() ==> ChaptersOf(name)[0] == "INTRODUÇÃO"
  {
    if name in TemplateNames() {
      KnownTemplates();
    } else {
      UnknownTemplate(name);
    }
  }
}
