/** The ABNT document: its settings, parts and references, and the ordering
    of the references by their sort key. */
module Document {
  import opened Sorting
  import opened References

  /** The document-wide settings. */
  datatype Settings = Settings(workType: string, institution: string, course: string,
                               city: string, state: string, year: int, month: string)

  datatype Author = Author(fullName: string)

  /** A chapter: a title and its text, empty unless given. */
  datatype Chapter = Chapter(title: string, content: string)

  /** The settings a new document starts with; the year and the month name
      are those of the clock when the program starts. */
  function DefaultSettings(year: int, month: string): Settings {
    Settings("Trabalho de Conclusão de Curso (TCC)", "Universidade Estadual do Piauí (UESPI)",
             "Bacharelado em Ciência da Computação", "Parnaíba", "PI", year, month)
  }

  /** The chapters a new document starts with. */
  const DefaultChapters: seq<Chapter> :=
    [Chapter("INTRODUÇÃO", ""), Chapter("DESENVOLVIMENTO", ""), Chapter("CONCLUSÃO", "")]

  /** Python's string comparison: lexicographic by code point, a proper
      prefix first. */
  predicate StrLe(a: string, b: string) {
    if a == [] then true
    else if b == [] then false
    else if a[0] != b[0] then a[0] < b[0]
    else StrLe(a[1..], b[1..])
  }

  lemma {:induction false} StrLeReflexive(a: string)
    ensures StrLe(a, a)
  {
    if a != [] {
      StrLeReflexive(a[1..]);
    }
  }

  lemma {:induction false} StrLeAntisymmetric(a: string, b: string)
    requires StrLe(a, b) && StrLe(b, a)
    ensures a == b
  {
    if a != [] && b != [] {
      StrLeAntisymmetric(a[1..], b[1..]);
      assert a == [a[0]] + a[1..] && b == [b[0]] + b[1..];
    }
  }

  lemma {:induction false} StrLeTransitive(a: string, b: string, c: string)
    requires StrLe(a, b) && StrLe(b, c)
    ensures StrLe(a, c)
  {
    if a != [] && b != [] && c != [] && a[0] == b[0] && b[0] == c[0] {
      StrLeTransitive(a[1..], b[1..], c[1..]);
    }
  }

  lemma {:induction false} StrLeTotal(a: string, b: string)
    ensures StrLe(a, b) || StrLe(b, a)
  {
    if a != [] && b != [] && a[0] == b[0] {
      StrLeTotal(a[1..], b[1..]);
    }
  }

  /** String comparison is a total order. */
  lemma StrLeIsTotalOrder()
    ensures TotalOrder(StrLe)
  {
    forall a ensures StrLe(a, a) {
      StrLeReflexive(a);
    }
    forall a, b | StrLe(a, b) && StrLe(b, a) ensures a == b {
      StrLeAntisymmetric(a, b);
    }
    forall a, b, c | StrLe(a, b) && StrLe(b, c) ensures StrLe(a, c) {
      StrLeTransitive(a, b, c);
    }
    forall a, b ensures StrLe(a, b) || StrLe(b, a) {
      StrLeTotal(a, b);
    }
  }

  /** The references in the order `list.sort` with the sort key gives. */
  function SortedReferences(refs: seq<Reference>): seq<Reference> {
    SortBy(refs, SortKey, StrLe)
  }

  /** The ordered references are sorted by key, are a permutation of the
      original ones, and keep references of equal key in their order. */
  lemma SortedReferencesOrder(refs: seq<Reference>)
    ensures SortedBy(SortedReferences(refs), SortKey, StrLe)
    ensures multiset(SortedReferences(refs)) == multiset(refs)
    ensures forall k :: KeyFilter(SortedReferences(refs), SortKey, k) == KeyFilter(refs, SortKey, k)
  {
    StrLeIsTotalOrder();
    SortByIsSorted(refs, SortKey, StrLe);
    forall k ensures KeyFilter(SortedReferences(refs), SortKey, k) == KeyFilter(refs, SortKey, k) {
      SortByIsStable(refs, SortKey, StrLe, k);
    }
  }

  /** No other order has those three properties. */
  lemma SortedReferencesUnique(refs: seq<Reference>, r: seq<Reference>)
    requires SortedBy(r, SortKey, StrLe)
    requires forall k :: KeyFilter(r, SortKey, k) == KeyFilter(refs, SortKey, k)
    ensures r == SortedReferences(refs)
  {
    StrLeIsTotalOrder();
    SortByIsTheStableSort(refs, r, SortKey, StrLe);
  }

  /** A document being edited. */
  class Document {
    var settings: Settings
    var title: string
    var authors: seq<Author>
    var advisor: string
    var summary: string
    var keywords: string
    var chapters: seq<Chapter>
    var references: seq<Reference>

    /** A new, empty document with the default settings and chapters. */
    constructor (year: int, month: string)
      ensures settings == DefaultSettings(year, month)
      ensures title == "" && advisor == "" && summary == "" && keywords == ""
      ensures authors == [] && references == []
      ensures chapters == DefaultChapters
    {
      settings := DefaultSettings(year, month);
      title := "";
      authors := [];
      advisor := "";
      summary := "";
      keywords := "";
      chapters := DefaultChapters;
      references := [];
    }

    /** Sorts the references in place by their sort key; nothing else of
        the document changes. */
    method SortReferences()
      modifies this`references
      ensures references == SortedReferences(old(references))
    {
      references := SortBy(references, SortKey, StrLe);
    }
  }
}
