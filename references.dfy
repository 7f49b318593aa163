/** Bibliographic references and their formatting in ABNT style: author
    lists, the sort key, and the three reference templates. */
module References {
  import opened Text
  import opened Markup

  datatype Reference =
    | Book(authors: string, title: string, year: int, place: string, publisher: string)
    | Article(authors: string, title: string, year: int, journal: string, volume: string,
              firstPage: int, lastPage: int)
    | Site(authors: string, title: string, year: int, url: string, accessDate: string)

  /** The type tag each kind of reference carries. */
  function Kind(r: Reference): (k: string)
    ensures r.Book? <==> k == "Livro"
    ensures r.Article? <==> k == "Artigo"
    ensures r.Site? <==> k == "Site"
  {
    if r.Book? then "Livro" else if r.Article? then "Artigo" else "Site"
  }

  /** One stripped author entry in ABNT form: a name of several words becomes
      "SURNAME, Given Names"; anything else is only upper-cased. */
  function FormatAuthor(author: string): string {
    var parts := Words(author);
    if |parts| > 1 then Upper(parts[|parts| - 1]) + ", " + Join(parts[..|parts| - 1], " ")
    else Upper(author)
  }

  /** One entry of the `;`-separated list, stripped and formatted. */
  function AuthorEntry(entry: string): string {
    FormatAuthor(Strip(entry))
  }

  /** The author list in ABNT form, entries joined by " ; "; empty input
      gives empty output. */
  function FormattedAuthors(authors: string): string {
    if authors == "" then "" else Join(Map(AuthorEntry, Split(authors, ';')), " ; ")
  }

  /** Formats the author list entry by entry. */
  method FormatAuthors(authors: string) returns (r: string)
    ensures r == FormattedAuthors(authors)
  {
    if authors == "" {
      return "";
    }
    var entries := Split(authors, ';');
    var formatted: seq<string> := [];
    var i := 0;
    while i < |entries|
      invariant 0 <= i <= |entries|
      invariant |formatted| == i
      invariant forall k :: 0 <= k < i ==> formatted[k] == AuthorEntry(entries[k])
    {
      var author := Strip(entries[i]);
      var parts := Words(author);
      if |parts| > 1 {
        formatted := formatted + [Upper(parts[|parts| - 1]) + ", " + Join(parts[..|parts| - 1], " ")];
      } else {
        formatted := formatted + [Upper(author)];
      }
      i := i + 1;
    }
    MapAt(AuthorEntry, entries);
    assert formatted == Map(AuthorEntry, entries);
    r := Join(formatted, " ; ");
  }

  /** An entry of several words becomes its last word upper-cased, a comma,
      and the other words separated by single spaces. */
  lemma EntryOfSeveralWords(e: string)
    requires |Words(e)| >= 2
    ensures var ws := Words(e);
      AuthorEntry(e) == Upper(ws[|ws| - 1]) + ", " + Join(ws[..|ws| - 1], " ")
  {
    WordsStrip(e);
  }

  /** An entry of one word becomes that word upper-cased, without the white
      space around it. */
  lemma EntryOfOneWord(e: string)
    requires |Words(e)| == 1
    ensures AuthorEntry(e) == Upper(Words(e)[0])
  {
    StripOneWord(e);
    WordsStrip(e);
  }

  /** A blank entry becomes empty. */
  lemma EntryOfBlank(e: string)
    requires AllSpace(e)
    ensures AuthorEntry(e) == ""
  {
    StripEmpty(e);
  }

  /** "Given Names Surname" becomes "SURNAME, Given Names". */
  lemma InvertedName(given: seq<string>, surname: string)
    requires given != []
    requires forall k :: 0 <= k < |given| ==> given[k] != [] && NoSpace(given[k])
    requires surname != [] && NoSpace(surname)
    ensures AuthorEntry(Join(given + [surname], " ")) == Upper(surname) + ", " + Join(given, " ")
  {
    var ws := given + [surname];
    WordsJoin(ws);
    EntryOfSeveralWords(Join(ws, " "));
    assert ws[..|ws| - 1] == given;
  }

  /** A formatted entry holds no character that its entry lacks, apart from
      the space and the comma the inversion adds. */
  lemma AuthorEntryFree(e: string, c: char)
    requires c !in e && c != ' ' && c != ','
    requires UpperChar(c) == c && forall d :: UpperChar(d) == c ==> d == c
    ensures c !in AuthorEntry(e)
  {
    var s := Strip(e);
    StripFree(e, c);
    var ws := Words(s);
    WordsFree(s, c);
    UpperKeeps(s, c);
    if |ws| > 1 {
      UpperKeeps(ws[|ws| - 1], c);
      JoinFree(ws[..|ws| - 1], " ", c);
    }
  }

  /** A character of one part occurs in the join. */
  lemma {:induction false} JoinHasParts(parts: seq<string>, sep: string, k: int, c: char)
    requires 0 <= k < |parts|
    requires c in parts[k]
    ensures c in Join(parts, sep)
  {
    if k > 0 {
      JoinHasParts(parts[1..], sep, k - 1, c);
    }
  }

  /** The formatted list holds no character that the input lacks, apart
      from the separators it adds. */
  lemma FormattedAuthorsFree(authors: string, c: char)
    requires c !in authors && c != ' ' && c != ',' && c != ';'
    requires UpperChar(c) == c && forall d :: UpperChar(d) == c ==> d == c
    ensures c !in FormattedAuthors(authors)
  {
    if authors != "" {
      var entries := Split(authors, ';');
      var f := Map(AuthorEntry, entries);
      SplitParts(authors, ';');
      MapAt(AuthorEntry, entries);
      forall k | 0 <= k < |f| ensures c !in f[k] {
        if c in entries[k] {
          JoinHasParts(entries, [';'], k, c);
        }
        AuthorEntryFree(entries[k], c);
      }
      JoinFree(f, " ; ", c);
    }
  }

  /** Every `;`-separated entry gives one formatted author, and the
      formatted list separates them by exactly as many semicolons. */
  lemma FormattedAuthorsCount(authors: string)
    requires authors != ""
    ensures Count(FormattedAuthors(authors), ';') == Count(authors, ';')
  {
    var entries := Split(authors, ';');
    SplitParts(authors, ';');
    var f := Map(AuthorEntry, entries);
    MapAt(AuthorEntry, entries);
    forall k | 0 <= k < |f| ensures ';' !in f[k] {
      AuthorEntryFree(entries[k], ';');
    }
    assert Count(" ; ", ';') == 1;
    CountJoin(f, " ; ", ';');
  }

  /** The key references are sorted by: the upper-cased last word of the
      first author, or the upper-cased title when there is no first author. */
  function SortKey(r: Reference): string {
    var first := Strip(Split(r.authors, ';')[0]);
    if first == "" then Upper(r.title)
    else
      var parts := Words(first);
      if |parts| > 0 then Upper(parts[|parts| - 1]) else ""
  }

  /** A reference whose first author is blank sorts by its title. */
  lemma SortKeyOfBlankAuthor(r: Reference)
    requires AllSpace(Split(r.authors, ';')[0])
    ensures SortKey(r) == Upper(r.title)
  {
    StripEmpty(Split(r.authors, ';')[0]);
  }

  /** The formatted list starts with the first entry, formatted. */
  lemma FormattedAuthorsHead(authors: string)
    requires authors != ""
    ensures StartsWith(FormattedAuthors(authors), AuthorEntry(Split(authors, ';')[0]))
  {
    var entries := Split(authors, ';');
    var f := Map(AuthorEntry, entries);
    JoinHead(f, " ; ");
    MapAt(AuthorEntry, entries);
  }

  /** Otherwise the sort key is the surname the formatted author list
      starts with. */
  lemma SortKeyIsLeadingSurname(r: Reference)
    requires !AllSpace(Split(r.authors, ';')[0])
    ensures var ws := Words(Split(r.authors, ';')[0]);
      && ws != []
      && SortKey(r) == Upper(ws[|ws| - 1])
      && (|ws| >= 2 ==> StartsWith(FormattedAuthors(r.authors), SortKey(r) + ", "))
      && (|ws| == 1 ==> StartsWith(FormattedAuthors(r.authors), SortKey(r)))
  {
    var e := Split(r.authors, ';')[0];
    var ws := Words(e);
    StripEmpty(e);
    WordsStrip(e);
    WordsOfSpaces(e);
    assert r.authors != "";
    FormattedAuthorsHead(r.authors);
    if |ws| >= 2 {
      EntryOfSeveralWords(e);
      StartsWithConcat(FormattedAuthors(r.authors), SortKey(r) + ", ", Join(ws[..|ws| - 1], " "));
    } else {
      EntryOfOneWord(e);
    }
  }

  /** The reference in ABNT form, with `**` around the part set in bold:
      the author list, then the fields of the kind of reference. */
  function Format(r: Reference): string {
    var a := FormattedAuthors(r.authors);
    match r
    case Book(_, title, _, _, _) =>
      a + ". " + "**" + title + "**" + BookTail(r)
    case Article(_, title, _, journal, _, _, _) =>
      a + ". " + title + ". " + "**" + journal + "**" + ArticleTail(r)
    case Site(_, title, year, url, accessDate) =>
      a + ". " + title + ". " + IntToString(year) + ". Disponível em: <" + url + ">. Acesso em: "
        + accessDate + "."
  }

  /** What follows a book's bold title. */
  function BookTail(r: Reference): string
    requires r.Book?
  {
    ". " + r.place + ": " + r.publisher + ", " + IntToString(r.year) + "."
  }

  /** What follows an article's bold journal. */
  function ArticleTail(r: Reference): string
    requires r.Article?
  {
    ", v. " + r.volume + ", p. " + IntToString(r.firstPage) + "-" + IntToString(r.lastPage) + ", "
      + IntToString(r.year) + "."
  }

  /** A book sets its title in bold, and the preview wraps it in
      `<strong>` tags, provided the fields hold no asterisk. */
  lemma BookEmphasis(r: Reference)
    requires r.Book?
    requires '*' !in r.authors && '*' !in r.title && '*' !in r.place && '*' !in r.publisher
    ensures Emphasised(Format(r)) == [r.title]
    ensures BoldToHtml(Format(r))
      == FormattedAuthors(r.authors) + ". " + "<strong>" + r.title + "</strong>" + BookTail(r)
  {
    FormattedAuthorsFree(r.authors, '*');
    BoldToHtmlWraps(FormattedAuthors(r.authors) + ". ", r.title, BookTail(r));
  }

  /** An article sets its journal in bold, and the preview wraps it in
      `<strong>` tags, provided the fields hold no asterisk. */
  lemma ArticleEmphasis(r: Reference)
    requires r.Article?
    requires '*' !in r.authors && '*' !in r.title && '*' !in r.journal && '*' !in r.volume
    ensures Emphasised(Format(r)) == [r.journal]
    ensures BoldToHtml(Format(r))
      == FormattedAuthors(r.authors) + ". " + r.title + ". " + "<strong>" + r.journal + "</strong>" + ArticleTail(r)
  {
    FormattedAuthorsFree(r.authors, '*');
    BoldToHtmlWraps(FormattedAuthors(r.authors) + ". " + r.title + ". ", r.journal, ArticleTail(r));
  }

  /** A site sets nothing in bold, and the preview shows its text as it is,
      provided the fields hold no asterisk. */
  lemma SiteEmphasis(r: Reference)
    requires r.Site?
    requires '*' !in r.authors && '*' !in r.title && '*' !in r.url && '*' !in r.accessDate
    ensures Emphasised(Format(r)) == []
    ensures BoldToHtml(Format(r)) == Format(r)
  {
    FormattedAuthorsFree(r.authors, '*');
    IntToStringFree(r.year, '*');
    var y := IntToString(r.year);
    assert Format(r) == FormattedAuthors(r.authors) + ". " + r.title + ". " + y + ". Disponível em: <" + r.url
      + ">. Acesso em: " + r.accessDate + ".";
    assert '*' !in Format(r);
    StarFreeUnmarked(Format(r));
    BoldToHtmlUnmarked(Format(r));
  }

  /** As the preview converts it, a book's title gets two opening tags and
      no closing one. */
  lemma BookAsWritten(r: Reference)
    requires r.Book?
    requires '*' !in r.authors && '*' !in r.title && '*' !in r.place && '*' !in r.publisher
    ensures StrongAsWritten(Format(r))
      == FormattedAuthors(r.authors) + ". " + "<strong>" + r.title + "<strong>" + BookTail(r)
  {
    FormattedAuthorsFree(r.authors, '*');
    AsWrittenNeverCloses(FormattedAuthors(r.authors) + ". ", r.title, BookTail(r));
  }

  /** As the preview converts it, an article's journal gets two opening
      tags and no closing one. */
  lemma ArticleAsWritten(r: Reference)
    requires r.Article?
    requires '*' !in r.authors && '*' !in r.title && '*' !in r.journal && '*' !in r.volume
    ensures StrongAsWritten(Format(r))
      == FormattedAuthors(r.authors) + ". " + r.title + ". " + "<strong>" + r.journal + "<strong>" + ArticleTail(r)
  {
    FormattedAuthorsFree(r.authors, '*');
    ArticleEmphasis(r);
    AsWrittenNeverCloses(FormattedAuthors(r.authors) + ". " + r.title + ". ", r.journal, ArticleTail(r));
  }
}
