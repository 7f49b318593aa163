/** The paginated HTML preview of a document: the walk over the section
    tree that numbers the sections, turns their text into paragraphs and
    their table and figure markers into numbered tables and figures, and
    the page of references. The pure functions say what each step produces;
    the class `PreviewGenerator` does it by updating its fields. */
module Preview {
  import opened Options
  import opened Text
  import opened Markup
  import opened References
  import opened Markers
  import opened Pagination
  import Document

  /** A table: its title, its rows of cells (the first one is the header),
      its source and its border style. */
  datatype Table = Table(title: string, rows: seq<seq<string>>, source: string, borderStyle: string)

  /** A figure: its title, its source, its width in centimetres, the file
      URL of its image and the width as printed. */
  datatype Figure = Figure(title: string, source: string, width: real, url: string, widthText: string)

  /** A node of the section tree. */
  datatype Section = Section(title: string, content: string, children: seq<Section>,
                             tables: seq<Table>, figures: seq<Figure>)

  /** The number written on a table or a figure when a marker places it. */
  datatype Stamp = TableNumber(table: Table, number: nat) | FigureNumber(figure: Figure, number: nat)

  /** The two counters and the numbers written so far, in order. */
  datatype Counters = Counters(tables: nat, figures: nat, stamps: seq<Stamp>)

  /** What a part of the walk produces: the blocks it places, in order, and
      the counters after it. Where the blocks land on the pages is decided
      by `PushAll` alone. */
  datatype Out = Out(blocks: seq<Block>, counters: Counters)

  const Zero := Counters(0, 0, [])

  /** One part of the walk after another. */
  function Then(a: Out, b: Out): Out {
    Out(a.blocks + b.blocks, b.counters)
  }

  // Section headings

  /** The heading text: the number, then the title, in capitals when the
      number has a single component. */
  function TitleText(number: string, title: string): string {
    number + " " + (if |Split(number, '.')| == 1 then Upper(title) else title)
  }

  function HeadingBlock(number: string, title: string): Block {
    Block("<h1>" + TitleText(number, title) + "</h1>", HeadingHeight)
  }

  /** A number with no dot has one component; one with a dot has more. */
  lemma ComponentCount(number: string)
    ensures |Split(number, '.')| == 1 <==> '.' !in number
  {
    SplitParts(number, '.');
    if '.' !in number {
      SplitAbsent(number, '.');
    }
  }

  /** A top-level section, numbered by its position alone, has its title
      in capitals. */
  lemma TopLevelTitle(i: nat, title: string)
    ensures TitleText(NatToString(i), title) == NatToString(i) + " " + Upper(title)
  {
    ComponentCount(NatToString(i));
  }

  /** A nested section, numbered below its parent's number, has its title
      as written. */
  lemma NestedTitle(parent: string, i: nat, title: string)
    ensures TitleText(parent + "." + NatToString(i), title) == parent + "." + NatToString(i) + " " + title
  {
    var number := parent + "." + NatToString(i);
    assert number[|parent|] == '.';
    ComponentCount(number);
  }

  /** A section heading always leaves room for two lines of text below it
      on its page. */
  lemma HeadingKeepsTwoLines(p: Pager, number: string, title: string)
    ensures Push(p, HeadingBlock(number, title)).remaining >= LineHeight * 2.0
  {
    var html := HeadingBlock(number, title).html;
    assert html[..3] == "<h1";
    OrphanGuard(p, HeadingBlock(number, title));
  }

  // Paragraphs

  /** A body paragraph: the line stripped; its height grows with the
      length of the line as written. */
  function ParagraphBlock(line: string): Block {
    Block("<p class=\"corpo-texto\">" + Strip(line) + "</p>", ((|line| as real) / 80.0 + 1.0) * LineHeight)
  }

  /** One paragraph per line that is not blank, in order. */
  function ParagraphBlocks(lines: seq<string>): (bs: seq<Block>)
    ensures |bs| <= |lines|
    decreases |lines|
  {
    if lines == [] then []
    else
      var last := lines[|lines| - 1];
      ParagraphBlocks(lines[..|lines| - 1]) + (if Strip(last) == [] then [] else [ParagraphBlock(last)])
  }

  /** The paragraphs of a piece of text: its lines once the text is
      stripped. */
  function TextBlocks(text: string): seq<Block> {
    ParagraphBlocks(Split(Strip(text), '\n'))
  }

  lemma {:induction false} ParagraphBlocksAppend(a: seq<string>, b: seq<string>)
    ensures ParagraphBlocks(a + b) == ParagraphBlocks(a) + ParagraphBlocks(b)
    decreases |b|
  {
    if b == [] {
      assert a + b == a;
    } else {
      assert (a + b)[..|a + b| - 1] == a + b[..|b| - 1];
      ParagraphBlocksAppend(a, b[..|b| - 1]);
    }
  }

  /** A blank line gives nothing and any other line exactly its paragraph;
      with `ParagraphBlocksAppend` this fixes every list of lines. */
  lemma ParagraphOfLine(line: string)
    ensures ParagraphBlocks([line]) == (if AllSpace(line) then [] else [ParagraphBlock(line)])
  {
    StripEmpty(line);
    assert [line][..0] == [];
  }

  /** Only blank lines give no paragraph at all. */
  lemma {:induction false} BlankLines(lines: seq<string>)
    ensures ParagraphBlocks(lines) == [] <==> forall i :: 0 <= i < |lines| ==> AllSpace(lines[i])
    decreases |lines|
  {
    if lines != [] {
      var init := lines[..|lines| - 1];
      BlankLines(init);
      StripEmpty(lines[|lines| - 1]);
      assert forall i :: 0 <= i < |init| ==> init[i] == lines[i];
    }
  }

  /** Every paragraph is the stripped form of a non-blank line, which has
      no white space at either end. */
  lemma {:induction false} ParagraphsOfLines(lines: seq<string>)
    ensures forall b :: b in ParagraphBlocks(lines) ==>
      exists i :: 0 <= i < |lines| && !AllSpace(lines[i]) && b == ParagraphBlock(lines[i])
    decreases |lines|
  {
    if lines != [] {
      var init := lines[..|lines| - 1];
      ParagraphsOfLines(init);
      StripEmpty(lines[|lines| - 1]);
      forall b | b in ParagraphBlocks(lines)
        ensures exists i :: 0 <= i < |lines| && !AllSpace(lines[i]) && b == ParagraphBlock(lines[i])
      {
        if b in ParagraphBlocks(init) {
          var i :| 0 <= i < |init| && !AllSpace(init[i]) && b == ParagraphBlock(init[i]);
          assert lines[i] == init[i];
        } else {
          assert b == ParagraphBlock(lines[|lines| - 1]);
        }
      }
    }
  }

  lemma ParagraphStep(lines: seq<string>, j: nat)
    requires j < |lines|
    ensures ParagraphBlocks(lines[..j + 1])
      == ParagraphBlocks(lines[..j]) + (if Strip(lines[j]) == [] then [] else [ParagraphBlock(lines[j])])
  {
    assert lines[..j + 1][..j] == lines[..j];
  }

  /** Text on one line that is not blank is one paragraph: the text
      stripped. */
  lemma OneLineText(text: string)
    requires '\n' !in text && !AllSpace(text)
    ensures TextBlocks(text) == [ParagraphBlock(Strip(text))]
  {
    StripFree(text, '\n');
    SplitAbsent(Strip(text), '\n');
    StripEmpty(text);
    StripEnds(text);
    var s := Strip(text);
    StripPadded([], s, []);
    assert [] + s + [] == s;
    ParagraphOfLine(s);
    StripEmpty(s);
  }

  // Tables and figures

  /** The first table with the title, as `next(...)` finds it. */
  function FindTable(tables: seq<Table>, title: string): (r: Option<Table>)
    ensures r.Some? ==> r.value in tables && r.value.title == title
    ensures r.None? <==> forall i :: 0 <= i < |tables| ==> tables[i].title != title
  {
    if tables == [] then None
    else if tables[0].title == title then Some(tables[0])
    else FindTable(tables[1..], title)
  }

  /** The first figure with the title. */
  function FindFigure(figures: seq<Figure>, title: string): (r: Option<Figure>)
    ensures r.Some? ==> r.value in figures && r.value.title == title
    ensures r.None? <==> forall i :: 0 <= i < |figures| ==> figures[i].title != title
  {
    if figures == [] then None
    else if figures[0].title == title then Some(figures[0])
    else FindFigure(figures[1..], title)
  }

  lemma {:induction false} FirstTable(tables: seq<Table>, title: string, i: nat)
    requires i < |tables| && tables[i].title == title
    requires forall j :: 0 <= j < i ==> tables[j].title != title
    ensures FindTable(tables, title) == Some(tables[i])
  {
    if i > 0 {
      FirstTable(tables[1..], title, i - 1);
    }
  }

  lemma {:induction false} FirstFigure(figures: seq<Figure>, title: string, i: nat)
    requires i < |figures| && figures[i].title == title
    requires forall j :: 0 <= j < i ==> figures[j].title != title
    ensures FindFigure(figures, title) == Some(figures[i])
  {
    if i > 0 {
      FirstFigure(figures[1..], title, i - 1);
    }
  }

  /** The estimated heights: a line per row, and a figure of the given
      width at 16:9, each with two caption lines. */
  function TableHeight(t: Table): real {
    (|t.rows| as real) * TableRowHeight + CaptionHeight * 2.0
  }

  function FigureHeight(f: Figure): real {
    f.width / 16.0 * 9.0 + CaptionHeight * 2.0
  }

  /** The cells of a row, each in the element `tag` (`th` or `td`). */
  function Cells(tag: string, row: seq<string>): string
    decreases |row|
  {
    if row == [] then "" else Cells(tag, row[..|row| - 1]) + "<" + tag + ">" + row[|row| - 1] + "</" + tag + ">"
  }

  function RowHtml(row: seq<string>): string {
    "<tr>" + Cells("td", row) + "</tr>"
  }

  /** One `tr` per row, in order. */
  function BodyRows(rows: seq<seq<string>>): string
    decreases |rows|
  {
    if rows == [] then "" else BodyRows(rows[..|rows| - 1]) + RowHtml(rows[|rows| - 1])
  }

  function TableCaption(t: Table, n: nat): string {
    "<div><p class=\"legenda\">Tabela " + NatToString(n) + " – " + t.title + "</p>"
  }

  function TableOpen(t: Table): string {
    "<table class=\"" + (if t.borderStyle == "abnt" then "abnt" else "") + "\" align=\"center\">"
  }

  /** The header and body of a table: nothing when it has no rows. */
  function TableRows(rows: seq<seq<string>>): string {
    if rows == [] then ""
    else "<thead><tr>" + Cells("th", rows[0]) + "</tr></thead><tbody>" + BodyRows(rows[1..]) + "</tbody>"
  }

  function SourceLine(source: string): string {
    if source != "" then "<p class=\"fonte\">Fonte: " + source + "</p>" else ""
  }

  /** A table numbered `n`: its caption, the table and its source. */
  function TableHtml(t: Table, n: nat): string {
    TableCaption(t, n) + TableOpen(t) + TableRows(t.rows) + "</table>" + SourceLine(t.source) + "</div>"
  }

  /** A figure numbered `n`: the image, its caption and its source. */
  function FigureHtml(f: Figure, n: nat): string {
    "<div><img src=\"" + f.url + "\" style=\"width: " + f.widthText + "cm;\">"
    + "<p class=\"legenda\">Figura " + NatToString(n) + " – " + f.title + "</p>"
    + SourceLine(f.source) + "</div>"
  }

  function TableBlock(t: Table, n: nat): Block {
    Block(TableHtml(t, n), TableHeight(t))
  }

  function FigureBlock(f: Figure, n: nat): Block {
    Block(FigureHtml(f, n), FigureHeight(f))
  }

  /** The table has the ABNT class exactly when its border style is ABNT. */
  lemma TableClass(t: Table)
    ensures TableOpen(t) == "<table class=\"abnt\" align=\"center\">" <==> t.borderStyle == "abnt"
  {
    if t.borderStyle != "abnt" {
      assert TableOpen(t)[14] != "<table class=\"abnt\" align=\"center\">"[14];
    }
  }

  /** There is a header exactly when there are rows, and then it holds the
      first row alone and the body the others. */
  lemma TableHeader(rows: seq<seq<string>>)
    ensures TableRows(rows) == "" <==> rows == []
    ensures rows != [] ==> StartsWith(TableRows(rows), "<thead><tr>" + Cells("th", rows[0]) + "</tr></thead>")
    ensures rows != [] ==> EndsWith(TableRows(rows), "<tbody>" + BodyRows(rows[1..]) + "</tbody>")
  {
    if rows != [] {
      var h := "<thead><tr>" + Cells("th", rows[0]) + "</tr></thead>";
      var b := "<tbody>" + BodyRows(rows[1..]) + "</tbody>";
      assert TableRows(rows) == h + b;
      assert (h + b)[..|h|] == h;
      EndsWithAppend(h, b);
    }
  }

  /** The body holds the rows in order: the rows of `a` then those of `b`. */
  lemma {:induction false} BodyRowsAppend(a: seq<seq<string>>, b: seq<seq<string>>)
    ensures BodyRows(a + b) == BodyRows(a) + BodyRows(b)
    decreases |b|
  {
    if b == [] {
      assert a + b == a;
    } else {
      var init := b[..|b| - 1];
      var row := RowHtml(b[|b| - 1]);
      assert (a + b)[..|a + b| - 1] == a + init;
      assert (a + b)[|a + b| - 1] == b[|b| - 1];
      BodyRowsAppend(a, init);
      assert BodyRows(a + b) == BodyRows(a) + BodyRows(init) + row;
      assert BodyRows(b) == BodyRows(init) + row;
    }
  }

  /** A table's HTML: everything up to the end of the table element, then
      the source line and the closing tag. */
  lemma TableEnds(t: Table, n: nat)
    ensures TableHtml(t, n)
      == (TableCaption(t, n) + TableOpen(t) + TableRows(t.rows) + "</table>") + (SourceLine(t.source) + "</div>")
  {
  }

  /** A table with a source ends with a "Fonte:" paragraph holding it. */
  lemma TableWithSource(t: Table, n: nat)
    requires t.source != ""
    ensures EndsWith(TableHtml(t, n), "<p class=\"fonte\">Fonte: " + t.source + "</p></div>")
  {
    TableEnds(t, n);
    assert SourceLine(t.source) + "</div>" == "<p class=\"fonte\">Fonte: " + t.source + "</p></div>";
    EndsWithAppend(TableCaption(t, n) + TableOpen(t) + TableRows(t.rows) + "</table>", SourceLine(t.source) + "</div>");
  }

  /** A table without a source ends right after the table element. */
  lemma TableWithoutSource(t: Table, n: nat)
    requires t.source == ""
    ensures EndsWith(TableHtml(t, n), "</table></div>")
  {
    TableEnds(t, n);
    assert SourceLine(t.source) + "</div>" == "</div>";
    var front := TableCaption(t, n) + TableOpen(t) + TableRows(t.rows);
    assert TableHtml(t, n) == front + "</table></div>";
    EndsWithAppend(front, "</table></div>");
  }

  /** So the table ends with a "Fonte:" paragraph holding its source when
      it has one, right after the table element otherwise, and a paragraph
      closes it exactly when there is a source. */
  lemma TableSource(t: Table, n: nat)
    ensures t.source != "" ==> EndsWith(TableHtml(t, n), "<p class=\"fonte\">Fonte: " + t.source + "</p></div>")
    ensures t.source == "" ==> EndsWith(TableHtml(t, n), "</table></div>")
    ensures EndsWith(TableHtml(t, n), "</p></div>") <==> t.source != ""
  {
    var html := TableHtml(t, n);
    if t.source != "" {
      var tail := "<p class=\"fonte\">Fonte: " + t.source + "</p></div>";
      TableWithSource(t, n);
      assert html[|html| - 10..] == tail[|tail| - 10..];
    } else {
      TableWithoutSource(t, n);
      assert html[|html| - 10..][0] == "</table></div>"[4];
    }
  }

  // The walk

  /** A marker: the first table or figure of the section with the title
      gets the next number of its kind and is placed; a marker that names
      nothing in the section is dropped. */
  function MarkerOut(c: Counters, node: Section, kind: string, title: string): Out {
    if kind == "Tabela" then
      match FindTable(node.tables, title)
      case None => Out([], c)
      case Some(t) =>
        var n := c.tables + 1;
        Out([TableBlock(t, n)], Counters(n, c.figures, c.stamps + [TableNumber(t, n)]))
    else if kind == "Figura" then
      match FindFigure(node.figures, title)
      case None => Out([], c)
      case Some(f) =>
        var n := c.figures + 1;
        Out([FigureBlock(f, n)], Counters(c.tables, n, c.stamps + [FigureNumber(f, n)]))
    else Out([], c)
  }

  /** One part of a section's text: text parts become paragraphs, a kind
      with the title after it is a marker. */
  function PartOut(c: Counters, node: Section, parts: seq<string>, k: nat): Out
    requires k < |parts|
  {
    if k % 3 == 0 then Out(TextBlocks(parts[k]), c)
    else if k % 3 == 1 && k + 1 < |parts| then MarkerOut(c, node, parts[k], parts[k + 1])
    else Out([], c)
  }

  /** The first `k` parts, one after another. */
  function PartsOut(c: Counters, node: Section, parts: seq<string>, k: nat): Out
    requires k <= |parts|
  {
    if k == 0 then Out([], c)
    else
      var before := PartsOut(c, node, parts, k - 1);
      Then(before, PartOut(before.counters, node, parts, k - 1))
  }

  /** In the parts of a text, a kind is always followed by a title. */
  lemma KindHasTitle(parts: seq<string>, k: nat)
    requires Shaped(parts) && k < |parts| && k % 3 == 1
    ensures k + 1 < |parts|
  {
  }

  /** A section's text, when it has any. */
  function ContentOut(c: Counters, node: Section): Out {
    if node.content == "" then Out([], c)
    else
      var parts := SplitMarkers(node.content);
      PartsOut(c, node, parts, |parts|)
  }

  /** A section numbered `number`: its heading, its text, then its
      children, numbered below it. */
  function NodeOut(c: Counters, node: Section, number: string): Out
    decreases node, 1, 0
  {
    var text := ContentOut(c, node);
    Then(Out([HeadingBlock(number, node.title)], c),
         Then(text, ChildrenOut(text.counters, node, number + ".", |node.children|)))
  }

  /** The first `n` children of `parent`, the i-th numbered `prefix`
      followed by i. */
  function ChildrenOut(c: Counters, parent: Section, prefix: string, n: nat): Out
    requires n <= |parent.children|
    decreases parent, 0, n
  {
    if n == 0 then Out([], c)
    else
      var before := ChildrenOut(c, parent, prefix, n - 1);
      Then(before, NodeOut(before.counters, parent.children[n - 1], prefix + NatToString(n)))
  }

  /** The walk over the whole tree below the root, with top-level numbers
      1, 2, 3, ... */
  function SectionsOut(c: Counters, root: Section): Out {
    ChildrenOut(c, root, "", |root.children|)
  }

  /** A section's heading comes first, with the section's number. */
  lemma HeadingFirst(c: Counters, node: Section, number: string)
    ensures NodeOut(c, node, number).blocks != []
    ensures NodeOut(c, node, number).blocks[0] == HeadingBlock(number, node.title)
  {
  }

  /** A marker that names no table or figure of the section places
      nothing and uses no number. */
  lemma MarkerDropped(c: Counters, node: Section, kind: string, title: string)
    requires kind == "Tabela" ==> forall i :: 0 <= i < |node.tables| ==> node.tables[i].title != title
    requires kind == "Figura" ==> forall i :: 0 <= i < |node.figures| ==> node.figures[i].title != title
    ensures MarkerOut(c, node, kind, title) == Out([], c)
  {
  }

  /** A table marker that names a table of the section places the first
      such table, numbered one past the tables so far, and leaves the
      figure count alone. */
  lemma TableMarker(c: Counters, node: Section, title: string, i: nat)
    requires i < |node.tables| && node.tables[i].title == title
    requires forall j :: 0 <= j < i ==> node.tables[j].title != title
    ensures var t := node.tables[i];
      MarkerOut(c, node, "Tabela", title)
        == Out([TableBlock(t, c.tables + 1)],
               Counters(c.tables + 1, c.figures, c.stamps + [TableNumber(t, c.tables + 1)]))
  {
    FirstTable(node.tables, title, i);
  }

  /** The same for figures. */
  lemma FigureMarker(c: Counters, node: Section, title: string, i: nat)
    requires i < |node.figures| && node.figures[i].title == title
    requires forall j :: 0 <= j < i ==> node.figures[j].title != title
    ensures var f := node.figures[i];
      MarkerOut(c, node, "Figura", title)
        == Out([FigureBlock(f, c.figures + 1)],
               Counters(c.tables, c.figures + 1, c.stamps + [FigureNumber(f, c.figures + 1)]))
  {
    FirstFigure(node.figures, title, i);
  }

  // Numbering

  function Upto(n: nat): seq<nat> {
    if n == 0 then [] else Upto(n - 1) + [n]
  }

  /** The numbers written on tables, in order. */
  function TableNumbers(stamps: seq<Stamp>): seq<nat>
    decreases |stamps|
  {
    if stamps == [] then []
    else
      var last := stamps[|stamps| - 1];
      TableNumbers(stamps[..|stamps| - 1]) + (if last.TableNumber? then [last.number] else [])
  }

  /** The numbers written on figures, in order. */
  function FigureNumbers(stamps: seq<Stamp>): seq<nat>
    decreases |stamps|
  {
    if stamps == [] then []
    else
      var last := stamps[|stamps| - 1];
      FigureNumbers(stamps[..|stamps| - 1]) + (if last.FigureNumber? then [last.number] else [])
  }

  /** Tables are numbered 1, 2, 3, ... up to the table count in the order
      they are placed, and so are figures. */
  predicate Numbered(c: Counters) {
    TableNumbers(c.stamps) == Upto(c.tables) && FigureNumbers(c.stamps) == Upto(c.figures)
  }

  /** The walk only adds numbers to those written before. */
  predicate Extends(c: Counters, c': Counters) {
    && c.tables <= c'.tables && c.figures <= c'.figures
    && |c.stamps| <= |c'.stamps| && c'.stamps[..|c.stamps|] == c.stamps
  }

  lemma ExtendsTrans(a: Counters, b: Counters, c: Counters)
    requires Extends(a, b) && Extends(b, c)
    ensures Extends(a, c)
  {
    assert c.stamps[..|a.stamps|] == c.stamps[..|b.stamps|][..|a.stamps|];
  }

  lemma StampNumbers(stamps: seq<Stamp>, s: Stamp)
    ensures TableNumbers(stamps + [s]) == TableNumbers(stamps) + (if s.TableNumber? then [s.number] else [])
    ensures FigureNumbers(stamps + [s]) == FigureNumbers(stamps) + (if s.FigureNumber? then [s.number] else [])
    ensures (stamps + [s])[..|stamps|] == stamps
  {
    assert (stamps + [s])[..|stamps|] == stamps;
  }

  lemma MarkerNumbered(c: Counters, node: Section, kind: string, title: string)
    requires Numbered(c)
    ensures Numbered(MarkerOut(c, node, kind, title).counters)
    ensures Extends(c, MarkerOut(c, node, kind, title).counters)
  {
    if kind == "Tabela" && FindTable(node.tables, title).Some? {
      StampNumbers(c.stamps, TableNumber(FindTable(node.tables, title).value, c.tables + 1));
    } else if kind == "Figura" && FindFigure(node.figures, title).Some? {
      StampNumbers(c.stamps, FigureNumber(FindFigure(node.figures, title).value, c.figures + 1));
    }
  }

  lemma {:induction false} PartsNumbered(c: Counters, node: Section, parts: seq<string>, k: nat)
    requires k <= |parts| && Numbered(c)
    ensures Numbered(PartsOut(c, node, parts, k).counters)
    ensures Extends(c, PartsOut(c, node, parts, k).counters)
  {
    if k > 0 {
      var mid := PartsOut(c, node, parts, k - 1).counters;
      PartsNumbered(c, node, parts, k - 1);
      if (k - 1) % 3 == 1 && k < |parts| {
        MarkerNumbered(mid, node, parts[k - 1], parts[k]);
      }
      ExtendsTrans(c, mid, PartsOut(c, node, parts, k).counters);
    }
  }

  lemma {:induction false} NodeNumbered(c: Counters, node: Section, number: string)
    requires Numbered(c)
    ensures Numbered(NodeOut(c, node, number).counters)
    ensures Extends(c, NodeOut(c, node, number).counters)
    decreases node, 1
  {
    var text := ContentOut(c, node);
    if node.content != "" {
      var parts := SplitMarkers(node.content);
      PartsNumbered(c, node, parts, |parts|);
    }
    ChildrenNumbered(text.counters, node, number + ".", |node.children|);
    ExtendsTrans(c, text.counters, NodeOut(c, node, number).counters);
  }

  /** Wherever the walk starts with numbered tables and figures, it ends
      with them numbered, the numbers already written untouched. */
  lemma {:induction false} ChildrenNumbered(c: Counters, parent: Section, prefix: string, n: nat)
    requires n <= |parent.children| && Numbered(c)
    ensures Numbered(ChildrenOut(c, parent, prefix, n).counters)
    ensures Extends(c, ChildrenOut(c, parent, prefix, n).counters)
    decreases parent, 0, n
  {
    if n > 0 {
      var mid := ChildrenOut(c, parent, prefix, n - 1).counters;
      ChildrenNumbered(c, parent, prefix, n - 1);
      NodeNumbered(mid, parent.children[n - 1], prefix + NatToString(n));
      ExtendsTrans(c, mid, ChildrenOut(c, parent, prefix, n).counters);
    }
  }

  /** From a fresh start, the tables and figures of the whole tree are
      numbered 1, 2, 3, ... in the order of the walk. */
  lemma SectionsNumbered(root: Section)
    ensures Numbered(SectionsOut(Zero, root).counters)
  {
    ChildrenNumbered(Zero, root, "", |root.children|);
  }

  /** Placing the blocks of the first `i + 1` children is placing those of
      the first `i`, then the heading of the next child, its text and its
      own children. */
  lemma ChildStep(p0: Pager, c0: Counters, parent: Section, prefix: string, i: nat)
    requires i < |parent.children|
    ensures
      var before := ChildrenOut(c0, parent, prefix, i);
      var child := parent.children[i];
      var number := prefix + NatToString(i + 1);
      var text := ContentOut(before.counters, child);
      var below := ChildrenOut(text.counters, child, number + ".", |child.children|);
      && ChildrenOut(c0, parent, prefix, i + 1).counters == below.counters
      && PushAll(p0, ChildrenOut(c0, parent, prefix, i + 1).blocks)
         == PushAll(PushAll(Push(PushAll(p0, before.blocks), HeadingBlock(number, child.title)), text.blocks), below.blocks)
  {
    var before := ChildrenOut(c0, parent, prefix, i);
    var child := parent.children[i];
    var number := prefix + NatToString(i + 1);
    var heading := HeadingBlock(number, child.title);
    var text := ContentOut(before.counters, child);
    var below := ChildrenOut(text.counters, child, number + ".", |child.children|);
    assert ChildrenOut(c0, parent, prefix, i + 1).blocks == before.blocks + [heading] + text.blocks + below.blocks;
    PushAllSnoc(p0, before.blocks, heading);
    PushAllAppend(p0, before.blocks + [heading], text.blocks);
    PushAllAppend(p0, before.blocks + [heading] + text.blocks, below.blocks);
  }

  /** The pages hold exactly the blocks the walk produces, in order, after
      what was there before, and no page is left empty. */
  lemma SectionsOnPages(p: Pager, c: Counters, root: Section)
    ensures Content(PushAll(p, SectionsOut(c, root).blocks)) == Content(p) + Htmls(SectionsOut(c, root).blocks)
    ensures NoEmptyPage(p) ==> NoEmptyPage(PushAll(p, SectionsOut(c, root).blocks))
  {
    PushAllContent(p, SectionsOut(c, root).blocks);
  }

  // References

  /** A reference paragraph as the preview writes it: every `**` becomes an
      opening tag; its height grows with the length of that text. */
  function ReferenceBlock(r: Reference): Block {
    var text := StrongAsWritten(Format(r));
    Block("<p class=\"referencia\">" + text + "</p>", ((|text| as real) / 100.0 + 1.0) * (LineHeight * 0.8))
  }

  /** The paragraph as evidently intended, with the bold part closed. */
  function ReferenceBlockIntended(r: Reference): Block {
    var text := BoldToHtml(Format(r));
    Block("<p class=\"referencia\">" + text + "</p>", ((|text| as real) / 100.0 + 1.0) * (LineHeight * 0.8))
  }

  /** For a book, the preview's paragraph opens the title twice and never
      closes it, and is one character shorter, so a little less tall, than
      the intended one. */
  lemma BookReferenceBlocks(r: Reference)
    requires r.Book?
    requires '*' !in r.authors && '*' !in r.title && '*' !in r.place && '*' !in r.publisher
    ensures ReferenceBlock(r).html == "<p class=\"referencia\">"
      + (FormattedAuthors(r.authors) + ". " + "<strong>" + r.title + "<strong>" + BookTail(r)) + "</p>"
    ensures ReferenceBlockIntended(r).html == "<p class=\"referencia\">"
      + (FormattedAuthors(r.authors) + ". " + "<strong>" + r.title + "</strong>" + BookTail(r)) + "</p>"
    ensures ReferenceBlock(r).height < ReferenceBlockIntended(r).height
  {
    BookAsWritten(r);
    BookEmphasis(r);
  }

  /** For an article, the same holds of its journal. */
  lemma ArticleReferenceBlocks(r: Reference)
    requires r.Article?
    requires '*' !in r.authors && '*' !in r.title && '*' !in r.journal && '*' !in r.volume
    ensures ReferenceBlock(r).html == "<p class=\"referencia\">"
      + (FormattedAuthors(r.authors) + ". " + r.title + ". " + "<strong>" + r.journal + "<strong>" + ArticleTail(r))
      + "</p>"
    ensures ReferenceBlockIntended(r).html == "<p class=\"referencia\">"
      + (FormattedAuthors(r.authors) + ". " + r.title + ". " + "<strong>" + r.journal + "</strong>" + ArticleTail(r))
      + "</p>"
    ensures ReferenceBlock(r).height < ReferenceBlockIntended(r).height
  {
    ArticleAsWritten(r);
    ArticleEmphasis(r);
  }

  /** One paragraph per reference, in order. */
  function ReferenceBlocks(refs: seq<Reference>): (bs: seq<Block>)
    ensures |bs| == |refs|
    decreases |refs|
  {
    if refs == [] then [] else ReferenceBlocks(refs[..|refs| - 1]) + [ReferenceBlock(refs[|refs| - 1])]
  }

  lemma ReferenceBlocksAppend(refs: seq<Reference>, i: nat)
    requires i < |refs|
    ensures ReferenceBlocks(refs[..i + 1]) == ReferenceBlocks(refs[..i]) + [ReferenceBlock(refs[i])]
  {
    assert refs[..i + 1][..i] == refs[..i];
  }

  const ReferencesHeading := Block("<h1>REFERÊNCIAS</h1>", HeadingHeight)

  /** The page of references: a new page, its heading, the references in
      sorted order, and the page closed. */
  function ReferencePage(p: Pager, refs: seq<Reference>): Pager {
    NextPage(PushAll(Push(NextPage(p), ReferencesHeading), ReferenceBlocks(Document.SortedReferences(refs))))
  }

  /** The page of references holds the heading and then one paragraph per
      reference, in sorted order, after everything placed before, and the
      last page is closed. */
  lemma ReferencePageContent(p: Pager, refs: seq<Reference>)
    ensures Content(ReferencePage(p, refs))
      == Content(p) + [ReferencesHeading.html] + Htmls(ReferenceBlocks(Document.SortedReferences(refs)))
    ensures ReferencePage(p, refs).current == []
    ensures NoEmptyPage(p) ==> NoEmptyPage(ReferencePage(p, refs))
  {
    var bs := ReferenceBlocks(Document.SortedReferences(refs));
    var p1 := NextPage(p);
    var p2 := Push(p1, ReferencesHeading);
    NextPageSpec(p);
    PushContent(p1, ReferencesHeading);
    PushAllContent(p2, bs);
    NextPageSpec(PushAll(p2, bs));
  }

  /** The generator: the finished pages, the page being filled, the height
      left on it, the two counters and the numbers written on tables and
      figures. */
  class PreviewGenerator {
    const doc: Document.Document
    var pages: seq<string>
    ghost var pageBlocks: seq<seq<string>>
    var current: seq<string>
    var remaining: real
    var tableCount: nat
    var figureCount: nat
    var stamps: seq<Stamp>

    /** Each finished page is the HTML of its blocks, and none is empty. */
    ghost predicate Valid()
      reads this
    {
      && |pages| == |pageBlocks|
      && (forall i :: 0 <= i < |pages| ==> pages[i] == PageHtml(pageBlocks[i]))
      && (forall i :: 0 <= i < |pageBlocks| ==> pageBlocks[i] != [])
    }

    ghost function Pages(): Pager
      reads this
    {
      Pager(pageBlocks, current, remaining)
    }

    ghost function Count(): Counters
      reads this
    {
      Counters(tableCount, figureCount, stamps)
    }

    constructor (doc: Document.Document)
      ensures Valid() && Pages() == Blank && Count() == Zero && this.doc == doc
    {
      this.doc := doc;
      pages := [];
      pageBlocks := [];
      current := [];
      remaining := PageHeight;
      tableCount := 0;
      figureCount := 0;
      stamps := [];
    }

    /** Closes the page being filled, unless it is empty. */
    method NewPage()
      requires Valid()
      modifies this
      ensures Valid()
      ensures Pages() == NextPage(old(Pages())) && Count() == old(Count())
    {
      if current != [] {
        var content := Concat(current);
        pages := pages + ["<div class=\"pagina\">" + content + "</div>"];
        pageBlocks := pageBlocks + [current];
      }
      current := [];
      remaining := PageHeight;
    }

    /** Places a block of HTML with its estimated height. */
    method AddElement(html: string, height: real)
      requires Valid()
      modifies this
      ensures Valid()
      ensures Pages() == Push(old(Pages()), Block(html, height)) && Count() == old(Count())
    {
      if StartsWith(html, "<h1") && remaining < height + LineHeight * 2.0 {
        NewPage();
      }
      if remaining < height {
        NewPage();
      }
      current := current + [html];
      remaining := remaining - height;
    }

    /** Places the blocks of part of the walk and takes its counters. */
    ghost predicate Did(p0: Pager, out: Out)
      reads this
    {
      Pages() == PushAll(p0, out.blocks) && Count() == out.counters
    }

    /** The cells of a row, each in the element `tag`. */
    static method RenderCells(tag: string, row: seq<string>) returns (html: string)
      ensures html == Cells(tag, row)
    {
      html := "";
      var j := 0;
      while j < |row|
        invariant j <= |row|
        invariant html == Cells(tag, row[..j])
      {
        html := html + "<" + tag + ">" + row[j] + "</" + tag + ">";
        assert row[..j + 1][..j] == row[..j];
        j := j + 1;
      }
      assert row[..j] == row;
    }

    /** The body rows of a table, one `tr` per row. */
    static method RenderBodyRows(rows: seq<seq<string>>) returns (html: string)
      ensures html == BodyRows(rows)
    {
      html := "";
      var i := 0;
      while i < |rows|
        invariant i <= |rows|
        invariant html == BodyRows(rows[..i])
      {
        var cells := RenderCells("td", rows[i]);
        html := html + "<tr>" + cells + "</tr>";
        assert rows[..i + 1][..i] == rows[..i];
        i := i + 1;
      }
      assert rows[..i] == rows;
    }

    /** The table's HTML, built piece by piece: the caption and the
        opening tag, the header row, the body rows, the source. */
    static method RenderTableHtml(t: Table, n: nat) returns (html: string)
      ensures html == TableHtml(t, n)
    {
      html := TableCaption(t, n) + TableOpen(t);
      var rows := "";
      if t.rows != [] {
        var header := RenderCells("th", t.rows[0]);
        var body := RenderBodyRows(t.rows[1..]);
        rows := "<thead><tr>" + header + "</tr></thead><tbody>" + body + "</tbody>";
      }
      html := html + rows + "</table>";
      if t.source != "" {
        html := html + "<p class=\"fonte\">Fonte: " + t.source + "</p>";
      }
      html := html + "</div>";
    }

    /** The non-blank lines of a text part, each as a body paragraph. */
    method RenderText(part: string)
      requires Valid()
      modifies this
      ensures Valid()
      ensures Did(old(Pages()), Out(TextBlocks(part), old(Count())))
    {
      ghost var p0 := Pages();
      var lines := Split(Strip(part), '\n');
      var j := 0;
      while j < |lines|
        invariant j <= |lines| && Valid()
        invariant Did(p0, Out(ParagraphBlocks(lines[..j]), old(Count())))
      {
        var line := lines[j];
        ParagraphStep(lines, j);
        if Strip(line) != [] {
          PushAllSnoc(p0, ParagraphBlocks(lines[..j]), ParagraphBlock(line));
          var b := ParagraphBlock(line);
          AddElement(b.html, b.height);
        } else {
          assert ParagraphBlocks(lines[..j + 1]) == ParagraphBlocks(lines[..j]);
        }
        j := j + 1;
      }
      assert lines[..j] == lines;
    }

    /** A marker: the table or figure it names, numbered and placed, or
        nothing. */
    method RenderMarker(node: Section, kind: string, title: string)
      requires Valid()
      modifies this
      ensures Valid()
      ensures Did(old(Pages()), MarkerOut(old(Count()), node, kind, title))
    {
      if kind == "Tabela" {
        RenderTableMarker(node, title);
      } else if kind == "Figura" {
        RenderFigureMarker(node, title);
      }
    }

    method RenderTableMarker(node: Section, title: string)
      requires Valid()
      modifies this
      ensures Valid()
      ensures Did(old(Pages()), MarkerOut(old(Count()), node, "Tabela", title))
    {
      var found := FindTable(node.tables, title);
      if found.Some? {
        ghost var p0 := Pages();
        var html := RenderTableHtml(found.value, tableCount + 1);
        ghost var b := TableBlock(found.value, tableCount + 1);
        assert b == Block(html, TableHeight(found.value));
        tableCount := tableCount + 1;
        stamps := stamps + [TableNumber(found.value, tableCount)];
        PushAllOne(p0, b);
        AddElement(html, TableHeight(found.value));
      }
    }

    method RenderFigureMarker(node: Section, title: string)
      requires Valid()
      modifies this
      ensures Valid()
      ensures Did(old(Pages()), MarkerOut(old(Count()), node, "Figura", title))
    {
      var found := FindFigure(node.figures, title);
      if found.Some? {
        ghost var p0 := Pages();
        figureCount := figureCount + 1;
        stamps := stamps + [FigureNumber(found.value, figureCount)];
        var b := FigureBlock(found.value, figureCount);
        PushAllOne(p0, b);
        AddElement(b.html, b.height);
      }
    }

    /** A section's text, split on its markers. */
    method RenderContent(node: Section)
      requires Valid()
      modifies this
      ensures Valid()
      ensures Did(old(Pages()), ContentOut(old(Count()), node))
    {
      if node.content != "" {
        ghost var p0 := Pages();
        ghost var c0 := Count();
        var parts := SplitMarkers(node.content);
        SplitMarkersShape(node.content);
        var k := 0;
        while k < |parts|
          invariant k <= |parts| && Valid()
          invariant Did(p0, PartsOut(c0, node, parts, k))
        {
          ghost var before := PartsOut(c0, node, parts, k);
          if k % 3 == 0 {
            RenderText(parts[k]);
          } else if k % 3 == 1 {
            KindHasTitle(parts, k);
            RenderMarker(node, parts[k], parts[k + 1]);
          }
          PushAllAppend(p0, before.blocks, PartOut(before.counters, node, parts, k).blocks);
          k := k + 1;
        }
      }
    }

    /** The children of `parent`, each with its heading, its text and its
        own children, numbered below `prefix`. */
    method RenderSections(parent: Section, prefix: string)
      requires Valid()
      modifies this
      ensures Valid()
      ensures Did(old(Pages()), ChildrenOut(old(Count()), parent, prefix, |parent.children|))
      decreases parent
    {
      ghost var p0 := Pages();
      ghost var c0 := Count();
      var i := 0;
      while i < |parent.children|
        invariant i <= |parent.children| && Valid()
        invariant Did(p0, ChildrenOut(c0, parent, prefix, i))
      {
        ghost var before := ChildrenOut(c0, parent, prefix, i);
        ChildStep(p0, c0, parent, prefix, i);
        var child := parent.children[i];
        var number := prefix + NatToString(i + 1);
        var heading := HeadingBlock(number, child.title);
        AddElement(heading.html, heading.height);
        RenderContent(child);
        RenderSections(child, number + ".");
        i := i + 1;
      }
    }

    /** The page of references: the references are sorted in place, then
        placed on a page of their own. */
    method RenderReferences()
      requires Valid()
      modifies this, doc`references
      ensures Valid()
      ensures doc.references == Document.SortedReferences(old(doc.references))
      ensures Pages() == ReferencePage(old(Pages()), old(doc.references)) && Count() == old(Count())
    {
      NewPage();
      AddElement(ReferencesHeading.html, ReferencesHeading.height);
      ghost var start := Pages();
      doc.SortReferences();
      var i := 0;
      while i < |doc.references|
        invariant i <= |doc.references| && Valid()
        invariant doc.references == Document.SortedReferences(old(doc.references))
        invariant Pages() == PushAll(start, ReferenceBlocks(doc.references[..i])) && Count() == old(Count())
      {
        ReferenceBlocksAppend(doc.references, i);
        PushAllSnoc(start, ReferenceBlocks(doc.references[..i]), ReferenceBlock(doc.references[i]));
        var b := ReferenceBlock(doc.references[i]);
        AddElement(b.html, b.height);
        i := i + 1;
      }
      assert doc.references[..i] == doc.references;
      NewPage();
    }

    /** The pages after the front matter: the sections of the tree below
        `root`, then the page of references. */
    method RenderBody(root: Section)
      requires Valid()
      modifies this, doc`references
      ensures Valid()
      ensures var body := SectionsOut(old(Count()), root);
        && Pages() == ReferencePage(PushAll(old(Pages()), body.blocks), old(doc.references))
        && Count() == body.counters
      ensures doc.references == Document.SortedReferences(old(doc.references))
    {
      RenderSections(root, "");
      RenderReferences();
    }
  }
}
