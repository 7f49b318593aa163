/** Filling pages of fixed height with blocks of HTML whose heights are
    estimated: a block that does not fit starts a new page, and a heading
    also does when fewer than two lines of text would fit below it. Heights
    are in centimetres and are exact rationals here. */
module Pagination {
  import opened Text

  const PageHeight: real := 24.7
  const LineHeight: real := 0.6
  const HeadingHeight: real := 1.5
  const CaptionHeight: real := 1.2
  const TableRowHeight: real := 0.8

  /** A piece of HTML and the height it is estimated to take. */
  datatype Block = Block(html: string, height: real)

  /** The blocks of each finished page, the blocks of the page being
      filled, and the height left on it. */
  datatype Pager = Pager(pages: seq<seq<string>>, current: seq<string>, remaining: real)

  const Blank := Pager([], [], PageHeight)

  /** A finished page as HTML. */
  function PageHtml(blocks: seq<string>): string {
    "<div class=\"pagina\">" + Concat(blocks) + "</div>"
  }

  predicate IsHeading(html: string) {
    StartsWith(html, "<h1")
  }

  /** Closes the page being filled, unless it is empty, and opens a new one. */
  function NextPage(p: Pager): Pager {
    Pager(if p.current != [] then p.pages + [p.current] else p.pages, [], PageHeight)
  }

  /** Places a block, breaking the page first when needed. */
  function Push(p: Pager, b: Block): Pager {
    var p1 := if IsHeading(b.html) && p.remaining < b.height + LineHeight * 2.0 then NextPage(p) else p;
    var p2 := if p1.remaining < b.height then NextPage(p1) else p1;
    Pager(p2.pages, p2.current + [b.html], p2.remaining - b.height)
  }

  /** Places the blocks one after another. */
  function PushAll(p: Pager, bs: seq<Block>): Pager
    decreases |bs|
  {
    if bs == [] then p else Push(PushAll(p, bs[..|bs| - 1]), bs[|bs| - 1])
  }

  /** A block fits on the current page: its height is left, and below a
      heading two more lines are. */
  predicate Fits(p: Pager, b: Block) {
    && p.remaining >= b.height
    && (IsHeading(b.html) ==> p.remaining >= b.height + LineHeight * 2.0)
  }

  function Flatten(pages: seq<seq<string>>): seq<string> {
    if pages == [] then [] else pages[0] + Flatten(pages[1..])
  }

  /** Every block placed so far, in order. */
  function Content(p: Pager): seq<string> {
    Flatten(p.pages) + p.current
  }

  /** The HTML of the blocks, in order. */
  function Htmls(bs: seq<Block>): (r: seq<string>)
    ensures |r| == |bs|
  {
    if bs == [] then [] else Htmls(bs[..|bs| - 1]) + [bs[|bs| - 1].html]
  }

  predicate NoEmptyPage(p: Pager) {
    forall i :: 0 <= i < |p.pages| ==> p.pages[i] != []
  }

  lemma {:induction false} FlattenAppend(pages: seq<seq<string>>, x: seq<string>)
    ensures Flatten(pages + [x]) == Flatten(pages) + x
  {
    if pages == [] {
      assert [x][1..] == [];
    } else {
      assert (pages + [x])[1..] == pages[1..] + [x];
      FlattenAppend(pages[1..], x);
    }
  }

  /** A new page starts empty with the full height; the finished pages grow
      by one exactly when the page being filled had blocks, so no empty page
      is ever finished; nothing placed is lost. */
  lemma NextPageSpec(p: Pager)
    ensures NextPage(p).current == [] && NextPage(p).remaining == PageHeight
    ensures |NextPage(p).pages| == |p.pages| + 1 <==> p.current != []
    ensures |NextPage(p).pages| == |p.pages| <==> p.current == []
    ensures NextPage(p).pages[..|p.pages|] == p.pages
    ensures Content(NextPage(p)) == Content(p)
    ensures NoEmptyPage(p) ==> NoEmptyPage(NextPage(p))
  {
    if p.current != [] {
      FlattenAppend(p.pages, p.current);
      assert (p.pages + [p.current])[..|p.pages|] == p.pages;
    }
  }

  /** The block becomes the last one of the current page, which is the old
      page when the block fits and a new one otherwise, and the height left
      drops by exactly the block's estimate. */
  lemma PushSpec(p: Pager, b: Block)
    ensures var q := if Fits(p, b) then p else NextPage(p);
      Push(p, b) == Pager(q.pages, q.current + [b.html], q.remaining - b.height)
  {
    if !Fits(p, b) {
      assert NextPage(NextPage(p)) == NextPage(p);
    }
  }

  /** A block no taller than a page never leaves a negative height. */
  lemma PushBound(p: Pager, b: Block)
    requires b.height <= PageHeight
    ensures Push(p, b).remaining >= 0.0
  {
    PushSpec(p, b);
  }

  /** A heading is never the last thing on a page: two lines of text fit
      below it. */
  lemma OrphanGuard(p: Pager, b: Block)
    requires IsHeading(b.html) && b.height + LineHeight * 2.0 <= PageHeight
    ensures Push(p, b).remaining >= LineHeight * 2.0
  {
    PushSpec(p, b);
  }

  /** Placing a block adds it after everything placed so far and finishes
      no empty page. */
  lemma PushContent(p: Pager, b: Block)
    ensures Content(Push(p, b)) == Content(p) + [b.html]
    ensures NoEmptyPage(p) ==> NoEmptyPage(Push(p, b))
  {
    PushSpec(p, b);
    NextPageSpec(p);
  }

  lemma PushAllOne(p: Pager, b: Block)
    ensures PushAll(p, [b]) == Push(p, b)
  {
    assert [b][..0] == [];
  }

  /** Placing one more block is placing it after the others. */
  lemma PushAllSnoc(p: Pager, bs: seq<Block>, b: Block)
    ensures PushAll(p, bs + [b]) == Push(PushAll(p, bs), b)
  {
    assert (bs + [b])[..|bs|] == bs;
  }

  lemma {:induction false} PushAllAppend(p: Pager, a: seq<Block>, b: seq<Block>)
    ensures PushAll(p, a + b) == PushAll(PushAll(p, a), b)
    decreases |b|
  {
    if b == [] {
      assert a + b == a;
    } else {
      var last := b[|b| - 1];
      assert (a + b)[..|a + b| - 1] == a + b[..|b| - 1];
      assert (a + b)[|a + b| - 1] == last;
      PushAllAppend(p, a, b[..|b| - 1]);
    }
  }

  /** Placing blocks adds them, in order, after everything placed so far,
      and finishes no empty page. */
  lemma {:induction false} PushAllContent(p: Pager, bs: seq<Block>)
    ensures Content(PushAll(p, bs)) == Content(p) + Htmls(bs)
    ensures NoEmptyPage(p) ==> NoEmptyPage(PushAll(p, bs))
    decreases |bs|
  {
    if bs != [] {
      var init := bs[..|bs| - 1];
      PushAllContent(p, init);
      PushContent(PushAll(p, init), bs[|bs| - 1]);
    }
  }

  /** Blocks no taller than a page never leave a negative height. */
  lemma {:induction false} PushAllBound(p: Pager, bs: seq<Block>)
    requires p.remaining >= 0.0
    requires forall i :: 0 <= i < |bs| ==> bs[i].height <= PageHeight
    ensures PushAll(p, bs).remaining >= 0.0
    decreases |bs|
  {
    if bs != [] {
      var init := bs[..|bs| - 1];
      PushAllBound(p, init);
      PushBound(PushAll(p, init), bs[|bs| - 1]);
    }
  }
}
