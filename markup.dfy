/** The `**bold**` markup that formatted references carry, and its
    conversion to HTML `<strong>` tags for the preview. */
module Markup {
  import opened Text

  /** No two consecutive asterisks: the string holds no `**` marker. */
  predicate NoMarker(s: string) {
    forall i :: 0 <= i < |s| - 1 ==> !(s[i] == '*' && s[i + 1] == '*')
  }

  /** Python's `s.split("**")`: the pieces between the non-overlapping `**`
      markers found from the left. */
  function StarSplit(s: string): (parts: seq<string>)
    ensures parts != []
    ensures |parts[0]| <= |s| && parts[0] == s[..|parts[0]|]
    decreases |s|
  {
    if s == [] then [""]
    else if |s| >= 2 && s[0] == '*' && s[1] == '*' then [""] + StarSplit(s[2..])
    else
      var rest := StarSplit(s[1..]);
      [[s[0]] + rest[0]] + rest[1..]
  }

  /** Python's `s.replace("**", rep)`, which equals `rep.join(s.split("**"))`. */
  function ReplaceMarkers(s: string, rep: string): string {
    Join(StarSplit(s), rep)
  }

  /** The pieces of `s` set in bold: every second piece between markers,
      provided a closing marker follows it. */
  function Emphasised(s: string): seq<string> {
    ClosedOdd(StarSplit(s))
  }

  function ClosedOdd(parts: seq<string>): seq<string> {
    if |parts| < 3 then [] else [parts[1]] + ClosedOdd(parts[2..])
  }

  /** The pieces between markers are free of markers. */
  lemma {:induction false} StarSplitPieces(s: string)
    ensures forall k :: 0 <= k < |StarSplit(s)| ==> NoMarker(StarSplit(s)[k])
    decreases |s|
  {
    if s == [] {
    } else if |s| >= 2 && s[0] == '*' && s[1] == '*' {
      StarSplitPieces(s[2..]);
      assert forall k :: 1 <= k < |StarSplit(s)| ==> StarSplit(s)[k] == StarSplit(s[2..])[k - 1];
    } else {
      var rest := StarSplit(s[1..]);
      StarSplitPieces(s[1..]);
      var p := [s[0]] + rest[0];
      assert NoMarker(p) by {
        if |rest[0]| > 0 {
          assert rest[0][0] == s[1];
        }
        assert forall i :: 1 <= i < |p| ==> p[i] == rest[0][i - 1];
      }
      assert forall k :: 1 <= k < |StarSplit(s)| ==> StarSplit(s)[k] == rest[k];
    }
  }

  /** A string without markers is a single piece. */
  lemma {:induction false} StarSplitUnmarked(s: string)
    requires NoMarker(s)
    ensures StarSplit(s) == [s]
    decreases |s|
  {
    if s != [] {
      var t := s[1..];
      assert NoMarker(t) by {
        forall i | 0 <= i < |t| - 1 ensures !(t[i] == '*' && t[i + 1] == '*') {
          assert t[i] == s[i + 1] && t[i + 1] == s[i + 2];
        }
      }
      StarSplitUnmarked(s[1..]);
      assert [s[0]] + s[1..] == s;
    }
  }

  /** A star-free piece followed by a marker is split off at that marker. */
  lemma {:induction false} StarSplitMarked(a: string, rest: string)
    requires '*' !in a
    ensures StarSplit(a + "**" + rest) == [a] + StarSplit(rest)
    decreases |a|
  {
    if a == [] {
      assert a + "**" + rest == "**" + rest;
      assert ("**" + rest)[2..] == rest;
    } else {
      var s := a + "**" + rest;
      assert s[1..] == a[1..] + "**" + rest;
      StarSplitMarked(a[1..], rest);
      assert [a[0]] + a[1..] == a;
    }
  }

  lemma StarFreeUnmarked(a: string)
    requires '*' !in a
    ensures NoMarker(a)
  {
  }

  lemma {:induction false} NoMarkerAppend(a: string, b: string)
    requires NoMarker(a) && NoMarker(b)
    requires a == [] || b == [] || a[|a| - 1] != '*' || b[0] != '*'
    ensures NoMarker(a + b)
  {
    var s := a + b;
    forall i | 0 <= i < |s| - 1 ensures !(s[i] == '*' && s[i + 1] == '*') {
      if i + 1 < |a| {
        assert s[i] == a[i] && s[i + 1] == a[i + 1];
      } else if i >= |a| {
        assert s[i] == b[i - |a|] && s[i + 1] == b[i + 1 - |a|];
      }
    }
  }

  /** Joining marker-free pieces with a star-free, non-empty separator
      creates no marker. */
  lemma {:induction false} JoinUnmarked(parts: seq<string>, rep: string)
    requires forall k :: 0 <= k < |parts| ==> NoMarker(parts[k])
    requires rep != [] && '*' !in rep
    ensures NoMarker(Join(parts, rep))
  {
    if |parts| > 1 {
      JoinUnmarked(parts[1..], rep);
      var j := Join(parts[1..], rep);
      NoMarkerAppend(parts[0], rep);
      NoMarkerAppend(parts[0] + rep, j);
    }
  }

  /** `s.replace("**", rep)` leaves no marker when `rep` has no asterisk. */
  lemma ReplaceLeavesNoMarker(s: string, rep: string)
    requires rep != [] && '*' !in rep
    ensures NoMarker(ReplaceMarkers(s, rep))
  {
    StarSplitPieces(s);
    JoinUnmarked(StarSplit(s), rep);
  }

  /** The conversion the reference page performs, as written: every marker
      is replaced by an opening tag, then the remaining markers (there are
      none) by a closing tag. */
  function StrongAsWritten(s: string): string {
    ReplaceMarkers(ReplaceMarkers(s, "<strong>"), "</strong>")
  }

  /** The second replacement never has anything to replace. */
  lemma SecondReplaceIsIdle(s: string)
    ensures StrongAsWritten(s) == ReplaceMarkers(s, "<strong>")
  {
    ReplaceLeavesNoMarker(s, "<strong>");
    StarSplitUnmarked(ReplaceMarkers(s, "<strong>"));
  }

  /** A bold piece comes out with two opening tags and no closing one. */
  lemma AsWrittenNeverCloses(a: string, b: string, c: string)
    requires '*' !in a && '*' !in b && '*' !in c
    ensures StrongAsWritten(a + "**" + b + "**" + c) == a + "<strong>" + b + "<strong>" + c
  {
    TwoMarkers(a, b, c);
    SecondReplaceIsIdle(a + "**" + b + "**" + c);
    assert [a, b, c][1..] == [b, c];
    assert Join([b, c], "<strong>") == b + "<strong>" + c;
    assert Join([a, b, c], "<strong>") == a + "<strong>" + (b + "<strong>" + c);
  }

  lemma TwoMarkers(a: string, b: string, c: string)
    requires '*' !in a && '*' !in b && '*' !in c
    ensures StarSplit(a + "**" + b + "**" + c) == [a, b, c]
  {
    assert a + "**" + b + "**" + c == a + "**" + (b + "**" + c);
    StarSplitMarked(a, b + "**" + c);
    StarSplitMarked(b, c);
    StarFreeUnmarked(c);
    StarSplitUnmarked(c);
  }

  /** The pieces rejoined with tags that alternate, opening first. */
  function Alternate(parts: seq<string>, open: bool): string
    requires parts != []
  {
    if |parts| == 1 then parts[0]
    else parts[0] + (if open then "<strong>" else "</strong>") + Alternate(parts[1..], !open)
  }

  /** The evidently intended conversion: markers become `<strong>` and
      `</strong>` in turn. */
  function BoldToHtml(s: string): string {
    Alternate(StarSplit(s), true)
  }

  /** Every emphasised piece is wrapped in an opening and a closing tag. */
  lemma BoldToHtmlWraps(a: string, b: string, c: string)
    requires '*' !in a && '*' !in b && '*' !in c
    ensures BoldToHtml(a + "**" + b + "**" + c) == a + "<strong>" + b + "</strong>" + c
    ensures Emphasised(a + "**" + b + "**" + c) == [b]
  {
    TwoMarkers(a, b, c);
    assert [a, b, c][1..] == [b, c];
    assert [b, c][1..] == [c];
    assert Alternate([b, c], false) == b + "</strong>" + c;
    assert Alternate([a, b, c], true) == a + "<strong>" + (b + "</strong>" + c);
    assert [a, b, c][2..] == [c];
    assert ClosedOdd([a, b, c]) == [b] + ClosedOdd([c]);
  }

  /** Text without markers is left as it is. */
  lemma BoldToHtmlUnmarked(s: string)
    requires NoMarker(s)
    ensures BoldToHtml(s) == s
    ensures Emphasised(s) == []
  {
    StarSplitUnmarked(s);
  }
}
