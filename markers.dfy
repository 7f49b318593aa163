/** The markers `{{Tabela:title}}` and `{{Figura:title}}` that place a table
    or a figure inside a section's text, and the splitting of that text on
    them the way `re.split` does with the pattern
    `\{\{(Tabela|Figura):([^}]+)\}\}`: text, kind, title, text, kind, title,
    ..., text. */
module Markers {
  import opened Options

  datatype Marker = Marker(kind: string, title: string)

  /** How a marker is written. */
  function MarkerText(m: Marker): string {
    "{{" + m.kind + ":" + m.title + "}}"
  }

  /** The longest prefix of `s` without a closing brace: what `[^}]+`
      consumes, greedily. */
  function TitleRun(s: string): (t: string)
    ensures |t| <= |s| && t == s[..|t|]
    ensures '}' !in t
    ensures |t| < |s| ==> s[|t|] == '}'
  {
    if s == [] || s[0] == '}' then [] else [s[0]] + TitleRun(s[1..])
  }

  /** The marker `s` starts with, if any. The title is the whole run up to
      the first closing brace, and two braces must follow it. */
  function MarkerAt(s: string): (r: Option<Marker>)
    ensures r.Some? ==> |MarkerText(r.value)| <= |s|
  {
    if |s| >= 9 && s[..2] == "{{" && (s[2..8] == "Tabela" || s[2..8] == "Figura") && s[8] == ':' then
      var t := TitleRun(s[9..]);
      if t != [] && 9 + |t| + 1 < |s| && s[9 + |t| + 1] == '}' then Some(Marker(s[2..8], t))
      else None
    else None
  }

  /** A marker found at the start of `s` is written there. */
  lemma MarkerAtText(s: string)
    requires MarkerAt(s).Some?
    ensures s[..|MarkerText(MarkerAt(s).value)|] == MarkerText(MarkerAt(s).value)
  {
    var t := TitleRun(s[9..]);
    assert s[9 + |t|] == '}';
    assert s[..9 + |t| + 2] == s[..2] + s[2..8] + ":" + t + "}}";
  }

  /** The text split on the markers, scanning from the left. */
  function SplitMarkers(s: string): (parts: seq<string>)
    ensures parts != []
    decreases |s|
  {
    if s == [] then [""]
    else match MarkerAt(s)
      case Some(m) => ["", m.kind, m.title] + SplitMarkers(s[|MarkerText(m)|..])
      case None =>
        var rest := SplitMarkers(s[1..]);
        [[s[0]] + rest[0]] + rest[1..]
  }

  /** The first part is a prefix of the text. */
  lemma {:induction false} SplitMarkersHead(s: string)
    ensures |SplitMarkers(s)[0]| <= |s| && SplitMarkers(s)[0] == s[..|SplitMarkers(s)[0]|]
    decreases |s|
  {
    if s != [] && MarkerAt(s).None? {
      SplitMarkersHead(s[1..]);
    }
  }

  /** The text put back together from its parts. */
  function Rebuild(parts: seq<string>): string
    decreases |parts|
  {
    if |parts| < 3 then (if parts == [] then "" else parts[0])
    else parts[0] + MarkerText(Marker(parts[1], parts[2])) + Rebuild(parts[3..])
  }

  /** What a marker is made of. */
  lemma MarkerAtShape(s: string)
    requires MarkerAt(s).Some?
    ensures var m := MarkerAt(s).value;
      && (m.kind == "Tabela" || m.kind == "Figura")
      && m.title != "" && '}' !in m.title
  {
  }

  predicate KindPart(p: string) {
    p == "Tabela" || p == "Figura"
  }

  predicate TitlePart(p: string) {
    p != "" && '}' !in p
  }

  /** Text, then kind, title and text again, any number of times. */
  predicate Shaped(parts: seq<string>) {
    && |parts| % 3 == 1
    && forall k :: 0 <= k < |parts| ==>
         && (k % 3 == 1 ==> KindPart(parts[k]))
         && (k % 3 == 2 ==> TitlePart(parts[k]))
  }

  lemma ShapedMarker(text: string, kind: string, title: string, rest: seq<string>)
    requires Shaped(rest) && KindPart(kind) && TitlePart(title)
    ensures Shaped([text, kind, title] + rest)
  {
    var parts := [text, kind, title] + rest;
    forall k | 3 <= k < |parts|
      ensures (k % 3 == 1 ==> KindPart(parts[k])) && (k % 3 == 2 ==> TitlePart(parts[k]))
    {
      assert parts[k] == rest[k - 3];
      assert (k - 3) % 3 == k % 3;
    }
  }

  lemma ShapedText(text: string, rest: seq<string>)
    requires Shaped(rest)
    ensures Shaped([text] + rest[1..])
  {
    var parts := [text] + rest[1..];
    assert forall k :: 1 <= k < |parts| ==> parts[k] == rest[k];
  }

  /** The parts come in threes after the first text: a kind, a non-empty
      title without closing braces, and the text that follows. */
  lemma {:induction false} SplitMarkersShape(s: string)
    ensures Shaped(SplitMarkers(s))
    decreases |s|
  {
    if s != [] {
      match MarkerAt(s)
      case Some(m) =>
        var rest := SplitMarkers(s[|MarkerText(m)|..]);
        SplitMarkersShape(s[|MarkerText(m)|..]);
        MarkerAtShape(s);
        ShapedMarker("", m.kind, m.title, rest);
      case None =>
        var rest := SplitMarkers(s[1..]);
        SplitMarkersShape(s[1..]);
        ShapedText([s[0]] + rest[0], rest);
    }
  }

  lemma RebuildCons(c: char, p: string, tail: seq<string>)
    ensures Rebuild([[c] + p] + tail) == [c] + Rebuild([p] + tail)
  {
    var a := [[c] + p] + tail;
    var b := [p] + tail;
    if |tail| >= 2 {
      assert a[1] == tail[0] && a[2] == tail[1] && b[1] == tail[0] && b[2] == tail[1];
      assert a[3..] == tail[2..] && b[3..] == tail[2..];
      var x := MarkerText(Marker(tail[0], tail[1]));
      var r := Rebuild(tail[2..]);
      assert Rebuild(a) == [c] + p + x + r;
      assert Rebuild(b) == p + x + r;
    }
  }

  lemma RebuildMarker(m: Marker, rest: seq<string>)
    requires rest != []
    ensures Rebuild(["", m.kind, m.title] + rest) == MarkerText(m) + Rebuild(rest)
  {
    var parts := ["", m.kind, m.title] + rest;
    assert parts[3..] == rest;
    assert Marker(parts[1], parts[2]) == m;
  }

  /** Splitting loses nothing: the parts rebuild the text. */
  lemma {:induction false} SplitRebuild(s: string)
    ensures Rebuild(SplitMarkers(s)) == s
    decreases |s|
  {
    if s != [] {
      match MarkerAt(s)
      case Some(m) =>
        var n := |MarkerText(m)|;
        var rest := SplitMarkers(s[n..]);
        SplitRebuild(s[n..]);
        MarkerAtText(s);
        RebuildMarker(m, rest);
        assert s == s[..n] + s[n..];
      case None =>
        var rest := SplitMarkers(s[1..]);
        SplitRebuild(s[1..]);
        RebuildCons(s[0], rest[0], rest[1..]);
        assert SplitMarkers(s) == [[s[0]] + rest[0]] + rest[1..];
        assert [rest[0]] + rest[1..] == rest;
        assert s == [s[0]] + s[1..];
    }
  }

  /** A closing brace ends the run. */
  lemma {:induction false} TitleRunUpToBrace(u: string, v: string)
    requires '}' !in u
    ensures TitleRun(u + "}" + v) == u
  {
    if u != [] {
      assert (u + "}" + v)[1..] == u[1..] + "}" + v;
      TitleRunUpToBrace(u[1..], v);
      assert [u[0]] + u[1..] == u;
    }
  }

  /** A marker found in a prefix is found in the whole text. */
  lemma MarkerAtPrefix(p: string, s: string)
    requires |p| <= |s| && p == s[..|p|]
    requires MarkerAt(p).Some?
    ensures MarkerAt(s) == MarkerAt(p)
  {
    var t := TitleRun(p[9..]);
    assert p[9 + |t|] == '}';
    assert s[..2] == p[..2] && s[2..8] == p[2..8] && s[8] == p[8];
    assert s[9..] == t + "}" + s[9 + |t| + 1..];
    TitleRunUpToBrace(t, s[9 + |t| + 1..]);
    assert s[9 + |t| + 1] == p[9 + |t| + 1];
  }

  /** No marker starts anywhere in `t`. */
  predicate Unmarked(t: string) {
    forall i :: 0 <= i <= |t| ==> MarkerAt(t[i..]).None?
  }

  /** Every text part is free of markers. */
  predicate TextsUnmarked(parts: seq<string>) {
    forall k :: 0 <= k < |parts| && k % 3 == 0 ==> Unmarked(parts[k])
  }

  lemma TextsUnmarkedMarker(kind: string, title: string, rest: seq<string>)
    requires TextsUnmarked(rest)
    ensures TextsUnmarked(["", kind, title] + rest)
  {
    var parts := ["", kind, title] + rest;
    forall k | 3 <= k < |parts| && k % 3 == 0 ensures Unmarked(parts[k]) {
      assert parts[k] == rest[k - 3];
      assert (k - 3) % 3 == 0;
    }
  }

  lemma TextsUnmarkedText(head: string, rest: seq<string>)
    requires rest != [] && TextsUnmarked(rest) && Unmarked(head)
    ensures TextsUnmarked([head] + rest[1..])
  {
    var parts := [head] + rest[1..];
    assert forall k :: 1 <= k < |parts| ==> parts[k] == rest[k];
  }

  /** A character that does not start a marker, in front of text that holds
      none, gives text that holds none, as long as the whole is a prefix of
      text that does not start with a marker. */
  lemma UnmarkedCons(s: string, r: string)
    requires s != [] && MarkerAt(s).None?
    requires Unmarked(r)
    requires |r| < |s| && [s[0]] + r == s[..|r| + 1]
    ensures Unmarked([s[0]] + r)
  {
    var head := [s[0]] + r;
    forall i | 0 <= i <= |head| ensures MarkerAt(head[i..]).None? {
      if i == 0 {
        if MarkerAt(head).Some? {
          MarkerAtPrefix(head, s);
        }
      } else {
        assert head[i..] == r[i - 1..];
      }
    }
  }

  /** No text part holds a marker: every marker in the text was split off. */
  lemma {:induction false} TextPartsUnmarked(s: string)
    ensures TextsUnmarked(SplitMarkers(s))
    decreases |s|
  {
    if s == [] {
      assert Unmarked("");
    } else {
      match MarkerAt(s)
      case Some(m) =>
        var rest := SplitMarkers(s[|MarkerText(m)|..]);
        TextPartsUnmarked(s[|MarkerText(m)|..]);
        TextsUnmarkedMarker(m.kind, m.title, rest);
      case None =>
        var rest := SplitMarkers(s[1..]);
        TextPartsUnmarked(s[1..]);
        SplitMarkersHead(s[1..]);
        assert Unmarked(rest[0]);
        UnmarkedCons(s, rest[0]);
        TextsUnmarkedText([s[0]] + rest[0], rest);
    }
  }

  /** No marker starts inside a text part, reading on in the text that
      follows it: the split took every marker at the leftmost place it
      could. Stated on the first text part, then on the parts after the
      first marker. */
  predicate Leftmost(parts: seq<string>)
    decreases |parts|
  {
    parts != [] ==>
      && (forall i :: 0 <= i < |parts[0]| ==> MarkerAt(Rebuild(parts)[i..]).None?)
      && (|parts| > 3 ==> Leftmost(parts[3..]))
  }

  /** Read part by part: no marker starts inside any text part, in the
      text as it stands. */
  lemma {:induction false} LeftmostAt(parts: seq<string>, k: nat, i: nat)
    requires Leftmost(parts)
    requires k < |parts| && k % 3 == 0 && i < |parts[k]|
    ensures MarkerAt(Rebuild(parts[k..])[i..]).None?
    decreases k
  {
    if k == 0 {
      assert parts[0..] == parts;
    } else {
      assert parts[k..] == parts[3..][k - 3..];
      LeftmostAt(parts[3..], k - 3, i);
    }
  }

  /** A character where no marker starts, in front of leftmost parts,
      gives leftmost parts. */
  lemma LeftmostCons(s: string, rest: seq<string>)
    requires s != [] && MarkerAt(s).None?
    requires rest != [] && Leftmost(rest) && Rebuild(rest) == s[1..]
    requires Rebuild([[s[0]] + rest[0]] + rest[1..]) == s
    ensures Leftmost([[s[0]] + rest[0]] + rest[1..])
  {
    var parts := [[s[0]] + rest[0]] + rest[1..];
    forall i | 0 <= i < |parts[0]| ensures MarkerAt(Rebuild(parts)[i..]).None? {
      if i > 0 {
        assert s[i..] == s[1..][i - 1..];
      }
    }
    if |parts| > 3 {
      assert parts[3..] == rest[3..];
    }
  }

  /** The text parts of the scan start no marker, read in place. */
  lemma {:induction false} SplitLeftmost(s: string)
    ensures Leftmost(SplitMarkers(s))
    decreases |s|
  {
    if s != [] {
      match MarkerAt(s)
      case Some(m) =>
        var rest := SplitMarkers(s[|MarkerText(m)|..]);
        SplitLeftmost(s[|MarkerText(m)|..]);
        assert (["", m.kind, m.title] + rest)[3..] == rest;
      case None =>
        SplitLeftmost(s[1..]);
        SplitRebuild(s);
        SplitRebuild(s[1..]);
        LeftmostCons(s, SplitMarkers(s[1..]));
    }
  }

  /** The text of a well-formed marker starts with that marker. */
  lemma MarkerAtWritten(m: Marker, v: string)
    requires KindPart(m.kind) && TitlePart(m.title)
    ensures MarkerAt(MarkerText(m) + v) == Some(m)
  {
    var s := MarkerText(m) + v;
    assert s[..2] == "{{" && s[2..8] == m.kind && s[8] == ':';
    assert s[9..] == m.title + "}" + ("}" + v);
    TitleRunUpToBrace(m.title, "}" + v);
    assert s[9 + |m.title| + 1] == '}';
  }

  lemma ShapedSuffix(parts: seq<string>)
    requires Shaped(parts) && |parts| > 3
    ensures Shaped(parts[3..])
  {
    var rest := parts[3..];
    forall k | 0 <= k < |rest|
      ensures (k % 3 == 1 ==> KindPart(rest[k])) && (k % 3 == 2 ==> TitlePart(rest[k]))
    {
      assert rest[k] == parts[k + 3] && (k + 3) % 3 == k % 3;
    }
  }

  lemma ShapedDrop(parts: seq<string>)
    requires Shaped(parts) && parts[0] != ""
    ensures Shaped([parts[0][1..]] + parts[1..])
  {
    var tail := [parts[0][1..]] + parts[1..];
    assert forall k :: 1 <= k < |tail| ==> tail[k] == parts[k];
  }

  /** Dropping the first character of a non-empty first text part keeps
      the parts well formed and leftmost, and they rebuild the rest of the
      text, which does not start with a marker. */
  lemma DropFirstChar(parts: seq<string>)
    requires Shaped(parts) && Leftmost(parts) && parts[0] != ""
    ensures var tail := [parts[0][1..]] + parts[1..];
      && Shaped(tail) && Leftmost(tail)
      && Rebuild(parts) == [parts[0][0]] + Rebuild(tail)
      && MarkerAt(Rebuild(parts)).None?
  {
    var c := parts[0][0];
    var tail := [parts[0][1..]] + parts[1..];
    assert [c] + parts[0][1..] == parts[0];
    assert parts == [[c] + parts[0][1..]] + parts[1..];
    RebuildCons(c, parts[0][1..], parts[1..]);
    var r := Rebuild(tail);
    assert Rebuild(parts) == [c] + r;
    assert MarkerAt(Rebuild(parts)[0..]).None?;
    ShapedDrop(parts);
    forall i | 0 <= i < |tail[0]| ensures MarkerAt(r[i..]).None? {
      assert r[i..] == ([c] + r)[i + 1..];
    }
    if |tail| > 3 {
      assert tail[3..] == parts[3..];
    }
  }

  /** After an empty first text part, the text starts with the marker of
      the next two parts, and the parts after it rebuild the rest. */
  lemma DropFirstMarker(parts: seq<string>)
    requires Shaped(parts) && Leftmost(parts) && parts[0] == "" && |parts| > 1
    ensures var m := Marker(parts[1], parts[2]);
      && Shaped(parts[3..]) && Leftmost(parts[3..])
      && MarkerAt(Rebuild(parts)) == Some(m)
      && Rebuild(parts)[|MarkerText(m)|..] == Rebuild(parts[3..])
  {
    var m := Marker(parts[1], parts[2]);
    var rest := parts[3..];
    ShapedSuffix(parts);
    assert Rebuild(parts) == "" + MarkerText(m) + Rebuild(rest);
    assert "" + MarkerText(m) == MarkerText(m);
    MarkerAtWritten(m, Rebuild(rest));
  }

  /** A text that does not start with a marker splits as its first
      character in front of the split of the rest. */
  lemma UniqueAfterChar(s: string, parts: seq<string>, tail: seq<string>)
    requires s != [] && MarkerAt(s).None?
    requires parts != [] && parts[0] != [] && parts[0][0] == s[0]
    requires tail == [parts[0][1..]] + parts[1..] && tail == SplitMarkers(s[1..])
    ensures parts == SplitMarkers(s)
  {
    var rest := SplitMarkers(s[1..]);
    assert SplitMarkers(s) == [[s[0]] + rest[0]] + rest[1..];
    assert [s[0]] + tail[0] == parts[0];
    assert tail[1..] == parts[1..];
  }

  /** A text that starts with a marker splits as that marker in front of
      the split of the rest. */
  lemma UniqueAfterMarker(s: string, parts: seq<string>)
    requires |parts| > 3 && parts[0] == ""
    requires MarkerAt(s) == Some(Marker(parts[1], parts[2]))
    requires parts[3..] == SplitMarkers(s[|MarkerText(Marker(parts[1], parts[2]))|..])
    ensures parts == SplitMarkers(s)
  {
    var m := Marker(parts[1], parts[2]);
    assert SplitMarkers(s) == ["", m.kind, m.title] + SplitMarkers(s[|MarkerText(m)|..]);
    assert parts[..3] == ["", m.kind, m.title];
    assert parts == parts[..3] + parts[3..];
  }

  /** The scan is the only split into text, kind, title, ... that rebuilds
      the text and leaves no marker to the left of one it took. */
  lemma {:induction false} SplitMarkersUnique(s: string, parts: seq<string>)
    requires Shaped(parts) && Rebuild(parts) == s && Leftmost(parts)
    ensures parts == SplitMarkers(s)
    decreases |s|
  {
    if parts[0] != "" {
      var tail := [parts[0][1..]] + parts[1..];
      DropFirstChar(parts);
      assert s[1..] == Rebuild(tail) && s[0] == parts[0][0];
      SplitMarkersUnique(s[1..], tail);
      UniqueAfterChar(s, parts, tail);
    } else if |parts| > 1 {
      var m := Marker(parts[1], parts[2]);
      DropFirstMarker(parts);
      SplitMarkersUnique(s[|MarkerText(m)|..], parts[3..]);
      UniqueAfterMarker(s, parts);
    }
  }

  /** Text without an opening brace is a single part. */
  lemma {:induction false} SplitUnmarked(s: string)
    requires '{' !in s
    ensures SplitMarkers(s) == [s]
    decreases |s|
  {
    if s != [] {
      assert MarkerAt(s).None? by {
        if |s| >= 2 {
          assert s[..2][0] == s[0];
        }
      }
      SplitUnmarked(s[1..]);
      assert [s[0]] + s[1..] == s;
    }
  }
}
