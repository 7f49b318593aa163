/** Python string operations used by the editor: whitespace, strip, split,
    join, upper, prefix and suffix tests, and decimal rendering of integers.
    Strings are sequences of Unicode scalar values, as Python's `str` is. */
module Text {

  /** Python's `str.isspace()` for a single character. */
  predicate IsSpace(c: char) {
    || c == ' '
    || ('\t' <= c <= '\r')
    || ('\U{1c}' <= c <= '\U{1f}')
    || c == '\U{85}' || c == '\U{a0}' || c == '\U{1680}'
    || ('\U{2000}' <= c <= '\U{200a}')
    || c == '\U{2028}' || c == '\U{2029}' || c == '\U{202f}' || c == '\U{205f}' || c == '\U{3000}'
  }

  predicate NoSpace(s: string) {
    forall i :: 0 <= i < |s| ==> !IsSpace(s[i])
  }

  predicate AllSpace(s: string) {
    forall i :: 0 <= i < |s| ==> IsSpace(s[i])
  }

  /** `str.upper()` restricted to the letters whose upper case is one
      character of the same block: ASCII a-z and the Latin-1 letters
      U+00E0..U+00FE except the division sign. */
  function UpperChar(c: char): char {
    if 'a' <= c <= 'z' || ('\U{e0}' <= c <= '\U{fe}' && c != '\U{f7}') then (c as int - 32) as char else c
  }

  function Upper(s: string): (r: string)
    ensures |r| == |s|
  {
    if s == [] then [] else [UpperChar(s[0])] + Upper(s[1..])
  }

  /** `Upper` works character by character. */
  lemma {:induction false} UpperAt(s: string)
    ensures forall i :: 0 <= i < |s| ==> Upper(s)[i] == UpperChar(s[i])
  {
    if s != [] {
      UpperAt(s[1..]);
      assert forall i :: 1 <= i < |s| ==> Upper(s)[i] == Upper(s[1..])[i - 1];
    }
  }

  lemma {:induction false} UpperAppend(a: string, b: string)
    ensures Upper(a + b) == Upper(a) + Upper(b)
  {
    if a == [] {
      assert a + b == b;
    } else {
      assert (a + b)[1..] == a[1..] + b;
      UpperAppend(a[1..], b);
    }
  }

  /** Number of occurrences of `c` in `s`. */
  function Count(s: string, c: char): nat {
    if s == [] then 0 else (if s[0] == c then 1 else 0) + Count(s[1..], c)
  }

  lemma CountAppend(a: string, b: string, c: char)
    ensures Count(a + b, c) == Count(a, c) + Count(b, c)
  {
    if a != [] {
      assert (a + b)[1..] == a[1..] + b;
      CountAppend(a[1..], b, c);
    } else {
      assert a + b == b;
    }
  }

  lemma CountAbsent(s: string, c: char)
    requires c !in s
    ensures Count(s, c) == 0
  {
    if s != [] {
      CountAbsent(s[1..], c);
    }
  }

  /** An upper-cased string holds the separator `c` exactly where the
      original did, for any `c` that is not a lower-case letter. */
  lemma UpperKeeps(s: string, c: char)
    requires UpperChar(c) == c
    requires forall d :: UpperChar(d) == c ==> d == c
    ensures c in Upper(s) <==> c in s
  {
    UpperAt(s);
    if c in s {
      var i :| 0 <= i < |s| && s[i] == c;
      assert Upper(s)[i] == c;
    }
    if c in Upper(s) {
      var i :| 0 <= i < |s| && Upper(s)[i] == c;
      assert s[i] == c;
    }
  }

  /** `f` applied to every element, as a list comprehension does. */
  function Map<A, B>(f: A -> B, xs: seq<A>): (r: seq<B>)
    ensures |r| == |xs|
  {
    if xs == [] then [] else [f(xs[0])] + Map(f, xs[1..])
  }

  lemma {:induction false} MapAt<A, B>(f: A -> B, xs: seq<A>)
    ensures forall k :: 0 <= k < |xs| ==> Map(f, xs)[k] == f(xs[k])
  {
    if xs != [] {
      MapAt(f, xs[1..]);
      assert forall k :: 1 <= k < |xs| ==> Map(f, xs)[k] == Map(f, xs[1..])[k - 1];
    }
  }

  /** The blocks written one after another. */
  function Concat(blocks: seq<string>): string {
    if blocks == [] then "" else blocks[0] + Concat(blocks[1..])
  }

  /** Python's `sep.join(parts)`. */
  function Join(parts: seq<string>, sep: string): string {
    if |parts| == 0 then ""
    else if |parts| == 1 then parts[0]
    else parts[0] + sep + Join(parts[1..], sep)
  }

  lemma JoinPrepend(x: char, p: string, ps: seq<string>, sep: string)
    ensures Join([[x] + p] + ps, sep) == [x] + Join([p] + ps, sep)
  {
    if ps != [] {
      assert ([[x] + p] + ps)[1..] == ps;
      assert ([p] + ps)[1..] == ps;
    }
  }

  lemma JoinCons(p: string, ps: seq<string>, sep: string)
    requires ps != []
    ensures Join([p] + ps, sep) == p + sep + Join(ps, sep)
  {
    assert ([p] + ps)[1..] == ps;
  }

  /** `Join` of a non-empty list starts with its first part. */
  lemma JoinHead(parts: seq<string>, sep: string)
    requires parts != []
    ensures |parts[0]| <= |Join(parts, sep)|
    ensures Join(parts, sep)[..|parts[0]|] == parts[0]
  {
  }

  /** `c` is absent from a join when it is absent from the parts and the
      separator. */
  lemma {:induction false} JoinFree(parts: seq<string>, sep: string, c: char)
    requires forall k :: 0 <= k < |parts| ==> c !in parts[k]
    requires c !in sep
    ensures c !in Join(parts, sep)
  {
    if |parts| > 1 {
      JoinFree(parts[1..], sep, c);
    }
  }

  /** Joining parts free of `c` with a separator holding one `c` yields one
      `c` per gap between parts. */
  lemma {:induction false} CountJoin(parts: seq<string>, sep: string, c: char)
    requires parts != []
    requires forall k :: 0 <= k < |parts| ==> c !in parts[k]
    requires Count(sep, c) == 1
    ensures Count(Join(parts, sep), c) == |parts| - 1
  {
    CountAbsent(parts[0], c);
    if |parts| > 1 {
      CountJoin(parts[1..], sep, c);
      CountAppend(parts[0] + sep, Join(parts[1..], sep), c);
      CountAppend(parts[0], sep, c);
    }
  }

  /** Python's `s.split(sep)` for a one-character separator: the parts
      between separators, empty ones included. */
  function Split(s: string, sep: char): (parts: seq<string>)
    ensures parts != []
    decreases |s|
  {
    if s == [] then [""]
    else
      var rest := Split(s[1..], sep);
      if s[0] == sep then [""] + rest else [[s[0]] + rest[0]] + rest[1..]
  }

  /** One part more than there are separators; no part holds the separator;
      joining the parts with it gives back the string. */
  lemma {:induction false} SplitParts(s: string, sep: char)
    ensures |Split(s, sep)| == Count(s, sep) + 1
    ensures forall k :: 0 <= k < |Split(s, sep)| ==> sep !in Split(s, sep)[k]
    ensures Join(Split(s, sep), [sep]) == s
    decreases |s|
  {
    if s != [] {
      var rest := Split(s[1..], sep);
      SplitParts(s[1..], sep);
      if s[0] == sep {
        JoinCons("", rest, [sep]);
        assert forall k :: 1 <= k < |Split(s, sep)| ==> Split(s, sep)[k] == rest[k - 1];
      } else {
        JoinPrepend(s[0], rest[0], rest[1..], [sep]);
        assert [rest[0]] + rest[1..] == rest;
        assert forall k :: 1 <= k < |Split(s, sep)| ==> Split(s, sep)[k] == rest[k];
      }
    }
  }

  /** A string without the separator splits into itself alone. */
  lemma SplitAbsent(s: string, sep: char)
    requires sep !in s
    ensures Split(s, sep) == [s]
  {
    CountAbsent(s, sep);
    SplitParts(s, sep);
    assert Join(Split(s, sep), [sep]) == Split(s, sep)[0];
  }

  /** Python's `str.lstrip()` and `str.rstrip()`. */
  function LStrip(s: string): (r: string)
    ensures |r| <= |s|
    decreases |s|
  {
    if s != [] && IsSpace(s[0]) then LStrip(s[1..]) else s
  }

  function RStrip(s: string): (r: string)
    ensures |r| <= |s|
    decreases |s|
  {
    if s != [] && IsSpace(s[|s| - 1]) then RStrip(s[..|s| - 1]) else s
  }

  /** `lstrip` keeps a suffix that does not start with white space, and
      drops only white space. */
  lemma {:induction false} LStripShape(s: string)
    ensures LStrip(s) == s[|s| - |LStrip(s)|..]
    ensures LStrip(s) != [] ==> !IsSpace(LStrip(s)[0])
    ensures AllSpace(s[..|s| - |LStrip(s)|])
    decreases |s|
  {
    if s != [] && IsSpace(s[0]) {
      var t := s[1..];
      LStripShape(t);
      var n := |t| - |LStrip(t)|;
      assert |s| - |LStrip(s)| == n + 1;
      assert t[n..] == s[n + 1..];
      var dropped, rest := s[..n + 1], t[..n];
      forall i | 0 <= i < |dropped| ensures IsSpace(dropped[i]) {
        if i > 0 {
          assert dropped[i] == rest[i - 1];
        }
      }
    }
  }

  /** `rstrip` keeps a prefix that does not end with white space, and
      drops only white space. */
  lemma {:induction false} RStripShape(s: string)
    ensures RStrip(s) == s[..|RStrip(s)|]
    ensures RStrip(s) != [] ==> !IsSpace(RStrip(s)[|RStrip(s)| - 1])
    ensures AllSpace(s[|RStrip(s)|..])
    decreases |s|
  {
    if s != [] && IsSpace(s[|s| - 1]) {
      var t := s[..|s| - 1];
      RStripShape(t);
      var n := |RStrip(t)|;
      assert t[..n] == s[..n];
      var dropped, rest := s[n..], t[n..];
      forall i | 0 <= i < |dropped| ensures IsSpace(dropped[i]) {
        if i < |rest| {
          assert dropped[i] == rest[i];
        }
      }
    }
  }

  /** Python's `str.strip()`. */
  function Strip(s: string): string {
    RStrip(LStrip(s))
  }

  /** A non-empty stripped string has no white space at either end. */
  lemma StripEnds(s: string)
    ensures Strip(s) != [] ==> !IsSpace(Strip(s)[0]) && !IsSpace(Strip(s)[|Strip(s)| - 1])
  {
    var l := LStrip(s);
    LStripShape(s);
    RStripShape(l);
    if RStrip(l) != [] {
      assert RStrip(l)[0] == l[0];
    }
  }

  /** A string is blank for Python (`not s.strip()`) exactly when all of its
      characters are white space. */
  lemma StripEmpty(s: string)
    ensures Strip(s) == [] <==> AllSpace(s)
  {
    var l := LStrip(s);
    LStripShape(s);
    RStripShape(l);
    assert l != [] ==> !IsSpace(s[|s| - |l|]);
    assert l == [] ==> s[..|s| - |l|] == s;
    assert Strip(s) == [] ==> l[|RStrip(l)|..] == l;
  }

  /** Stripping removes characters and adds none. */
  lemma StripFree(s: string, c: char)
    requires c !in s
    ensures c !in Strip(s)
  {
    var l := LStrip(s);
    LStripShape(s);
    RStripShape(l);
  }

  lemma StripPadded(lead: string, w: string, trail: string)
    requires AllSpace(lead) && AllSpace(trail)
    requires w != [] && !IsSpace(w[0]) && !IsSpace(w[|w| - 1])
    ensures Strip(lead + w + trail) == w
  {
    var u := w + trail;
    assert lead + w + trail == lead + u;
    LStripSpaces(lead, u);
    RStripSpaces(w, trail);
  }

  lemma {:induction false} LStripSpaces(lead: string, rest: string)
    requires AllSpace(lead)
    requires rest == [] || !IsSpace(rest[0])
    ensures LStrip(lead + rest) == rest
    decreases |lead|
  {
    if lead != [] {
      assert (lead + rest)[1..] == lead[1..] + rest;
      LStripSpaces(lead[1..], rest);
    } else {
      assert lead + rest == rest;
    }
  }

  lemma {:induction false} RStripSpaces(rest: string, trail: string)
    requires AllSpace(trail)
    requires rest == [] || !IsSpace(rest[|rest| - 1])
    ensures RStrip(rest + trail) == rest
    decreases |trail|
  {
    if trail != [] {
      assert (rest + trail)[..|rest + trail| - 1] == rest + trail[..|trail| - 1];
      RStripSpaces(rest, trail[..|trail| - 1]);
    } else {
      assert rest + trail == rest;
    }
  }

  /** The longest prefix without white space. */
  function TakeWord(s: string): (w: string)
    ensures |w| <= |s|
    ensures s != [] && !IsSpace(s[0]) ==> w != []
  {
    if s == [] || IsSpace(s[0]) then "" else [s[0]] + TakeWord(s[1..])
  }

  lemma {:induction false} TakeWordShape(s: string)
    ensures TakeWord(s) == s[..|TakeWord(s)|]
    ensures NoSpace(TakeWord(s))
    ensures |TakeWord(s)| < |s| ==> IsSpace(s[|TakeWord(s)|])
  {
    if s != [] && !IsSpace(s[0]) {
      TakeWordShape(s[1..]);
      var w := TakeWord(s[1..]);
      assert s[..|w| + 1] == [s[0]] + s[1..][..|w|];
      assert forall i :: 1 <= i < |TakeWord(s)| ==> TakeWord(s)[i] == w[i - 1];
    }
  }

  /** Python's `s.split()` with no argument: the maximal runs of
      non-white-space characters, in order. */
  function Words(s: string): (ws: seq<string>)
    decreases |s|
  {
    if s == [] then []
    else if IsSpace(s[0]) then Words(s[1..])
    else
      var w := TakeWord(s);
      [w] + Words(s[|w|..])
  }

  lemma {:induction false} WordsShape(s: string)
    ensures forall k :: 0 <= k < |Words(s)| ==> Words(s)[k] != [] && NoSpace(Words(s)[k])
    decreases |s|
  {
    if s == [] {
    } else if IsSpace(s[0]) {
      WordsShape(s[1..]);
    } else {
      var w := TakeWord(s);
      TakeWordShape(s);
      var v := s[|w|..];
      WordsShape(v);
      forall k | 0 <= k < |Words(s)| ensures Words(s)[k] != [] && NoSpace(Words(s)[k]) {
        if k > 0 {
          assert Words(s)[k] == Words(v)[k - 1];
        }
      }
    }
  }

  lemma {:induction false} WordsOfSpaces(s: string)
    ensures Words(s) == [] <==> AllSpace(s)
    decreases |s|
  {
    if s != [] {
      WordsOfSpaces(s[1..]);
      assert AllSpace(s) <==> IsSpace(s[0]) && AllSpace(s[1..]);
    }
  }

  lemma {:induction false} TakeWordPrefix(w: string, rest: string)
    requires NoSpace(w)
    requires rest == [] || IsSpace(rest[0])
    ensures TakeWord(w + rest) == w
    decreases |w|
  {
    if w != [] {
      assert (w + rest)[1..] == w[1..] + rest;
      TakeWordPrefix(w[1..], rest);
    } else {
      assert w + rest == rest;
    }
  }

  /** Words are pieces of the string: they hold no character it lacks. */
  lemma {:induction false} WordsFree(s: string, c: char)
    requires c !in s
    ensures forall k :: 0 <= k < |Words(s)| ==> c !in Words(s)[k]
    decreases |s|
  {
    if s == [] {
    } else if IsSpace(s[0]) {
      WordsFree(s[1..], c);
    } else {
      var w := TakeWord(s);
      TakeWordShape(s);
      var v := s[|w|..];
      WordsFree(v, c);
      forall k | 0 <= k < |Words(s)| ensures c !in Words(s)[k] {
        if k > 0 {
          assert Words(s)[k] == Words(v)[k - 1];
        }
      }
    }
  }

  /** Leading white space does not change the words. */
  lemma {:induction false} WordsLeading(lead: string, u: string)
    requires AllSpace(lead)
    ensures Words(lead + u) == Words(u)
    decreases |lead|
  {
    if lead != [] {
      assert (lead + u)[1..] == lead[1..] + u;
      WordsLeading(lead[1..], u);
    } else {
      assert lead + u == u;
    }
  }

  /** Trailing white space does not change the words. */
  lemma {:induction false} WordsTrailing(t: string, sp: string)
    requires AllSpace(sp)
    ensures Words(t + sp) == Words(t)
    decreases |t|
  {
    if t == [] {
      assert t + sp == sp;
      WordsOfSpaces(sp);
    } else if IsSpace(t[0]) {
      assert (t + sp)[1..] == t[1..] + sp;
      WordsTrailing(t[1..], sp);
    } else {
      var w := TakeWord(t);
      TakeWordShape(t);
      var v := t[|w|..];
      assert t == w + v;
      assert t + sp == w + (v + sp);
      TakeWordPrefix(w, v + sp);
      assert (t + sp)[|w|..] == v + sp;
      WordsTrailing(v, sp);
    }
  }

  /** Stripping does not change the words. */
  lemma WordsStrip(s: string)
    ensures Words(Strip(s)) == Words(s)
  {
    WordsLStrip(s);
    WordsRStrip(LStrip(s));
  }

  lemma WordsLStrip(s: string)
    ensures Words(LStrip(s)) == Words(s)
  {
    var l := LStrip(s);
    LStripShape(s);
    var lead := s[..|s| - |l|];
    assert s == lead + l;
    WordsLeading(lead, l);
  }

  lemma WordsRStrip(s: string)
    ensures Words(RStrip(s)) == Words(s)
  {
    var r := RStrip(s);
    RStripShape(s);
    var trail := s[|r|..];
    assert s == r + trail;
    WordsTrailing(r, trail);
  }

  /** Words separated by single spaces are split back into the same words. */
  lemma {:induction false} WordsJoin(ws: seq<string>)
    requires forall k :: 0 <= k < |ws| ==> ws[k] != [] && NoSpace(ws[k])
    ensures Words(Join(ws, " ")) == ws
  {
    if ws != [] {
      var w := ws[0];
      var rest := if |ws| == 1 then "" else " " + Join(ws[1..], " ");
      assert Join(ws, " ") == w + rest;
      TakeWordPrefix(w, rest);
      assert (w + rest)[|w|..] == rest;
      assert Words(w + rest) == [w] + Words(rest);
      if |ws| == 1 {
        assert ws == [w];
      } else {
        WordsJoin(ws[1..]);
        WordsLeading(" ", Join(ws[1..], " "));
        assert ws == [w] + ws[1..];
      }
    }
  }

  /** A string with exactly one word strips to that word. */
  lemma {:induction false} StripOneWord(s: string)
    requires |Words(s)| == 1
    ensures Strip(s) == Words(s)[0]
    decreases |s|
  {
    if IsSpace(s[0]) {
      var t := s[1..];
      assert Words(s) == Words(t);
      assert LStrip(s) == LStrip(t);
      StripOneWord(t);
    } else {
      var w := TakeWord(s);
      var rest := s[|w|..];
      TakeWordShape(s);
      assert Words(s) == [w] + Words(rest);
      WordsOfSpaces(rest);
      assert s == w + rest;
      assert LStrip(s) == s;
      RStripSpaces(w, rest);
    }
  }

  function StartsWith(s: string, prefix: string): bool {
    |prefix| <= |s| && s[..|prefix|] == prefix
  }

  /** A prefix of a prefix is a prefix. */
  lemma StartsWithConcat(s: string, p: string, q: string)
    requires StartsWith(s, p + q)
    ensures StartsWith(s, p)
  {
    assert (p + q)[..|p|] == p;
    assert s[..|p|] == s[..|p + q|][..|p|];
  }

  function EndsWith(s: string, suffix: string): bool {
    |suffix| <= |s| && s[|s| - |suffix|..] == suffix
  }

  lemma EndsWithAppend(a: string, b: string)
    ensures EndsWith(a + b, b)
  {
    assert (a + b)[|a + b| - |b|..] == b;
  }

  function DigitChar(d: nat): (c: char)
    requires d < 10
    ensures '0' <= c <= '9'
  {
    ('0' as int + d) as char
  }

  /** The decimal form of an integer holds only digits and the minus sign. */
  lemma IntToStringFree(i: int, c: char)
    requires c != '-' && !('0' <= c <= '9')
    ensures c !in IntToString(i)
  {
    var r := IntToString(i);
    if i < 0 {
      assert forall k :: 1 <= k < |r| ==> r[k] == NatToString(-i)[k - 1];
    }
  }

  /** The number a string of decimal digits spells. */
  function DigitsValue(s: string): int
    decreases |s|
  {
    if s == [] then 0 else DigitsValue(s[..|s| - 1]) * 10 + (s[|s| - 1] as int - '0' as int)
  }

  /** Python's `str(n)` for a natural number: its decimal digits. */
  function NatToString(n: nat): (r: string)
    ensures r != []
    ensures forall i :: 0 <= i < |r| ==> '0' <= r[i] <= '9'
  {
    if n < 10 then [DigitChar(n)] else NatToString(n / 10) + [DigitChar(n % 10)]
  }

  /** The digits of `str(n)` spell `n`, with no leading zero. */
  lemma {:induction false} NatToStringSpells(n: nat)
    ensures DigitsValue(NatToString(n)) == n
    ensures NatToString(n)[0] == '0' <==> n == 0
    ensures n == 0 ==> NatToString(n) == "0"
  {
    var r := NatToString(n);
    if n < 10 {
      assert r[..0] == [];
    } else {
      NatToStringSpells(n / 10);
      assert r[..|r| - 1] == NatToString(n / 10);
    }
  }

  /** Python's `str(i)` for an integer. */
  function IntToString(i: int): (r: string)
    ensures r != []
    ensures i >= 0 ==> r == NatToString(i)
    ensures i < 0 ==> r == "-" + NatToString(-i)
  {
    if i < 0 then "-" + NatToString(-i) else NatToString(i)
  }

  /** `str(i)` has a minus sign exactly when `i` is negative, followed by
      digits that spell the magnitude of `i` with no leading zero. */
  lemma IntToStringSpells(i: int)
    ensures var r := IntToString(i);
      && (r[0] == '-' <==> i < 0)
      && (i >= 0 ==> DigitsValue(r) == i && (r[0] == '0' ==> r == "0"))
      && (i < 0 ==> |r| >= 2 && DigitsValue(r[1..]) == -i && r[1] != '0')
  {
    var r := IntToString(i);
    if i < 0 {
      NatToStringSpells(-i);
      assert r[1..] == NatToString(-i);
    } else {
      NatToStringSpells(i);
    }
  }
}
