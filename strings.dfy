/** The few Python `str` operations the bookmaker relies on, over `seq<char>`.
    Whitespace is Python's `str.isspace`; lower- and upper-casing are ASCII only. */
module Strings {

  /** Python's `str.isspace` for a single character. */
  predicate IsSpace(c: char) {
    c == ' ' || ('\t' <= c <= '\r') || ('\U{1c}' <= c <= '\U{1f}') || c == '\U{85}'
    || c == '\U{a0}' || c == '\U{1680}' || ('\U{2000}' <= c <= '\U{200a}')
    || c == '\U{2028}' || c == '\U{2029}' || c == '\U{202f}' || c == '\U{205f}' || c == '\U{3000}'
  }

  predicate AllSpace(s: string) {
    forall i :: 0 <= i < |s| ==> IsSpace(s[i])
  }

  predicate NoSpace(s: string) {
    forall i :: 0 <= i < |s| ==> !IsSpace(s[i])
  }

  predicate StartsWith(s: string, p: string) {
    |p| <= |s| && s[..|p|] == p
  }

  predicate Contains(s: string, c: char) {
    exists i :: 0 <= i < |s| && s[i] == c
  }

  /** `s.lstrip()`: the suffix of `s` left after its leading whitespace. */
  function LStrip(s: string): (r: string)
    ensures |r| <= |s|
  {
    if s != [] && IsSpace(s[0]) then LStrip(s[1..]) else s
  }

  /** What `lstrip` drops is whitespace, and what it keeps starts with none. */
  lemma {:induction false} LStripSpec(s: string)
    ensures LStrip(s) == s[|s| - |LStrip(s)|..]
    ensures AllSpace(s[..|s| - |LStrip(s)|])
    ensures LStrip(s) == [] || !IsSpace(LStrip(s)[0])
  {
    if s != [] && IsSpace(s[0]) {
      LStripSpec(s[1..]);
      var n := |s| - |LStrip(s)|;
      assert s[..n] == [s[0]] + s[1..][..n - 1];
    }
  }

  /** Leading whitespace is what `lstrip` removes. */
  lemma {:induction false} LStripLeading(lead: string, x: string)
    requires AllSpace(lead) && (x == [] || !IsSpace(x[0]))
    ensures LStrip(lead + x) == x
  {
    if lead == [] {
      assert lead + x == x;
    } else {
      assert (lead + x)[1..] == lead[1..] + x;
      LStripLeading(lead[1..], x);
    }
  }

  /** `s.rstrip()`: the prefix of `s` left before its trailing whitespace. */
  function RStrip(s: string): (r: string)
    ensures |r| <= |s| && r == s[..|r|]
  {
    if s != [] && IsSpace(s[|s| - 1]) then RStrip(s[..|s| - 1]) else s
  }

  /** What `rstrip` drops is whitespace, and what it keeps ends with none. */
  lemma {:induction false} RStripSpec(s: string)
    ensures AllSpace(s[|RStrip(s)|..])
    ensures RStrip(s) == [] || !IsSpace(RStrip(s)[|RStrip(s)| - 1])
  {
    if s != [] && IsSpace(s[|s| - 1]) {
      RStripSpec(s[..|s| - 1]);
      var n := |RStrip(s)|;
      assert s[n..] == s[..|s| - 1][n..] + [s[|s| - 1]];
    }
  }

  /** Trailing whitespace is what `rstrip` removes. */
  lemma {:induction false} RStripTrailing(x: string, trail: string)
    requires AllSpace(trail) && (x == [] || !IsSpace(x[|x| - 1]))
    ensures RStrip(x + trail) == x
    decreases |trail|
  {
    if trail == [] {
      assert x + trail == x;
    } else {
      assert (x + trail)[..|x + trail| - 1] == x + trail[..|trail| - 1];
      RStripTrailing(x, trail[..|trail| - 1]);
    }
  }

  /** `s.strip()`: `s` without its leading and trailing whitespace. */
  function Strip(s: string): (r: string)
    ensures |r| <= |s|
  {
    RStrip(LStrip(s))
  }

  /** A stripped text neither starts nor ends with whitespace. */
  lemma StripSpec(s: string)
    ensures Strip(s) == [] || (!IsSpace(Strip(s)[0]) && !IsSpace(Strip(s)[|Strip(s)| - 1]))
  {
    var l := LStrip(s);
    LStripSpec(s);
    RStripSpec(l);
    var r := RStrip(l);
    if r != [] {
      assert r[0] == l[0];
    }
  }

  /** Whitespace in front of a text changes nothing about its `lstrip`. */
  lemma {:induction false} LStripAfterSpace(lead: string, y: string)
    requires AllSpace(lead)
    ensures LStrip(lead + y) == LStrip(y)
    decreases |lead|
  {
    if lead == [] {
      assert lead + y == y;
    } else {
      assert (lead + y)[1..] == lead[1..] + y;
      LStripAfterSpace(lead[1..], y);
    }
  }

  /** Whitespace after a text changes nothing about its `rstrip`. */
  lemma {:induction false} RStripBeforeSpace(y: string, trail: string)
    requires AllSpace(trail)
    ensures RStrip(y + trail) == RStrip(y)
    decreases |trail|
  {
    if trail == [] {
      assert y + trail == y;
    } else {
      assert (y + trail)[..|y + trail| - 1] == y + trail[..|trail| - 1];
      RStripBeforeSpace(y, trail[..|trail| - 1]);
    }
  }

  /** Padding a text with whitespace on either side changes nothing about its `strip`. */
  lemma StripPadded(lead: string, x: string, trail: string)
    requires AllSpace(lead) && AllSpace(trail)
    ensures Strip(lead + x + trail) == Strip(x)
  {
    assert lead + x + trail == lead + (x + trail);
    LStripAfterSpace(lead, x + trail);
    var l := LStrip(x);
    LStripSpec(x);
    var n := |x| - |l|;
    assert x + trail == x[..n] + (l + trail);
    if l == [] {
      assert AllSpace(x + trail);
      LStripLeading(x + trail, []);
      assert x + trail + [] == x + trail;
    } else {
      assert (l + trail)[0] == l[0];
      LStripLeading(x[..n], l + trail);
      RStripBeforeSpace(l, trail);
    }
  }

  /** `s.lstrip(c)` for one character `c`. */
  function LStripChar(s: string, c: char): (r: string)
    ensures |r| <= |s|
  {
    if s != [] && s[0] == c then LStripChar(s[1..], c) else s
  }

  /** `s.lstrip(c)` drops the leading run of `c` and keeps the rest. */
  lemma {:induction false} LStripCharSpec(s: string, c: char)
    ensures LStripChar(s, c) == s[|s| - |LStripChar(s, c)|..]
    ensures forall i :: 0 <= i < |s| - |LStripChar(s, c)| ==> s[i] == c
    ensures LStripChar(s, c) == [] || LStripChar(s, c)[0] != c
  {
    if s != [] && s[0] == c {
      LStripCharSpec(s[1..], c);
      assert s[1..][|s| - 1 - |LStripChar(s, c)|..] == s[|s| - |LStripChar(s, c)|..];
    }
  }

  /** ASCII `lower()` of one character. */
  function Lower(c: char): (d: char)
    ensures 'A' <= c <= 'Z' ==> 'a' <= d <= 'z' && d as int == c as int + 32
    ensures !('A' <= c <= 'Z') ==> d == c
  {
    if 'A' <= c <= 'Z' then (c as int + 32) as char else c
  }

  /** ASCII `upper()` of one character. */
  function Upper(c: char): (d: char)
    ensures 'a' <= c <= 'z' ==> 'A' <= d <= 'Z' && d as int == c as int - 32
    ensures !('a' <= c <= 'z') ==> d == c
  {
    if 'a' <= c <= 'z' then (c as int - 32) as char else c
  }

  /** ASCII `lower()` (standing in for `casefold()`) of a string. */
  function LowerStr(s: string): (r: string)
    ensures |r| == |s| && forall i :: 0 <= i < |s| ==> r[i] == Lower(s[i])
  {
    seq(|s|, i requires 0 <= i < |s| => Lower(s[i]))
  }

  /** `s.replace(a, b)` for single characters `a` and `b`. */
  function ReplaceChar(s: string, a: char, b: char): (r: string)
    ensures |r| == |s|
    ensures forall i :: 0 <= i < |s| ==> r[i] == if s[i] == a then b else s[i]
  {
    seq(|s|, i requires 0 <= i < |s| => if s[i] == a then b else s[i])
  }

  /** `sep.join(parts)`. */
  function Join(parts: seq<string>, sep: string): string {
    if parts == [] then ""
    else if |parts| == 1 then parts[0]
    else parts[0] + sep + Join(parts[1..], sep)
  }

  /** Joining one more part appends the separator and the part. */
  lemma {:induction false} JoinSnoc(parts: seq<string>, x: string, sep: string)
    requires parts != []
    ensures Join(parts + [x], sep) == Join(parts, sep) + sep + x
  {
    if |parts| == 1 {
      assert (parts + [x])[1..] == [x];
    } else {
      assert (parts + [x])[1..] == parts[1..] + [x];
      JoinSnoc(parts[1..], x, sep);
    }
  }

  /** Concatenation of a sequence of strings. */
  function Concat(parts: seq<string>): string {
    if parts == [] then "" else Concat(parts[..|parts| - 1]) + parts[|parts| - 1]
  }

  /** Length of the longest prefix of `s` without whitespace. */
  function WordLength(s: string): (n: nat)
    ensures n <= |s| && NoSpace(s[..n]) && (n == |s| || IsSpace(s[n]))
  {
    if s == [] || IsSpace(s[0]) then 0 else 1 + WordLength(s[1..])
  }

  /** The first word of `w + rest` is `w` when `rest` starts with whitespace. */
  lemma {:induction false} WordLengthOf(w: string, rest: string)
    requires NoSpace(w) && (rest == [] || IsSpace(rest[0]))
    ensures WordLength(w + rest) == |w|
  {
    if w == [] {
      assert w + rest == rest;
    } else {
      assert (w + rest)[1..] == w[1..] + rest;
      WordLengthOf(w[1..], rest);
    }
  }

  /** `s.split()` with no separator: the maximal runs of non-whitespace characters. */
  function Words(s: string): (ws: seq<string>)
    ensures forall k :: 0 <= k < |ws| ==> ws[k] != [] && NoSpace(ws[k])
    decreases |s|
  {
    var t := LStrip(s);
    if t == [] then []
    else
      var n := WordLength(t);
      var w := t[..n];
      LStripSpec(s);
      assert w != [] && NoSpace(w);
      var rest := Words(t[n..]);
      WordsCons(w, rest);
      [w] + rest
  }

  /** `split()` skips the leading whitespace, takes the maximal run of
      non-whitespace after it as the first word, and splits the rest. */
  lemma WordsFirst(lead: string, w: string, rest: string)
    requires AllSpace(lead) && w != [] && NoSpace(w) && (rest == [] || IsSpace(rest[0]))
    ensures Words(lead + w + rest) == [w] + Words(rest)
  {
    assert lead + w + rest == lead + (w + rest);
    LStripLeading(lead, w + rest);
    WordLengthOf(w, rest);
    assert (w + rest)[..|w|] == w && (w + rest)[|w|..] == rest;
  }

  /** A text of whitespace alone has no words. */
  lemma WordsOfSpace(s: string)
    requires AllSpace(s)
    ensures Words(s) == []
  {
    LStripLeading(s, []);
    assert s + [] == s;
  }

  lemma WordsCons(w: string, rest: seq<string>)
    requires w != [] && NoSpace(w)
    requires forall k :: 0 <= k < |rest| ==> rest[k] != [] && NoSpace(rest[k])
    ensures forall k :: 0 <= k < |[w] + rest| ==> ([w] + rest)[k] != [] && NoSpace(([w] + rest)[k])
  {
  }

  lemma {:induction false} ConcatCons(a: string, rest: seq<string>)
    ensures Concat([a] + rest) == a + Concat(rest)
    decreases |rest|
  {
    if rest != [] {
      var last := rest[|rest| - 1];
      assert ([a] + rest)[..|rest|] == [a] + rest[..|rest| - 1];
      ConcatCons(a, rest[..|rest| - 1]);
    } else {
      assert [a] + rest == [a];
    }
  }

  lemma {:induction false} ConcatAppend(a: seq<string>, b: seq<string>)
    ensures Concat(a + b) == Concat(a) + Concat(b)
    decreases |b|
  {
    if b == [] {
      assert a + b == a;
    } else {
      assert (a + b)[..|a + b| - 1] == a + b[..|b| - 1];
      ConcatAppend(a, b[..|b| - 1]);
    }
  }

  /** Python's `<` on strings: lexicographic order by code point. */
  predicate LexLt(a: string, b: string) {
    b != [] && (a == [] || a[0] < b[0] || (a[0] == b[0] && LexLt(a[1..], b[1..])))
  }

  lemma {:induction false} LexLtIrreflexive(a: string)
    ensures !LexLt(a, a)
  {
    if a != [] {
      LexLtIrreflexive(a[1..]);
    }
  }

  lemma {:induction false} LexLtTransitive(a: string, b: string, c: string)
    requires LexLt(a, b) && LexLt(b, c)
    ensures LexLt(a, c)
  {
    if a != [] && a[0] == b[0] && b[0] == c[0] {
      LexLtTransitive(a[1..], b[1..], c[1..]);
    }
  }

  lemma {:induction false} LexLtTotal(a: string, b: string)
    ensures a == b || LexLt(a, b) || LexLt(b, a)
  {
    if a != [] && b != [] && a[0] == b[0] {
      LexLtTotal(a[1..], b[1..]);
      if a[1..] == b[1..] {
        assert a == [a[0]] + a[1..] && b == [b[0]] + b[1..];
      }
    }
  }

  /** A string that sorts no earlier than another starts with a character no smaller. */
  lemma LexNotLtFirst(a: string, b: string)
    requires a != [] && b != [] && !LexLt(b, a)
    ensures a[0] <= b[0]
  {
  }
}
