/** The `.sxd` files the LaTeX `songs` package writes for an index: a first line
    naming the kind of index, then one record of three lines per indexed song (the
    key, the song number, the link target). The readers strip every line and stop
    at the first record whose link line is empty, which is also what reading past
    the end of the file gives. */
module Sxd {
  import opened Wrappers
  import opened Strings

  /** The exceptions the index writers raise: `int()` of a song number that is not
      an integer, indexing the first letter of an empty title, and indexing the first
      title of an empty list. */
  datatype IndexCrash = BadSongNumber(num: string) | EmptyTitle | NoTitles

  /** What making an index leaves behind: no index file, or the text written to it;
      either way with the exception that ended the run, if there was one. */
  datatype IndexFile =
    | NotWritten(crash: Option<IndexCrash>)
    | Written(text: string, crash: Option<IndexCrash>)

  /** `p` written to the index file before `f`. */
  function Preceded(p: string, f: IndexFile): IndexFile {
    match f
    case NotWritten(c) => f
    case Written(t, c) => Written(p + t, c)
  }

  lemma PrecededAssoc(p: string, q: string, f: IndexFile)
    ensures Preceded(p, Preceded(q, f)) == Preceded(p + q, f)
  {
    if f.Written? {
      assert p + (q + f.text) == (p + q) + f.text;
    }
  }

  lemma PrecededEmpty(f: IndexFile)
    ensures Preceded("", f) == f
  {
    if f.Written? {
      assert "" + f.text == f.text;
    }
  }

  /** One three-line record: the indexed text (a title or an author list), the song
      number and the link target. */
  datatype Record = Record(key: string, num: string, link: string)

  /** Every line of the file, stripped. */
  function StripAll(lines: seq<string>): (r: seq<string>)
    ensures |r| == |lines| && forall i :: 0 <= i < |lines| ==> r[i] == Strip(lines[i])
  {
    seq(|lines|, i requires 0 <= i < |lines| => Strip(lines[i]))
  }

  /** What the `i`-th `readline().strip()` gives on a file whose stripped lines are
      `ls`: the line, or the empty string once the file is exhausted. */
  function LineAt(ls: seq<string>, i: nat): string {
    if i < |ls| then ls[i] else ""
  }

  /** The records from line `at` on, up to the first empty link line. */
  function RecordsFrom(lines: seq<string>, at: nat): seq<Record>
    decreases |lines| - at
  {
    var link := LineAt(lines, at + 2);
    if link == "" then []
    else [Record(LineAt(lines, at), LineAt(lines, at + 1), link)] + RecordsFrom(lines, at + 3)
  }

  /** The records of an index file: the first line is the kind, records follow. */
  function Records(lines: seq<string>): seq<Record> {
    RecordsFrom(StripAll(lines), 1)
  }

  /** Record `k` is made of lines `1 + 3k`, `2 + 3k` and `3 + 3k`, every record has a
      link, and the reading stops at the first record without one. */
  lemma {:induction false} RecordsFromClosedForm(lines: seq<string>, at: nat)
    ensures var rs := RecordsFrom(lines, at);
      && (forall k :: 0 <= k < |rs| ==>
            rs[k] == Record(LineAt(lines, at + 3 * k), LineAt(lines, at + 3 * k + 1), LineAt(lines, at + 3 * k + 2))
            && rs[k].link != "")
      && LineAt(lines, at + 3 * |rs| + 2) == ""
    decreases |lines| - at
  {
    var link := LineAt(lines, at + 2);
    if link != "" {
      RecordsFromClosedForm(lines, at + 3);
      var rs := RecordsFrom(lines, at);
      var rest := RecordsFrom(lines, at + 3);
      assert rs == [Record(LineAt(lines, at), LineAt(lines, at + 1), link)] + rest;
      forall k | 1 <= k < |rs|
        ensures rs[k] == Record(LineAt(lines, at + 3 * k), LineAt(lines, at + 3 * k + 1), LineAt(lines, at + 3 * k + 2))
      {
        assert rs[k] == rest[k - 1];
        assert at + 3 * k == (at + 3) + 3 * (k - 1);
      }
      assert at + 3 * |rs| + 2 == (at + 3) + 3 * |rest| + 2;
    }
  }

  lemma RecordsClosedForm(lines: seq<string>)
    ensures var rs := Records(lines);
      var ls := StripAll(lines);
      && (forall k :: 0 <= k < |rs| ==>
            rs[k] == Record(LineAt(ls, 1 + 3 * k), LineAt(ls, 2 + 3 * k), LineAt(ls, 3 + 3 * k))
            && rs[k].link != "")
      && LineAt(ls, 3 + 3 * |rs|) == ""
  {
    RecordsFromClosedForm(StripAll(lines), 1);
  }

  /** Reads the records after the first line, three lines at a time. */
  method ReadRecords(lines: seq<string>) returns (rs: seq<Record>)
    ensures rs == Records(lines)
  {
    ghost var ls := StripAll(lines);
    rs := [];
    var at := 1;
    while true
      invariant rs + RecordsFrom(ls, at) == Records(lines)
      decreases |lines| - at
    {
      var key := ReadLine(lines, at);
      var num := ReadLine(lines, at + 1);
      var link := ReadLine(lines, at + 2);
      if link == "" {
        assert RecordsFrom(ls, at) == [];
        assert rs + [] == rs;
        return;
      }
      ghost var rest := RecordsFrom(ls, at + 3);
      assert RecordsFrom(ls, at) == [Record(key, num, link)] + rest;
      assert rs + ([Record(key, num, link)] + rest) == (rs + [Record(key, num, link)]) + rest;
      rs := rs + [Record(key, num, link)];
      at := at + 3;
    }
  }

  /** `readline().strip()` for the `i`-th read. */
  function ReadLine(lines: seq<string>, i: nat): (r: string)
    ensures r == LineAt(StripAll(lines), i)
  {
    if i < |lines| then Strip(lines[i]) else ""
  }

  // ---------------------------------------------------------------- int()

  predicate IsDigit(c: char) {
    '0' <= c <= '9'
  }

  /** Digits with single underscores between them, as `int()` accepts. */
  predicate DigitGroups(t: string) {
    && t != [] && IsDigit(t[0]) && IsDigit(t[|t| - 1])
    && (forall i :: 0 <= i < |t| ==> IsDigit(t[i]) || t[i] == '_')
    && (forall i :: 0 <= i < |t| - 1 ==> t[i] == '_' ==> t[i + 1] != '_')
  }

  /** The value of the digits of `t`, underscores skipped. */
  function DigitsValue(t: string): nat {
    if t == [] then 0
    else
      var c := t[|t| - 1];
      if IsDigit(c) then 10 * DigitsValue(t[..|t| - 1]) + (c as int - '0' as int)
      else DigitsValue(t[..|t| - 1])
  }

  /** Python's `int()` of a stripped text: an optional sign, then digit groups;
      anything else raises `ValueError` (`None` here). */
  function ParseInt(s: string): (r: Option<int>)
    ensures r.Some? <==>
      (DigitGroups(s) || (s != [] && (s[0] == '+' || s[0] == '-') && DigitGroups(s[1..])))
  {
    if DigitGroups(s) then Some(DigitsValue(s))
    else if s != [] && s[0] == '+' && DigitGroups(s[1..]) then Some(DigitsValue(s[1..]))
    else if s != [] && s[0] == '-' && DigitGroups(s[1..]) then Some(0 - DigitsValue(s[1..]) as int)
    else None
  }

  /** The decimal numeral of `n`, as `str(n)` writes it. */
  function Decimal(n: nat): (r: string)
    ensures r != [] && forall i :: 0 <= i < |r| ==> IsDigit(r[i])
  {
    var d := ['0' + (n % 10) as char];
    if n < 10 then d else Decimal(n / 10) + d
  }

  lemma {:induction false} DecimalValue(n: nat)
    ensures DigitsValue(Decimal(n)) == n
  {
    var r := Decimal(n);
    if n >= 10 {
      DecimalValue(n / 10);
      assert r[..|r| - 1] == Decimal(n / 10);
    } else {
      assert r[..|r| - 1] == [];
    }
  }

  /** `int(str(n)) == n`: the numerals the `songs` package writes read back as the
      numbers they denote. */
  lemma ParseDecimal(n: nat)
    ensures ParseInt(Decimal(n)) == Some(n)
  {
    DecimalValue(n);
  }
}
