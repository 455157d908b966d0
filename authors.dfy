/** The author index `_make_latex_author_index`: every author list of the `.sxd`
    file is split into names, every name becomes a key `Last, First`, and the index
    lists the keys case-insensitively sorted, each with the links to its songs in
    song-number order. */
module AuthorIndex {
  import opened Wrappers
  import opened Strings
  import opened Sorting
  import opened Sxd
  import opened CaseFold

  // ---------------------------------------------------------------- names

  /** `s.replace("\\ ", "~")`: every escaped space `\ ` becomes a tie `~`. */
  function TildeForEscapedSpace(s: string): (r: string)
    ensures r == [] <==> s == []
    ensures r != [] ==> r[0] == if StartsWith(s, "\\ ") then '~' else s[0]
    decreases |s|
  {
    if s == [] then []
    else if StartsWith(s, "\\ ") then "~" + TildeForEscapedSpace(s[2..])
    else [s[0]] + TildeForEscapedSpace(s[1..])
  }

  /** No backslash in `r` is followed by a space. */
  predicate NoEscapedSpace(r: string) {
    forall i :: 0 <= i < |r| - 1 ==> !(r[i] == '\\' && r[i + 1] == ' ')
  }

  /** No escaped space is left after the replacement. */
  lemma {:induction false} NoEscapedSpaceLeft(s: string)
    ensures NoEscapedSpace(TildeForEscapedSpace(s))
    decreases |s|
  {
    if s != [] {
      var r := TildeForEscapedSpace(s);
      if StartsWith(s, "\\ ") {
        NoEscapedSpaceLeft(s[2..]);
        var rest := TildeForEscapedSpace(s[2..]);
        assert r == "~" + rest;
        forall i | 0 <= i < |r| - 1 ensures !(r[i] == '\\' && r[i + 1] == ' ') {
          if i > 0 {
            assert r[i] == rest[i - 1] && r[i + 1] == rest[i];
            assert NoEscapedSpace(rest);
            assert !(rest[i - 1] == '\\' && rest[i] == ' ');
          }
        }
      } else {
        NoEscapedSpaceLeft(s[1..]);
        var rest := TildeForEscapedSpace(s[1..]);
        assert r == [s[0]] + rest;
        forall i | 0 <= i < |r| - 1 ensures !(r[i] == '\\' && r[i + 1] == ' ') {
          if i > 0 {
            assert r[i] == rest[i - 1] && r[i + 1] == rest[i];
            assert NoEscapedSpace(rest);
            assert !(rest[i - 1] == '\\' && rest[i] == ' ');
          } else if s[0] == '\\' {
            assert |s| >= 2 && r[1] == rest[0];
            assert s[..2] == [s[0], s[1]];
            assert s[1] != ' ';
            assert s[1..][0] == s[1];
          }
        }
      }
    }
  }

  /** A text without backslashes is left unchanged. */
  lemma {:induction false} TildeForEscapedSpaceNoBackslash(s: string)
    requires forall i :: 0 <= i < |s| ==> s[i] != '\\'
    ensures TildeForEscapedSpace(s) == s
    decreases |s|
  {
    if s != [] {
      assert s[0] != '\\';
      assert !StartsWith(s, "\\ ");
      TildeForEscapedSpaceNoBackslash(s[1..]);
      assert s == [s[0]] + s[1..];
    }
  }

  /** The characters a name may hold: ASCII letters, `~`, `.` and the space. */
  predicate Allowed(c: char) {
    ('a' <= c <= 'z') || ('A' <= c <= 'Z') || c == '~' || c == '.' || c == ' '
  }

  predicate AllAllowed(s: string) {
    forall i :: 0 <= i < |s| ==> Allowed(s[i])
  }

  /** The length of the run of characters other than the allowed ones that `s`
      starts with: a match of `[^a-zA-Z~. ]+` when positive. */
  function DisallowedRun(s: string): (n: nat)
    ensures n <= |s| && (n == |s| || Allowed(s[n]))
    ensures forall i :: 0 <= i < n ==> !Allowed(s[i])
  {
    if s == [] || Allowed(s[0]) then 0 else 1 + DisallowedRun(s[1..])
  }

  /** The length of the separator `s` starts with (zero for none): the pattern
      " and |[^a-zA-Z~. ]+" tries ` and ` first. */
  function SepAt(s: string): (n: nat)
    ensures n <= |s|
    ensures n == 0 <==> !StartsWith(s, " and ") && (s == [] || Allowed(s[0]))
  {
    if StartsWith(s, " and ") then 5 else DisallowedRun(s)
  }

  /** `re.split(" and |[^a-zA-Z~. ]+", s)`: the pieces between the separators,
      including the empty ones before a leading and after a trailing separator. */
  function ReSplit(s: string): (r: seq<string>)
    ensures |r| >= 1
    decreases |s|
  {
    if s == [] then [""]
    else
      var n := SepAt(s);
      if n > 0 then [""] + ReSplit(s[n..])
      else
        var rest := ReSplit(s[1..]);
        [[s[0]] + rest[0]] + rest[1..]
  }

  /** The pieces hold only allowed characters. */
  lemma {:induction false} ReSplitAllowed(s: string)
    ensures forall k :: 0 <= k < |ReSplit(s)| ==> AllAllowed(ReSplit(s)[k])
    decreases |s|
  {
    if s != [] {
      var n := SepAt(s);
      if n > 0 {
        ReSplitAllowed(s[n..]);
        ReSplitSep(s);
        PiecesEmptyCons(ReSplit(s[n..]));
      } else {
        ReSplitAllowed(s[1..]);
        ReSplitCons(s);
        PiecesCons(s[0], ReSplit(s[1..]));
      }
    }
  }

  lemma PiecesEmptyCons(rest: seq<string>)
    requires forall k :: 0 <= k < |rest| ==> AllAllowed(rest[k])
    ensures forall k :: 0 <= k < |[""] + rest| ==> AllAllowed(([""] + rest)[k])
  {
    var r := [""] + rest;
    forall k | 0 <= k < |r| ensures AllAllowed(r[k]) {
      if k > 0 {
        assert r[k] == rest[k - 1];
      }
    }
  }

  lemma PiecesCons(c: char, rest: seq<string>)
    requires Allowed(c) && |rest| >= 1
    requires forall k :: 0 <= k < |rest| ==> AllAllowed(rest[k])
    ensures var r := [[c] + rest[0]] + rest[1..];
      forall k :: 0 <= k < |r| ==> AllAllowed(r[k])
  {
    var r := [[c] + rest[0]] + rest[1..];
    forall k | 0 <= k < |r| ensures AllAllowed(r[k]) {
      if k == 0 {
        assert forall i :: 1 <= i < |r[0]| ==> r[0][i] == rest[0][i - 1];
      } else {
        assert r[k] == rest[k];
      }
    }
  }

  /** The length of the longest prefix of `s` in which no separator starts. */
  function PieceLength(s: string): (n: nat)
    ensures n <= |s|
  {
    if s == [] || SepAt(s) > 0 then 0 else 1 + PieceLength(s[1..])
  }

  /** No separator starts inside the first piece, and one starts right after it
      unless it is all of `s`. */
  lemma {:induction false} PieceLengthSpec(s: string)
    ensures forall i :: 0 <= i < PieceLength(s) ==> SepAt(s[i..]) == 0
    ensures PieceLength(s) < |s| ==> SepAt(s[PieceLength(s)..]) > 0
  {
    if s != [] && SepAt(s) == 0 {
      PieceLengthSpec(s[1..]);
      assert s[0..] == s;
      forall i | 1 <= i < PieceLength(s)
        ensures SepAt(s[i..]) == 0
      {
        assert s[1..][i - 1..] == s[i..];
      }
      assert s[1..][PieceLength(s[1..])..] == s[PieceLength(s)..];
    } else {
      assert s != [] ==> s[0..] == s;
    }
  }

  /** What follows the first piece and the separator that ends it. */
  function AfterPiece(s: string): string
    requires PieceLength(s) < |s|
  {
    var n := PieceLength(s);
    s[n + SepAt(s[n..])..]
  }

  lemma PieceCons(s: string)
    requires s != [] && SepAt(s) == 0
    ensures PieceLength(s) == 1 + PieceLength(s[1..])
    ensures s[..PieceLength(s)] == [s[0]] + s[1..][..PieceLength(s[1..])]
    ensures PieceLength(s) < |s| ==> AfterPiece(s) == AfterPiece(s[1..])
  {
    var k := PieceLength(s[1..]);
    PieceHead(s, k);
    assert PieceLength(s) == k + 1;
    if k < |s| - 1 {
      PieceAfter(s, s[1..], k);
    }
  }

  lemma PieceHead(s: string, k: nat)
    requires k < |s|
    ensures s[..k + 1] == [s[0]] + s[1..][..k]
  {
  }

  lemma PieceAfter(s: string, t: string, k: nat)
    requires s != [] && t == s[1..]
    requires k == PieceLength(t) && k < |t| && PieceLength(s) == k + 1
    ensures AfterPiece(s) == AfterPiece(t)
  {
    var m := SepAt(t[k..]);
    DropTwice(s, t, k, m);
    assert SepAt(s[k + 1..]) == m;
    assert AfterPiece(t) == t[k + m..];
    assert AfterPiece(s) == s[k + 1 + m..];
  }

  lemma DropTwice(s: string, t: string, k: nat, m: nat)
    requires s != [] && t == s[1..] && k + m <= |t|
    ensures s[k + 1..] == t[k..] && s[k + 1 + m..] == t[k + m..]
  {
  }

  /** The first piece is the longest prefix holding no separator, and splitting goes
      on right after the separator that ends it; without one, `s` is one piece. */
  lemma {:induction false} ReSplitFirst(s: string)
    ensures PieceLength(s) == |s| ==> ReSplit(s) == [s]
    ensures PieceLength(s) < |s| ==> ReSplit(s) == [s[..PieceLength(s)]] + ReSplit(AfterPiece(s))
    decreases |s|
  {
    if s == [] {
    } else if SepAt(s) > 0 {
      ReSplitSep(s);
      assert s[..0] == "" && s[0..] == s;
    } else {
      var t := s[1..];
      ReSplitFirst(t);
      ReSplitCons(s);
      PieceCons(s);
      if PieceLength(t) == |t| {
        assert [s[0]] + t == s;
      } else {
        var pieces := ReSplit(t);
        assert pieces[0] == t[..PieceLength(t)] && pieces[1..] == ReSplit(AfterPiece(t));
      }
    }
  }

  /** A separator at the start leaves an empty first piece. */
  lemma ReSplitSep(s: string)
    requires s != [] && SepAt(s) > 0
    ensures ReSplit(s) == [""] + ReSplit(s[SepAt(s)..])
  {
  }

  /** A first character that starts no separator joins the first piece of the rest. */
  lemma ReSplitCons(s: string)
    requires s != [] && SepAt(s) == 0
    ensures ReSplit(s) == [[s[0]] + ReSplit(s[1..])[0]] + ReSplit(s[1..])[1..]
  {
  }

  /** The non-empty strings of `ps`, in order. */
  function NonEmpty(ps: seq<string>): seq<string> {
    if ps == [] then []
    else (if ps[0] != "" then [ps[0]] else []) + NonEmpty(ps[1..])
  }

  /** Exactly the non-empty strings of `ps` are kept. */
  lemma {:induction false} NonEmptySpec(ps: seq<string>)
    ensures forall k :: 0 <= k < |NonEmpty(ps)| ==> NonEmpty(ps)[k] != ""
    ensures forall x :: x in NonEmpty(ps) <==> x in ps && x != ""
  {
    if ps != [] {
      NonEmptySpec(ps[1..]);
      var head := if ps[0] != "" then [ps[0]] else [];
      var r := NonEmpty(ps);
      assert r == head + NonEmpty(ps[1..]);
      assert forall x :: x in ps <==> x == ps[0] || x in ps[1..];
      forall k | 0 <= k < |r| ensures r[k] != "" {
        if k >= |head| {
          assert r[k] == NonEmpty(ps[1..])[k - |head|];
        }
      }
    }
  }

  /** The names an author line lists: separated by ` and ` or by anything that is
      not a letter, `~`, `.` or a space, escaped spaces read as ties. */
  function Names(author: string): (names: seq<string>)
    ensures forall k :: 0 <= k < |names| ==> names[k] != "" && AllAllowed(names[k])
  {
    var ps := ReSplit(TildeForEscapedSpace(author));
    ReSplitAllowed(TildeForEscapedSpace(author));
    NonEmptySpec(ps);
    NonEmptyAllowed(ps);
    NonEmpty(ps)
  }

  lemma NonEmptyAllowed(ps: seq<string>)
    requires forall k :: 0 <= k < |ps| ==> AllAllowed(ps[k])
    ensures forall k :: 0 <= k < |NonEmpty(ps)| ==> AllAllowed(NonEmpty(ps)[k])
  {
    var r := NonEmpty(ps);
    NonEmptySpec(ps);
    forall k | 0 <= k < |r| ensures AllAllowed(r[k]) {
      assert r[k] in r;
      var j :| 0 <= j < |ps| && ps[j] == r[k];
    }
  }

  // ---------------------------------------------------------------- keys

  /** The position of the last whitespace in `t`. */
  function LastSpace(t: string): (r: Option<nat>)
    ensures r.Some? ==> r.value < |t| && IsSpace(t[r.value])
    ensures r.Some? ==> forall i :: r.value < i < |t| ==> !IsSpace(t[i])
    ensures r.None? ==> forall i :: 0 <= i < |t| ==> !IsSpace(t[i])
  {
    if t == [] then None
    else if IsSpace(t[|t| - 1]) then Some(|t| - 1)
    else LastSpace(t[..|t| - 1])
  }

  /** `s.rsplit(maxsplit=1)`: the last word of `s` and, when some word precedes it,
      what comes before it with its trailing whitespace dropped. */
  function RSplitOnce(s: string): (r: seq<string>)
    ensures |r| <= 2
    ensures forall k :: 0 <= k < |r| ==> r[k] != ""
  {
    var t := RStrip(s);
    RStripSpec(s);
    if t == [] then []
    else
      match LastSpace(t)
      case None => [t]
      case Some(j) =>
        var first := RStrip(t[..j]);
        if first == [] then [t[j + 1..]] else [first, t[j + 1..]]
  }

  /** The index key of one name: `Last, First` when the name has two or more words,
      the name itself otherwise, ties written as spaces. */
  function AuthorKey(name: string): (key: string)
    ensures forall i :: 0 <= i < |key| ==> key[i] != '~'
  {
    var parts := RSplitOnce(name);
    if |parts| == 2 then ReplaceChar(Strip(parts[1]) + ", " + Strip(parts[0]), '~', ' ')
    else
      var spaced := ReplaceChar(name, '~', ' ');
      LStripSpec(spaced);
      Strip(spaced)
  }

  lemma {:induction false} LastSpaceAfter(a: string, b: string)
    requires forall i :: 0 <= i < |b| ==> !IsSpace(b[i])
    ensures LastSpace(a + b) == LastSpace(a)
    decreases |b|
  {
    if b == [] {
      assert a + b == a;
    } else {
      assert (a + b)[|a + b| - 1] == b[|b| - 1];
      assert (a + b)[..|a + b| - 1] == a + b[..|b| - 1];
      LastSpaceAfter(a, b[..|b| - 1]);
    }
  }

  /** `rsplit` of a text that is all whitespace gives no words. */
  lemma RSplitOnceOfSpace(s: string)
    requires AllSpace(s)
    ensures RSplitOnce(s) == []
  {
    RStripTrailing([], s);
    assert [] + s == s;
  }

  /** `rsplit` of one word `w`, padded with whitespace on either side, gives `[w]`. */
  lemma RSplitOnceOfOne(lead: string, w: string, trail: string)
    requires AllSpace(lead) && AllSpace(trail)
    requires w != [] && NoSpace(w)
    ensures RSplitOnce(lead + w + trail) == [w]
  {
    var t := lead + w;
    assert t[|t| - 1] == w[|w| - 1];
    RStripTrailing(t, trail);
    assert RStrip(lead + w + trail) == t;
    LastSpaceAfter(lead, w);
    if lead == [] {
      assert t == w;
      assert LastSpace(t) == None;
    } else {
      var j := |lead| - 1;
      assert LastSpace(t) == Some(j);
      assert t[..j] == [] + lead[..j];
      RStripTrailing([], lead[..j]);
      assert RStrip(t[..j]) == [];
      assert t[j + 1..] == w;
    }
  }

  /** `rsplit` of `first`, a run of whitespace `sp`, one word `last` and trailing
      whitespace gives `[first, last]`, whatever words `first` itself holds. */
  lemma RSplitOnceOfTwo(first: string, sp: string, last: string, trail: string)
    requires first != [] && !IsSpace(first[|first| - 1])
    requires sp != [] && AllSpace(sp)
    requires last != [] && NoSpace(last)
    requires AllSpace(trail)
    ensures RSplitOnce(first + sp + last + trail) == [first, last]
  {
    var t := first + sp + last;
    assert t[|t| - 1] == last[|last| - 1];
    RStripTrailing(t, trail);
    LastSpaceAfter(first + sp, last);
    var j := |first| + |sp| - 1;
    assert (first + sp)[j] == sp[|sp| - 1];
    assert LastSpace(first + sp) == Some(j);
    assert t[..j] == first + sp[..|sp| - 1];
    RStripTrailing(first, sp[..|sp| - 1]);
    assert t[j + 1..] == last;
  }

  /** A name whose last word `last` follows a first part `first` files under
      `last, first`, with surrounding whitespace stripped and ties written as spaces. */
  lemma AuthorKeyOfTwoParts(first: string, sp: string, last: string, trail: string)
    requires first != [] && !IsSpace(first[|first| - 1])
    requires sp != [] && AllSpace(sp)
    requires last != [] && NoSpace(last)
    requires AllSpace(trail)
    ensures AuthorKey(first + sp + last + trail) == ReplaceChar(last + ", " + Strip(first), '~', ' ')
  {
    RSplitOnceOfTwo(first, sp, last, trail);
    StripNoSpace(last);
  }

  lemma StripNoSpace(w: string)
    requires NoSpace(w)
    ensures Strip(w) == w
  {
    if w != [] {
      assert LStrip(w) == w;
    }
  }

  /** A single word, whatever whitespace surrounds it, keeps its place: the key is
      the word with its ties written as spaces, stripped. */
  lemma AuthorKeyOfOneWord(lead: string, w: string, trail: string)
    requires AllSpace(lead) && AllSpace(trail)
    requires w != [] && NoSpace(w)
    ensures AuthorKey(lead + w + trail) == Strip(ReplaceChar(w, '~', ' '))
  {
    RSplitOnceOfOne(lead, w, trail);
    assert !IsSpace('~');
    assert ReplaceChar(lead + w + trail, '~', ' ') == lead + ReplaceChar(w, '~', ' ') + trail;
    StripPadded(lead, ReplaceChar(w, '~', ' '), trail);
  }

  /** A name that is all whitespace has the empty key. */
  lemma AuthorKeyOfBlank(s: string)
    requires AllSpace(s)
    ensures AuthorKey(s) == ""
  {
    RSplitOnceOfSpace(s);
    assert !IsSpace('~');
    assert ReplaceChar(s, '~', ' ') == s;
    assert [] + [] + s == s;
    StripPadded([], [], s);
  }

  /** `John Doe` files under `Doe, John`. */
  lemma AuthorKeyExample()
    ensures AuthorKey("John Doe") == "Doe, John"
  {
    var first, last := "John", "Doe";
    assert !IsSpace('D') && !IsSpace('o') && !IsSpace('e') && !IsSpace('n');
    assert NoSpace(last);
    assert NoSpace(first);
    assert first + " " + last + "" == "John Doe";
    AuthorKeyOfTwoParts(first, " ", last, "");
    StripNoSpace(first);
    SwappedExample();
  }

  lemma SwappedExample()
    ensures ReplaceChar("Doe" + ", " + "John", '~', ' ') == "Doe, John"
  {
    var joined := "Doe" + ", " + "John";
    assert joined == "Doe, John";
    ReplaceAbsent(joined, '~', ' ');
  }

  lemma ReplaceAbsent(s: string, a: char, b: char)
    requires forall i :: 0 <= i < |s| ==> s[i] != a
    ensures ReplaceChar(s, a, b) == s
  {
  }

  // ---------------------------------------------------------------- the dictionary

  /** One song of an author: its number and link, as read. */
  datatype Song = Song(num: string, link: string)

  /** One name of one record: the author key and the song it credits. */
  datatype Credit = Credit(key: string, song: Song)

  /** The credits of one record, one per name of its author line, in order. */
  function RecordCredits(r: Record): (cs: seq<Credit>)
    ensures |cs| == |Names(r.key)|
    ensures forall k :: 0 <= k < |cs| ==> cs[k] == Credit(AuthorKey(Names(r.key)[k]), Song(r.num, r.link))
  {
    var names := Names(r.key);
    seq(|names|, k requires 0 <= k < |names| => Credit(AuthorKey(names[k]), Song(r.num, r.link)))
  }

  /** The credits of the records `rs`, record by record. */
  function Credits(rs: seq<Record>): seq<Credit> {
    FlatMap(RecordCredits, rs)
  }

  /** The parts `f` gives for the elements of `xs`, one after the other. */
  function FlatMap<A, B>(f: A -> seq<B>, xs: seq<A>): seq<B> {
    if xs == [] then [] else FlatMap(f, xs[..|xs| - 1]) + f(xs[|xs| - 1])
  }

  lemma {:induction false} InFlatMap<A, B>(f: A -> seq<B>, xs: seq<A>)
    ensures forall c :: c in FlatMap(f, xs) <==> exists j :: 0 <= j < |xs| && c in f(xs[j])
  {
    if xs != [] {
      var init := xs[..|xs| - 1];
      InFlatMap(f, init);
      assert forall j :: 0 <= j < |init| ==> init[j] == xs[j];
    }
  }

  /** The `authors` dictionary: its keys in insertion order, and the song list of
      every key. */
  datatype Authors = Authors(order: seq<string>, songs: map<string, seq<Song>>)

  /** Adds one credit: appended to the key's list, or a new key with a one-song list. */
  function AddCredit(d: Authors, c: Credit): Authors {
    if c.key in d.songs then Authors(d.order, d.songs[c.key := d.songs[c.key] + [c.song]])
    else Authors(d.order + [c.key], d.songs[c.key := [c.song]])
  }

  /** The dictionary after adding the credits `cs` in order to an empty one. */
  function Collect(cs: seq<Credit>): Authors {
    if cs == [] then Authors([], map[]) else AddCredit(Collect(cs[..|cs| - 1]), cs[|cs| - 1])
  }

  /** The songs credited to `key` by `cs`, in order. */
  function SongsOf(cs: seq<Credit>, key: string): seq<Song> {
    if cs == [] then []
    else SongsOf(cs[..|cs| - 1], key) + (if cs[|cs| - 1].key == key then [cs[|cs| - 1].song] else [])
  }

  /** Every key of `cs` is listed once, in the dictionary's order, and holds exactly
      the songs credited to it, in credit order; no key holds an empty list. */
  lemma {:induction false} CollectSpec(cs: seq<Credit>)
    ensures var d := Collect(cs);
      && Distinct(d.order)
      && (forall k :: k in d.songs <==> k in d.order)
      && (forall k :: k in d.order <==> exists i :: 0 <= i < |cs| && cs[i].key == k)
      && (forall k :: k in d.songs ==> d.songs[k] == SongsOf(cs, k) && d.songs[k] != [])
  {
    if cs != [] {
      var init, c := cs[..|cs| - 1], cs[|cs| - 1];
      CollectSpec(init);
      var d0 := Collect(init);
      var d := Collect(cs);
      assert d == AddCredit(d0, c);
      forall k ensures k in d.order <==> exists i :: 0 <= i < |cs| && cs[i].key == k {
        if k in d.order && k != c.key {
          var i :| 0 <= i < |init| && init[i].key == k;
          assert cs[i] == init[i];
        }
        if k !in d0.order && (exists i :: 0 <= i < |cs| && cs[i].key == k) {
          var i :| 0 <= i < |cs| && cs[i].key == k;
          if i < |init| {
            assert init[i] == cs[i];
          }
        }
      }
      forall k | k in d.songs ensures d.songs[k] == SongsOf(cs, k) && d.songs[k] != [] {
        if k != c.key {
          assert SongsOf(cs, k) == SongsOf(init, k) + [];
        } else if k !in d0.songs {
          SongsOfAbsent(init, k);
          assert SongsOf(cs, k) == [] + [c.song];
        }
      }
    }
  }

  /** A key that no credit carries has no songs. */
  lemma {:induction false} SongsOfAbsent(cs: seq<Credit>, key: string)
    requires forall i :: 0 <= i < |cs| ==> cs[i].key != key
    ensures SongsOf(cs, key) == []
  {
    if cs != [] {
      assert forall i :: 0 <= i < |cs| - 1 ==> cs[..|cs| - 1][i] == cs[i];
      SongsOfAbsent(cs[..|cs| - 1], key);
    }
  }

  /** Every credit's song is listed under its key. */
  lemma {:induction false} CreditListed(cs: seq<Credit>, i: nat)
    requires i < |cs|
    ensures cs[i].song in SongsOf(cs, cs[i].key)
  {
    var init := cs[..|cs| - 1];
    if i < |cs| - 1 {
      assert init[i] == cs[i];
      CreditListed(init, i);
    }
  }

  lemma CreditsSnoc(rs: seq<Record>, i: nat)
    requires i < |rs|
    ensures Credits(rs[..i + 1]) == Credits(rs[..i]) + RecordCredits(rs[i])
  {
    assert rs[..i + 1][..i] == rs[..i];
  }

  /** The dictionary `d` after adding the credits `cs` in order. */
  function AddCredits(d: Authors, cs: seq<Credit>): Authors {
    if cs == [] then d else AddCredit(AddCredits(d, cs[..|cs| - 1]), cs[|cs| - 1])
  }

  lemma {:induction false} AddCreditsCollect(cs: seq<Credit>, more: seq<Credit>)
    ensures AddCredits(Collect(cs), more) == Collect(cs + more)
  {
    if more == [] {
      assert cs + more == cs;
    } else {
      AddCreditsCollect(cs, more[..|more| - 1]);
      assert (cs + more)[..|cs + more| - 1] == cs + more[..|more| - 1];
    }
  }

  /** Adds the credits of one record to the dictionary, name by name. */
  method AddRecord(order0: seq<string>, songs0: map<string, seq<Song>>, r: Record)
    returns (order: seq<string>, songs: map<string, seq<Song>>)
    ensures Authors(order, songs) == AddCredits(Authors(order0, songs0), RecordCredits(r))
  {
    order, songs := order0, songs0;
    var names := Names(r.key);
    ghost var cs := RecordCredits(r);
    for j := 0 to |names|
      invariant Authors(order, songs) == AddCredits(Authors(order0, songs0), cs[..j])
    {
      var key := AuthorKey(names[j]);
      AddCreditsSnoc(Authors(order0, songs0), cs, j);
      assert cs[j] == Credit(key, Song(r.num, r.link));
      order, songs := AddName(order, songs, key, Song(r.num, r.link));
    }
    assert cs[..|names|] == cs;
  }

  lemma AddCreditsSnoc(d: Authors, cs: seq<Credit>, j: nat)
    requires j < |cs|
    ensures AddCredits(d, cs[..j + 1]) == AddCredit(AddCredits(d, cs[..j]), cs[j])
  {
    assert cs[..j + 1][..j] == cs[..j];
  }

  /** `authors.setdefault(key, []).append(song)`, with the key order kept. */
  method AddName(order0: seq<string>, songs0: map<string, seq<Song>>, key: string, song: Song)
    returns (order: seq<string>, songs: map<string, seq<Song>>)
    ensures Authors(order, songs) == AddCredit(Authors(order0, songs0), Credit(key, song))
  {
    if key in songs0 {
      order, songs := order0, songs0[key := songs0[key] + [song]];
    } else {
      order, songs := order0 + [key], songs0[key := [song]];
    }
  }

  /** Reads the `authors` dictionary from the records. */
  method ReadAuthors(records: seq<Record>) returns (order: seq<string>, songs: map<string, seq<Song>>)
    ensures Authors(order, songs) == Collect(Credits(records))
  {
    order, songs := [], map[];
    for i := 0 to |records|
      invariant Authors(order, songs) == Collect(Credits(records[..i]))
    {
      CreditsSnoc(records, i);
      AddCreditsCollect(Credits(records[..i]), RecordCredits(records[i]));
      order, songs := AddRecord(order, songs, records[i]);
    }
    assert records[..|records|] == records;
  }

  // ---------------------------------------------------------------- the writer

  /** A song with the value of its number. */
  datatype Numbered = Numbered(value: int, song: Song)

  predicate NumLt(a: Numbered, b: Numbered) {
    a.value < b.value
  }

  lemma NumLtOrder()
    ensures StrictWeakOrder(NumLt)
  {
  }

  /** `int(k["songnum"])` of every song, in order: the first number that is not an
      integer raises. */
  function NumberSongs(songs: seq<Song>): (r: Result<seq<Numbered>, IndexCrash>)
    ensures r.Ok? ==> |r.value| == |songs|
    ensures r.Ok? ==> forall k :: 0 <= k < |songs| ==>
      ParseInt(songs[k].num).Some? && r.value[k] == Numbered(ParseInt(songs[k].num).value, songs[k])
  {
    if songs == [] then Ok([])
    else
      match ParseInt(songs[0].num)
      case None => Err(BadSongNumber(songs[0].num))
      case Some(v) =>
        var rest := NumberSongs(songs[1..]);
        assert forall k :: 1 <= k < |songs| ==> songs[k] == songs[1..][k - 1];
        Prefixed([Numbered(v, songs[0])], rest)
  }

  /** Numbering fails exactly when some number is not an integer, and then names
      the first such number. */
  lemma {:induction false} NumberSongsErrIff(songs: seq<Song>)
    ensures NumberSongs(songs).Err? <==> exists k :: 0 <= k < |songs| && ParseInt(songs[k].num).None?
    ensures NumberSongs(songs).Err? ==> exists k :: (0 <= k < |songs|
      && NumberSongs(songs).error == BadSongNumber(songs[k].num)
      && ParseInt(songs[k].num).None?
      && forall i :: 0 <= i < k ==> ParseInt(songs[i].num).Some?)
  {
    if songs != [] && ParseInt(songs[0].num).Some? {
      NumberSongsErrIff(songs[1..]);
      assert forall k :: 1 <= k < |songs| ==> songs[k] == songs[1..][k - 1];
      if NumberSongs(songs).Err? {
        var k :| 0 <= k < |songs[1..]| && NumberSongs(songs[1..]).error == BadSongNumber(songs[1..][k].num)
          && ParseInt(songs[1..][k].num).None?
          && forall i :: 0 <= i < k ==> ParseInt(songs[1..][i].num).Some?;
        assert forall i :: 1 <= i < k + 1 ==> songs[i] == songs[1..][i - 1];
        assert songs[k + 1] == songs[1..][k];
      }
    }
  }

  /** `\songlink{<link>}{<number>}`. */
  function SongLink(s: Song): string {
    "\\songlink{" + s.link + "}{" + s.num + "}"
  }

  function Links(ns: seq<Numbered>): (r: seq<string>)
    ensures |r| == |ns| && forall k :: 0 <= k < |ns| ==> r[k] == SongLink(ns[k].song)
  {
    seq(|ns|, k requires 0 <= k < |ns| => SongLink(ns[k].song))
  }

  /** `\idxentry{<key>}{`, the key's song links separated by `\\`, then `}`. */
  function AuthorLine(key: string, ns: seq<Numbered>): string {
    "\\idxentry{" + key + "}{" + Join(Links(ns), "\\\\") + "}\n"
  }

  /** The line of one key: its song links in song-number order; or, when one of its
      numbers is not an integer, the opening `\idxentry{<key>}{` written before the
      sort raises. */
  function AuthorEntry(key: string, ss: seq<Song>): (f: IndexFile)
    ensures f.Written?
    ensures f.crash.Some? <==> NumberSongs(ss).Err?
    ensures f.crash.Some? ==> f.crash.value == NumberSongs(ss).error
  {
    match NumberSongs(ss)
    case Err(e) => Written("\\idxentry{" + key + "}{", Some(e))
    case Ok(ns) => Written(AuthorLine(key, SongOrder(ss)), None)
  }

  /** The numbered songs of one key as the index lists them: by number, songs with
      equal numbers in the order they were read, none lost and none added. */
  function SongOrder(ss: seq<Song>): (ns: seq<Numbered>)
    requires NumberSongs(ss).Ok?
    ensures Sorted(ns, NumLt)
    ensures multiset(ns) == multiset(NumberSongs(ss).value)
    ensures forall x :: Ties(ns, x, NumLt) == Ties(NumberSongs(ss).value, x, NumLt)
  {
    var numbered := NumberSongs(ss).value;
    NumLtOrder();
    SortBySorted(numbered, NumLt);
    forall x ensures Ties(SortBy(numbered, NumLt), x, NumLt) == Ties(numbered, x, NumLt) {
      SortByStable(numbered, x, NumLt);
    }
    SortBy(numbered, NumLt)
  }

  /** The lines of the keys `keys`, up to the first that raises. */
  function AuthorLines(keys: seq<string>, songs: map<string, seq<Song>>): (f: IndexFile)
    requires forall k :: 0 <= k < |keys| ==> keys[k] in songs
    ensures f.Written?
  {
    if keys == [] then Written("", None)
    else
      assert forall k :: 1 <= k < |keys| ==> keys[k] == keys[1..][k - 1];
      var e := AuthorEntry(keys[0], songs[keys[0]]);
      if e.crash.Some? then e else Preceded(e.text, AuthorLines(keys[1..], songs))
  }

  /** The keys in index order: sorted by their case-folded form, ties in insertion
      order. */
  function SortedKeys(d: Authors): seq<string> {
    SortBy(d.order, FoldedLt)
  }

  /** Every sorted key has a non-empty song list. */
  lemma SortedKeysListed(cs: seq<Credit>)
    ensures forall k :: 0 <= k < |SortedKeys(Collect(cs))| ==>
      SortedKeys(Collect(cs))[k] in Collect(cs).songs && Collect(cs).songs[SortedKeys(Collect(cs))[k]] != []
  {
    var d := Collect(cs);
    CollectSpec(cs);
    var keys := SortedKeys(d);
    forall k | 0 <= k < |keys| ensures keys[k] in d.songs && d.songs[keys[k]] != [] {
      assert keys[k] in multiset(keys);
      assert keys[k] in multiset(d.order);
    }
  }

  /** `_make_latex_author_index` on the lines of an `.sxd` file. */
  function AuthorIndexFile(lines: seq<string>): IndexFile {
    AuthorIndexOf(Credits(Records(lines)))
  }

  /** The author index file for the credits `cs`. */
  function AuthorIndexOf(cs: seq<Credit>): IndexFile {
    var d := Collect(cs);
    SortedKeysListed(cs);
    var body := AuthorLines(SortedKeys(d), d.songs);
    Preceded("\\begin{idxblock}{}\n",
      if body.crash.Some? then body else Written(body.text + "\\end{idxblock}\n", None))
  }

  /** Writes the song links of one key, the first one alone and every later one
      after `\\`. */
  method WriteLinks(ns: seq<Numbered>) returns (t: string)
    requires ns != []
    ensures t == Join(Links(ns), "\\\\")
  {
    t := SongLink(ns[0].song);
    assert Links(ns[..1]) == [SongLink(ns[0].song)];
    for j := 1 to |ns|
      invariant t == Join(Links(ns[..j]), "\\\\")
    {
      assert Links(ns[..j + 1]) == Links(ns[..j]) + [SongLink(ns[j].song)];
      JoinSnoc(Links(ns[..j]), SongLink(ns[j].song), "\\\\");
      t := t + "\\\\";
      t := t + SongLink(ns[j].song);
    }
    assert ns[..|ns|] == ns;
  }

  /** Writes the line of one key. */
  method WriteAuthor(key: string, ss: seq<Song>) returns (f: IndexFile)
    requires ss != []
    ensures f == AuthorEntry(key, ss)
  {
    var text := "\\idxentry{" + key + "}{";
    var numbered := NumberSongs(ss);
    if numbered.Err? {
      return Written(text, Some(numbered.error));
    }
    var sorted := SongOrder(ss);
    assert |sorted| == |numbered.value| by {
      assert |multiset(sorted)| == |multiset(numbered.value)|;
    }
    var links := WriteLinks(sorted);
    text := text + links;
    text := text + "}\n";
    return Written(text, None);
  }

  /** Writes the lines of the keys `keys` in order. */
  method WriteAuthors(keys: seq<string>, songs: map<string, seq<Song>>) returns (f: IndexFile)
    requires forall k :: 0 <= k < |keys| ==> keys[k] in songs && songs[keys[k]] != []
    ensures f == AuthorLines(keys, songs)
  {
    var text := "";
    assert keys[0..] == keys;
    PrecededEmpty(AuthorLines(keys, songs));
    for i := 0 to |keys|
      invariant Preceded(text, AuthorLines(keys[i..], songs)) == AuthorLines(keys, songs)
    {
      assert keys[i..][1..] == keys[i + 1..];
      var entry := WriteAuthor(keys[i], songs[keys[i]]);
      if entry.crash.Some? {
        return Written(text + entry.text, entry.crash);
      }
      PrecededAssoc(text, entry.text, AuthorLines(keys[i + 1..], songs));
      text := text + entry.text;
    }
    assert keys[|keys|..] == [];
    assert text + "" == text;
    return Written(text, None);
  }

  /** Writes the index of the dictionary filled from the credits `cs`. */
  method WriteAuthorIndex(ghost cs: seq<Credit>, order: seq<string>, songs: map<string, seq<Song>>)
    returns (f: IndexFile)
    requires Authors(order, songs) == Collect(cs)
    ensures f == AuthorIndexOf(cs)
  {
    SortedKeysListed(cs);
    var keys := SortBy(order, FoldedLt);
    assert keys == SortedKeys(Collect(cs));
    assert forall k :: 0 <= k < |keys| ==> keys[k] in songs && songs[keys[k]] != [];
    var body := WriteAuthors(keys, songs);
    if body.crash.Some? {
      return Written("\\begin{idxblock}{}\n" + body.text, body.crash);
    }
    return Written("\\begin{idxblock}{}\n" + (body.text + "\\end{idxblock}\n"), None);
  }

  /** `_make_latex_author_index`: reads the records, fills the dictionary, and
      writes the index. */
  method MakeAuthorIndex(lines: seq<string>) returns (f: IndexFile)
    ensures f == AuthorIndexFile(lines)
  {
    var records := ReadRecords(lines);
    var order, songs := ReadAuthors(records);
    f := WriteAuthorIndex(Credits(records), order, songs);
  }

  // ---------------------------------------------------------------- properties

  /** Every song listed under a key comes from a credit of that key. */
  lemma {:induction false} SongsOfFrom(cs: seq<Credit>, key: string)
    ensures forall s :: s in SongsOf(cs, key) ==> exists i :: 0 <= i < |cs| && cs[i].key == key && cs[i].song == s
  {
    if cs != [] {
      var init := cs[..|cs| - 1];
      SongsOfFrom(init, key);
      forall s | s in SongsOf(cs, key)
        ensures exists i :: 0 <= i < |cs| && cs[i].key == key && cs[i].song == s
      {
        if s in SongsOf(init, key) {
          var i :| 0 <= i < |init| && init[i].key == key && init[i].song == s;
          assert cs[i] == init[i];
        } else {
          assert cs[|cs| - 1].key == key && cs[|cs| - 1].song == s;
        }
      }
    }
  }

  /** The lines stop at the first key with an unnumbered song, and the exception is
      raised by that key's numbering. */
  lemma {:induction false} AuthorLinesCrashIff(keys: seq<string>, songs: map<string, seq<Song>>)
    requires forall k :: 0 <= k < |keys| ==> keys[k] in songs
    ensures AuthorLines(keys, songs).crash.None? <==>
      forall k :: 0 <= k < |keys| ==> NumberSongs(songs[keys[k]]).Ok?
    ensures AuthorLines(keys, songs).crash.Some? ==>
      exists k :: 0 <= k < |keys| && NumberSongs(songs[keys[k]]) == Err(AuthorLines(keys, songs).crash.value)
  {
    AuthorLinesCrash(keys, songs);
    FirstBadIff(keys, songs);
  }

  /** The exception of the first key, in index order, whose song numbers do not all
      parse. */
  function FirstBad(keys: seq<string>, songs: map<string, seq<Song>>): Option<IndexCrash>
    requires forall k :: 0 <= k < |keys| ==> keys[k] in songs
  {
    if keys == [] then None
    else
      assert forall k :: 1 <= k < |keys| ==> keys[k] == keys[1..][k - 1];
      match NumberSongs(songs[keys[0]])
      case Err(e) => Some(e)
      case Ok(_) => FirstBad(keys[1..], songs)
  }

  /** Writing the lines ends with the exception of the first bad key. */
  lemma {:induction false} AuthorLinesCrash(keys: seq<string>, songs: map<string, seq<Song>>)
    requires forall k :: 0 <= k < |keys| ==> keys[k] in songs
    ensures AuthorLines(keys, songs).crash == FirstBad(keys, songs)
  {
    if keys != [] {
      assert forall k :: 1 <= k < |keys| ==> keys[k] == keys[1..][k - 1];
      var e := AuthorEntry(keys[0], songs[keys[0]]);
      if e.crash.None? {
        AuthorLinesCrash(keys[1..], songs);
        assert AuthorLines(keys, songs) == Preceded(e.text, AuthorLines(keys[1..], songs));
      }
    }
  }

  lemma {:induction false} FirstBadIff(keys: seq<string>, songs: map<string, seq<Song>>)
    requires forall k :: 0 <= k < |keys| ==> keys[k] in songs
    ensures FirstBad(keys, songs).None? <==> forall k :: 0 <= k < |keys| ==> NumberSongs(songs[keys[k]]).Ok?
    ensures FirstBad(keys, songs).Some? ==>
      exists k :: 0 <= k < |keys| && NumberSongs(songs[keys[k]]) == Err(FirstBad(keys, songs).value)
  {
    if keys != [] {
      var rest := keys[1..];
      assert forall k :: 1 <= k < |keys| ==> keys[k] == rest[k - 1];
      if NumberSongs(songs[keys[0]]).Ok? {
        FirstBadIff(rest, songs);
        if FirstBad(rest, songs).Some? {
          var k :| 0 <= k < |rest| && NumberSongs(songs[rest[k]]) == Err(FirstBad(rest, songs).value);
          assert keys[k + 1] == rest[k];
        }
      }
    }
  }

  /** The keys in the index are the keys of the credits, each once, in case-folded
      order, keys equal up to case in the order they were first met. */
  lemma SortedKeysSpec(cs: seq<Credit>)
    ensures Sorted(SortedKeys(Collect(cs)), FoldedLt)
    ensures Distinct(SortedKeys(Collect(cs)))
    ensures forall k :: k in SortedKeys(Collect(cs)) <==> exists i :: 0 <= i < |cs| && cs[i].key == k
    ensures forall x :: Ties(SortedKeys(Collect(cs)), x, FoldedLt) == Ties(Collect(cs).order, x, FoldedLt)
  {
    var d := Collect(cs);
    var keys := SortedKeys(d);
    CollectSpec(cs);
    FoldedLtOrder();
    SortBySorted(d.order, FoldedLt);
    DistinctPerm(d.order, keys);
    forall k ensures k in keys <==> k in d.order {
      assert k in keys <==> k in multiset(keys);
      assert k in d.order <==> k in multiset(d.order);
    }
    forall x ensures Ties(keys, x, FoldedLt) == Ties(d.order, x, FoldedLt) {
      SortByStable(d.order, x, FoldedLt);
    }
  }

  /** The song list of a key in the index holds exactly the songs its credits carry. */
  lemma KeySongs(cs: seq<Credit>, key: string)
    requires key in SortedKeys(Collect(cs))
    ensures key in Collect(cs).songs
    ensures forall s :: s in Collect(cs).songs[key] <==> exists i :: 0 <= i < |cs| && cs[i].key == key && cs[i].song == s
  {
    SortedKeysSpec(cs);
    CollectSpec(cs);
    SongsOfFrom(cs, key);
    forall i | 0 <= i < |cs| && cs[i].key == key ensures cs[i].song in SongsOf(cs, key) {
      CreditListed(cs, i);
    }
  }

  /** When every number parses, no key's numbering raises. */
  lemma AuthorIndexCompleteIfNumbered(cs: seq<Credit>)
    requires forall i :: 0 <= i < |cs| ==> ParseInt(cs[i].song.num).Some?
    ensures AuthorIndexOf(cs).crash.None?
  {
    var d := Collect(cs);
    SortedKeysListed(cs);
    AuthorLinesCrashIff(SortedKeys(d), d.songs);
    KeysNumbered(cs);
  }

  /** When every number parses, every key's songs are numbered. */
  lemma KeysNumbered(cs: seq<Credit>)
    requires forall i :: 0 <= i < |cs| ==> ParseInt(cs[i].song.num).Some?
    ensures forall k :: 0 <= k < |SortedKeys(Collect(cs))| ==>
      SortedKeys(Collect(cs))[k] in Collect(cs).songs
      && NumberSongs(Collect(cs).songs[SortedKeys(Collect(cs))[k]]).Ok?
  {
    var d := Collect(cs);
    var keys := SortedKeys(d);
    SortedKeysListed(cs);
    forall k | 0 <= k < |keys| ensures NumberSongs(d.songs[keys[k]]).Ok? {
      var ss := d.songs[keys[k]];
      KeySongs(cs, keys[k]);
      forall j | 0 <= j < |ss| ensures ParseInt(ss[j].num).Some? {
        assert ss[j] in ss;
        var i :| 0 <= i < |cs| && cs[i].key == keys[k] && cs[i].song == ss[j];
      }
      NumberSongsErrIff(ss);
    }
  }

  /** The line of every key, its songs in number order. */
  function KeyLines(keys: seq<string>, songs: map<string, seq<Song>>): (r: seq<string>)
    requires forall k :: 0 <= k < |keys| ==> keys[k] in songs && NumberSongs(songs[keys[k]]).Ok?
    ensures |r| == |keys|
    ensures forall k :: 0 <= k < |keys| ==> r[k] == AuthorLine(keys[k], SongOrder(songs[keys[k]]))
  {
    seq(|keys|, k requires 0 <= k < |keys| => AuthorLine(keys[k], SongOrder(songs[keys[k]])))
  }

  /** When no key raises, the lines are those of the keys, one after the other. */
  lemma {:induction false} AuthorLinesComplete(keys: seq<string>, songs: map<string, seq<Song>>)
    requires forall k :: 0 <= k < |keys| ==> keys[k] in songs && NumberSongs(songs[keys[k]]).Ok?
    ensures AuthorLines(keys, songs) == Written(Concat(KeyLines(keys, songs)), None)
  {
    if keys != [] {
      var rest := keys[1..];
      KeyLinesCons(keys, songs);
      AuthorLinesComplete(rest, songs);
      var first := AuthorLine(keys[0], SongOrder(songs[keys[0]]));
      assert AuthorEntry(keys[0], songs[keys[0]]) == Written(first, None);
      assert AuthorLines(keys, songs) == Preceded(first, AuthorLines(rest, songs));
      ConcatCons(first, KeyLines(rest, songs));
    }
  }

  lemma KeyLinesCons(keys: seq<string>, songs: map<string, seq<Song>>)
    requires keys != [] && forall k :: 0 <= k < |keys| ==> keys[k] in songs && NumberSongs(songs[keys[k]]).Ok?
    ensures forall k :: 0 <= k < |keys[1..]| ==> keys[1..][k] in songs && NumberSongs(songs[keys[1..][k]]).Ok?
    ensures KeyLines(keys, songs) == [AuthorLine(keys[0], SongOrder(songs[keys[0]]))] + KeyLines(keys[1..], songs)
  {
    assert forall k :: 0 <= k < |keys[1..]| ==> keys[1..][k] == keys[k + 1];
  }

  /** The lines of the author index when every number parses: one per key, keys in
      case-insensitive order. */
  function IndexLines(cs: seq<Credit>): seq<string>
    requires forall i :: 0 <= i < |cs| ==> ParseInt(cs[i].song.num).Some?
  {
    KeysNumbered(cs);
    KeyLines(SortedKeys(Collect(cs)), Collect(cs).songs)
  }

  /** The complete author index: one `idxblock` with no letter, holding one line per
      key in case-insensitive order. */
  lemma AuthorIndexText(cs: seq<Credit>)
    requires forall i :: 0 <= i < |cs| ==> ParseInt(cs[i].song.num).Some?
    ensures AuthorIndexOf(cs) == Written("\\begin{idxblock}{}\n" + Concat(IndexLines(cs)) + "\\end{idxblock}\n", None)
  {
    var d := Collect(cs);
    var keys := SortedKeys(d);
    KeysNumbered(cs);
    SortedKeysListed(cs);
    AuthorLinesComplete(keys, d.songs);
    var lines := Concat(IndexLines(cs));
    assert AuthorLines(keys, d.songs) == Written(lines, None);
    var begin, end := "\\begin{idxblock}{}\n", "\\end{idxblock}\n";
    assert AuthorIndexOf(cs) == Preceded(begin, Written(lines + end, None));
    SeqAssoc(begin, lines, end);
  }

  /** A number that does not parse makes the index raise, with an unparsable
      number of one of the credits. */
  lemma AuthorIndexCrashesIfUnnumbered(cs: seq<Credit>, i: nat)
    requires i < |cs| && ParseInt(cs[i].song.num).None?
    ensures AuthorIndexOf(cs).crash.Some?
  {
    var d := Collect(cs);
    var keys := SortedKeys(d);
    SortedKeysListed(cs);
    AuthorLinesCrashIff(keys, d.songs);
    SortedKeysSpec(cs);
    var key := cs[i].key;
    assert key in keys;
    var k :| 0 <= k < |keys| && keys[k] == key;
    var ss := d.songs[key];
    KeySongs(cs, key);
    assert cs[i].song in ss;
    var j :| 0 <= j < |ss| && ss[j] == cs[i].song;
    NumberSongsErrIff(ss);
  }

  /** The exception of a raising index names an unparsable number of a credit. */
  lemma AuthorIndexCrashNamesNumber(cs: seq<Credit>)
    requires AuthorIndexOf(cs).crash.Some?
    ensures exists i :: (0 <= i < |cs| && ParseInt(cs[i].song.num).None?
      && AuthorIndexOf(cs).crash == Some(BadSongNumber(cs[i].song.num)))
  {
    var d := Collect(cs);
    var keys := SortedKeys(d);
    SortedKeysListed(cs);
    AuthorLinesCrashIff(keys, d.songs);
    var k :| 0 <= k < |keys| && NumberSongs(d.songs[keys[k]]) == Err(AuthorLines(keys, d.songs).crash.value);
    var ss := d.songs[keys[k]];
    NumberSongsErrIff(ss);
    var j :| 0 <= j < |ss| && NumberSongs(ss).error == BadSongNumber(ss[j].num) && ParseInt(ss[j].num).None?
      && forall i :: 0 <= i < j ==> ParseInt(ss[i].num).Some?;
    assert SortedKeys(d)[k] in SortedKeys(d);
    KeySongs(cs, keys[k]);
    assert ss[j] in ss;
    var i :| 0 <= i < |cs| && cs[i].key == keys[k] && cs[i].song == ss[j];
  }

  /** The author index is complete exactly when every credited song number is an
      integer; otherwise the exception names one that is not. */
  lemma AuthorIndexCrashIff(cs: seq<Credit>)
    ensures AuthorIndexOf(cs).crash.None? <==> forall i :: 0 <= i < |cs| ==> ParseInt(cs[i].song.num).Some?
    ensures AuthorIndexOf(cs).crash.Some? ==> exists i :: (0 <= i < |cs| && ParseInt(cs[i].song.num).None?
      && AuthorIndexOf(cs).crash == Some(BadSongNumber(cs[i].song.num)))
  {
    if forall i :: 0 <= i < |cs| ==> ParseInt(cs[i].song.num).Some? {
      AuthorIndexCompleteIfNumbered(cs);
    } else {
      var i :| 0 <= i < |cs| && ParseInt(cs[i].song.num).None?;
      AuthorIndexCrashesIfUnnumbered(cs, i);
      AuthorIndexCrashNamesNumber(cs);
    }
  }

  /** The credits are those of the records, and every record contributes its own. */
  lemma CreditsOfRecords(rs: seq<Record>)
    ensures forall c :: c in Credits(rs) <==> exists j :: 0 <= j < |rs| && c in RecordCredits(rs[j])
  {
    InFlatMap(RecordCredits, rs);
  }

  /** `_make_latex_author_index` completes exactly when the song number of every
      record that names at least one author is an integer; a record without a name
      is not looked at. */
  lemma AuthorIndexFileCrashIff(lines: seq<string>)
    ensures AuthorIndexFile(lines).crash.None? <==>
      forall j :: 0 <= j < |Records(lines)| && Names(Records(lines)[j].key) != [] ==>
        ParseInt(Records(lines)[j].num).Some?
  {
    var rs := Records(lines);
    var cs := Credits(rs);
    AuthorIndexCrashIff(cs);
    CreditsOfRecords(rs);
    if forall i :: 0 <= i < |cs| ==> ParseInt(cs[i].song.num).Some? {
      forall j | 0 <= j < |rs| && Names(rs[j].key) != [] ensures ParseInt(rs[j].num).Some? {
        var c := RecordHasCredit(rs[j]);
        assert c in cs;
        var i := IndexOf(cs, c);
      }
    } else {
      var i :| 0 <= i < |cs| && ParseInt(cs[i].song.num).None?;
      assert cs[i] in cs;
      var j :| 0 <= j < |rs| && cs[i] in RecordCredits(rs[j]);
      CreditOfRecord(rs[j], cs[i]);
    }
  }

  lemma IndexOf<T>(s: seq<T>, x: T) returns (i: nat)
    requires x in s
    ensures i < |s| && s[i] == x
  {
    i :| 0 <= i < |s| && s[i] == x;
  }

  /** A record that names someone credits its song to them. */
  lemma RecordHasCredit(r: Record) returns (c: Credit)
    requires Names(r.key) != []
    ensures c in RecordCredits(r) && c.song.num == r.num
  {
    c := RecordCredits(r)[0];
  }

  /** Every credit of a record is for its song, and only a record that names
      someone has one. */
  lemma CreditOfRecord(r: Record, c: Credit)
    requires c in RecordCredits(r)
    ensures c.song.num == r.num && Names(r.key) != []
  {
  }
}
