/** The title index `_make_latex_title_index`: every title of the `.sxd` file is
    normalised (a leading `*` marks an alternative title, a leading article moves to
    the end, the first letter is upper-cased), the titles are sorted
    case-insensitively, and the index lists them either in one `idxblock` per first
    letter or as a flat list. */
module TitleIndex {
  import opened Wrappers
  import opened Strings
  import opened Sorting
  import opened Sxd
  import opened CaseFold

  /** One entry of the title index: the normalised title, the song number and link,
      and whether the title is an alternative one. */
  datatype Title = Title(title: string, num: string, link: string, alt: bool)

  // ---------------------------------------------------------------- normalisation

  /** `t.split(maxsplit=1)`: the first word, and the rest of the text after the
      whitespace that follows it, when anything is left. */
  function SplitOnce(t: string): (r: seq<string>)
    ensures |r| <= 2
    ensures forall k :: 0 <= k < |r| ==> r[k] != []
    ensures |r| >= 1 ==> NoSpace(r[0])
  {
    var u := LStrip(t);
    LStripSpec(t);
    if u == [] then []
    else
      var n := WordLength(u);
      var rest := LStrip(u[n..]);
      if rest == [] then [u[..n]] else [u[..n], rest]
  }

  /** A first word that is an English article. */
  predicate IsArticle(w: string) {
    w == "a" || w == "an" || w == "the" || w == "A" || w == "An" || w == "The"
  }

  /** Moves a leading article behind the rest of the title, as `<rest>, <article>`. */
  function MoveArticle(t: string): (r: string)
    ensures r == [] <==> t == []
  {
    var p := SplitOnce(t);
    if |p| == 2 && IsArticle(p[0]) then p[1] + ", " + p[0] else t
  }

  /** The title with its first character upper-cased. */
  function UpperFirst(t: string): (r: string)
    requires t != []
    ensures |r| == |t| && r[0] == Upper(t[0]) && r[1..] == t[1..]
  {
    [Upper(t[0])] + t[1..]
  }

  /** A title made of `*`s alone, or empty: nothing is left of it once the marks
      of an alternative title are removed. */
  predicate Unnamed(key: string) {
    forall i :: 0 <= i < |key| ==> key[i] == '*'
  }

  /** The entry of one record, or the exception `title[0]` raises on a title that is
      empty once its `*`s are removed. */
  function TitleOf(r: Record): (t: Result<Title, IndexCrash>)
    ensures t.Err? <==> Unnamed(r.key)
    ensures t.Err? ==> t.error == EmptyTitle
    ensures t.Ok? ==> t.value.alt == StartsWith(r.key, "*")
    ensures t.Ok? ==> t.value.num == r.num && t.value.link == r.link
    ensures t.Ok? ==> t.value.title != [] && Upper(t.value.title[0]) == t.value.title[0]
  {
    var alt := StartsWith(r.key, "*");
    var title := if alt then LStripChar(r.key, '*') else r.key;
    TitleEmptyIff(r.key);
    var moved := MoveArticle(title);
    assert moved == [] <==> title == [];
    if moved == [] then Err(EmptyTitle) else Ok(Title(UpperFirst(moved), r.num, r.link, alt))
  }

  /** Only a key made of `*`s alone is left empty by the removal of its leading `*`s. */
  lemma TitleEmptyIff(key: string)
    ensures (if StartsWith(key, "*") then LStripChar(key, '*') else key) == [] <==> Unnamed(key)
  {
    LStripCharSpec(key, '*');
    var title := if StartsWith(key, "*") then LStripChar(key, '*') else key;
    if StartsWith(key, "*") && title != [] {
      assert key[|key| - |title|] == title[0];
    }
  }

  /** `str.split(maxsplit=1)` of an article, whitespace and a rest that starts with
      a non-space character. */
  lemma SplitOnceOfTwo(lead: string, w: string, sp: string, rest: string)
    requires AllSpace(lead) && w != [] && NoSpace(w)
    requires sp != [] && AllSpace(sp) && rest != [] && !IsSpace(rest[0])
    ensures SplitOnce(lead + w + sp + rest) == [w, rest]
  {
    var t := lead + w + sp + rest;
    assert t == lead + (w + sp + rest);
    LStripLeading(lead, w + sp + rest);
    var u := w + sp + rest;
    assert u == w + (sp + rest);
    WordLengthOf(w, sp + rest);
    assert u[..|w|] == w && u[|w|..] == sp + rest;
    LStripLeading(sp, rest);
  }

  /** A title of one word, possibly surrounded by whitespace, does not split. */
  lemma SplitOnceOfOne(lead: string, w: string, trail: string)
    requires AllSpace(lead) && w != [] && NoSpace(w) && AllSpace(trail)
    ensures SplitOnce(lead + w + trail) == [w]
  {
    var t := lead + w + trail;
    assert t == lead + (w + trail);
    LStripLeading(lead, w + trail);
    var u := w + trail;
    WordLengthOf(w, trail);
    assert u[..|w|] == w && u[|w|..] == trail;
    LStripLeading(trail, []);
    assert trail + [] == trail;
  }

  /** A leading article followed by whitespace moves behind the rest of the title;
      whitespace before the article is dropped. */
  lemma MoveArticleOfArticle(lead: string, article: string, sp: string, rest: string)
    requires AllSpace(lead) && IsArticle(article)
    requires sp != [] && AllSpace(sp) && rest != [] && !IsSpace(rest[0])
    ensures MoveArticle(lead + article + sp + rest) == rest + ", " + article
  {
    assert NoSpace(article);
    SplitOnceOfTwo(lead, article, sp, rest);
  }

  /** A first word that is not an article, or a title of one word, stays put. */
  lemma MoveArticleKeeps(t: string)
    requires |SplitOnce(t)| < 2 || !IsArticle(SplitOnce(t)[0])
    ensures MoveArticle(t) == t
  {
  }

  /** Upper-casing the first letter a second time changes nothing. */
  lemma UpperFirstIdempotent(t: string)
    requires t != []
    ensures UpperFirst(UpperFirst(t)) == UpperFirst(t)
  {
    var u := UpperFirst(t);
    assert Upper(Upper(t[0])) == Upper(t[0]);
    assert UpperFirst(u) == [Upper(u[0])] + u[1..];
  }

  /** `*the end` becomes the alternative title `End, the`. */
  lemma TitleOfExample()
    ensures TitleOf(Record("*the end", "3", "song3")) == Ok(Title("End, the", "3", "song3", true))
  {
    UnstarExample();
    ArticleExample();
    assert StartsWith("*the end", "*");
    CapitalExample();
  }

  lemma CapitalExample()
    ensures UpperFirst("end, the") == "End, the"
  {
    var t := "end, the";
    assert Upper(t[0]) == 'E';
    assert t[1..] == "nd, the";
    assert ['E'] + "nd, the" == "End, the";
  }

  lemma UnstarExample()
    ensures LStripChar("*the end", '*') == "the end"
  {
    var key := "*the end";
    assert key[1..] == "the end";
    assert LStripChar("the end", '*') == "the end";
  }

  lemma ArticleExample()
    ensures MoveArticle("the end") == "end, the"
  {
    assert IsArticle("the") && !IsSpace('e');
    assert AllSpace(" ");
    MoveArticleOfArticle([], "the", " ", "end");
    assert [] + "the" + " " + "end" == "the end";
    assert "end" + ", " + "the" == "end, the";
  }

  // ---------------------------------------------------------------- reading

  /** All titles are non-empty, as normalisation leaves them. */
  predicate Named(ts: seq<Title>) {
    forall k :: 0 <= k < |ts| ==> ts[k].title != []
  }

  lemma NamedCons(t: Title, ts: seq<Title>)
    requires t.title != [] && Named(ts)
    ensures Named([t] + ts)
  {
    assert forall k :: 1 <= k < |ts| + 1 ==> ([t] + ts)[k] == ts[k - 1];
  }

  /** The entries of the records, in file order, up to the first empty title. */
  function Titles(rs: seq<Record>): (r: Result<seq<Title>, IndexCrash>)
    ensures r.Ok? ==> |r.value| == |rs| && Named(r.value)
  {
    if rs == [] then Ok([])
    else
      match TitleOf(rs[0])
      case Err(e) => Err(e)
      case Ok(t) =>
        var rest := Titles(rs[1..]);
        assert rest.Ok? ==> Named([t] + rest.value) by {
          if rest.Ok? {
            NamedCons(t, rest.value);
          }
        }
        Prefixed([t], rest)
  }

  /** Every entry read is the normalisation of the record in the same place. */
  lemma {:induction false} TitlesInOrder(rs: seq<Record>, k: nat)
    requires Titles(rs).Ok? && k < |rs|
    ensures TitleOf(rs[k]) == Ok(Titles(rs).value[k])
    decreases k
  {
    var t := TitleOf(rs[0]).value;
    assert Titles(rs) == Prefixed([t], Titles(rs[1..]));
    if k > 0 {
      TitlesInOrder(rs[1..], k - 1);
      assert rs[1..][k - 1] == rs[k];
    }
  }

  /** Reading fails exactly when some record's title is empty once its `*`s are
      removed. */
  lemma {:induction false} TitlesErrIff(rs: seq<Record>)
    ensures Titles(rs).Err? <==> exists k :: 0 <= k < |rs| && TitleOf(rs[k]).Err?
    ensures Titles(rs).Err? ==> Titles(rs).error == EmptyTitle
  {
    if rs != [] && TitleOf(rs[0]).Ok? {
      TitlesErrIff(rs[1..]);
      assert forall k :: 1 <= k < |rs| ==> rs[1..][k - 1] == rs[k];
      if Titles(rs).Err? {
        var k :| 0 <= k < |rs[1..]| && TitleOf(rs[1..][k]).Err?;
        assert TitleOf(rs[k + 1]).Err?;
      }
    }
  }

  /** Reads the entries of the records in file order. */
  method ReadTitles(records: seq<Record>) returns (r: Result<seq<Title>, IndexCrash>)
    ensures r == Titles(records)
  {
    var titles := [];
    assert records[0..] == records;
    PrefixedEmpty(Titles(records));
    for i := 0 to |records|
      invariant Prefixed(titles, Titles(records[i..])) == Titles(records)
    {
      assert records[i..][0] == records[i] && records[i..][1..] == records[i + 1..];
      var title := TitleOf(records[i]);
      if title.Err? {
        return Err(title.error);
      }
      PrefixedAssoc(titles, [title.value], Titles(records[i + 1..]));
      titles := titles + [title.value];
    }
    assert records[|records|..] == [];
    assert titles + [] == titles;
    return Ok(titles);
  }

  // ---------------------------------------------------------------- sorting

  /** `k["title"].casefold()` order. */
  predicate TitleLt(a: Title, b: Title) {
    FoldedLt(a.title, b.title)
  }

  lemma TitleLtOrder()
    ensures StrictWeakOrder(TitleLt)
  {
    FoldedLtOrder();
    forall a: Title, b: Title, c: Title | Equiv(a, b, TitleLt) && Equiv(b, c, TitleLt)
      ensures Equiv(a, c, TitleLt)
    {
      assert Equiv(a.title, b.title, FoldedLt) && Equiv(b.title, c.title, FoldedLt);
    }
  }

  /** The entries in index order: case-insensitively sorted by title, entries with
      titles equal up to case in file order, none lost and none added. */
  function TitleOrder(ts: seq<Title>): (r: seq<Title>)
    ensures Sorted(r, TitleLt)
    ensures multiset(r) == multiset(ts)
    ensures forall x :: Ties(r, x, TitleLt) == Ties(ts, x, TitleLt)
  {
    TitleLtOrder();
    SortBySorted(ts, TitleLt);
    forall x ensures Ties(SortBy(ts, TitleLt), x, TitleLt) == Ties(ts, x, TitleLt) {
      SortByStable(ts, x, TitleLt);
    }
    SortBy(ts, TitleLt)
  }

  /** Every title of a sorted list of entries comes from the entries. */
  lemma TitleOrderKeeps(ts: seq<Title>)
    requires Named(ts)
    ensures Named(TitleOrder(ts))
  {
    var r := TitleOrder(ts);
    forall k | 0 <= k < |r| ensures r[k].title != [] {
      assert r[k] in multiset(r);
      assert r[k] in multiset(ts);
      var j :| 0 <= j < |ts| && ts[j] == r[k];
    }
  }

  // ---------------------------------------------------------------- writing

  /** `\begin{idxblock}{<letter>}`. */
  function Begin(letter: char): string {
    "\\begin{idxblock}{" + [letter] + "}\n"
  }

  const End: string := "\\end{idxblock}\n"

  /** `\idxentry` or, for an alternative title, `\idxaltentry`, with the title and a
      link to the song. */
  function Entry(t: Title): string {
    "\\" + (if t.alt then "idxaltentry" else "idxentry") + "{" + t.title + "}{\\songlink{" + t.link + "}{" + t.num + "}}\n"
  }

  /** The entry `t` opens a new block: its first letter differs, up to case, from the
      letter of the current block. */
  predicate Opens(t: Title, section: char)
    requires t.title != []
  {
    Lower(t.title[0]) != Lower(section)
  }

  /** What is written before the entry `t` in block mode (`section` is the letter
      of the current block): when `t` opens a new block, the end of the current one
      and the beginning of one for the upper-cased first letter of `t`. Nothing in
      flat mode (`None`). */
  function Heading(t: Title, section: Option<char>): string
    requires t.title != []
  {
    if section.Some? && Opens(t, section.value) then End + Begin(Upper(t.title[0])) else ""
  }

  /** The current block after the entry `t`. */
  function NextSection(t: Title, section: Option<char>): Option<char>
    requires t.title != []
  {
    if section.Some? && Opens(t, section.value) then Some(Upper(t.title[0])) else section
  }

  /** What is written for the entries `ts`, each after its heading. */
  function EntriesFrom(ts: seq<Title>, section: Option<char>): string
    requires Named(ts)
  {
    if ts == [] then ""
    else
      assert Named(ts[1..]) by {
        assert forall k :: 1 <= k < |ts| ==> ts[1..][k - 1] == ts[k];
      }
      Heading(ts[0], section) + (Entry(ts[0]) + EntriesFrom(ts[1..], NextSection(ts[0], section)))
  }

  /** The index file for the sorted entries `ts`: with `letterblock`, the first block
      is opened with the first letter of the first title (which raises on an empty
      list, after the file was opened) and the last one is closed. */
  function TitleIndexText(ts: seq<Title>, letterblock: bool): (f: IndexFile)
    requires Named(ts)
    ensures f.Written?
    ensures f.crash.Some? <==> letterblock && ts == []
  {
    if !letterblock then Written(EntriesFrom(ts, None), None)
    else if ts == [] then Written("", Some(NoTitles))
    else Written(Begin(ts[0].title[0]) + EntriesFrom(ts, Some(ts[0].title[0])) + End, None)
  }

  /** `_make_latex_title_index` on the lines of an `.sxd` file: an empty title raises
      while reading, before the index file is opened. */
  function TitleIndexFile(lines: seq<string>, letterblock: bool): (f: IndexFile)
    ensures f.NotWritten? ==> f.crash == Some(EmptyTitle)
  {
    var rs := Records(lines);
    TitlesErrIff(rs);
    match Titles(rs)
    case Err(e) => NotWritten(Some(e))
    case Ok(ts) =>
      TitleOrderKeeps(ts);
      TitleIndexText(TitleOrder(ts), letterblock)
  }

  lemma EntriesFromCons(ts: seq<Title>, section: Option<char>)
    requires Named(ts) && ts != []
    ensures Named(ts[1..])
    ensures EntriesFrom(ts, section)
      == (Heading(ts[0], section) + Entry(ts[0])) + EntriesFrom(ts[1..], NextSection(ts[0], section))
  {
    assert forall k :: 1 <= k < |ts| ==> ts[1..][k - 1] == ts[k];
  }

  /** The current block as the specification sees it: its letter in block mode,
      nothing in flat mode. */
  function Mode(letterblock: bool, section: char): Option<char> {
    if letterblock then Some(section) else None
  }

  /** Writes one entry, opening a new block first when its letter differs. */
  method WriteEntry(t: Title, letterblock: bool, section: char) returns (piece: string, next: char)
    requires t.title != []
    ensures piece == Heading(t, Mode(letterblock, section)) + Entry(t)
    ensures Mode(letterblock, next) == NextSection(t, Mode(letterblock, section))
  {
    piece := "";
    next := section;
    if letterblock && Lower(t.title[0]) != Lower(section) {
      piece := piece + End;
      next := Upper(t.title[0]);
      piece := piece + Begin(next);
    }
    piece := piece + Entry(t);
  }

  /** Writes the entries `ts` from the block with letter `section` on. */
  method WriteEntries(ts: seq<Title>, letterblock: bool, section0: char) returns (text: string)
    requires Named(ts)
    ensures text == EntriesFrom(ts, Mode(letterblock, section0))
  {
    text := "";
    var section := section0;
    assert ts[0..] == ts;
    for i := 0 to |ts|
      invariant Named(ts[i..])
      invariant text + EntriesFrom(ts[i..], Mode(letterblock, section)) == EntriesFrom(ts, Mode(letterblock, section0))
    {
      ghost var cur := Mode(letterblock, section);
      assert ts[i..][0] == ts[i] && ts[i..][1..] == ts[i + 1..];
      var piece, next := WriteEntry(ts[i], letterblock, section);
      EntriesFromCons(ts[i..], cur);
      ghost var rest := EntriesFrom(ts[i + 1..], NextSection(ts[i], cur));
      assert text + (piece + rest) == (text + piece) + rest;
      text := text + piece;
      section := next;
    }
    assert ts[|ts|..] == [];
    assert text + "" == text;
  }

  /** Writes the index of the sorted entries `ts`, block by block or as a flat
      list. */
  method WriteTitleIndex(ts: seq<Title>, letterblock: bool) returns (f: IndexFile)
    requires Named(ts)
    ensures f == TitleIndexText(ts, letterblock)
  {
    if !letterblock {
      var text := WriteEntries(ts, false, ' ');
      return Written(text, None);
    }
    if |ts| == 0 {
      return Written("", Some(NoTitles));
    }
    var section := ts[0].title[0];
    var text := Begin(section);
    var entries := WriteEntries(ts, true, section);
    text := text + entries;
    text := text + End;
    return Written(text, None);
  }

  /** `_make_latex_title_index`: reads and normalises the titles, sorts them, and
      writes the index. */
  method MakeTitleIndex(lines: seq<string>, letterblock: bool) returns (f: IndexFile)
    ensures f == TitleIndexFile(lines, letterblock)
  {
    var records := ReadRecords(lines);
    var titles := ReadTitles(records);
    if titles.Err? {
      return NotWritten(Some(titles.error));
    }
    TitleOrderKeeps(titles.value);
    var sorted := TitleOrder(titles.value);
    f := WriteTitleIndex(sorted, letterblock);
  }

  // ---------------------------------------------------------------- properties

  /** An entry is written as `\idxaltentry` exactly when its title is an alternative
      one, and as `\idxentry` otherwise. */
  lemma EntryKind(t: Title)
    ensures StartsWith(Entry(t), "\\idxaltentry{") <==> t.alt
    ensures StartsWith(Entry(t), "\\idxentry{") <==> !t.alt
  {
    var e := Entry(t);
    var kind := if t.alt then "idxaltentry" else "idxentry";
    assert e == "\\" + kind + "{" + (t.title + "}{\\songlink{" + t.link + "}{" + t.num + "}}\n");
    if t.alt {
      assert e[..13] == "\\idxaltentry{";
      assert e[4] == 'a';
    } else {
      assert e[..10] == "\\idxentry{";
      assert e[4] == 'e';
    }
  }

  /** The entries of `ts`, one line each. */
  function EntryLines(ts: seq<Title>): (r: seq<string>)
    ensures |r| == |ts| && forall k :: 0 <= k < |ts| ==> r[k] == Entry(ts[k])
  {
    seq(|ts|, k requires 0 <= k < |ts| => Entry(ts[k]))
  }

  /** In flat mode the index is the entries of the sorted titles, one after the
      other, each exactly once. */
  lemma {:induction false} FlatEntries(ts: seq<Title>)
    requires Named(ts)
    ensures EntriesFrom(ts, None) == Concat(EntryLines(ts))
  {
    if ts != [] {
      EntriesFromCons(ts, None);
      assert Heading(ts[0], None) == "" && NextSection(ts[0], None) == None;
      FlatEntries(ts[1..]);
      LinesHead(ts);
    }
  }

  lemma LinesHead(ts: seq<Title>)
    requires ts != []
    ensures Concat(EntryLines(ts)) == Entry(ts[0]) + Concat(EntryLines(ts[1..]))
  {
    assert EntryLines(ts) == [Entry(ts[0])] + EntryLines(ts[1..]);
    ConcatCons(Entry(ts[0]), EntryLines(ts[1..]));
  }

  lemma FlatIndex(ts: seq<Title>)
    requires Named(ts)
    ensures TitleIndexText(ts, false) == Written(Concat(EntryLines(ts)), None)
  {
    FlatEntries(ts);
  }

  /** A block of the index: its letter and its entries. */
  datatype Block = Block(letter: char, entries: seq<Title>)

  /** `\begin{idxblock}{<letter>}`, the entries, `\end{idxblock}`. */
  function BlockText(b: Block): string {
    Begin(b.letter) + Concat(EntryLines(b.entries)) + End
  }

  function BlocksText(bs: seq<Block>): string {
    if bs == [] then "" else BlockText(bs[0]) + BlocksText(bs[1..])
  }

  /** The entries of the blocks, block after block. */
  function Members(bs: seq<Block>): seq<Title> {
    if bs == [] then [] else bs[0].entries + Members(bs[1..])
  }

  /** The number of leading entries of `ts` that stay in the block with letter `c`. */
  function Run(ts: seq<Title>, c: char): (n: nat)
    requires Named(ts)
    ensures n <= |ts|
    ensures forall k :: 0 <= k < n ==> !Opens(ts[k], c)
    ensures n < |ts| ==> Opens(ts[n], c)
  {
    if ts == [] || Opens(ts[0], c) then 0
    else
      assert Named(ts[1..]) by {
        assert forall k :: 1 <= k < |ts| ==> ts[1..][k - 1] == ts[k];
      }
      1 + Run(ts[1..], c)
  }

  /** The reference grouping: the block with letter `c` holds the entries up to the
      first whose folded first letter differs; that one starts a block of its own
      upper-cased first letter, and so on. */
  function Blocks(ts: seq<Title>, c: char): (bs: seq<Block>)
    requires Named(ts) && (ts == [] || !Opens(ts[0], c))
    ensures bs != [] && bs[0].letter == c
    decreases |ts|
  {
    var n := Run(ts, c);
    if n == |ts| then [Block(c, ts)]
    else
      var next := Upper(ts[n].title[0]);
      LowerUpper(ts[n].title[0]);
      assert Named(ts[n..]) by {
        assert forall k :: n <= k < |ts| ==> ts[n..][k - n] == ts[k];
      }
      [Block(c, ts[..n])] + Blocks(ts[n..], next)
  }

  lemma Regroup(open: string, quiet: string, close: string, next: string, later: string)
    ensures open + (quiet + (close + next + later)) + close == (open + quiet + close) + (next + later + close)
  {
  }

  /** An entry that stays in the current block is written alone. */
  lemma EntriesStay(ts: seq<Title>, c: char)
    requires Named(ts) && ts != [] && !Opens(ts[0], c)
    ensures Named(ts[1..])
    ensures EntriesFrom(ts, Some(c)) == Entry(ts[0]) + EntriesFrom(ts[1..], Some(c))
  {
    EntriesFromCons(ts, Some(c));
    assert "" + Entry(ts[0]) == Entry(ts[0]);
  }

  lemma LinesCons(ts: seq<Title>, n: nat)
    requires 0 < n <= |ts|
    ensures Concat(EntryLines(ts[..n])) == Entry(ts[0]) + Concat(EntryLines(ts[1..][..n - 1]))
  {
    assert EntryLines(ts[..n]) == [Entry(ts[0])] + EntryLines(ts[1..][..n - 1]);
    ConcatCons(Entry(ts[0]), EntryLines(ts[1..][..n - 1]));
  }

  lemma {:induction false} EntriesQuiet(ts: seq<Title>, c: char, n: nat)
    requires Named(ts) && n <= |ts|
    requires forall k :: 0 <= k < n ==> !Opens(ts[k], c)
    ensures Named(ts[n..])
    ensures EntriesFrom(ts, Some(c)) == Concat(EntryLines(ts[..n])) + EntriesFrom(ts[n..], Some(c))
  {
    if n == 0 {
      assert ts[..0] == [] && ts[0..] == ts;
      assert "" + EntriesFrom(ts, Some(c)) == EntriesFrom(ts, Some(c));
    } else {
      var tail := ts[1..];
      EntriesStay(ts, c);
      EntriesQuiet(tail, c, n - 1);
      var quiet := Concat(EntryLines(tail[..n - 1]));
      var later := EntriesFrom(tail[n - 1..], Some(c));
      assert tail[n - 1..] == ts[n..];
      LinesCons(ts, n);
      SeqAssoc(Entry(ts[0]), quiet, later);
    }
  }

  /** An entry that opens a block closes the current one and begins its own. */
  lemma EntriesOpen(ts: seq<Title>, c: char)
    requires Named(ts) && ts != [] && Opens(ts[0], c)
    ensures !Opens(ts[0], Upper(ts[0].title[0]))
    ensures EntriesFrom(ts, Some(c)) == End + Begin(Upper(ts[0].title[0])) + EntriesFrom(ts, Some(Upper(ts[0].title[0])))
  {
    var next := Upper(ts[0].title[0]);
    LowerUpper(ts[0].title[0]);
    EntriesFromCons(ts, Some(c));
    EntriesFromCons(ts, Some(next));
    var rest := EntriesFrom(ts[1..], Some(next));
    assert EntriesFrom(ts, Some(next)) == ("" + Entry(ts[0])) + rest;
    assert "" + Entry(ts[0]) == Entry(ts[0]);
    assert (End + Begin(next) + Entry(ts[0])) + rest == End + Begin(next) + (Entry(ts[0]) + rest);
  }

  /** In block mode, what is written from the block with letter `c` on is the text
      of the reference blocks. */
  lemma {:induction false} BlocksWritten(ts: seq<Title>, c: char)
    requires Named(ts) && (ts == [] || !Opens(ts[0], c))
    ensures Begin(c) + EntriesFrom(ts, Some(c)) + End == BlocksText(Blocks(ts, c))
    decreases |ts|
  {
    var n := Run(ts, c);
    EntriesQuiet(ts, c, n);
    var quiet := Concat(EntryLines(ts[..n]));
    if n == |ts| {
      assert ts[..n] == ts && ts[n..] == [];
      assert BlocksText([Block(c, ts)]) == BlockText(Block(c, ts)) + "";
      assert EntriesFrom(ts, Some(c)) == quiet + "";
    } else {
      var next := Upper(ts[n].title[0]);
      var tail := ts[n..];
      BlocksSplit(ts, c);
      assert tail[0] == ts[n];
      EntriesOpen(tail, c);
      BlocksWritten(tail, next);
      var later := EntriesFrom(tail, Some(next));
      BlocksTextCons(Block(c, ts[..n]), Blocks(tail, next));
      Regroup(Begin(c), quiet, End, Begin(next), later);
    }
  }

  lemma BlocksTextCons(b: Block, rest: seq<Block>)
    ensures BlocksText([b] + rest) == BlockText(b) + BlocksText(rest)
  {
    assert ([b] + rest)[1..] == rest;
  }

  /** In block mode the index of a non-empty list is the text of its reference
      blocks, the first with the first letter of the first title. */
  lemma BlockIndex(ts: seq<Title>)
    requires Named(ts) && ts != []
    ensures TitleIndexText(ts, true) == Written(BlocksText(Blocks(ts, ts[0].title[0])), None)
  {
    BlocksWritten(ts, ts[0].title[0]);
  }

  /** The first block takes the entries up to the first that opens a new one; the
      rest are the blocks from that entry on. */
  lemma BlocksSplit(ts: seq<Title>, c: char)
    requires Named(ts) && (ts == [] || !Opens(ts[0], c)) && Run(ts, c) < |ts|
    ensures Named(ts[Run(ts, c)..])
    ensures !Opens(ts[Run(ts, c)], Upper(ts[Run(ts, c)].title[0]))
    ensures Blocks(ts, c) == [Block(c, ts[..Run(ts, c)])] + Blocks(ts[Run(ts, c)..], Upper(ts[Run(ts, c)].title[0]))
  {
    LowerUpper(ts[Run(ts, c)].title[0]);
  }

  /** The blocks hold every entry once, in order; every block but that of an empty
      list has entries, and all of them share the folded first letter of their
      block. */
  lemma {:induction false} BlocksShape(ts: seq<Title>, c: char)
    requires Named(ts) && (ts == [] || !Opens(ts[0], c))
    ensures Members(Blocks(ts, c)) == ts
    ensures ts != [] ==> forall k :: 0 <= k < |Blocks(ts, c)| ==> Blocks(ts, c)[k].entries != []
    ensures Lettered(Blocks(ts, c))
    decreases |ts|
  {
    var n := Run(ts, c);
    QuietBlock(ts, c);
    var b := Block(c, ts[..n]);
    if n == |ts| {
      assert ts[..n] == ts;
      assert Blocks(ts, c) == [b] + [];
      ShapeCons(b, []);
      assert ts + [] == ts;
    } else {
      var next := Upper(ts[n].title[0]);
      var tail := ts[n..];
      BlocksSplit(ts, c);
      BlocksShape(tail, next);
      var rest := Blocks(tail, next);
      assert Blocks(ts, c) == [b] + rest;
      ShapeCons(b, rest);
      TakeDrop(ts, n);
    }
  }

  /** The entries before the first that opens a new block share the letter `c`. */
  lemma QuietBlock(ts: seq<Title>, c: char)
    requires Named(ts) && (ts == [] || !Opens(ts[0], c))
    ensures ts != [] ==> ts[..Run(ts, c)] != []
    ensures forall j :: 0 <= j < |ts[..Run(ts, c)]| ==>
      ts[..Run(ts, c)][j].title != [] && Lower(ts[..Run(ts, c)][j].title[0]) == Lower(c)
  {
    var quiet := ts[..Run(ts, c)];
    assert forall j :: 0 <= j < |quiet| ==> quiet[j] == ts[j];
  }

  /** Shape of the blocks: every entry titled and sharing its block's folded letter. */
  ghost predicate Lettered(bs: seq<Block>) {
    forall k, j :: 0 <= k < |bs| && 0 <= j < |bs[k].entries| ==>
      bs[k].entries[j].title != [] && Lower(bs[k].entries[j].title[0]) == Lower(bs[k].letter)
  }

  lemma ShapeCons(b: Block, rest: seq<Block>)
    requires Lettered(rest) && forall k :: 0 <= k < |rest| ==> rest[k].entries != []
    requires forall j :: 0 <= j < |b.entries| ==> b.entries[j].title != [] && Lower(b.entries[j].title[0]) == Lower(b.letter)
    ensures Members([b] + rest) == b.entries + Members(rest)
    ensures Lettered([b] + rest)
    ensures b.entries != [] ==> forall k :: 0 <= k < |[b] + rest| ==> ([b] + rest)[k].entries != []
  {
    var bs := [b] + rest;
    assert bs[1..] == rest;
    assert forall k :: 1 <= k < |bs| ==> bs[k] == rest[k - 1];
  }

  /** The folded letters of the blocks strictly increase, and none is below that of `c`. */
  ghost predicate Increasing(bs: seq<Block>, c: char) {
    && (forall k :: 0 <= k < |bs| ==> Lower(c) <= Lower(bs[k].letter))
    && (forall i, j :: 0 <= i < j < |bs| ==> Lower(bs[i].letter) < Lower(bs[j].letter))
  }

  lemma IncreasingCons(b: Block, rest: seq<Block>, next: char)
    requires Increasing(rest, next) && Lower(b.letter) < Lower(next)
    ensures Increasing([b] + rest, b.letter)
  {
    var bs := [b] + rest;
    assert forall k :: 1 <= k < |bs| ==> bs[k] == rest[k - 1];
  }

  /** In a sorted list, an entry that opens a new block has a larger folded letter. */
  lemma OpensLater(ts: seq<Title>, c: char, n: nat)
    requires Named(ts) && Sorted(ts, TitleLt) && 0 < n < |ts|
    requires !Opens(ts[0], c) && Opens(ts[n], c)
    ensures Lower(c) < Lower(Upper(ts[n].title[0]))
  {
    assert !TitleLt(ts[n], ts[0]);
    FoldedFirst(ts[0].title, ts[n].title);
    LowerUpper(ts[n].title[0]);
  }

  lemma SortedSuffix(ts: seq<Title>, n: nat)
    requires Sorted(ts, TitleLt) && n <= |ts|
    ensures Sorted(ts[n..], TitleLt)
  {
    var tail := ts[n..];
    forall i, j | 0 <= i < j < |tail| ensures !TitleLt(tail[j], tail[i]) {
      assert tail[i] == ts[n + i] && tail[j] == ts[n + j];
    }
  }

  /** For case-insensitively sorted titles, the folded letters of the blocks strictly
      increase: every letter has exactly one block. */
  lemma {:induction false} BlocksIncreasing(ts: seq<Title>, c: char)
    requires Named(ts) && (ts == [] || !Opens(ts[0], c)) && Sorted(ts, TitleLt)
    ensures Increasing(Blocks(ts, c), c)
    decreases |ts|
  {
    var n := Run(ts, c);
    if n < |ts| {
      var next := Upper(ts[n].title[0]);
      var tail := ts[n..];
      BlocksSplit(ts, c);
      SortedSuffix(ts, n);
      BlocksIncreasing(tail, next);
      OpensLater(ts, c, n);
      IncreasingCons(Block(c, ts[..n]), Blocks(tail, next), next);
    }
  }

  /** Reading raises, before the index file exists, exactly when some title is
      nothing but `*`s; a block index of a file without records raises after the
      file was opened, with nothing written. */
  lemma TitleIndexFileCrash(lines: seq<string>, letterblock: bool)
    ensures TitleIndexFile(lines, letterblock).NotWritten? <==>
      exists k :: 0 <= k < |Records(lines)| && Unnamed(Records(lines)[k].key)
    ensures TitleIndexFile(lines, letterblock) == Written("", Some(NoTitles)) <==>
      letterblock && Records(lines) == []
  {
    var rs := Records(lines);
    TitlesErrIff(rs);
    if Titles(rs).Ok? {
      var ts := Titles(rs).value;
      TitleOrderKeeps(ts);
      assert |TitleOrder(ts)| == |ts| by {
        assert |multiset(TitleOrder(ts))| == |multiset(ts)|;
      }
    }
  }
}
