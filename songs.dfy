/** The song transcoder `SongBookMaker._xml_to_sbd`: one OpenLyrics song tree in,
    one entry of the LaTeX `songs` package out.

    The functions give the entry compositionally (header, opening marker, pre-verse
    notes, verse blocks); the methods build it step by step as the source does and
    are proved to produce exactly what the functions give. */
module Songs {
  import opened Wrappers
  import opened Strings
  import opened ElementTree

  /** Why a song was skipped: the source logs an error and returns `""`. */
  datatype Skip = NoProperties | NoTitles

  /** Why a song aborts the run: the exception the source raises. */
  datatype Crash =
    | TitleListEmpty              // `song_header["titles"][0]` on an empty list
    | MissingText(field: string)  // a `None` text concatenated, joined or split
    | VerseWithoutName            // `verse.attrib["name"]` on a verse without one
    | UnknownVerse(name: string)  // a `verseOrder` token no verse carries: `find` gives `None`
    | ChordWithoutRoot            // `item.attrib["root"]` on a chord without one

  datatype Conversion = Converted(entry: string) | Skipped(skip: Skip) | Crashed(crash: Crash)

  /** What the source returns as text: the entry, or `""` for a skipped song. */
  function ReturnedText(c: Conversion): string
    requires !c.Crashed?
  {
    if c.Converted? then c.entry else ""
  }

  // ---------------------------------------------------------------- header

  /** A header value: the texts of the children of a multi-valued tag, or the text
      of a single-valued one. */
  datatype HeaderValue = Many(items: seq<Option<string>>) | One(text: Option<string>)

  /** The `song_header` dictionary, keyed by local tag name. */
  type Header = map<string, HeaderValue>

  const MultiTags: set<string> := {"titles", "authors", "keywords", "themes"}
  const SingleTags: set<string> := {"ccliNo", "verseOrder", "copyright", "tune"}

  /** No tag is both multi-valued and single-valued. */
  lemma TagKindsDisjoint()
    ensures MultiTags !! SingleTags
  {
  }

  /** Multi-valued tags hold lists and single-valued tags hold texts. */
  ghost predicate WellKinded(h: Header) {
    forall t :: t in h ==> (t in MultiTags && h[t].Many?) || (t in SingleTags && h[t].One?)
  }

  /** The texts of the elements `cs`, in order. */
  function Texts(cs: seq<Element>): (r: seq<Option<string>>)
    ensures |r| == |cs| && forall k :: 0 <= k < |cs| ==> r[k] == cs[k].text
  {
    if cs == [] then [] else Texts(cs[..|cs| - 1]) + [cs[|cs| - 1].text]
  }

  /** The list stored for a multi-valued tag so far (none yet: empty). */
  function Items(h: Header, tag: string): seq<Option<string>> {
    if tag in h && h[tag].Many? then h[tag].items else []
  }

  /** What reading one child `c` of `properties` does to the header. */
  function HeaderStep(h: Header, c: Element): Header {
    var tag := LocalName(c.tag);
    if tag in MultiTags then h[tag := Many(Items(h, tag) + Texts(c.children))]
    else if tag in SingleTags then h[tag := One(c.text)]
    else h
  }

  /** The header after reading the children `cs` of `properties` in order. */
  function HeaderOf(cs: seq<Element>): Header {
    if cs == [] then map[] else HeaderStep(HeaderOf(cs[..|cs| - 1]), cs[|cs| - 1])
  }

  /** The texts of the children of every element of `cs` named `tag`, in document order. */
  function GatheredTexts(cs: seq<Element>, tag: string): seq<Option<string>> {
    if cs == [] then []
    else (if LocalName(cs[0].tag) == tag then Texts(cs[0].children) else []) + GatheredTexts(cs[1..], tag)
  }

  /** The last element of `cs` named `tag`. */
  function LastNamed(cs: seq<Element>, tag: string): (r: Option<Element>)
    ensures r.None? <==> forall k :: 0 <= k < |cs| ==> LocalName(cs[k].tag) != tag
  {
    if cs == [] then None
    else if LocalName(cs[|cs| - 1].tag) == tag then Some(cs[|cs| - 1])
    else
      var r := LastNamed(cs[..|cs| - 1], tag);
      assert forall k :: 0 <= k < |cs| - 1 ==> cs[..|cs| - 1][k] == cs[k];
      r
  }

  lemma {:induction false} GatheredTextsAppend(cs: seq<Element>, c: Element, tag: string)
    ensures GatheredTexts(cs + [c], tag)
         == GatheredTexts(cs, tag) + (if LocalName(c.tag) == tag then Texts(c.children) else [])
  {
    var extra := if LocalName(c.tag) == tag then Texts(c.children) else [];
    if cs == [] {
      assert [c][1..] == [];
      assert GatheredTexts([c], tag) == extra + [];
    } else {
      var head := if LocalName(cs[0].tag) == tag then Texts(cs[0].children) else [];
      assert (cs + [c])[0] == cs[0];
      assert (cs + [c])[1..] == cs[1..] + [c];
      assert GatheredTexts(cs + [c], tag) == head + GatheredTexts(cs[1..] + [c], tag);
      GatheredTextsAppend(cs[1..], c, tag);
      SeqAssoc(head, GatheredTexts(cs[1..], tag), extra);
      assert GatheredTexts(cs, tag) == head + GatheredTexts(cs[1..], tag);
    }
  }

  /** Only the eight known tags are stored, each with the kind of value it takes. */
  lemma {:induction false} HeaderWellKinded(cs: seq<Element>)
    ensures WellKinded(HeaderOf(cs))
  {
    if cs != [] {
      HeaderWellKinded(cs[..|cs| - 1]);
    }
  }

  lemma HeaderStepOther(h: Header, c: Element, tag: string)
    requires LocalName(c.tag) != tag
    ensures (tag in HeaderStep(h, c) <==> tag in h)
    ensures tag in h ==> HeaderStep(h, c)[tag] == h[tag]
    ensures Items(HeaderStep(h, c), tag) == Items(h, tag)
  {
  }

  lemma HeaderStepSame(h: Header, c: Element, tag: string)
    requires LocalName(c.tag) == tag && (tag in MultiTags || tag in SingleTags)
    ensures tag in HeaderStep(h, c)
    ensures tag in MultiTags ==> Items(HeaderStep(h, c), tag) == Items(h, tag) + Texts(c.children)
    ensures tag in SingleTags ==> HeaderStep(h, c)[tag] == One(c.text)
  {
    TagKindsDisjoint();
  }

  /** The header walk appends for multi-valued tags and overwrites for single-valued
      ones: a multi-valued tag holds the child texts of every element with that name,
      in document order; a single-valued tag holds the text of the last such element;
      a tag is present exactly when some child of `properties` carries it. */
  lemma {:induction false} HeaderOfGathers(cs: seq<Element>, tag: string)
    requires tag in MultiTags || tag in SingleTags
    ensures tag in HeaderOf(cs) <==> LastNamed(cs, tag).Some?
    ensures tag in MultiTags ==> Items(HeaderOf(cs), tag) == GatheredTexts(cs, tag)
    ensures tag in SingleTags && tag in HeaderOf(cs) ==>
      HeaderOf(cs)[tag] == One(LastNamed(cs, tag).value.text)
  {
    if cs != [] {
      var init, c := cs[..|cs| - 1], cs[|cs| - 1];
      var h := HeaderOf(init);
      assert HeaderOf(cs) == HeaderStep(h, c);
      HeaderOfGathers(init, tag);
      GatheredTextsSnoc(cs, tag);
      if LocalName(c.tag) == tag {
        HeaderStepSame(h, c, tag);
      } else {
        HeaderStepOther(h, c, tag);
        LastNamedSnoc(cs, tag);
      }
    }
  }

  lemma GatheredTextsSnoc(cs: seq<Element>, tag: string)
    requires cs != []
    ensures GatheredTexts(cs, tag) == GatheredTexts(cs[..|cs| - 1], tag)
      + (if LocalName(cs[|cs| - 1].tag) == tag then Texts(cs[|cs| - 1].children) else [])
  {
    assert cs == cs[..|cs| - 1] + [cs[|cs| - 1]];
    GatheredTextsAppend(cs[..|cs| - 1], cs[|cs| - 1], tag);
  }

  lemma LastNamedSnoc(cs: seq<Element>, tag: string)
    requires cs != [] && LocalName(cs[|cs| - 1].tag) != tag
    ensures LastNamed(cs, tag) == LastNamed(cs[..|cs| - 1], tag)
  {
  }

  // ---------------------------------------------------------------- opening marker

  /** `", ".join(texts)`; `None` when one of the texts is missing (a TypeError). */
  function JoinTexts(ts: seq<Option<string>>): (r: Option<string>)
    ensures r.None? <==> exists k :: 0 <= k < |ts| && ts[k].None?
  {
    if ts == [] then Some("")
    else if ts[0].None? then None
    else if |ts| == 1 then Some(ts[0].value)
    else
      var rest := JoinTexts(ts[1..]);
      assert forall k :: 1 <= k < |ts| ==> ts[k] == ts[1..][k - 1];
      if rest.None? then None else Some(ts[0].value + ", " + rest.value)
  }

  /** The `key={a, b},` clause for a multi-valued tag, empty when the tag is absent. */
  function ListClause(h: Header, tag: string, key: string): Result<string, Crash> {
    if tag !in h then Ok("")
    else
      var joined := JoinTexts(Items(h, tag));
      if joined.None? then Err(MissingText(tag)) else Ok(key + "={" + joined.value + "},\n")
  }

  /** The `key={text},` clause for a single-valued tag, empty when the tag is absent. */
  function TextClause(h: Header, tag: string, key: string): Result<string, Crash>
    requires WellKinded(h) && tag in SingleTags
  {
    if tag !in h then Ok("")
    else if h[tag].text.None? then Err(MissingText(tag))
    else Ok(key + "={" + h[tag].text.value + "},\n")
  }

  /** `\beginsong{<first title>}[`, then the `by=`, `index=`, `cr=` and `tune=`
      clauses, each only when its field is present and always in that order, then `]`. */
  function Opening(h: Header): Result<string, Crash>
    requires "titles" in h && WellKinded(h)
  {
    var titles := h["titles"].items;
    if titles == [] then Err(TitleListEmpty)
    else if titles[0].None? then Err(MissingText("titles"))
    else
      var authors :- ListClause(h, "authors", "by");
      var index :- ListClause(h, "keywords", "index");
      var cr :- TextClause(h, "copyright", "cr");
      var tune :- TextClause(h, "tune", "tune");
      Ok("\\beginsong{" + titles[0].value + "}[\n" + authors + index + cr + tune + "]\n\n")
  }

  /** The opening marker can be written exactly when there is a first title, it and
      every author and keyword have text, and a present copyright or tune has text. */
  lemma OpeningOkIff(h: Header)
    requires "titles" in h && WellKinded(h)
    ensures Opening(h).Ok? <==>
      && h["titles"].items != [] && h["titles"].items[0].Some?
      && (forall k :: 0 <= k < |Items(h, "authors")| ==> Items(h, "authors")[k].Some?)
      && (forall k :: 0 <= k < |Items(h, "keywords")| ==> Items(h, "keywords")[k].Some?)
      && ("copyright" in h ==> h["copyright"].text.Some?)
      && ("tune" in h ==> h["tune"].text.Some?)
  {
    assert "authors" !in h ==> Items(h, "authors") == [];
    assert "keywords" !in h ==> Items(h, "keywords") == [];
    assert "copyright" in SingleTags && "tune" in SingleTags;
  }

  /** A successful opening marker starts with `\beginsong{<first title>}[` and each
      clause starts with its key exactly when its field is present. */
  lemma OpeningClauses(h: Header)
    requires "titles" in h && WellKinded(h) && Opening(h).Ok?
    ensures StartsWith(Opening(h).value, "\\beginsong{" + h["titles"].items[0].value + "}[\n")
    ensures ListClause(h, "authors", "by").Ok? && TextClause(h, "copyright", "cr").Ok?
    ensures "authors" in h <==> StartsWith(ListClause(h, "authors", "by").value, "by={")
    ensures "keywords" in h <==> StartsWith(ListClause(h, "keywords", "index").value, "index={")
    ensures "copyright" in h <==> StartsWith(TextClause(h, "copyright", "cr").value, "cr={")
    ensures "tune" in h <==> StartsWith(TextClause(h, "tune", "tune").value, "tune={")
    ensures Opening(h).value == "\\beginsong{" + h["titles"].items[0].value + "}[\n"
      + ListClause(h, "authors", "by").value + ListClause(h, "keywords", "index").value
      + TextClause(h, "copyright", "cr").value + TextClause(h, "tune", "tune").value + "]\n\n"
  {
    assert "copyright" in SingleTags && "tune" in SingleTags;
    var s := Opening(h).value;
    var p := "\\beginsong{" + h["titles"].items[0].value + "}[\n";
    assert s[..|p|] == p;
  }

  // ---------------------------------------------------------------- notes and lines

  /** An f-string of an element text: Python prints a missing text as `None`. */
  function Show(t: Option<string>): string {
    if t.None? then "None" else t.value
  }

  /** `\textnote{...}`, the inline annotation a comment becomes. */
  function Note(t: Option<string>): string {
    "\\textnote{" + Show(t) + "}"
  }

  /** The note, if any, that the child `c` before the first verse contributes. */
  function NoteOf(c: Element): string {
    if LocalName(c.tag) == "comment" then Note(c.text) + "\n\n" else ""
  }

  /** The notes for the comments among the song's top-level children before its
      first verse. */
  function PreVerseNotes(cs: seq<Element>): string {
    if cs == [] then ""
    else
      var tag := LocalName(cs[0].tag);
      if tag == "verse" then ""
      else NoteOf(cs[0]) + PreVerseNotes(cs[1..])
  }

  /** The child is a verse, read with its namespace removed. */
  predicate IsVerse(c: Element) {
    LocalName(c.tag) == "verse"
  }

  /** The child with the namespace removed from its tag. */
  function Renamed(c: Element): Element {
    c.(tag := LocalName(c.tag))
  }

  /** The position of the first top-level verse, `|cs|` when there is none. */
  function FirstVerse(cs: seq<Element>): (n: nat)
    ensures n <= |cs|
  {
    if cs == [] || IsVerse(cs[0]) then 0 else 1 + FirstVerse(cs[1..])
  }

  /** No child before the first verse is a verse. */
  lemma {:induction false} FirstVerseSpec(cs: seq<Element>, j: nat)
    requires j < |cs|
    ensures j < FirstVerse(cs) ==> !IsVerse(cs[j])
    ensures j == FirstVerse(cs) ==> IsVerse(cs[j])
  {
    if j > 0 && !IsVerse(cs[0]) {
      FirstVerseSpec(cs[1..], j - 1);
      assert cs[1..][j - 1] == cs[j];
    }
  }

  /** The song's top-level children after the walk for the pre-verse notes, which
      strips the namespace from the tag of every child it visits: those up to and
      including the first verse. */
  function Walked(cs: seq<Element>): (r: seq<Element>)
    ensures |r| == |cs|
  {
    if cs == [] then []
    else if IsVerse(cs[0]) then [Renamed(cs[0])] + cs[1..]
    else [Renamed(cs[0])] + Walked(cs[1..])
  }

  /** The song tree as the verse lookups after the walk see it. */
  function Searched(root: Element): Element {
    root.(children := Walked(root.children))
  }

  /** Child `k` after the walk: renamed up to and including the first verse,
      untouched after it. */
  lemma {:induction false} WalkedAt(cs: seq<Element>, k: nat)
    requires k < |cs|
    ensures k <= FirstVerse(cs) ==> Walked(cs)[k] == Renamed(cs[k])
    ensures k > FirstVerse(cs) ==> Walked(cs)[k] == cs[k]
  {
    if k == 0 {
      assert Walked(cs)[0] == Renamed(cs[0]);
    } else if IsVerse(cs[0]) {
      assert FirstVerse(cs) == 0;
      assert Walked(cs) == [Renamed(cs[0])] + cs[1..];
      assert cs[1..][k - 1] == cs[k];
    } else {
      WalkedAt(cs[1..], k - 1);
      assert FirstVerse(cs) == 1 + FirstVerse(cs[1..]);
      assert Walked(cs) == [Renamed(cs[0])] + Walked(cs[1..]);
      assert cs[1..][k - 1] == cs[k];
    }
  }

  /** The walk renames exactly the children up to and including the first verse, and
      a renamed tag carries no namespace, so no qualified search selects that child
      any more; every later child is untouched. */
  lemma WalkedSpec(cs: seq<Element>)
    ensures forall k :: 0 <= k <= FirstVerse(cs) && k < |cs| ==> Walked(cs)[k] == Renamed(cs[k])
    ensures forall k :: FirstVerse(cs) < k < |cs| ==> Walked(cs)[k] == cs[k]
    ensures forall k, local :: 0 <= k <= FirstVerse(cs) && k < |cs| ==> Walked(cs)[k].tag != Qualified(local)
  {
    forall k | 0 <= k < |cs|
      ensures k <= FirstVerse(cs) ==> Walked(cs)[k] == Renamed(cs[k])
      ensures k > FirstVerse(cs) ==> Walked(cs)[k] == cs[k]
    {
      WalkedAt(cs, k);
    }
    forall k, local | 0 <= k <= FirstVerse(cs) && k < |cs| ensures Walked(cs)[k].tag != Qualified(local) {
      WalkedAt(cs, k);
      QualifiedNotLocal(cs[k].tag, local);
    }
  }

  /** A song whose only top-level child is a namespaced verse without children. */
  predicate LoneTopLevelVerse(root: Element) {
    |root.children| == 1 && root.children[0].tag == Qualified("verse") && root.children[0].children == []
  }

  /** Before the walk, the list of all verses of such a song is that verse. */
  lemma TopLevelVerseListed(root: Element)
    requires LoneTopLevelVerse(root)
    ensures FindAll(root, "verse") == root.children
  {
    var v := root.children[0];
    assert root.children == [v] && [v][1..] == [];
    assert Preorder([v]) == [v];
    assert WithTag([v], Qualified("verse")) == [v];
  }

  /** The walk renames that verse before the verses are looked up, so neither the
      list of all verses nor the lookup by name finds it any more: without a
      `verseOrder` no verse is written, and a `verseOrder` naming it fails. */
  lemma TopLevelVerseUnseen(root: Element)
    requires LoneTopLevelVerse(root)
    ensures FindAll(Searched(root), "verse") == []
    ensures forall name :: FindNamed(Searched(root), "verse", name).None?
    ensures VerseNames(FindAll(Searched(root), "verse")) == Ok([])
    ensures forall name :: VerseMarkup(Searched(root), name) == Err(UnknownVerse(name))
  {
    var v := root.children[0];
    assert root.children == [v];
    LocalNameOfQualified("verse");
    assert IsVerse(v);
    var w := Renamed(v);
    QualifiedNotLocal(v.tag, "verse");
    assert w.tag != Qualified("verse");
    assert Walked([v]) == [w];
    assert Searched(root).children == [w];
    assert [w][1..] == [];
    assert Preorder([w]) == [w];
    assert WithTag([w], Qualified("verse")) == [];
    forall name ensures FindNamed(Searched(root), "verse", name).None? {
      FindNamedSpec(Searched(root), "verse", name);
      assert !Selects(w, Qualified("verse"), Some("name"), name);
    }
    assert FindAll(Searched(root), "verse") == [];
  }

  /** The chord marker ` \[<root with & as b><structure>]`. */
  function Chord(attrib: map<string, string>): (r: Result<string, Crash>)
    ensures r.Err? <==> "root" !in attrib
  {
    if "root" !in attrib then Err(ChordWithoutRoot)
    else
      var name := ReplaceChar(attrib["root"], '&', 'b')
        + (if "structure" in attrib then attrib["structure"] else "");
      Ok(" \\[" + name + "]")
  }

  /** A chord's name is its root with every `&` spelled as the flat sign `b`,
      followed by its structure when it has one. */
  lemma ChordSpelling(attrib: map<string, string>)
    requires "root" in attrib
    ensures var root := attrib["root"];
      var st := if "structure" in attrib then attrib["structure"] else "";
      var t := Chord(attrib).value;
      && |t| == 4 + |root| + |st| && t[..3] == " \\[" && t[|t| - 1] == ']'
      && (forall k :: 0 <= k < |root| ==> t[3 + k] == if root[k] == '&' then 'b' else root[k])
      && t[3 + |root|..|t| - 1] == st
  {
    var root := attrib["root"];
    var st := if "structure" in attrib then attrib["structure"] else "";
    var name := ReplaceChar(root, '&', 'b') + st;
    var t := " \\[" + name + "]";
    assert t[3..|t| - 1] == name;
    assert t[3 + |root|..|t| - 1] == name[|root|..];
  }

  /** Root `A&` with structure `m7` is written ` \[Abm7]`. */
  lemma ChordFlatExample()
    ensures Chord(map["root" := "A&", "structure" := "m7"]) == Ok(" \\[Abm7]")
  {
    var a := map["root" := "A&", "structure" := "m7"];
    assert "root" in a && a["root"] == "A&" && "structure" in a && a["structure"] == "m7";
    var r := ReplaceChar("A&", '&', 'b');
    assert |r| == 2 && r[0] == 'A' && r[1] == 'b';
    assert r == "Ab";
    assert Chord(a) == Ok(" \\[" + (r + "m7") + "]");
    assert " \\[" + (r + "m7") + "]" == " \\[Abm7]";
  }

  /** The text after a `lines` child: stripped; a tail holding a line break is put on
      a line of its own by `("\n" + stripped + "\n").rstrip()`. */
  function TailText(tail: Option<string>): (r: string)
    ensures tail.None? ==> r == ""
    ensures r == [] || !IsSpace(r[|r| - 1])
  {
    if tail.None? || tail.value == "" then ""
    else
      var t := tail.value;
      var text := if '\n' in t then "\n" + Strip(t) + "\n" else Strip(t);
      RStripSpec(text);
      RStrip(text)
  }

  /** The tail rule in closed form: the trailing line break is always dropped again,
      and a line break followed only by whitespace leaves nothing at all. */
  lemma TailTextClosedForm(t: string)
    ensures TailText(Some(t)) ==
      if '\n' !in t then Strip(t)
      else if Strip(t) == "" then ""
      else "\n" + Strip(t)
  {
    var x := Strip(t);
    StripSpec(t);
    if t != "" && '\n' in t {
      var u := "\n" + x + "\n";
      assert u[..|u| - 1] == "\n" + x;
      assert RStrip(u) == RStrip("\n" + x);
      if x == "" {
        assert ("\n" + x)[..0] == [];
      } else {
        assert ("\n" + x)[|"\n" + x| - 1] == x[|x| - 1];
      }
    } else if t != "" && x != [] {
      assert RStrip(x) == x;
    }
  }

  /** The markup of one child of a `lines` element, without its tail. */
  function TagMarkup(item: Element): Result<string, Crash> {
    var tag := LocalName(item.tag);
    if tag == "comment" then Ok(Note(item.text))
    else if tag == "chord" then Chord(item.attrib)
    else if tag == "br" then Ok("\n")
    else Ok("")
  }

  /** The markup of one child of a `lines` element, its tail included. */
  function ItemMarkup(item: Element): Result<string, Crash> {
    var markup :- TagMarkup(item);
    Ok(markup + TailText(item.tail))
  }

  /** The markup of the children `items`, left to right. */
  function ItemsMarkup(items: seq<Element>): Result<string, Crash> {
    if items == [] then Ok("")
    else
      var first :- ItemMarkup(items[0]);
      Prefixed(first, ItemsMarkup(items[1..]))
  }

  /** The leading text of a `lines` element, stripped. */
  function LeadText(t: Option<string>): string {
    if t.Some? && t.value != "" then Strip(t.value) else ""
  }

  /** The markup of one `lines` element. */
  function LineMarkup(line: Element): Result<string, Crash> {
    Prefixed(LeadText(line.text), ItemsMarkup(line.children))
  }

  /** The markup of several `lines` elements, concatenated. */
  function LinesMarkup(lines: seq<Element>): Result<string, Crash> {
    if lines == [] then Ok("")
    else
      var first :- LineMarkup(lines[0]);
      Prefixed(first, LinesMarkup(lines[1..]))
  }

  // ---------------------------------------------------------------- verses

  /** A verse name whose lower-cased form starts with `c` names a chorus. */
  predicate IsChorus(name: string) {
    StartsWith(LowerStr(name), "c")
  }

  function BeginMarker(name: string): string {
    if IsChorus(name) then "\\beginchorus\n" else "\\beginverse\n"
  }

  function EndMarker(name: string): string {
    if IsChorus(name) then "\n\\endchorus\n" else "\n\\endverse\n"
  }

  /** The block for the verse named `name`: the first verse carrying that name,
      its `lines` bracketed by the chorus or the verse markers. */
  function VerseMarkup(root: Element, name: string): Result<string, Crash> {
    match FindNamed(root, "verse", name)
    case None => Err(UnknownVerse(name))
    case Some(v) =>
      var body :- LinesMarkup(FindAll(v, "lines"));
      Ok(BeginMarker(name) + body + EndMarker(name))
  }

  /** The blocks for the verse names `order`, in that order. */
  function VersesMarkup(root: Element, order: seq<string>): Result<string, Crash> {
    if order == [] then Ok("")
    else
      var first :- VerseMarkup(root, order[0]);
      Prefixed(first, VersesMarkup(root, order[1..]))
  }

  /** The `name` attributes of the verses `vs`, in document order. */
  function VerseNames(vs: seq<Element>): Result<seq<string>, Crash> {
    if vs == [] then Ok([])
    else if "name" !in vs[0].attrib then Err(VerseWithoutName)
    else Prefixed([vs[0].attrib["name"]], VerseNames(vs[1..]))
  }

  /** The names are read exactly when every verse has one, and then they are the
      verses' names one for one. */
  lemma {:induction false} VerseNamesSpec(vs: seq<Element>)
    ensures VerseNames(vs).Ok? <==> forall k :: 0 <= k < |vs| ==> "name" in vs[k].attrib
    ensures VerseNames(vs).Ok? ==> |VerseNames(vs).value| == |vs|
    ensures VerseNames(vs).Ok? ==>
      forall k :: 0 <= k < |vs| ==> VerseNames(vs).value[k] == vs[k].attrib["name"]
  {
    if vs != [] {
      VerseNamesSpec(vs[1..]);
      assert forall k :: 1 <= k < |vs| ==> vs[k] == vs[1..][k - 1];
    }
  }

  /** The verse order: the tokens of `verseOrder` when it is given, else the names
      of all verses in document order. */
  function VerseOrder(h: Header, root: Element): Result<seq<string>, Crash>
    requires WellKinded(h)
  {
    if "verseOrder" in h then
      assert "verseOrder" in SingleTags;
      var vo := h["verseOrder"].text;
      if vo.None? then Err(MissingText("verseOrder")) else Ok(Words(vo.value))
    else VerseNames(FindAll(root, "verse"))
  }

  /** Rendering succeeds exactly when every verse name in `order` renders; then
      each name's verse exists. */
  lemma {:induction false} VersesMarkupOkIff(root: Element, order: seq<string>)
    ensures VersesMarkup(root, order).Ok? <==>
      forall k :: 0 <= k < |order| ==> VerseMarkup(root, order[k]).Ok?
    ensures VersesMarkup(root, order).Ok? ==>
      forall k :: 0 <= k < |order| ==> FindNamed(root, "verse", order[k]).Some?
  {
    if order != [] {
      VersesMarkupOkIff(root, order[1..]);
      assert forall k :: 1 <= k < |order| ==> order[k] == order[1..][k - 1];
    }
  }

  /** The rendered blocks of verse names that all render. */
  function Blocks(root: Element, order: seq<string>): (r: seq<string>)
    requires forall k :: 0 <= k < |order| ==> VerseMarkup(root, order[k]).Ok?
    ensures |r| == |order|
  {
    if order == [] then []
    else
      RenderTail(root, order);
      [VerseMarkup(root, order[0]).value] + Blocks(root, order[1..])
  }

  /** Block `k` is the rendering of verse name `k`. */
  lemma {:induction false} BlocksAt(root: Element, order: seq<string>, k: nat)
    requires forall k :: 0 <= k < |order| ==> VerseMarkup(root, order[k]).Ok?
    requires k < |order|
    ensures Blocks(root, order)[k] == VerseMarkup(root, order[k]).value
  {
    RenderTail(root, order);
    var rest := Blocks(root, order[1..]);
    var first := VerseMarkup(root, order[0]).value;
    assert Blocks(root, order) == [first] + rest;
    if k == 0 {
      assert Blocks(root, order)[k] == first;
    } else {
      BlocksAt(root, order[1..], k - 1);
      ConsAt(first, rest, k);
      assert order[1..][k - 1] == order[k];
      assert rest[k - 1] == VerseMarkup(root, order[k]).value;
    }
  }

  /** A rendered verse is bracketed by the chorus markers when its name says chorus
      and by the verse markers otherwise. */
  lemma VerseMarkupBracketed(root: Element, name: string)
    requires VerseMarkup(root, name).Ok?
    ensures var b := VerseMarkup(root, name).value;
      && StartsWith(b, if IsChorus(name) then "\\beginchorus\n" else "\\beginverse\n")
      && |b| >= |EndMarker(name)|
      && b[|b| - |EndMarker(name)|..] == (if IsChorus(name) then "\n\\endchorus\n" else "\n\\endverse\n")
  {
    var v := FindNamed(root, "verse", name).value;
    var body := LinesMarkup(FindAll(v, "lines")).value;
    assert VerseMarkup(root, name).value == BeginMarker(name) + body + EndMarker(name);
    Enclosed(BeginMarker(name), body, EndMarker(name));
  }

  lemma Enclosed(open: string, body: string, close: string)
    ensures StartsWith(open + body + close, open)
    ensures (open + body + close)[|open + body + close| - |close|..] == close
  {
    var b := open + body + close;
    assert b[..|open|] == open;
    assert b[|b| - |close|..] == close;
  }

  /** The verses are emitted in exactly the given order: when each name renders,
      the result is the blocks of the names one after the other. */
  lemma {:induction false} VersesMarkupInOrder(root: Element, order: seq<string>)
    requires forall k :: 0 <= k < |order| ==> VerseMarkup(root, order[k]).Ok?
    ensures VersesMarkup(root, order) == Ok(Concat(Blocks(root, order)))
  {
    if order != [] {
      RenderTail(root, order);
      VersesMarkupInOrder(root, order[1..]);
      ConcatCons(VerseMarkup(root, order[0]).value, Blocks(root, order[1..]));
    }
  }

  lemma RenderTail(root: Element, order: seq<string>)
    requires order != [] && forall k :: 0 <= k < |order| ==> VerseMarkup(root, order[k]).Ok?
    ensures forall k :: 0 <= k < |order[1..]| ==> VerseMarkup(root, order[1..][k]).Ok?
  {
    assert forall k :: 0 <= k < |order[1..]| ==> order[1..][k] == order[k + 1];
  }

  // ---------------------------------------------------------------- the entry

  /** The entry of a song with a header and a title. */
  function SongBody(root: Element, h: Header): Result<string, Crash>
    requires "titles" in h && WellKinded(h)
  {
    var open :- Opening(h);
    var tree := Searched(root);
    var order :- VerseOrder(h, tree);
    var body :- VersesMarkup(tree, order);
    Ok(open + PreVerseNotes(root.children) + body + "\\endsong\n\n")
  }

  /** What `_xml_to_sbd` makes of a song tree. */
  function SongEntry(root: Element): Conversion {
    match Find(root, "properties")
    case None => Skipped(NoProperties)
    case Some(p) =>
      var h := HeaderOf(p.children);
      if "titles" !in h then Skipped(NoTitles)
      else
        HeaderWellKinded(p.children);
        match SongBody(root, h)
        case Ok(e) => Converted(e)
        case Err(c) => Crashed(c)
  }

  /** A song is skipped exactly when it has no `properties` or no `titles` among
      them; a converted song is never empty, so the caller's test for an empty
      result drops exactly the skipped songs. */
  lemma SkippedIff(root: Element)
    ensures SongEntry(root).Skipped? <==>
      Find(root, "properties").None? || "titles" !in HeaderOf(Find(root, "properties").value.children)
    ensures SongEntry(root).Converted? ==> SongEntry(root).entry != ""
    ensures !SongEntry(root).Crashed? ==> (ReturnedText(SongEntry(root)) == "" <==> SongEntry(root).Skipped?)
  {
    var found := Find(root, "properties");
    if found.Some? {
      var h := HeaderOf(found.value.children);
      if "titles" in h {
        HeaderWellKinded(found.value.children);
        assert SongEntry(root).Skipped? == false;
        if SongBody(root, h).Ok? {
          BodyNotEmpty(root, h);
        }
      }
    }
  }

  /** A converted entry ends with `\endsong`. */
  lemma BodyNotEmpty(root: Element, h: Header)
    requires "titles" in h && WellKinded(h) && SongBody(root, h).Ok?
    ensures SongBody(root, h).value != ""
  {
    var t := SongBody(root, h).value;
    assert t[|t| - 1] == '\n';
  }

  /** A converted entry is the opening marker, the pre-verse notes, the verse blocks
      in the verse order, and `\endsong`; the verses are looked up in the tree as
      the walk for the notes left it. */
  lemma EntryLayout(root: Element)
    requires SongEntry(root).Converted?
    ensures var h := HeaderOf(Find(root, "properties").value.children);
      var tree := Searched(root);
      && "titles" in h && WellKinded(h)
      && Opening(h).Ok? && VerseOrder(h, tree).Ok?
      && VersesMarkup(tree, VerseOrder(h, tree).value).Ok?
      && SongEntry(root).entry
         == Opening(h).value + PreVerseNotes(root.children)
            + VersesMarkup(tree, VerseOrder(h, tree).value).value + "\\endsong\n\n"
  {
    HeaderWellKinded(Find(root, "properties").value.children);
  }

  // ---------------------------------------------------------------- the transcoder

  /** Appends the text of every element of `gs` to the list stored for `tag`,
      creating the list when the tag is new. */
  method AppendTexts(h0: Header, tag: string, gs: seq<Element>) returns (h: Header)
    requires tag in h0 ==> h0[tag].Many?
    ensures h == h0[tag := Many(Items(h0, tag) + Texts(gs))]
  {
    h := h0;
    if tag !in h {
      h := h[tag := Many([])];
    }
    ghost var items := Items(h0, tag);
    assert h == h0[tag := Many(items)];
    assert items + Texts(gs[..0]) == items;
    for k := 0 to |gs|
      invariant h == h0[tag := Many(items + Texts(gs[..k]))]
    {
      assert Items(h, tag) == items + Texts(gs[..k]);
      var next := Items(h, tag) + [gs[k].text];
      TextsSnoc(items, gs, k);
      UpdateTwice(h0, tag, Many(items + Texts(gs[..k])), Many(next));
      h := h[tag := Many(next)];
    }
    assert gs[..|gs|] == gs;
  }

  lemma TextsSnoc(items: seq<Option<string>>, gs: seq<Element>, k: nat)
    requires k < |gs|
    ensures (items + Texts(gs[..k])) + [gs[k].text] == items + Texts(gs[..k + 1])
  {
    assert gs[..k + 1][..k] == gs[..k];
    assert Texts(gs[..k + 1]) == Texts(gs[..k]) + [gs[k].text];
  }

  /** Reads one child of `properties` into the header. */
  method ReadChild(h0: Header, child: Element) returns (h: Header)
    requires WellKinded(h0)
    ensures h == HeaderStep(h0, child)
  {
    var tag := LocalName(child.tag);
    if tag in MultiTags {
      TagKindsDisjoint();
      h := AppendTexts(h0, tag, child.children);
    } else if tag in SingleTags {
      h := h0[tag := One(child.text)];
    } else {
      h := h0;
    }
  }

  lemma HeaderOfSnoc(cs: seq<Element>, i: nat)
    requires i < |cs|
    ensures HeaderOf(cs[..i + 1]) == HeaderStep(HeaderOf(cs[..i]), cs[i])
  {
    assert cs[..i + 1][..i] == cs[..i];
  }

  /** Walks the children of `properties`, filling the header dictionary. */
  method ReadHeader(props: Element) returns (h: Header)
    ensures h == HeaderOf(props.children)
  {
    var cs := props.children;
    h := map[];
    for i := 0 to |cs|
      invariant h == HeaderOf(cs[..i])
    {
      HeaderWellKinded(cs[..i]);
      HeaderOfSnoc(cs, i);
      h := ReadChild(h, cs[i]);
    }
    assert cs[..|cs|] == cs;
  }

  /** Renders one child of a `lines` element and its tail. */
  method RenderItem(item: Element) returns (r: Result<string, Crash>)
    ensures r == ItemMarkup(item)
  {
    var text := "";
    var tag := LocalName(item.tag);
    if tag == "comment" {
      text := Note(item.text);
    }
    if tag == "chord" {
      if "root" !in item.attrib {
        return Err(ChordWithoutRoot);
      }
      var chord := ReplaceChar(item.attrib["root"], '&', 'b');
      if "structure" in item.attrib {
        chord := chord + item.attrib["structure"];
      } else {
        assert chord + "" == chord;
      }
      text := " \\[" + chord + "]";
      assert Chord(item.attrib) == Ok(text);
    }
    if tag == "br" {
      text := "\n";
    }
    assert TagMarkup(item) == Ok(text);
    if item.tail.Some? && item.tail.value != "" {
      var tail := item.tail.value;
      var t;
      if '\n' in tail {
        t := "\n" + Strip(tail) + "\n";
      } else {
        t := Strip(tail);
      }
      text := text + RStrip(t);
    } else {
      assert TailText(item.tail) == "";
      assert text + "" == text;
    }
    return Ok(text);
  }

  lemma ItemsMarkupCons(items: seq<Element>)
    requires items != [] && ItemMarkup(items[0]).Ok?
    ensures ItemsMarkup(items) == Prefixed(ItemMarkup(items[0]).value, ItemsMarkup(items[1..]))
  {
  }

  /** Renders one `lines` element from left to right. */
  method RenderLine(line: Element) returns (r: Result<string, Crash>)
    ensures r == LineMarkup(line)
  {
    var items := line.children;
    var lineText := if line.text.Some? && line.text.value != "" then Strip(line.text.value) else "";
    for i := 0 to |items|
      invariant Prefixed(lineText, ItemsMarkup(items[i..])) == LineMarkup(line)
    {
      var piece := RenderItem(items[i]);
      if piece.Err? {
        return Err(piece.error);
      }
      ItemsMarkupCons(items[i..]);
      assert items[i..][1..] == items[i + 1..];
      PrefixedAssoc(lineText, piece.value, ItemsMarkup(items[i + 1..]));
      lineText := lineText + piece.value;
    }
    assert items[|items|..] == [];
    assert lineText + "" == lineText;
    return Ok(lineText);
  }

  /** Renders the `lines` of a verse one after the other. */
  method RenderLines(lines: seq<Element>) returns (r: Result<string, Crash>)
    ensures r == LinesMarkup(lines)
  {
    var text := "";
    assert lines[0..] == lines;
    PrefixedEmpty(LinesMarkup(lines));
    for i := 0 to |lines|
      invariant Prefixed(text, LinesMarkup(lines[i..])) == LinesMarkup(lines)
    {
      var lineText := RenderLine(lines[i]);
      if lineText.Err? {
        return Err(lineText.error);
      }
      assert lines[i..][1..] == lines[i + 1..];
      PrefixedAssoc(text, lineText.value, LinesMarkup(lines[i + 1..]));
      text := text + lineText.value;
    }
    assert lines[|lines|..] == [];
    assert text + "" == text;
    return Ok(text);
  }

  /** Renders the verse named `name`: its markers around its `lines`. */
  method RenderVerse(root: Element, name: string) returns (r: Result<string, Crash>)
    ensures r == VerseMarkup(root, name)
  {
    var chorus := IsChorus(name);
    var entry := if chorus then "\\beginchorus\n" else "\\beginverse\n";
    var verse := FindNamed(root, "verse", name);
    if verse.None? {
      return Err(UnknownVerse(name));
    }
    var body := RenderLines(FindAll(verse.value, "lines"));
    if body.Err? {
      return Err(body.error);
    }
    entry := entry + body.value;
    if chorus {
      entry := entry + "\n\\endchorus\n";
    } else {
      entry := entry + "\n\\endverse\n";
    }
    return Ok(entry);
  }

  /** Writes the opening marker from the header. */
  method OpenEntry(h: Header) returns (r: Result<string, Crash>)
    requires "titles" in h && WellKinded(h)
    ensures r == Opening(h)
  {
    assert "copyright" in SingleTags && "tune" in SingleTags;
    var titles := h["titles"].items;
    if titles == [] {
      return Err(TitleListEmpty);
    }
    if titles[0].None? {
      return Err(MissingText("titles"));
    }
    var entry := "\\beginsong{" + titles[0].value + "}[\n";
    var authors := "";
    if "authors" in h {
      var joined := JoinTexts(Items(h, "authors"));
      if joined.None? {
        return Err(MissingText("authors"));
      }
      authors := "by={" + joined.value + "},\n";
    }
    assert "by" + "={" == "by={";
    assert ListClause(h, "authors", "by") == Ok(authors);
    var index := "";
    if "keywords" in h {
      var joined := JoinTexts(Items(h, "keywords"));
      if joined.None? {
        return Err(MissingText("keywords"));
      }
      index := "index={" + joined.value + "},\n";
    }
    assert "index" + "={" == "index={";
    assert ListClause(h, "keywords", "index") == Ok(index);
    var cr := "";
    if "copyright" in h {
      if h["copyright"].text.None? {
        return Err(MissingText("copyright"));
      }
      cr := "cr={" + h["copyright"].text.value + "},\n";
    }
    assert "cr" + "={" == "cr={";
    assert TextClause(h, "copyright", "cr") == Ok(cr);
    var tune := "";
    if "tune" in h {
      if h["tune"].text.None? {
        return Err(MissingText("tune"));
      }
      tune := "tune={" + h["tune"].text.value + "},\n";
    }
    assert "tune" + "={" == "tune={";
    assert TextClause(h, "tune", "tune") == Ok(tune);
    return Ok(entry + authors + index + cr + tune + "]\n\n");
  }

  lemma PreVerseNotesStep(cs: seq<Element>, i: nat, notes: string)
    requires i < |cs| && LocalName(cs[i].tag) != "verse"
    ensures notes + PreVerseNotes(cs[i..]) == (notes + NoteOf(cs[i])) + PreVerseNotes(cs[i + 1..])
  {
    assert cs[i..][1..] == cs[i + 1..];
  }

  /** Children renamed exactly up to and including the first verse are the walk. */
  lemma WalkedIs(cs: seq<Element>, walked: seq<Element>)
    requires |walked| == |cs|
    requires forall k :: 0 <= k <= FirstVerse(cs) && k < |cs| ==> walked[k] == Renamed(cs[k])
    requires forall k :: FirstVerse(cs) < k < |cs| ==> walked[k] == cs[k]
    ensures walked == Walked(cs)
  {
    forall k | 0 <= k < |cs| ensures walked[k] == Walked(cs)[k] {
      WalkedAt(cs, k);
    }
  }

  /** The walk has visited the children before `i`: those are renamed, the rest are
      untouched, and no verse has been met yet. */
  predicate WalkedTo(cs: seq<Element>, walked: seq<Element>, i: nat) {
    && i <= FirstVerse(cs) && |walked| == |cs|
    && (forall k :: 0 <= k < i && k < |cs| ==> walked[k] == Renamed(cs[k]))
    && (forall k :: i <= k < |cs| ==> walked[k] == cs[k])
  }

  /** One step of the walk: renaming child `i` completes the walk at the first
      verse and moves on to child `i + 1` before it. */
  lemma WalkStep(cs: seq<Element>, walked: seq<Element>, i: nat)
    requires i < |cs| && WalkedTo(cs, walked, i)
    ensures IsVerse(cs[i]) ==> walked[i := Renamed(cs[i])] == Walked(cs)
    ensures !IsVerse(cs[i]) ==> WalkedTo(cs, walked[i := Renamed(cs[i])], i + 1)
  {
    FirstVerseSpec(cs, i);
    var w := walked[i := Renamed(cs[i])];
    if IsVerse(cs[i]) {
      assert i == FirstVerse(cs);
      assert forall k :: 0 <= k <= FirstVerse(cs) && k < |cs| ==> w[k] == Renamed(cs[k]);
      WalkedIs(cs, w);
    } else {
      assert i < FirstVerse(cs);
      assert forall k :: 0 <= k < i + 1 && k < |cs| ==> w[k] == Renamed(cs[k]);
    }
  }

  /** A walk that has visited every child is complete. */
  lemma WalkDone(cs: seq<Element>, walked: seq<Element>)
    requires WalkedTo(cs, walked, |cs|)
    ensures walked == Walked(cs)
  {
    WalkedIs(cs, walked);
  }

  /** Walks the song's top-level children up to its first verse, writing a note for
      every comment and stripping the namespace from the tag of every child it
      visits; `walked` is the children as the walk leaves them. */
  method NotesBeforeVerses(cs: seq<Element>) returns (notes: string, walked: seq<Element>)
    ensures notes == PreVerseNotes(cs)
    ensures walked == Walked(cs)
  {
    notes := "";
    walked := cs;
    var i := 0;
    while i < |cs|
      invariant 0 <= i <= |cs| && |walked| == |cs|
      invariant notes + PreVerseNotes(cs[i..]) == PreVerseNotes(cs)
      invariant WalkedTo(cs, walked, i)
    {
      var tag := LocalName(cs[i].tag);
      assert IsVerse(cs[i]) <==> tag == "verse";
      WalkStep(cs, walked, i);
      walked := walked[i := Renamed(cs[i])];
      if tag == "verse" {
        PreVerseNotesAtVerse(cs[i..]);
        return;
      }
      PreVerseNotesStep(cs, i, notes);
      notes := notes + NoteOf(cs[i]);
      i := i + 1;
    }
    assert cs[i..] == [];
    WalkDone(cs, walked);
  }

  lemma PreVerseNotesAtVerse(cs: seq<Element>)
    requires cs != [] && LocalName(cs[0].tag) == "verse"
    ensures PreVerseNotes(cs) == ""
  {
  }

  /** The verse order: `verseOrder` split at whitespace, or the names of all verses. */
  method ReadVerseOrder(h: Header, root: Element) returns (r: Result<seq<string>, Crash>)
    requires WellKinded(h)
    ensures r == VerseOrder(h, root)
  {
    if "verseOrder" in h {
      assert "verseOrder" in SingleTags;
      if h["verseOrder"].text.None? {
        return Err(MissingText("verseOrder"));
      }
      return Ok(Words(h["verseOrder"].text.value));
    }
    var verses := FindAll(root, "verse");
    var order := [];
    assert verses[0..] == verses;
    PrefixedEmpty(VerseNames(verses));
    for k := 0 to |verses|
      invariant Prefixed(order, VerseNames(verses[k..])) == VerseNames(verses)
    {
      if "name" !in verses[k].attrib {
        return Err(VerseWithoutName);
      }
      assert verses[k..][1..] == verses[k + 1..];
      PrefixedAssoc(order, [verses[k].attrib["name"]], VerseNames(verses[k + 1..]));
      order := order + [verses[k].attrib["name"]];
    }
    assert verses[|verses|..] == [];
    assert order + [] == order;
    return Ok(order);
  }

  /** Renders the verses named in `order`, one after the other. */
  method RenderVerses(root: Element, order: seq<string>) returns (r: Result<string, Crash>)
    ensures r == VersesMarkup(root, order)
  {
    var text := "";
    assert order[0..] == order;
    PrefixedEmpty(VersesMarkup(root, order));
    for j := 0 to |order|
      invariant Prefixed(text, VersesMarkup(root, order[j..])) == VersesMarkup(root, order)
    {
      var block := RenderVerse(root, order[j]);
      if block.Err? {
        return Err(block.error);
      }
      assert order[j..][1..] == order[j + 1..];
      PrefixedAssoc(text, block.value, VersesMarkup(root, order[j + 1..]));
      text := text + block.value;
    }
    assert order[|order|..] == [];
    assert text + "" == text;
    return Ok(text);
  }

  /** `_xml_to_sbd`: converts one parsed OpenLyrics song into a `songs` entry. */
  method XmlToSbd(root: Element) returns (c: Conversion)
    ensures c == SongEntry(root)
  {
    var properties := Find(root, "properties");
    if properties.None? {
      return Skipped(NoProperties);
    }
    var h := ReadHeader(properties.value);
    if "titles" !in h {
      return Skipped(NoTitles);
    }
    HeaderWellKinded(properties.value.children);
    var opening := OpenEntry(h);
    if opening.Err? {
      return Crashed(opening.error);
    }
    var notes, walked := NotesBeforeVerses(root.children);
    var tree := root.(children := walked);
    var order := ReadVerseOrder(h, tree);
    if order.Err? {
      return Crashed(order.error);
    }
    var body := RenderVerses(tree, order.value);
    if body.Err? {
      return Crashed(body.error);
    }
    return Converted(opening.value + notes + body.value + "\\endsong\n\n");
  }
}
