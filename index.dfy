/** `_make_latex_index`: the first line of an `.sxd` file names the kind of index;
    an author index or a title index (in letter blocks) is made accordingly, and any
    other kind is only logged. */
module Index {
  import opened Wrappers
  import opened Strings
  import opened Sxd
  import opened AuthorIndex
  import opened TitleIndex

  /** The kind of index, from the stripped first line. */
  datatype Kind = AuthorKind | TitleKind | UnknownKind

  function KindOf(first: string): (k: Kind)
    ensures k == AuthorKind <==> StartsWith(first, "AUTHOR")
    ensures k == TitleKind <==> StartsWith(first, "TITLE") && !StartsWith(first, "AUTHOR")
  {
    if StartsWith(first, "AUTHOR") then AuthorKind
    else if StartsWith(first, "TITLE") then TitleKind
    else UnknownKind
  }

  /** No first line starts with both names. */
  lemma KindsExclusive(first: string)
    ensures !(StartsWith(first, "AUTHOR") && StartsWith(first, "TITLE"))
  {
    if StartsWith(first, "AUTHOR") {
      assert first[0] == first[..6][0] == 'A';
    }
  }

  /** The index file made from the lines of an `.sxd` file. */
  function LatexIndex(lines: seq<string>): IndexFile {
    match KindOf(LineAt(StripAll(lines), 0))
    case AuthorKind => AuthorIndexFile(lines)
    case TitleKind => TitleIndexFile(lines, true)
    case UnknownKind => NotWritten(None)
  }

  /** Dispatches on the first line. */
  method MakeLatexIndex(lines: seq<string>) returns (f: IndexFile)
    ensures f == LatexIndex(lines)
  {
    var first := ReadLine(lines, 0);
    if StartsWith(first, "AUTHOR") {
      f := MakeAuthorIndex(lines);
    } else if StartsWith(first, "TITLE") {
      f := MakeTitleIndex(lines, true);
    } else {
      f := NotWritten(None);
    }
  }

  /** An index file is left unwritten without an exception exactly when the first
      line names neither kind; an author index is always written. */
  lemma UnknownKindIff(lines: seq<string>)
    ensures LatexIndex(lines) == NotWritten(None) <==> KindOf(LineAt(StripAll(lines), 0)) == UnknownKind
    ensures KindOf(LineAt(StripAll(lines), 0)) == AuthorKind ==> LatexIndex(lines).Written?
  {
    AuthorIndexWritten(Credits(Records(lines)));
  }

  lemma AuthorIndexWritten(cs: seq<Credit>)
    ensures AuthorIndexOf(cs).Written?
  {
    var d := Collect(cs);
    SortedKeysListed(cs);
    assert AuthorLines(SortedKeys(d), d.songs).Written?;
  }
}
