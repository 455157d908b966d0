# openlyric_bookmaker text core in Dafny

This project models the text-transformation core of `SongBookMaker` in
`ol_bookmaker.py`, and proves what that core produces. Three parts are modelled:

- **The song transcoder** (`_xml_to_sbd`). It turns a parsed OpenLyrics song
  tree into one entry for the LaTeX `songs` package, in four steps:
  - It reads the header dictionary from `properties`. The multi-valued tags
    collect texts and the single-valued tags overwrite.
  - It writes the `\beginsong{...}[...]` opening with the `by=`, `index=`, `cr=`
    and `tune=` clauses.
  - It writes `\textnote` for every comment before the first verse.
  - It writes the verses in `verseOrder`, or in document order when there is no
    `verseOrder`. Each verse is wrapped as a chorus or a verse, and its lines are
    rendered item by item: comments, chords, line breaks and tails.
- **The song file** that `_make_songfile` writes. It holds the optional
  `sbd_header`, then one `songs` environment per section with the entries of that
  section's songs. A song whose conversion gives `""` is skipped.
- **The index builder** (`_make_latex_index` and the writers for the author index
  and the title index). It reads the three-line records of an `.sxd` file.
  - The author index splits author lists into names and turns each name into a
    "Last, First" key. It collects each key's songs, sorts the keys
    case-insensitively and sorts each key's songs by number.
  - The title index normalises every title: the `*` alternative mark, the
    leading article and the first capital. It sorts the titles case-insensitively
    and writes them in one `idxblock` per initial letter, or as a flat list.

The source works by changing state step by step, so every routine is a `method`
with loops that grow the same strings, dictionaries and lists the source grows.
Each method is proved equal to a specification function, and the properties the
code promises are proved as lemmas about those functions.

An exception the source raises is an explicit outcome:
- a song gives `Crashed(reason)`;
- the song file gives an `Output` that keeps the text written before the
  exception;
- an index gives an `IndexFile` that records whether the file was opened, what
  was written to it, and the exception.

The two `return ""` paths of the transcoder are `Skipped(reason)`.

Three behaviours of the code a reader might not expect:
- A tail that contains a newline is written as `("\n" + strip + "\n").rstrip()`.
  That is `"\n" + strip`, or nothing when the stripped tail is empty. It is not
  `"\n" + strip + "\n"`.
- A verse-order token that names no verse makes `find` return `None`. Reading its
  `lines` then raises, so the model gives `Crashed(UnknownVerse(name))`, not a
  clean error.
- An index file of unknown kind is only logged: no file is written and nothing is
  raised.

Files:

| File | Module | What it holds |
|---|---|---|
| `wrappers.dfy` | `Wrappers` | `Option` and `Result` |
| `strings.dfy` | `Strings` | Python's `strip`, `lstrip`, `split`, `join` and `replace` on Python's whitespace set, `lower`/`upper` on ASCII letters, and lexicographic order |
| `sorting.dfy` | `Sorting` | Python's stable sort by a key, as an insertion sort that is proved sorted, a permutation and stable |
| `casefold.dfy` | `CaseFold` | order by the case-folded string |
| `elementtree.dfy` | `ElementTree` | the parsed tree, local tag names, `find` and `findall` |
| `songs.dfy` | `Songs` | `_xml_to_sbd` |
| `songbook.dfy` | `SongBook` | the song file of `_make_songfile` |
| `sxd.dfy` | `Sxd` | the record reader common to both indexes, and `int()` |
| `authors.dfy` | `AuthorIndex` | `_make_latex_author_index` |
| `titles.dfy` | `TitleIndex` | `_make_latex_title_index` |
| `index.dfy` | `Index` | `_make_latex_index` |

## Model

| member | source | states |
|---|---|---|
| Songs.XmlToSbd | ol_bookmaker.py:408-521 | The conversion walks the tree and its result is the song's entry, its skip reason, or the exception it raises, as `SongEntry` defines. |
| Songs.SkippedIff | ol_bookmaker.py:421-444 | A song is skipped exactly when it has no `properties` element or no `titles` header entry. A converted entry is never empty, so `""` is returned exactly for a skipped song. |
| Songs.EntryLayout | ol_bookmaker.py:446-521 | A converted entry is the opening marker, the notes before the first verse, the verses in verse order, then `\endsong` and a blank line. |
| Songs.ReadHeader | ol_bookmaker.py:421-438 | Walking the children of `properties` builds the header that the fold `HeaderOf` describes. |
| Songs.ReadChild | ol_bookmaker.py:426-438 | One child: a multi-valued tag appends its children's texts, a single-valued tag replaces its text, and any other tag leaves the header unchanged. |
| Songs.AppendTexts | ol_bookmaker.py:430-434 | The tag's list becomes the old list (empty when absent) followed by the texts of the given children in order. |
| Songs.HeaderOfGathers | ol_bookmaker.py:426-438 | A known tag is in the header exactly when some child carries it. A multi-valued tag holds the texts of the children of every element that carries it, in document order. A single-valued tag holds the text of the last element that carries it. |
| Songs.HeaderWellKinded | ol_bookmaker.py:424-436 | Multi-valued tags always hold lists, and single-valued tags always hold a single text. |
| Songs.JoinTexts | ol_bookmaker.py:449-451 | `", ".join` fails exactly when some text is `None`. |
| Songs.OpenEntry | ol_bookmaker.py:447-456 | The opening marker is built clause by clause, as `Opening` defines, or the run fails. |
| Songs.OpeningOkIff | ol_bookmaker.py:447-456 | The opening is built exactly when: there is a first title and it has text; every author and keyword has text; `copyright` and `tune` have text when present. |
| Songs.OpeningClauses | ol_bookmaker.py:447-456 | The opening is `\beginsong{<first title>}[`, then the `by=`, `index=`, `cr=` and `tune=` clauses in that order, then `]` and a blank line. Each clause is present exactly when its tag is in the header. |
| Songs.NotesBeforeVerses | ol_bookmaker.py:461-467 | The loop writes a `\textnote` for each comment among the top-level children, stopping at the first verse. It returns the children as the loop leaves them: each one up to and including the first verse has lost its namespace, as `Walked` defines. |
| Songs.FirstVerseSpec | ol_bookmaker.py:461-465 | The loop stops at the first top-level child whose local name is `verse`: no child before it is a verse. |
| Songs.WalkedSpec | ol_bookmaker.py:461-465 | The walk keeps the number of children. Every child up to and including the first verse has its local name as tag, so it no longer matches any qualified tag. Every later child is untouched. |
| Songs.TopLevelVerseListed | ol_bookmaker.py:476 | Before the walk, `findall` sees a verse that is a direct child of the song. |
| Songs.TopLevelVerseUnseen | ol_bookmaker.py:461-486 | After the walk, the same verse is invisible to `findall` and to `find` by name. So the document-order verse list is empty, and every verse-order token names no verse. |
| Songs.PreVerseNotesAtVerse | ol_bookmaker.py:464-465 | Nothing is written once the first child is a verse. |
| Songs.ReadVerseOrder | ol_bookmaker.py:471-477 | The order is the words of `verseOrder` when it is present. Otherwise it is the `name` of every verse of the walked tree in document order, and a verse without a name fails. |
| Songs.VerseNamesSpec | ol_bookmaker.py:475-477 | Collecting names succeeds exactly when every verse has a `name`. Then there is one name per verse, and name `k` is that of verse `k`. |
| Songs.RenderVerses | ol_bookmaker.py:478-519 | Renders every verse of the order in turn, up to the first that fails. |
| Songs.RenderVerse | ol_bookmaker.py:479-519 | One verse: its marker, every `lines` element of the verse found by name in the walked tree, and its end marker. A name that no verse carries fails. |
| Songs.RenderLines | ol_bookmaker.py:486-515 | The lines of a verse are rendered one after the other, up to the first that fails. |
| Songs.RenderLine | ol_bookmaker.py:487-515 | A line is its stripped leading text, then its items rendered left to right. |
| Songs.RenderItem | ol_bookmaker.py:493-513 | One item: a comment as `\textnote`, a chord as ` \[..]`, `br` as a newline, then its tail. |
| Songs.VersesMarkupOkIff | ol_bookmaker.py:478-519 | The verses render exactly when each verse of the order renders, and then every token names an existing verse. |
| Songs.VersesMarkupInOrder | ol_bookmaker.py:478-519 | The rendered verses are the blocks of the tokens, one after the other, in the order of the tokens. |
| Songs.BlocksAt | ol_bookmaker.py:478-519 | Block `k` is the rendering of the `k`-th token. |
| Songs.VerseMarkupBracketed | ol_bookmaker.py:479-482 | A verse starts with `\beginchorus` and ends with `\endchorus` when its lower-cased name starts with `c`. Otherwise it starts with `\beginverse` and ends with `\endverse`. |
| Songs.Chord | ol_bookmaker.py:502 | A chord fails exactly when it has no `root` attribute. |
| Songs.ChordSpelling | ol_bookmaker.py:502-505 | A chord is ` \[`, then the root with every `&` as `b`, then the structure when present, then `]`. |
| Songs.ChordFlatExample | ol_bookmaker.py:502-505 | Root `A&` with structure `m7` is written ` \[Abm7]`. |
| Songs.TailText | ol_bookmaker.py:508-513 | A missing tail writes nothing, and what a tail writes never ends in whitespace. |
| Songs.TailTextClosedForm | ol_bookmaker.py:508-513 | A tail without a newline is written stripped. A tail with a newline is written as a newline and the stripped tail, or as nothing when the stripped tail is empty. |
| SongBook.MakeSongFile | ol_bookmaker.py:381-406 | The song file is the header (when configured) followed by every section, as `SongFile` defines. |
| SongBook.WriteSection | ol_bookmaker.py:388-406 | One section is its `\begin{songs}` and `\songchapter` lines, its songs, and `\end{songs}`. |
| SongBook.WriteSongs | ol_bookmaker.py:398-405 | Every song is converted in turn and its entry appended. Skipped songs are passed over, and the first exception stops the writing. |
| SongBook.SongsTextCrashIff | ol_bookmaker.py:398-405 | The songs are written without an exception exactly when no conversion raises. Otherwise the exception is one of the songs' exceptions. |
| SongBook.SectionsTextCompleteIff | ol_bookmaker.py:388-406 | The sections are written completely exactly when no song in any section raises. |
| SongBook.SongFileCompleteIff | ol_bookmaker.py:384-406 | The whole file is written completely exactly when no song in any section raises. |
| SongBook.SkippedSongLeavesNoTrace | ol_bookmaker.py:402-404 | Removing a skipped song from a section changes nothing in the output. |
| SongBook.SongsTextComplete | ol_bookmaker.py:398-405 | When nothing raises, the songs' text is the returned texts of the songs concatenated in order. |
| SongBook.SectionTextComplete | ol_bookmaker.py:388-406 | When nothing raises, a section is its opening, the returned texts of its songs, and `\end{songs}`. |
| SongBook.SongFileStartsWithHeader | ol_bookmaker.py:384-385 | A configured `sbd_header` is the start of the song file. |
| Sxd.ReadRecords | ol_bookmaker.py:541-548 | The loop reads stripped three-line records, after the first line, up to the first empty link. |
| Sxd.RecordsClosedForm | ol_bookmaker.py:541-548 | Record `k` is stripped lines `1+3k`, `2+3k` and `3+3k`. Every record read has a link, and the line where the next link would be is empty or past the end. |
| Sxd.ParseInt | ol_bookmaker.py:583 | `int()` accepts exactly an optional sign followed by digit groups separated by single underscores. |
| Sxd.ParseDecimal | ol_bookmaker.py:583 | `int(str(n)) == n` for every natural number. |
| AuthorIndex.MakeAuthorIndex | ol_bookmaker.py:536-597 | The author index file of the `.sxd` lines is `AuthorIndexFile`: records read, credits collected, lines written. |
| AuthorIndex.ReadAuthors | ol_bookmaker.py:540-570 | The loop over the records builds the dictionary of all their credits, in order. |
| AuthorIndex.AddRecord | ol_bookmaker.py:552-570 | One record adds one credit per name of its author line, in order. |
| AuthorIndex.AddName | ol_bookmaker.py:567-570 | A credit extends the key's song list, or adds a new key with a one-song list. |
| AuthorIndex.NoEscapedSpaceLeft | ol_bookmaker.py:554 | After `\ ` is replaced by `~`, no `\ ` is left. |
| AuthorIndex.TildeForEscapedSpaceNoBackslash | ol_bookmaker.py:554 | A text without backslashes is unchanged by the replacement. |
| AuthorIndex.SepAt | ol_bookmaker.py:554 | A separator starts at a position exactly when ` and ` or a character outside `[a-zA-Z~. ]` starts there. |
| AuthorIndex.PieceLengthSpec | ol_bookmaker.py:554 | The first piece is the longest prefix at none of whose positions a separator starts. |
| AuthorIndex.ReSplitFirst | ol_bookmaker.py:554 | `re.split` gives the whole text when it has no separator. Otherwise it gives the first piece, followed by the split of what follows the first separator. |
| AuthorIndex.ReSplitAllowed | ol_bookmaker.py:554 | Every piece holds only letters, `~`, `.` and spaces. |
| AuthorIndex.NonEmptySpec | ol_bookmaker.py:552-556 | The names are exactly the non-empty pieces. |
| AuthorIndex.Names | ol_bookmaker.py:552-556 | Every name is non-empty and holds only letters, `~`, `.` and spaces. |
| AuthorIndex.RSplitOnce | ol_bookmaker.py:558 | `rsplit(maxsplit=1)` gives at most two parts, none empty. |
| AuthorIndex.RSplitOnceOfSpace | ol_bookmaker.py:558 | A text of whitespace alone has no parts. |
| AuthorIndex.RSplitOnceOfOne | ol_bookmaker.py:558 | One word, with any whitespace before and after it, gives that word alone. |
| AuthorIndex.RSplitOnceOfTwo | ol_bookmaker.py:558 | A first part ending in a non-space, a run of whitespace, a last word and trailing whitespace give the first part and the last word, however many words the first part holds. |
| AuthorIndex.AuthorKey | ol_bookmaker.py:557-564 | No key contains a `~`: every tie is written as a space. |
| AuthorIndex.AuthorKeyOfTwoParts | ol_bookmaker.py:558-564 | A name whose last word follows a run of whitespace becomes `"<last>, <first part stripped>"` with `~` as space, whatever whitespace trails it. |
| AuthorIndex.AuthorKeyOfOneWord | ol_bookmaker.py:558-560 | A name of one word, whatever whitespace surrounds it, becomes that word with `~` as space, stripped. |
| AuthorIndex.AuthorKeyOfBlank | ol_bookmaker.py:558-560 | A name of whitespace alone has the empty key. |
| AuthorIndex.AuthorKeyExample | ol_bookmaker.py:558-564 | `John Doe` becomes `Doe, John`. |
| AuthorIndex.RecordCredits | ol_bookmaker.py:552-570 | A record credits its song to the key of each of its names, in order. |
| AuthorIndex.CreditsOfRecords | ol_bookmaker.py:540-570 | The credits are exactly those of the records read. |
| AuthorIndex.CollectSpec | ol_bookmaker.py:567-570 | The dictionary lists every credited key once. Each key holds exactly the songs credited to it, in reading order, and no key holds an empty list. |
| AuthorIndex.NumLtOrder | ol_bookmaker.py:583 | Ordering songs by their integer number is a strict weak order. |
| AuthorIndex.NumberSongs | ol_bookmaker.py:583 | When every number parses, each song is paired with its integer number. |
| AuthorIndex.NumberSongsErrIff | ol_bookmaker.py:583 | The sort key raises exactly when some number is not an integer, and it names the first such number. |
| AuthorIndex.SongOrder | ol_bookmaker.py:582-583 | A key's songs are sorted by number, with the same songs, and songs of equal number stay in reading order. |
| AuthorIndex.AuthorEntry | ol_bookmaker.py:580-596 | A key's line is always written. It raises exactly when the key's numbering raises, and then it holds only `\idxentry{<key>}{`. |
| AuthorIndex.WriteLinks | ol_bookmaker.py:584-594 | The song links are written with `\\` between consecutive ones. |
| AuthorIndex.WriteAuthor | ol_bookmaker.py:580-596 | One key's line is written as `AuthorEntry` defines. |
| AuthorIndex.WriteAuthors | ol_bookmaker.py:578-596 | The lines of the keys are written in order, up to the first that raises. |
| AuthorIndex.WriteAuthorIndex | ol_bookmaker.py:571-597 | The index is the opening of one `idxblock`, the lines of the sorted keys, and its end. |
| AuthorIndex.SortedKeysSpec | ol_bookmaker.py:578 | The keys are sorted case-insensitively and each appears once. They are exactly the credited keys, and keys equal up to case keep their insertion order. |
| AuthorIndex.KeySongs | ol_bookmaker.py:567-582 | A sorted key lists exactly the songs of every credit for that key. |
| AuthorIndex.AuthorLinesCrashIff | ol_bookmaker.py:578-596 | The lines are written without an exception exactly when every key's numbers parse. Otherwise the exception is that of some key's numbering. |
| AuthorIndex.AuthorLinesComplete | ol_bookmaker.py:578-596 | When no key raises, the lines are those of the keys, one after the other. |
| AuthorIndex.AuthorIndexText | ol_bookmaker.py:571-597 | When every number parses, the index is exactly one `idxblock` with an empty letter, holding one line per key in sorted order. |
| AuthorIndex.AuthorIndexCrashIff | ol_bookmaker.py:571-597 | The author index is complete exactly when every credited number is an integer. Otherwise the exception names a credited number that is not. |
| AuthorIndex.AuthorIndexFileCrashIff | ol_bookmaker.py:540-597 | The index of an `.sxd` file is complete exactly when every record with at least one name has an integer number. |
| Sorting.SortBySorted | ol_bookmaker.py:578 | The sort by a strict weak order gives a sorted sequence. |
| Sorting.SortBy | ol_bookmaker.py:578 | The sort gives a permutation of its input. |
| Sorting.SortByStable | ol_bookmaker.py:583 | Elements that compare equal keep their relative order. |
| Sorting.DistinctPerm | ol_bookmaker.py:578 | A permutation of a sequence without duplicates has none. |
| CaseFold.FoldedLtOrder | ol_bookmaker.py:578 | Comparing case-folded strings is a strict weak order. |
| CaseFold.FoldedTie | ol_bookmaker.py:632 | Two strings tie exactly when their case-folded forms are equal. |
| TitleIndex.MakeTitleIndex | ol_bookmaker.py:599-663 | The title index file of the `.sxd` lines is `TitleIndexFile`: titles read, sorted and written. |
| TitleIndex.ReadTitles | ol_bookmaker.py:603-631 | The loop normalises the title of every record in order, and the first empty title raises. |
| TitleIndex.TitleOf | ol_bookmaker.py:613-627 | Normalising raises exactly when the title is empty once its stars are stripped. Otherwise the entry is alternative exactly when the title started with `*`, keeps the number and link, and its first character is unchanged by upper-casing. |
| TitleIndex.SplitOnceOfTwo | ol_bookmaker.py:620 | `split(maxsplit=1)` gives the first word and the rest after the whitespace that follows it. |
| TitleIndex.SplitOnceOfOne | ol_bookmaker.py:620-622 | A one-word title splits into that word alone. |
| TitleIndex.TitleEmptyIff | ol_bookmaker.py:613-617 | The title left once the leading `*`s are removed is empty exactly when the key is all `*`s. |
| TitleIndex.MoveArticle | ol_bookmaker.py:619-625 | Moving the article gives an empty title exactly when the title was empty. |
| TitleIndex.MoveArticleOfArticle | ol_bookmaker.py:619-625 | An article, with any whitespace before it, then a run of whitespace and a rest starting with a non-space, becomes `<rest>, <article>`. This holds for each of the six article spellings. |
| TitleIndex.MoveArticleKeeps | ol_bookmaker.py:619-625 | Any other title is kept as it is. |
| TitleIndex.UpperFirst | ol_bookmaker.py:627 | Only the first character is upper-cased. |
| TitleIndex.UpperFirstIdempotent | ol_bookmaker.py:627 | Upper-casing the first character twice is the same as doing it once. |
| TitleIndex.TitleOfExample | ol_bookmaker.py:613-627 | `*the end` becomes the alternative title `End, the`. |
| TitleIndex.TitlesInOrder | ol_bookmaker.py:605-631 | Entry `k` is the normalised title of record `k`. |
| TitleIndex.TitlesErrIff | ol_bookmaker.py:627 | Reading raises exactly when some title is empty, and the exception is the empty-title one. |
| TitleIndex.TitleLtOrder | ol_bookmaker.py:632 | Comparing titles by their case-folded form is a strict weak order. |
| TitleIndex.TitleOrder | ol_bookmaker.py:632 | The titles are sorted case-insensitively, form a permutation of those read, and ties keep reading order. |
| TitleIndex.WriteEntry | ol_bookmaker.py:644-661 | One entry: in block mode, the close of the current block and the open of a new one when the entry opens a block; then the entry line. |
| TitleIndex.WriteEntries | ol_bookmaker.py:644-661 | The loop writes every entry after its heading, threading the current block letter. |
| TitleIndex.WriteTitleIndex | ol_bookmaker.py:640-663 | The index is written as `TitleIndexText` defines. That includes the exception of block mode on an empty list, after the file was opened. |
| TitleIndex.TitleIndexText | ol_bookmaker.py:640-663 | The file is always written. It raises exactly in block mode with no titles. |
| TitleIndex.EntryKind | ol_bookmaker.py:650-661 | An entry is `\idxaltentry` exactly when the title is alternative, and `\idxentry` exactly when it is not. |
| TitleIndex.FlatIndex | ol_bookmaker.py:640-663 | Without letter blocks, the index is the entry lines of the titles in order. |
| TitleIndex.BlockIndex | ol_bookmaker.py:640-663 | With letter blocks and at least one title, the index is the concatenation of the letter blocks. |
| TitleIndex.Run | ol_bookmaker.py:645-649 | A block runs up to the first entry whose initial differs, up to case, from the block's letter. |
| TitleIndex.BlocksWritten | ol_bookmaker.py:644-663 | What the loop writes between the first open and the final close is the blocks, each an open, its entries in order, and a close. |
| TitleIndex.BlocksShape | ol_bookmaker.py:644-663 | The blocks hold every entry exactly once, in order. No block is empty, and every entry of a block has the block's letter, up to case. |
| TitleIndex.BlocksIncreasing | ol_bookmaker.py:632-663 | On sorted titles, the block letters strictly increase, up to case, so no letter opens two blocks. |
| TitleIndex.TitleIndexFileCrash | ol_bookmaker.py:599-663 | No file is written exactly when some record has an empty title. An empty file with the exception is written exactly in block mode when there are no records. |
| Index.MakeLatexIndex | ol_bookmaker.py:523-534 | The dispatch on the stripped first line makes the index that `LatexIndex` defines. |
| Index.KindOf | ol_bookmaker.py:529-534 | A first line starting with `AUTHOR` gives an author index. One starting with `TITLE` and not `AUTHOR` gives a title index. |
| Index.KindsExclusive | ol_bookmaker.py:529-531 | No line starts with both names. |
| Index.UnknownKindIff | ol_bookmaker.py:527-534 | Nothing is written and nothing is raised exactly when the kind is unknown, and an author index is always written. |
| Strings.StripSpec | ol_bookmaker.py:492 | A stripped text neither starts nor ends with whitespace. |
| Strings.LStripCharSpec | ol_bookmaker.py:614 | `lstrip("*")` removes exactly the leading run of stars. |
| Strings.WordsFirst | ol_bookmaker.py:472 | `split()` skips leading whitespace, takes the maximal run of non-whitespace as the first word, and splits the rest after it. |
| Strings.WordsOfSpace | ol_bookmaker.py:472 | A text of whitespace alone has no words. |
| Strings.StripPadded | ol_bookmaker.py:559-560 | Whitespace added before and after a text does not change its `strip()`. |
| ElementTree.LocalNameOfQualified | ol_bookmaker.py:428-429 | Removing the namespace from a qualified tag gives back the local name. |
| ElementTree.LocalNameIdempotent | ol_bookmaker.py:428-429 | Removing the namespace twice is the same as removing it once. |
| ElementTree.LocalName | ol_bookmaker.py:462-463 | A local name never contains `}`, and a tag without `}` is its own local name. |
| ElementTree.QualifiedNotLocal | ol_bookmaker.py:461-483 | A tag whose namespace was removed never equals a qualified tag, so the `ol:` queries no longer match it. |
| ElementTree.WithTagSpec | ol_bookmaker.py:476 | Filtering by tag keeps exactly the elements with that tag. |
| ElementTree.FindAllSpec | ol_bookmaker.py:476 | `findall` lists exactly the descendants with the qualified tag. |
| ElementTree.FirstNone | ol_bookmaker.py:483 | `find` gives `None` exactly when no element is selected. |
| ElementTree.FirstSelected | ol_bookmaker.py:483 | What `find` gives is a selected element of the list, and no element before it is selected. |
| ElementTree.FindNamedSpec | ol_bookmaker.py:483 | `find` by name gives a descendant with the qualified tag and that `name`, the first such in document order, and `None` exactly when there is none. |

## Left out

- `ET.fromstring`: XML parsing is not modelled. The transcoder takes the
  parsed tree as a datatype.
- File reading and writing: an `.sxd` file is its sequence of lines, and an
  output file is the text written to it.
- `logging`: the log calls are not modelled.
- Universal-newline handling by `open` is not modelled.
- The namespace removal is modelled as the pure `LocalName`. Where later code can
  observe the change, the model returns the changed tree instead of mutating it in
  place:
  - The walk over the song's children (ol_bookmaker.py:461-465) renames every
    child up to and including the first verse. The verse list and the verse
    lookups then search that walked tree, so a verse that is a direct child of
    the song is no longer found (`Songs.TopLevelVerseUnseen`).
  - The renaming of the children of `properties` (ol_bookmaker.py:428-429) and of
    the items of a line (495-496) is not kept in the tree. It would change a later
    lookup in three cases:
    - a `verse` element directly under `properties`;
    - a `verse` element directly inside a line, which the lookup by name of a
      later token (483) would then miss;
    - a `lines` element directly inside a line, which a later rendering of the
      same verse (486) would then miss.

    The OpenLyrics schema allows none of these nestings.
- The XPath in `find(f".//ol:verse[@name='{verse_number}']")` is modelled as a
  search for a verse with that name. A token containing a quote would raise a
  syntax error in ElementTree; that error is not modelled.
- Python's Unicode `casefold`, `lower` and `upper` are modelled on ASCII
  letters only. Other characters are unchanged, so multi-character case mappings
  such as `ß` are not modelled. Whitespace for `strip` and `split` is the set of
  characters for which Python's `str.isspace` holds.
- `int()` is modelled on ASCII digits, with an optional sign and underscores
  between digit groups. Surrounding whitespace is not accepted because the strings
  are already stripped, and Unicode digits are not accepted.
- `sorted` and `list.sort` are modelled as one stable insertion-sort function
  on values, and the in-place sort of each key's list is not modelled. Nothing
  else reads those lists, so only their sorted contents matter.
- `re.split` is modelled by the pattern's own left-to-right scan, not by a
  general regular-expression engine.
- The rest of `ol_bookmaker.py` is not part of this model:
  - `__init__`, including its sort of section files;
  - `load_config` and `get_file_list`;
  - the Jinja rendering;
  - `make_output`, `make_html_output`, `make_pdf_output` and `make_epub_output`,
    which run external tools;
  - the command-line front end.
- The file names built by `_make_songfile` and `_make_latex_index` are not
  modelled: only the text that goes into the files is.
