/** The song file `_make_songfile` writes: the optional `sbd_header`, then for every
    section a `songs` environment holding the entries of its songs. A skipped song
    leaves nothing behind; a song that raises aborts the run, and what was written
    to the file before it stays there. */
module SongBook {
  import opened Wrappers
  import opened Strings
  import opened ElementTree
  import opened Songs

  /** A section of the book: its name and the parsed trees of its song files. */
  datatype Section = Section(name: string, files: seq<Element>)

  /** The text written to the song file, and the exception that stopped the writing,
      if one did. */
  datatype Output = Output(text: string, crash: Option<Crash>)

  /** `p` written before `o`. */
  function Then(p: string, o: Output): Output {
    Output(p + o.text, o.crash)
  }

  lemma ThenAssoc(p: string, q: string, o: Output)
    ensures Then(p, Then(q, o)) == Then(p + q, o)
  {
    assert p + (q + o.text) == (p + q) + o.text;
  }

  lemma ThenEmpty(o: Output)
    ensures Then("", o) == o
  {
    assert "" + o.text == o.text;
  }

  /** The lines opening a section: its `songs` environment, whose index names are the
      section name with spaces as underscores, and its chapter heading. */
  function SectionOpen(name: string): string {
    "\\begin{songs}{" + ReplaceChar(name, ' ', '_') + "_idx,authoridx}\n"
    + "\\songchapter{" + name + "}\n"
  }

  /** The entries of the songs `files`, up to the first one that raises. */
  function SongsText(files: seq<Element>): (o: Output) {
    if files == [] then Output("", None)
    else
      match SongEntry(files[0])
      case Crashed(c) => Output("", Some(c))
      case Converted(e) => Then(e, SongsText(files[1..]))
      case Skipped(_) => SongsText(files[1..])
  }

  /** One section: its opening, its entries and `\end{songs}`, unless a song raises. */
  function SectionText(s: Section): Output {
    var o := Then(SectionOpen(s.name), SongsText(s.files));
    if o.crash.Some? then o else Output(o.text + "\\end{songs}", None)
  }

  /** The sections one after the other, up to the first song that raises. */
  function SectionsText(ss: seq<Section>): Output {
    if ss == [] then Output("", None)
    else
      var o := SectionText(ss[0]);
      if o.crash.Some? then o else Then(o.text, SectionsText(ss[1..]))
  }

  /** The whole song file. */
  function SongFile(header: Option<string>, ss: seq<Section>): Output {
    Then(if header.Some? then header.value else "", SectionsText(ss))
  }

  /** Some song of `s` raises. */
  predicate SectionCrashes(s: Section) {
    exists k :: 0 <= k < |s.files| && SongEntry(s.files[k]).Crashed?
  }

  /** The entries stop exactly at a song that raises, and the exception is that
      song's. */
  lemma {:induction false} SongsTextCrashIff(files: seq<Element>)
    ensures SongsText(files).crash.None? <==>
      forall k :: 0 <= k < |files| ==> !SongEntry(files[k]).Crashed?
    ensures SongsText(files).crash.Some? ==>
      exists k :: 0 <= k < |files| && SongEntry(files[k]) == Crashed(SongsText(files).crash.value)
  {
    if files != [] {
      var rest := files[1..];
      SongsTextCrashCons(files);
      SongsTextCrashIff(rest);
      assert forall k :: 1 <= k < |files| ==> files[k] == rest[k - 1];
      if SongsText(files).crash.Some? && !SongEntry(files[0]).Crashed? {
        var k :| 0 <= k < |rest| && SongEntry(rest[k]) == Crashed(SongsText(rest).crash.value);
        assert SongEntry(files[k + 1]) == Crashed(SongsText(files).crash.value);
      }
    }
  }

  lemma SongsTextCrashCons(files: seq<Element>)
    requires files != []
    ensures SongsText(files).crash
      == if SongEntry(files[0]).Crashed? then Some(SongEntry(files[0]).crash) else SongsText(files[1..]).crash
  {
  }

  /** The song file is complete exactly when no song of any section raises. */
  lemma {:induction false} SectionsTextCompleteIff(ss: seq<Section>)
    ensures SectionsText(ss).crash.None? <==> forall k :: 0 <= k < |ss| ==> !SectionCrashes(ss[k])
  {
    if ss != [] {
      SongsTextCrashIff(ss[0].files);
      SectionsTextCompleteIff(ss[1..]);
      assert forall k :: 1 <= k < |ss| ==> ss[k] == ss[1..][k - 1];
    }
  }

  lemma SongFileCompleteIff(header: Option<string>, ss: seq<Section>)
    ensures SongFile(header, ss).crash.None? <==> forall k :: 0 <= k < |ss| ==> !SectionCrashes(ss[k])
  {
    SectionsTextCompleteIff(ss);
  }

  /** A skipped song leaves the entries exactly as if its file were not there. */
  lemma {:induction false} SkippedSongLeavesNoTrace(a: seq<Element>, x: Element, b: seq<Element>)
    requires SongEntry(x).Skipped?
    ensures SongsText(a + [x] + b) == SongsText(a + b)
  {
    if a == [] {
      assert a + [x] + b == [x] + b;
      assert ([x] + b)[1..] == b;
      assert a + b == b;
    } else {
      assert (a + [x] + b)[0] == a[0] && (a + b)[0] == a[0];
      assert (a + [x] + b)[1..] == a[1..] + [x] + b;
      assert (a + b)[1..] == a[1..] + b;
      SkippedSongLeavesNoTrace(a[1..], x, b);
    }
  }

  /** When no song raises, the entries are what `_xml_to_sbd` returns for each file,
      concatenated in file order (the empty text of a skipped song included). */
  lemma {:induction false} SongsTextComplete(files: seq<Element>)
    requires forall k :: 0 <= k < |files| ==> !SongEntry(files[k]).Crashed?
    ensures SongsText(files) == Output(Concat(Returned(files)), None)
  {
    if files != [] {
      assert forall k :: 1 <= k < |files| ==> files[k] == files[1..][k - 1];
      SongsTextComplete(files[1..]);
      ConcatCons(ReturnedText(SongEntry(files[0])), Returned(files[1..]));
      assert Returned(files) == [ReturnedText(SongEntry(files[0]))] + Returned(files[1..]);
      assert "" + Concat(Returned(files[1..])) == Concat(Returned(files[1..]));
    }
  }

  /** What `_xml_to_sbd` returns for each file, none of which raises. */
  function Returned(files: seq<Element>): (r: seq<string>)
    requires forall k :: 0 <= k < |files| ==> !SongEntry(files[k]).Crashed?
    ensures |r| == |files| && forall k :: 0 <= k < |files| ==> r[k] == ReturnedText(SongEntry(files[k]))
  {
    if files == [] then []
    else
      assert forall k :: 1 <= k < |files| ==> files[k] == files[1..][k - 1];
      [ReturnedText(SongEntry(files[0]))] + Returned(files[1..])
  }

  /** When no song of a section raises, its text is its opening, the returned texts
      of its songs in file order, and `\end{songs}`. */
  lemma SectionTextComplete(s: Section)
    requires !SectionCrashes(s)
    ensures SectionText(s) == Output(SectionOpen(s.name) + Concat(Returned(s.files)) + "\\end{songs}", None)
  {
    SongsTextComplete(s.files);
  }

  /** The file always starts with the `sbd_header`, when there is one. */
  lemma SongFileStartsWithHeader(header: string, ss: seq<Section>)
    ensures StartsWith(SongFile(Some(header), ss).text, header)
  {
    var t := SongFile(Some(header), ss).text;
    assert t == header + SectionsText(ss).text;
    assert t[..|header|] == header;
  }

  // ---------------------------------------------------------------- the writer

  /** Writes the entries of the songs `files`, stopping at the first that raises. */
  method WriteSongs(files: seq<Element>) returns (o: Output)
    ensures o == SongsText(files)
  {
    var written := "";
    assert files[0..] == files;
    ThenEmpty(SongsText(files));
    for i := 0 to |files|
      invariant Then(written, SongsText(files[i..])) == SongsText(files)
    {
      assert files[i..][1..] == files[i + 1..];
      var text := XmlToSbd(files[i]);
      if text.Crashed? {
        return Output(written, Some(text.crash));
      }
      if text.Skipped? {
        continue;
      }
      ThenAssoc(written, text.entry, SongsText(files[i + 1..]));
      written := written + text.entry;
    }
    assert files[|files|..] == [];
    assert written + "" == written;
    return Output(written, None);
  }

  /** Writes one section: its opening, its songs and, unless one raises, its end. */
  method WriteSection(s: Section) returns (o: Output)
    ensures o == SectionText(s)
  {
    var written := "\\begin{songs}{" + ReplaceChar(s.name, ' ', '_') + "_idx,authoridx}\n";
    written := written + ("\\songchapter{" + s.name + "}\n");
    assert written == SectionOpen(s.name);
    var songs := WriteSongs(s.files);
    written := written + songs.text;
    if songs.crash.Some? {
      return Output(written, songs.crash);
    }
    return Output(written + "\\end{songs}", None);
  }

  /** `_make_songfile`: the header, then every section in turn. */
  method MakeSongFile(header: Option<string>, ss: seq<Section>) returns (o: Output)
    ensures o == SongFile(header, ss)
  {
    var written := "";
    if header.Some? {
      written := header.value;
    }
    assert ss[0..] == ss;
    for j := 0 to |ss|
      invariant Then(written, SectionsText(ss[j..])) == SongFile(header, ss)
    {
      assert ss[j..][1..] == ss[j + 1..];
      var section := WriteSection(ss[j]);
      if section.crash.Some? {
        return Output(written + section.text, section.crash);
      }
      ThenAssoc(written, section.text, SectionsText(ss[j + 1..]));
      written := written + section.text;
    }
    assert ss[|ss|..] == [];
    assert written + "" == written;
    return Output(written, None);
  }
}
