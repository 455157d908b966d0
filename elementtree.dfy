/** The part of Python's `xml.etree.ElementTree` that the transcoder uses: an
    already-parsed element tree, tag names in Clark notation (`{uri}local`), and the
    path queries `.//ol:x` and `.//ol:x[@name='v']` with the OpenLyrics namespace
    bound to the prefix `ol`. */
module ElementTree {
  import opened Wrappers

  /** An element: its tag, the text before its first child, its attributes, its
      children and the tail text that follows its end tag. `None` stands for Python's
      `None` (no text at all), which differs from the empty string. */
  datatype Element = Element(
    tag: string,
    text: Option<string>,
    attrib: map<string, string>,
    children: seq<Element>,
    tail: Option<string>)

  /** The OpenLyrics song namespace, bound to `ol` in every query. */
  const Namespace: string := "http://openlyrics.info/namespace/2009/song"

  /** The tag ElementTree gives an element `<local>` of the OpenLyrics namespace. */
  function Qualified(local: string): string {
    "{" + Namespace + "}" + local
  }

  /** Index of the first `c` in `s`, or `|s|` when there is none. */
  function IndexOf(s: string, c: char): (i: nat)
    ensures i <= |s|
    ensures forall k :: 0 <= k < i ==> s[k] != c
    ensures i < |s| ==> s[i] == c
  {
    if s == [] || s[0] == c then 0 else 1 + IndexOf(s[1..], c)
  }

  /** `tag.split("}")[1]` when the tag contains `}`, else the tag unchanged: the
      namespace stripping the transcoder applies to every tag it classifies. */
  function LocalName(tag: string): (r: string)
    ensures '}' !in r
    ensures '}' !in tag ==> r == tag
  {
    var i := IndexOf(tag, '}');
    if i == |tag| then tag
    else
      var rest := tag[i + 1..];
      rest[..IndexOf(rest, '}')]
  }

  lemma {:induction false} IndexOfAppend(a: string, b: string, c: char)
    requires c !in a
    ensures IndexOf(a + b, c) == |a| + IndexOf(b, c)
  {
    if a != [] {
      assert (a + b)[0] == a[0];
      assert (a + b)[1..] == a[1..] + b;
      IndexOfAppend(a[1..], b, c);
    } else {
      assert a + b == b;
    }
  }

  /** The namespace of an OpenLyrics tag is removed and its local name kept. */
  lemma LocalNameOfQualified(local: string)
    requires '}' !in local
    ensures LocalName(Qualified(local)) == local
  {
    var pre := "{" + Namespace;
    assert '}' !in pre;
    assert Qualified(local) == pre + ("}" + local);
    IndexOfAppend(pre, "}" + local, '}');
    assert Qualified(local)[|pre| + 1..] == local;
  }

  /** A qualified tag is never a local name: it carries the `}` that closes its
      namespace, which no local name does. */
  lemma QualifiedNotLocal(tag: string, local: string)
    ensures LocalName(tag) != Qualified(local)
  {
    var q := Qualified(local);
    assert q == ("{" + Namespace) + "}" + local;
    assert q[|Namespace| + 1] == '}';
  }

  /** Stripping is idempotent, so re-reading an already stripped tag changes nothing. */
  lemma LocalNameIdempotent(tag: string)
    ensures LocalName(LocalName(tag)) == LocalName(tag)
  {
  }

  /** Every element below the elements `cs`, them included, in document order. */
  function Preorder(cs: seq<Element>): (r: seq<Element>)
    ensures |r| >= |cs|
  {
    if cs == [] then [] else [cs[0]] + Preorder(cs[0].children) + Preorder(cs[1..])
  }

  /** The elements of `es` with tag `tag`, in order. */
  function WithTag(es: seq<Element>, tag: string): (r: seq<Element>)
    ensures forall k :: 0 <= k < |r| ==> r[k] in es && r[k].tag == tag
  {
    if es == [] then []
    else (if es[0].tag == tag then [es[0]] else []) + WithTag(es[1..], tag)
  }

  /** Filtering keeps exactly the elements with the tag, and works piece by piece,
      so the kept elements stay in the order of `es`. */
  lemma {:induction false} WithTagSpec(es: seq<Element>, tag: string)
    ensures forall x :: x in WithTag(es, tag) <==> x in es && x.tag == tag
  {
    if es != [] {
      WithTagSpec(es[1..], tag);
      assert es == [es[0]] + es[1..];
    }
  }

  /** `e.findall(".//ol:<local>")`: the descendants of `e` with the qualified tag,
      in document order. */
  function FindAll(e: Element, local: string): seq<Element> {
    WithTag(Preorder(e.children), Qualified(local))
  }

  /** The list holds exactly the descendants with the qualified tag. */
  lemma FindAllSpec(e: Element, local: string)
    ensures forall x :: x in FindAll(e, local) <==> x in Preorder(e.children) && x.tag == Qualified(local)
  {
    WithTagSpec(Preorder(e.children), Qualified(local));
  }

  /** The first element of `es` with tag `tag` whose attribute `key` exists (and,
      when `value` is given, equals it). */
  function First(es: seq<Element>, tag: string, key: Option<string>, value: string): (r: Option<Element>)
  {
    if es == [] then None
    else if Selects(es[0], tag, key, value) then Some(es[0])
    else First(es[1..], tag, key, value)
  }

  /** `find` gives `None` exactly when no element of `es` is selected. */
  lemma {:induction false} FirstNone(es: seq<Element>, tag: string, key: Option<string>, value: string)
    ensures First(es, tag, key, value).None? <==> forall k :: 0 <= k < |es| ==> !Selects(es[k], tag, key, value)
  {
    if es != [] && !Selects(es[0], tag, key, value) {
      FirstNone(es[1..], tag, key, value);
      assert forall k :: 1 <= k < |es| ==> es[k] == es[1..][k - 1];
    }
  }

  /** What `find` gives is selected, and no element before it in the document
      order is. */
  lemma {:induction false} FirstSelected(es: seq<Element>, tag: string, key: Option<string>, value: string)
    requires First(es, tag, key, value).Some?
    ensures var r := First(es, tag, key, value).value;
      exists k :: (0 <= k < |es| && es[k] == r && Selects(es[k], tag, key, value)
        && forall j :: 0 <= j < k ==> !Selects(es[j], tag, key, value))
  {
    var r := First(es, tag, key, value).value;
    if !Selects(es[0], tag, key, value) {
      FirstSelected(es[1..], tag, key, value);
      var k :| (0 <= k < |es[1..]| && es[1..][k] == r && Selects(es[1..][k], tag, key, value)
        && forall j :: 0 <= j < k ==> !Selects(es[1..][j], tag, key, value));
      assert es[k + 1] == r;
      forall j | 1 <= j < k + 1 ensures !Selects(es[j], tag, key, value) {
        assert es[j] == es[1..][j - 1];
      }
      assert Selects(es[k + 1], tag, key, value) && forall j :: 0 <= j < k + 1 ==> !Selects(es[j], tag, key, value);
    } else {
      assert es[0] == r;
    }
  }

  predicate Selects(e: Element, tag: string, key: Option<string>, value: string) {
    e.tag == tag && (key.Some? ==> key.value in e.attrib && e.attrib[key.value] == value)
  }

  /** `e.find(".//ol:<local>")`. */
  function Find(e: Element, local: string): Option<Element> {
    First(Preorder(e.children), Qualified(local), None, "")
  }

  /** `e.find(".//ol:verse[@name='<name>']")`: the first descendant of `e`, in
      document order, with the qualified tag and that `name`, if there is one. */
  function FindNamed(e: Element, local: string, name: string): Option<Element> {
    First(Preorder(e.children), Qualified(local), Some("name"), name)
  }

  /** The lookup gives the first element of the document order with the tag and
      that `name`, and `None` exactly when there is none. */
  lemma FindNamedSpec(e: Element, local: string, name: string)
    ensures var r := FindNamed(e, local, name);
      r.Some? ==> r.value.tag == Qualified(local) && "name" in r.value.attrib && r.value.attrib["name"] == name
    ensures var r, es := FindNamed(e, local, name), Preorder(e.children);
      r.Some? ==> exists k :: (0 <= k < |es| && es[k] == r.value
        && forall j :: 0 <= j < k ==> !Selects(es[j], Qualified(local), Some("name"), name))
    ensures var r, es := FindNamed(e, local, name), Preorder(e.children);
      r.None? <==> forall k :: 0 <= k < |es| ==> !Selects(es[k], Qualified(local), Some("name"), name)
  {
    var es := Preorder(e.children);
    var r := First(es, Qualified(local), Some("name"), name);
    FirstNone(es, Qualified(local), Some("name"), name);
    if r.Some? {
      FirstSelected(es, Qualified(local), Some("name"), name);
    }
  }
}
