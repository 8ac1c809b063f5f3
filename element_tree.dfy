/**
 * An already-parsed XML document, as `xml.etree.ElementTree` hands it over,
 * and the three queries the timetable flattener makes of it: `attrib.get`,
 * `find` and `findall` with a plain tag name. A plain tag name matches
 * DIRECT children only, in document order.
 */
module ElementTree {
  import opened Wrappers

  /** One element: its tag, its attribute map and its children in document order. */
  datatype Element = Element(tag: string, attrib: map<string, string>, children: seq<Element>)

  /** `e.attrib.get(key)`: the attribute's value, or None when it is absent. */
  function Get(e: Element, key: string): (r: Option<string>)
    ensures r == None <==> key !in e.attrib
    ensures key in e.attrib ==> r == Some(e.attrib[key])
  {
    if key in e.attrib then Some(e.attrib[key]) else None
  }

  /** How many of `children` carry `tag` (a reference count, independent of FindAll). */
  function CountTag(children: seq<Element>, tag: string): nat
  {
    if children == [] then 0
    else (if children[0].tag == tag then 1 else 0) + CountTag(children[1..], tag)
  }

  /** `parent.findall(tag)`: the direct children with that tag, in document order. */
  function FindAll(children: seq<Element>, tag: string): (r: seq<Element>)
    ensures |r| == CountTag(children, tag)
  {
    if children == [] then []
    else (if children[0].tag == tag then [children[0]] else []) + FindAll(children[1..], tag)
  }

  /** `parent.find(tag)`: the first direct child with that tag, or None. */
  function Find(children: seq<Element>, tag: string): (r: Option<Element>)
    ensures r.Some? ==> r.value in children && r.value.tag == tag
  {
    if children == [] then None
    else if children[0].tag == tag then Some(children[0])
    else Find(children[1..], tag)
  }

  /** `findall` keeps exactly the children that carry the tag. */
  lemma {:induction false} FindAllMembers(children: seq<Element>, tag: string)
    ensures forall x :: x in FindAll(children, tag) <==> x in children && x.tag == tag
  {
    if children != [] {
      FindAllMembers(children[1..], tag);
      assert forall x :: x in children <==> x == children[0] || x in children[1..];
    }
  }

  /** Children none of which carries the tag yield nothing. */
  lemma {:induction false} NoMatchFindsNothing(children: seq<Element>, tag: string)
    requires forall x :: x in children ==> x.tag != tag
    ensures FindAll(children, tag) == []
  {
    if children != [] {
      assert children[0] in children;
      NoMatchFindsNothing(children[1..], tag);
    }
  }

  /** `findall` distributes over concatenation, so it keeps document order. */
  lemma {:induction false} FindAllAppend(a: seq<Element>, b: seq<Element>, tag: string)
    ensures FindAll(a + b, tag) == FindAll(a, tag) + FindAll(b, tag)
  {
    if a == [] {
      assert a + b == b;
    } else {
      assert (a + b)[1..] == a[1..] + b;
      FindAllAppend(a[1..], b, tag);
    }
  }

  /** A child with another tag, inserted anywhere, is not found. */
  lemma FindAllSkipsOtherTag(before: seq<Element>, x: Element, after: seq<Element>, tag: string)
    requires x.tag != tag
    ensures FindAll(before + [x] + after, tag) == FindAll(before + after, tag)
  {
    FindAllAppend(before + [x], after, tag);
    FindAllAppend(before, [x], tag);
    FindAllAppend(before, after, tag);
    NoMatchFindsNothing([x], tag);
  }

  /** `find` returns the first element that `findall` would return. */
  lemma {:induction false} FindIsFirstOfFindAll(children: seq<Element>, tag: string)
    ensures Find(children, tag) ==
      if FindAll(children, tag) == [] then None else Some(FindAll(children, tag)[0])
  {
    if children != [] && children[0].tag != tag {
      FindIsFirstOfFindAll(children[1..], tag);
    }
  }
}
