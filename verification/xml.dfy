/** The part of Python's ElementTree that the gateway uses: elements with a
    tag, attributes, text and children, and the one-step `find`/`findall`
    lookups by tag. Parsing bytes into a tree is not part of this model. */
module Xml {
  import opened Wrappers

  newtype byte = x: int | 0 <= x < 256

  /** Raw bytes: an HTTP response body, or a serialized event. */
  type Bytes = seq<byte>

  /** An element. An attribute whose value is `None` holds a Python `None`
      stored by `Element.set`; the element's text is `None` when it has none. */
  datatype Element = Element(
    tag: string,
    attrib: map<string, Option<string>>,
    text: Option<string>,
    children: seq<Element>)

  /** The elements of `cs` whose tag is `tag`, in their order in `cs`. */
  function Tagged(cs: seq<Element>, tag: string): (r: seq<Element>)
    ensures |r| <= |cs|
  {
    if cs == [] then []
    else (if cs[0].tag == tag then [cs[0]] else []) + Tagged(cs[1..], tag)
  }

  /** The elements kept are exactly those of `cs` that have the tag. */
  lemma {:induction false} TaggedMembers(cs: seq<Element>, tag: string)
    ensures forall c :: c in Tagged(cs, tag) <==> c in cs && c.tag == tag
  {
    if cs != [] {
      TaggedMembers(cs[1..], tag);
      assert cs == [cs[0]] + cs[1..];
    }
  }

  /** `e.findall(tag)`: the direct children of `e` with that tag. */
  function FindAll(e: Element, tag: string): seq<Element> {
    Tagged(e.children, tag)
  }

  /** `e.find(tag)`: the first of `e.findall(tag)`, or `None` when there is
      none (ElementTree's `find` is the first match of `iterfind`). */
  function Find(e: Element, tag: string): Option<Element> {
    var all := FindAll(e, tag);
    if all == [] then None else Some(all[0])
  }

  /** The value stored under attribute `key`, or `None` when there is no
      such attribute or it holds `None` (what `Element.get` would return). */
  function Attr(e: Element, key: string): Option<string> {
    if key in e.attrib then e.attrib[key] else None
  }

  /** `ElementTree.tostring` succeeds exactly when no attribute of the tree
      holds a non-string value. */
  predicate Serializable(e: Element) {
    && (forall k :: k in e.attrib ==> e.attrib[k].Some?)
    && (forall c :: c in e.children ==> Serializable(c))
  }

  /** Filtering by tag distributes over concatenation, so it keeps
      document order. */
  lemma {:induction false} TaggedAppend(a: seq<Element>, b: seq<Element>, tag: string)
    ensures Tagged(a + b, tag) == Tagged(a, tag) + Tagged(b, tag)
  {
    if a == [] {
      assert a + b == b;
    } else {
      var head := if a[0].tag == tag then [a[0]] else [];
      assert (a + b)[0] == a[0];
      assert (a + b)[1..] == a[1..] + b;
      TaggedAppend(a[1..], b, tag);
      calc {
        Tagged(a + b, tag);
        head + Tagged(a[1..] + b, tag);
        head + (Tagged(a[1..], tag) + Tagged(b, tag));
        (head + Tagged(a[1..], tag)) + Tagged(b, tag);
        Tagged(a, tag) + Tagged(b, tag);
      }
    }
  }

  /** `find` returns `None` exactly when no child has the tag, and otherwise
      the first child that has it. */
  lemma {:induction false} FindFirst(e: Element, tag: string)
    ensures Find(e, tag).None? <==> forall i :: 0 <= i < |e.children| ==> e.children[i].tag != tag
    ensures Find(e, tag).Some? ==>
      exists i :: 0 <= i < |e.children| && e.children[i] == Find(e, tag).value && e.children[i].tag == tag
        && forall j :: 0 <= j < i ==> e.children[j].tag != tag
  {
    TaggedFirst(e.children, tag);
  }

  /** The child at `i` is what `find` returns when it is the first with its
      tag. */
  lemma FindAt(e: Element, i: nat, tag: string)
    requires i < |e.children| && e.children[i].tag == tag
    requires forall j :: 0 <= j < i ==> e.children[j].tag != tag
    ensures Find(e, tag) == Some(e.children[i])
  {
    FindFirst(e, tag);
    var k :| 0 <= k < |e.children| && e.children[k] == Find(e, tag).value && e.children[k].tag == tag
      && forall j :: 0 <= j < k ==> e.children[j].tag != tag;
    assert !(k < i) && !(i < k);
  }

  lemma {:induction false} TaggedFirst(cs: seq<Element>, tag: string)
    ensures Tagged(cs, tag) == [] <==> forall i :: 0 <= i < |cs| ==> cs[i].tag != tag
    ensures Tagged(cs, tag) != [] ==>
      exists i :: 0 <= i < |cs| && cs[i] == Tagged(cs, tag)[0] && cs[i].tag == tag
        && forall j :: 0 <= j < i ==> cs[j].tag != tag
  {
    if cs == [] {
    } else if cs[0].tag == tag {
      assert cs[0] == Tagged(cs, tag)[0];
    } else {
      TaggedFirst(cs[1..], tag);
      assert Tagged(cs, tag) == Tagged(cs[1..], tag);
      if Tagged(cs, tag) != [] {
        var i :| 0 <= i < |cs[1..]| && cs[1..][i] == Tagged(cs[1..], tag)[0] && cs[1..][i].tag == tag
          && forall j :: 0 <= j < i ==> cs[1..][j].tag != tag;
        assert cs[i + 1] == Tagged(cs, tag)[0];
        assert forall j :: 0 <= j < i + 1 ==> cs[j].tag != tag by {
          forall j | 0 <= j < i + 1 ensures cs[j].tag != tag {
            if j > 0 { assert cs[j] == cs[1..][j - 1]; }
          }
        }
      }
    }
  }
}
