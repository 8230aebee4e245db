/**
 * The structural fingerprint of a responder's XML: every attribute whose key
 * ends in "id" or equals "size" is removed at every depth, and what is left is
 * hashed.  The serialisation and Python's string hash are not visible to the
 * model, so the hash of a stripped tree is the parameter `hasher`.
 */
module XmlHash {
  import opened XmlTree

  /** The keys `remove_ids` drops: the last two characters are "id", or the key is "size". */
  predicate IsIdLike(key: string)
  {
    (|key| >= 2 && key[|key| - 2..] == "id") || key == "size"
  }

  /** The attributes `remove_ids` leaves, in their original order. */
  function KeptAttrs(attrs: seq<Attr>): seq<Attr>
  {
    if attrs == [] then []
    else
      var last := attrs[|attrs| - 1];
      KeptAttrs(attrs[..|attrs| - 1]) + (if IsIdLike(last.key) then [] else [last])
  }

  /** `remove_ids` deletes exactly the id-like attributes and keeps every other key with its value. */
  lemma {:induction false} KeptAttrsExact(attrs: seq<Attr>)
    ensures forall a :: a in KeptAttrs(attrs) <==> a in attrs && !IsIdLike(a.key)
    ensures |KeptAttrs(attrs)| <= |attrs|
  {
    if attrs != [] {
      var init := attrs[..|attrs| - 1];
      KeptAttrsExact(init);
      assert attrs == init + [attrs[|attrs| - 1]];
    }
  }

  /** Stripping twice is stripping once. */
  lemma {:induction false} KeptAttrsIdempotent(attrs: seq<Attr>)
    ensures KeptAttrs(KeptAttrs(attrs)) == KeptAttrs(attrs)
  {
    if attrs != [] {
      var init := attrs[..|attrs| - 1];
      var last := attrs[|attrs| - 1];
      KeptAttrsIdempotent(init);
      var k := KeptAttrs(init);
      if !IsIdLike(last.key) {
        var kl := k + [last];
        assert kl[..|kl| - 1] == k && kl[|kl| - 1] == last;
        assert KeptAttrs(kl) == KeptAttrs(k) + [last];
      } else {
        assert KeptAttrs(attrs) == k + [];
        assert k + [] == k;
      }
    }
  }

  /**
   * `remove_ids(attribs)`: walks the keys and drops each id-like one.  The
   * attribute dictionary is a value here, so the method returns what is left.
   */
  method RemoveIds(attribs: seq<Attr>) returns (kept: seq<Attr>)
    ensures kept == KeptAttrs(attribs)
  {
    kept := [];
    var i := 0;
    while i < |attribs|
      invariant 0 <= i <= |attribs|
      invariant kept == KeptAttrs(attribs[..i])
    {
      assert attribs[..i + 1][..i] == attribs[..i];
      if !IsIdLike(attribs[i].key) {
        kept := kept + [attribs[i]];
      }
      i := i + 1;
    }
    assert attribs[..i] == attribs;
  }

  /** The tree `remove_xml_ids` leaves: id-like attributes removed at every depth. */
  function StripTree(t: Element): Element
    decreases t
  {
    Element(t.tag, KeptAttrs(t.attrs), t.text,
            seq(|t.children|, i requires 0 <= i < |t.children| => StripTree(t.children[i])),
            t.tail)
  }

  /** No attribute anywhere in the tree is id-like. */
  predicate NoIdAttrs(t: Element)
    decreases t
  {
    (forall a :: a in t.attrs ==> !IsIdLike(a.key)) &&
    forall i :: 0 <= i < |t.children| ==> NoIdAttrs(t.children[i])
  }

  /** After `remove_xml_ids` no id-like attribute is left at any depth. */
  lemma {:induction false} StripTreeRemovesAll(t: Element)
    ensures NoIdAttrs(StripTree(t))
    decreases t
  {
    KeptAttrsExact(t.attrs);
    var s := StripTree(t);
    forall i | 0 <= i < |s.children|
      ensures NoIdAttrs(s.children[i])
    {
      StripTreeRemovesAll(t.children[i]);
    }
  }

  /** Stripping a stripped tree changes nothing. */
  lemma {:induction false} StripTreeIdempotent(t: Element)
    ensures StripTree(StripTree(t)) == StripTree(t)
    decreases t
  {
    KeptAttrsIdempotent(t.attrs);
    var s := StripTree(t);
    var ss := StripTree(s);
    forall i | 0 <= i < |s.children|
      ensures ss.children[i] == s.children[i]
    {
      StripTreeIdempotent(t.children[i]);
    }
    assert ss.children == s.children;
  }

  /**
   * `remove_xml_ids(tree)`: strips the element's own attributes, then recurses
   * into each child in order.  The tree is a value, so the stripped copy is
   * returned (`hash_xml` only ever strips a deep copy).
   */
  method RemoveXmlIds(tree: Element) returns (stripped: Element)
    ensures stripped == StripTree(tree)
    decreases tree
  {
    var attrs := RemoveIds(tree.attrs);
    var children: seq<Element> := [];
    var i := 0;
    while i < |tree.children|
      invariant 0 <= i <= |tree.children|
      invariant |children| == i
      invariant forall k :: 0 <= k < i ==> children[k] == StripTree(tree.children[k])
    {
      var child := RemoveXmlIds(tree.children[i]);
      children := children + [child];
      i := i + 1;
    }
    stripped := Element(tree.tag, attrs, tree.text, children, tree.tail);
  }

  /** `hash_xml(tree)`: the hash of the stripped copy. */
  function HashXml(hasher: Element -> int, tree: Element): int
  {
    hasher(StripTree(tree))
  }

  /**
   * Two trees that differ only in id-like attributes: same tag, text and tail,
   * the same other attributes in the same order, and children pairwise alike.
   */
  predicate OnlyIdsDiffer(a: Element, b: Element)
    decreases a
  {
    a.tag == b.tag && a.text == b.text && a.tail == b.tail &&
    KeptAttrs(a.attrs) == KeptAttrs(b.attrs) &&
    |a.children| == |b.children| &&
    forall i :: 0 <= i < |a.children| ==> OnlyIdsDiffer(a.children[i], b.children[i])
  }

  /** Trees differing only in id-like attributes, at any depth, hash alike, whatever the hash. */
  lemma {:induction false} HashIgnoresIds(hasher: Element -> int, a: Element, b: Element)
    requires OnlyIdsDiffer(a, b)
    ensures HashXml(hasher, a) == HashXml(hasher, b)
  {
    StripIgnoresIds(a, b);
  }

  lemma {:induction false} StripIgnoresIds(a: Element, b: Element)
    requires OnlyIdsDiffer(a, b)
    ensures StripTree(a) == StripTree(b)
    decreases a
  {
    forall i | 0 <= i < |a.children|
      ensures StripTree(a.children[i]) == StripTree(b.children[i])
    {
      StripIgnoresIds(a.children[i], b.children[i]);
    }
  }

  /** `<root root_id="3"><child id="234"/></root>` hashes as `<root><child/></root>`. */
  lemma HashExample(hasher: Element -> int)
    ensures HashXml(hasher, Bare("root", [Attr("root_id", "3")], [Bare("child", [Attr("id", "234")], [])]))
         == HashXml(hasher, Bare("root", [], [Bare("child", [], [])]))
  {
    var child := Bare("child", [Attr("id", "234")], []);
    assert KeptAttrs([Attr("id", "234")]) == [] by {
      assert IsIdLike("id");
      assert [Attr("id", "234")][..0] == [];
    }
    assert KeptAttrs([Attr("root_id", "3")]) == [] by {
      assert "root_id"[5..] == "id";
      assert [Attr("root_id", "3")][..0] == [];
    }
    assert OnlyIdsDiffer(child, Bare("child", [], []));
    HashIgnoresIds(hasher, Bare("root", [Attr("root_id", "3")], [child]), Bare("root", [], [Bare("child", [], [])]));
  }
}
