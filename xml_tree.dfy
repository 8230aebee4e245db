/**
 * An lxml element as a value: tag, attributes in document order, text,
 * children in document order and tail text.  Also the few Python string
 * helpers both modelled source files use.
 */
module XmlTree {
  import opened Wrappers

  datatype Attr = Attr(key: string, value: string)

  datatype Element = Element(tag: string, attrs: seq<Attr>, text: string, children: seq<Element>, tail: string)

  /** An element with attributes and children but no text, as `etree.Element` builds it. */
  function Bare(tag: string, attrs: seq<Attr>, children: seq<Element>): Element
  {
    Element(tag, attrs, "", children, "")
  }

  /** `element.get(key)`: the value of the attribute named `key`, or None. */
  function Get(attrs: seq<Attr>, key: string): (r: Option<string>)
    ensures r.None? <==> forall i :: 0 <= i < |attrs| ==> attrs[i].key != key
    ensures r.Some? ==> exists i :: 0 <= i < |attrs| && attrs[i] == Attr(key, r.value)
  {
    if attrs == [] then None
    else if attrs[0].key == key then Some(attrs[0].value)
    else
      var r := Get(attrs[1..], key);
      assert forall i :: 1 <= i < |attrs| ==> attrs[i] == attrs[1..][i - 1];
      r
  }

  /** `element.findall(tag)`: the direct children with that tag, in document order (`FindAllAppend`). */
  function FindAll(children: seq<Element>, tag: string): (r: seq<Element>)
    ensures forall e :: e in r <==> e in children && e.tag == tag
    ensures |r| <= |children|
  {
    if children == [] then []
    else (if children[0].tag == tag then [children[0]] else []) + FindAll(children[1..], tag)
  }

  /** `findall` over two runs of children is `findall` over each. */
  lemma {:induction false} FindAllAppend(a: seq<Element>, b: seq<Element>, tag: string)
    ensures FindAll(a + b, tag) == FindAll(a, tag) + FindAll(b, tag)
  {
    if a != [] {
      var head := if a[0].tag == tag then [a[0]] else [];
      assert FindAll(a + b, tag) == head + FindAll(a[1..] + b, tag) by {
        assert a + b == [a[0]] + (a[1..] + b);
        FindAllCons(a[0], a[1..] + b, tag);
      }
      assert FindAll(a, tag) == head + FindAll(a[1..], tag) by {
        assert a == [a[0]] + a[1..];
        FindAllCons(a[0], a[1..], tag);
      }
      FindAllAppend(a[1..], b, tag);
      ConcatAssoc(head, FindAll(a[1..], tag), FindAll(b, tag));
    } else {
      assert a + b == b;
    }
  }

  /** `findall` on a list with a first element. */
  lemma FindAllCons(x: Element, rest: seq<Element>, tag: string)
    ensures FindAll([x] + rest, tag) == (if x.tag == tag then [x] else []) + FindAll(rest, tag)
  {
    assert ([x] + rest)[0] == x && ([x] + rest)[1..] == rest;
  }

  /** Concatenation of element lists is associative. */
  lemma ConcatAssoc(x: seq<Element>, y: seq<Element>, z: seq<Element>)
    ensures x + (y + z) == (x + y) + z
  {
  }

  /** `element.find(tag)`: the first direct child with that tag, or None. */
  function Find(children: seq<Element>, tag: string): (r: Option<Element>)
    ensures r.None? <==> FindAll(children, tag) == []
    ensures r.Some? ==> r.value == FindAll(children, tag)[0]
  {
    if children == [] then None
    else if children[0].tag == tag then Some(children[0])
    else Find(children[1..], tag)
  }

  /** Python's `sep.join(pieces)`. */
  function Join(pieces: seq<string>, sep: char): string
  {
    if |pieces| == 0 then ""
    else if |pieces| == 1 then pieces[0]
    else pieces[0] + [sep] + Join(pieces[1..], sep)
  }

  /**
   * Python's `s.split(sep)` for a one-character separator: at least one
   * piece, no piece holds the separator, and joining the pieces gives `s` back.
   */
  function Split(s: string, sep: char): (r: seq<string>)
    ensures |r| >= 1
    ensures forall i :: 0 <= i < |r| ==> sep !in r[i]
    ensures Join(r, sep) == s
  {
    if s == [] then [""]
    else
      var rest := Split(s[1..], sep);
      if s[0] == sep then [""] + rest
      else [[s[0]] + rest[0]] + rest[1..]
  }

  /** Splitting text that starts with a separator-free piece peels that piece off. */
  lemma {:induction false} SplitAfterPiece(p: string, sep: char, rest: string)
    requires sep !in p
    ensures Split(p + [sep] + rest, sep) == [p] + Split(rest, sep)
  {
    if p == [] {
      assert p + [sep] + rest == [sep] + rest;
    } else {
      assert (p + [sep] + rest)[1..] == p[1..] + [sep] + rest;
      SplitAfterPiece(p[1..], sep, rest);
      assert [p[0]] + p[1..] == p;
    }
  }

  /** A separator-free string splits to itself. */
  lemma {:induction false} SplitNoSep(p: string, sep: char)
    requires sep !in p
    ensures Split(p, sep) == [p]
  {
    if p != [] {
      SplitNoSep(p[1..], sep);
      assert [p[0]] + p[1..] == p;
    }
  }

  /** Joining separator-free pieces and splitting again gives the pieces back. */
  lemma {:induction false} SplitJoin(pieces: seq<string>, sep: char)
    requires |pieces| >= 1
    requires forall i :: 0 <= i < |pieces| ==> sep !in pieces[i]
    ensures Split(Join(pieces, sep), sep) == pieces
  {
    if |pieces| == 1 {
      SplitNoSep(pieces[0], sep);
    } else {
      SplitJoin(pieces[1..], sep);
      SplitAfterPiece(pieces[0], sep, Join(pieces[1..], sep));
      assert [pieces[0]] + pieces[1..] == pieces;
    }
  }

  /** Every character of `s` is a decimal digit. */
  predicate AllDigits(s: string)
  {
    forall i :: 0 <= i < |s| ==> '0' <= s[i] <= '9'
  }

  /** The value of a string of decimal digits (0 for the empty string). */
  function DigitsValue(s: string): nat
    requires AllDigits(s)
  {
    if s == [] then 0 else DigitsValue(s[..|s| - 1]) * 10 + (s[|s| - 1] - '0') as nat
  }

  /** The value of one or two decimal digits. */
  lemma DigitsValueSmall(d: string)
    requires 1 <= |d| <= 2 && AllDigits(d)
    ensures DigitsValue(d) == if |d| == 1 then (d[0] - '0') as nat else (d[0] - '0') as nat * 10 + (d[1] - '0') as nat
  {
    assert d[..|d| - 1][..0] == [];
    if |d| == 2 {
      assert DigitsValue(d[..1]) == (d[0] - '0') as nat;
    }
  }

  /** Python's `str(n)` for a natural number. */
  function NatToString(n: nat): (r: string)
    ensures |r| >= 1 && AllDigits(r) && DigitsValue(r) == n
    ensures n < 10 ==> |r| == 1
    ensures 10 <= n < 100 ==> |r| == 2
  {
    if n < 10 then [('0' as int + n) as char]
    else
      var r := NatToString(n / 10) + [('0' as int + n % 10) as char];
      assert r[..|r| - 1] == NatToString(n / 10);
      r
  }
}
