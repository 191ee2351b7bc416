/**
 * The part of System.Xml.Linq the setup facade queries: an element tree with
 * expanded names, `XElement.Attribute(name)` and `XContainer.Descendants()`
 * in document order.
 */
module Xml {
  import opened Wrappers

  /** An expanded name: `{namespace}localName`; the empty namespace for unqualified names. */
  datatype XName = XName(namespace: string, localName: string)

  datatype XAttribute = XAttribute(name: XName, value: string)

  datatype XElement = XElement(name: XName, attributes: seq<XAttribute>, children: seq<XElement>)

  /** An unqualified name. */
  function Local(localName: string): XName
  {
    XName("", localName)
  }

  /** `XElement.Attribute(name)?.Value`: the value of the element's attribute of that name, or null. */
  function AttributeValue(e: XElement, name: XName): (r: Option<string>)
    ensures r.None? <==> forall a :: a in e.attributes ==> a.name != name
    ensures r.Some? ==> XAttribute(name, r.value) in e.attributes
  {
    FirstValue(e.attributes, name)
  }

  function FirstValue(attributes: seq<XAttribute>, name: XName): (r: Option<string>)
    ensures r.None? <==> forall a :: a in attributes ==> a.name != name
    ensures r.Some? ==> XAttribute(name, r.value) in attributes
  {
    if attributes == [] then None
    else if attributes[0].name == name then
      assert attributes[0] == XAttribute(name, attributes[0].value);
      Some(attributes[0].value)
    else
      var r := FirstValue(attributes[1..], name);
      assert forall a :: a in attributes[1..] ==> a in attributes;
      r
  }

  /** `e.Descendants()`: every element below `e`, in document order (pre-order), `e` excluded. */
  function Descendants(e: XElement): (r: seq<XElement>)
    decreases e, 1
  {
    DescendantsFrom(e, 0)
  }

  /** The descendants contributed by the children of `e` from index `i` on. */
  function DescendantsFrom(e: XElement, i: nat): (r: seq<XElement>)
    requires i <= |e.children|
    decreases e, 0, |e.children| - i
  {
    if i == |e.children| then []
    else [e.children[i]] + Descendants(e.children[i]) + DescendantsFrom(e, i + 1)
  }

  /** The reference definition: `x` lies below `e` when it is one of its children or lies below one. */
  predicate Below(x: XElement, e: XElement)
    decreases e
  {
    exists i :: 0 <= i < |e.children| && (x == e.children[i] || Below(x, e.children[i]))
  }

  /** Descendants lists exactly the elements that lie below `e`. */
  lemma {:induction false} DescendantsAreBelow(e: XElement, x: XElement)
    ensures x in Descendants(e) <==> Below(x, e)
    decreases e, 1
  {
    DescendantsFromAreBelow(e, 0, x);
  }

  lemma {:induction false} DescendantsFromAreBelow(e: XElement, i: nat, x: XElement)
    requires i <= |e.children|
    ensures x in DescendantsFrom(e, i) <==>
      exists j :: i <= j < |e.children| && (x == e.children[j] || Below(x, e.children[j]))
    decreases e, 0, |e.children| - i
  {
    if i < |e.children| {
      DescendantsAreBelow(e.children[i], x);
      DescendantsFromAreBelow(e, i + 1, x);
      var rest := DescendantsFrom(e, i + 1);
      assert DescendantsFrom(e, i) == [e.children[i]] + Descendants(e.children[i]) + rest;
      if x in DescendantsFrom(e, i) && x !in rest {
        assert x == e.children[i] || Below(x, e.children[i]);
      }
      if exists j :: i <= j < |e.children| && (x == e.children[j] || Below(x, e.children[j])) {
        var j :| i <= j < |e.children| && (x == e.children[j] || Below(x, e.children[j]));
        if j > i {
          assert x in rest;
        }
      }
    }
  }

  /** `e.Descendants(name)`: the descendants with that name, in document order. */
  function DescendantsNamed(e: XElement, name: XName): (r: seq<XElement>)
  {
    WithName(Descendants(e), name)
  }

  /** `Where(x => x.Name == name)`: the elements with that name, each as often as in `es`. */
  function WithName(es: seq<XElement>, name: XName): (r: seq<XElement>)
    ensures |r| <= |es|
    ensures forall x :: x in r <==> x in es && x.name == name
  {
    if es == [] then []
    else
      var rest := WithName(es[1..], name);
      assert forall x :: x in es <==> x == es[0] || x in es[1..];
      if es[0].name == name then [es[0]] + rest else rest
  }

  /** The filter keeps every element with the name as often as it occurs, and no other. */
  lemma {:induction false} WithNameCounts(es: seq<XElement>, name: XName)
    ensures forall x :: multiset(WithName(es, name))[x] == if x.name == name then multiset(es)[x] else 0
  {
    if es != [] {
      assert es == [es[0]] + es[1..];
      WithNameCounts(es[1..], name);
    }
  }

  /** The filter works piece by piece, so the elements kept stay in document order. */
  lemma {:induction false} WithNameAppend(a: seq<XElement>, b: seq<XElement>, name: XName)
    ensures WithName(a + b, name) == WithName(a, name) + WithName(b, name)
  {
    if a != [] {
      var head: seq<XElement> := if a[0].name == name then [a[0]] else [];
      assert (a + b)[0] == a[0] && (a + b)[1..] == a[1..] + b;
      assert WithName(a + b, name) == head + WithName(a[1..] + b, name);
      WithNameAppend(a[1..], b, name);
      assert WithName(a, name) == head + WithName(a[1..], name);
      assert head + (WithName(a[1..], name) + WithName(b, name)) == (head + WithName(a[1..], name)) + WithName(b, name);
    } else {
      assert a + b == b;
    }
  }
}
