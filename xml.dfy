/** A parsed XML document as ElementTree presents it, and the parts of ElementTree's path
    language the scripts use: './/' searches, child steps, '*' and the [tag='text'] predicate.
    Every search lists its results in document order, as ElementTree's findall does; find is
    the first of them. */
module Xml {
  import opened Wrappers

  /** One element: namespace URI ("" for none), local name, text, and child elements. */
  datatype Element = Element(ns: string, local: string, text: Option<string>, children: seq<Element>)

  /** Element.iter(): the element itself followed by everything below it, in document order. */
  function Iter(e: Element): (r: seq<Element>)
    ensures |r| >= 1 && r[0] == e
    decreases e, 1
  {
    [e] + IterAll(e.children)
  }

  function IterAll(es: seq<Element>): seq<Element>
    decreases es, 0
  {
    if es == [] then [] else Iter(es[0]) + IterAll(es[1..])
  }

  /** Everything strictly below root, in document order: what a path starting with './/' searches. */
  function Descendants(root: Element): seq<Element>
  {
    IterAll(root.children)
  }

  predicate HasTag(e: Element, ns: string, local: string)
  {
    e.ns == ns && e.local == local
  }

  /** The elements of es that carry the given tag, in order. */
  function Named(es: seq<Element>, ns: string, local: string): seq<Element>
  {
    if es == [] then []
    else (if HasTag(es[0], ns, local) then [es[0]] else []) + Named(es[1..], ns, local)
  }

  /** The children of each element of es, in order: a '*' step. */
  function Children(es: seq<Element>): seq<Element>
  {
    if es == [] then [] else es[0].children + Children(es[1..])
  }

  /** A child step with a tag. */
  function ChildrenNamed(es: seq<Element>, ns: string, local: string): seq<Element>
  {
    Named(Children(es), ns, local)
  }

  /** "".join(e.itertext()): the text of e and of everything below it (tails are not modelled). */
  function TextContent(e: Element): string
    decreases e, 1
  {
    (if e.text.Some? then e.text.value else "") + TextsOf(e.children)
  }

  function TextsOf(es: seq<Element>): string
    decreases es, 0
  {
    if es == [] then "" else TextContent(es[0]) + TextsOf(es[1..])
  }

  /** The predicate [tag='text']: some child with that tag has exactly that text content. */
  predicate HasChildText(e: Element, ns: string, local: string, text: string)
  {
    exists c :: c in e.children && HasTag(c, ns, local) && TextContent(c) == text
  }

  /** The elements of es that satisfy [tag='text'], in order. */
  function WithChildText(es: seq<Element>, ns: string, local: string, text: string): seq<Element>
  {
    if es == [] then []
    else (if HasChildText(es[0], ns, local, text) then [es[0]] else []) + WithChildText(es[1..], ns, local, text)
  }

  lemma {:induction false} NamedMembers(es: seq<Element>, ns: string, local: string, x: Element)
    ensures x in Named(es, ns, local) <==> x in es && HasTag(x, ns, local)
  {
    if es != [] {
      NamedMembers(es[1..], ns, local, x);
    }
  }

  lemma {:induction false} ChildrenMembers(es: seq<Element>, x: Element)
    ensures x in Children(es) <==> exists e :: e in es && x in e.children
  {
    if es != [] {
      ChildrenMembers(es[1..], x);
      assert forall e :: e in es <==> e == es[0] || e in es[1..];
    }
  }

  lemma {:induction false} WithChildTextMembers(es: seq<Element>, ns: string, local: string, text: string, x: Element)
    ensures x in WithChildText(es, ns, local, text) <==> x in es && HasChildText(x, ns, local, text)
  {
    if es != [] {
      WithChildTextMembers(es[1..], ns, local, text, x);
    }
  }

  /** A child of an element below root is itself below root. */
  lemma {:induction false} ChildOfDescendant(root: Element, x: Element, c: Element)
    requires x in Descendants(root) && c in x.children
    ensures c in Descendants(root)
  {
    ChildInIterAll(root.children, x, c);
  }

  lemma {:induction false} ChildInIterAll(es: seq<Element>, x: Element, c: Element)
    requires x in IterAll(es) && c in x.children
    ensures c in IterAll(es)
    decreases es, 0
  {
    if es != [] {
      if x in Iter(es[0]) {
        ChildInIter(es[0], x, c);
      } else {
        ChildInIterAll(es[1..], x, c);
      }
    }
  }

  lemma {:induction false} ChildInIter(e: Element, x: Element, c: Element)
    requires x in Iter(e) && c in x.children
    ensures c in Iter(e)
    decreases e, 1
  {
    if x == e {
      ElementInIterAll(e.children, c);
    } else {
      ChildInIterAll(e.children, x, c);
    }
  }

  lemma {:induction false} ElementInIterAll(es: seq<Element>, c: Element)
    requires c in es
    ensures c in IterAll(es)
  {
    if es[0] != c {
      ElementInIterAll(es[1..], c);
    }
  }
}
