/** The slice of the browser DOM that the three composables observe: elements as
    the focusability selectors see them, keyboard and mouse events, and the element
    tree that `Node.contains` walks. */
module Dom {

  /** A reference that may be null (`HTMLElement | null`). */
  datatype Option<+T> = None | Some(value: T)

  /** An element as the focus-trap selectors see it. `id` gives it an identity, so that
      two distinct elements with the same attributes are still different values; `tag` is
      the lower-case local name; `href` and `tabindex` are the attribute values when
      present; `disabled` says whether the boolean `disabled` attribute is present. */
  datatype Elem = Elem(id: nat, tag: string, href: Option<string>, disabled: bool, tabindex: Option<string>)

  /** The value of attribute `name` on `e`, None when the attribute is absent. A present
      boolean attribute has the empty string as its value. */
  function Attribute(e: Elem, name: string): Option<string>
  {
    if name == "href" then e.href
    else if name == "tabindex" then e.tabindex
    else if name == "disabled" && e.disabled then Some("")
    else None
  }

  /** A `KeyboardEvent` reduced to what the handlers read. */
  datatype KeyEvent = KeyEvent(key: string, shiftKey: bool)

  /** A node of the document, named by its position in document order. */
  type Node = nat

  /** The document's element tree as a parent map: `t[n]` is the parent of `n`; a node
      without an entry is a root (the document itself, or a detached node). */
  type Tree = map<Node, Node>

  /** In a tree numbered in document order every parent precedes its children. */
  ghost predicate ValidTree(t: Tree)
  {
    forall n :: n in t ==> t[n] < n
  }

  /** A `MouseEvent` of type `click`, reduced to its target; `stamp` distinguishes two
      clicks on the same target. */
  datatype ClickEvent = ClickEvent(target: Node, stamp: nat)

  /** `a.contains(b)`: `b` is `a` itself or a descendant of `a` (inclusive containment).
      The walk climbs from `b` through its ancestors; the guard `t[b] < b` holds in every
      valid tree and makes the climb terminate on any map. An ancestor precedes its
      descendants in document order. */
  predicate Contains(t: Tree, a: Node, b: Node)
    ensures Contains(t, a, b) ==> a <= b
    decreases b
  {
    a == b || (b in t && t[b] < b && Contains(t, a, t[b]))
  }

  /** Containment is transitive: a descendant of a descendant is a descendant. */
  lemma {:induction false} ContainsTransitive(t: Tree, a: Node, b: Node, c: Node)
    requires Contains(t, a, b) && Contains(t, b, c)
    ensures Contains(t, a, c)
  {
    if b != c {
      ContainsTransitive(t, a, b, t[c]);
    }
  }

  /** Containment is antisymmetric, so it is a partial order on nodes. */
  lemma ContainsAntisymmetric(t: Tree, a: Node, b: Node)
    requires Contains(t, a, b) && Contains(t, b, a)
    ensures a == b
  {
  }

  /** Every child of `a`, and so every descendant of a child, is contained in `a`. */
  lemma {:induction false} ContainsChild(t: Tree, a: Node, c: Node, d: Node)
    requires ValidTree(t)
    requires c in t && t[c] == a && Contains(t, c, d)
    ensures Contains(t, a, d)
  {
    assert Contains(t, a, c);
    ContainsTransitive(t, a, c, d);
  }

  /** Two distinct children of the same parent do not contain each other, nor each
      other's descendants. */
  lemma {:induction false} SiblingNotContained(t: Tree, x: Node, y: Node, d: Node)
    requires ValidTree(t)
    requires x in t && y in t && t[x] == t[y] && x != y
    requires Contains(t, y, d)
    ensures !Contains(t, x, d)
  {
    if Contains(t, x, d) {
      ContainsOrdered(t, x, y, d);
      assert false;
    }
  }

  /** Two inclusive ancestors of the same node are ordered by containment. */
  lemma {:induction false} ContainsOrdered(t: Tree, x: Node, y: Node, d: Node)
    requires Contains(t, x, d) && Contains(t, y, d)
    ensures Contains(t, x, y) || Contains(t, y, x)
    decreases d
  {
    if x != d && y != d {
      ContainsOrdered(t, x, y, t[d]);
    }
  }
}
