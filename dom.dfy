/**
 * A value model of the rendered document the editor works on. An element
 * carries its node name, its `data-type` attribute, the length of its
 * `innerText` as the browser reports it, and its child nodes. A node is
 * addressed by its path: the `childNodes` indexes followed from the editor's
 * target element. A DOM Range endpoint is a (container path, offset) pair.
 */
module Dom {
  import opened Wrappers

  datatype Node = Text(value: string) | Elem(element: Element)

  datatype Element = Element(nodeName: string, dataType: Option<string>, innerTextLength: nat, childNodes: seq<Node>)

  type NodePath = seq<nat>

  /** A boundary point of a DOM Range: a container node and an offset in it. */
  datatype Boundary = Boundary(container: NodePath, offset: int)

  /** A DOM Range, from its start boundary to its end boundary. */
  datatype DomRange = DomRange(start: Boundary, end: Boundary)

  /** A selection as the editor reports it: flat character offsets `{start, end}`. */
  datatype Selection = Selection(start: int, end: int)

  /** One entry of `element.children`: the child element and its index among `childNodes`. */
  datatype ElementChild = ElementChild(slot: nat, element: Element)

  /** `element.children`: the element nodes among `nodes`, in document order. */
  function ElementChildrenOf(nodes: seq<Node>): (r: seq<ElementChild>)
    ensures |r| <= |nodes|
    ensures forall j | 0 <= j < |r| :: r[j].slot < |nodes| && nodes[r[j].slot] == Elem(r[j].element)
    ensures forall j, j' | 0 <= j < j' < |r| :: r[j].slot < r[j'].slot
  {
    if nodes == [] then []
    else
      var r := ElementChildrenOf(nodes[..|nodes| - 1]);
      var last := nodes[|nodes| - 1];
      if last.Elem? then r + [ElementChild(|nodes| - 1, last.element)] else r
  }

  /** Every element node among `nodes` is listed by `ElementChildrenOf`. */
  lemma {:induction false} ElementChildrenComplete(nodes: seq<Node>, i: nat)
    requires i < |nodes| && nodes[i].Elem?
    ensures exists j | 0 <= j < |ElementChildrenOf(nodes)| :: ElementChildrenOf(nodes)[j] == ElementChild(i, nodes[i].element)
  {
    var r := ElementChildrenOf(nodes[..|nodes| - 1]);
    if i == |nodes| - 1 {
      assert ElementChildrenOf(nodes)[|r|] == ElementChild(i, nodes[i].element);
    } else {
      assert nodes[..|nodes| - 1][i] == nodes[i];
      ElementChildrenComplete(nodes[..|nodes| - 1], i);
      var j :| 0 <= j < |r| && r[j] == ElementChild(i, nodes[i].element);
      assert ElementChildrenOf(nodes)[j] == r[j];
    }
  }

  function ElementChildren(e: Element): seq<ElementChild> {
    ElementChildrenOf(e.childNodes)
  }

  /** The node at `path` below `root`, if the path leads to one. */
  function NodeAt(root: Element, path: NodePath): Option<Node>
    decreases |path|
  {
    if path == [] then Some(Elem(root))
    else if path[0] >= |root.childNodes| then None
    else
      match root.childNodes[path[0]]
      case Text(v) => if |path| == 1 then Some(Text(v)) else None
      case Elem(e) => NodeAt(e, path[1..])
  }

  /** Following one more index from an element reaches that element's child node. */
  lemma {:induction false} NodeAtChild(root: Element, path: NodePath, e: Element, i: nat)
    requires NodeAt(root, path) == Some(Elem(e))
    requires i < |e.childNodes|
    ensures NodeAt(root, path + [i]) == Some(e.childNodes[i])
    decreases |path|
  {
    if path != [] {
      assert (path + [i])[0] == path[0];
      assert (path + [i])[1..] == path[1..] + [i];
      match root.childNodes[path[0]]
      case Text(v) =>
      case Elem(c) => NodeAtChild(c, path[1..], e, i);
    }
  }

  /** An element found one index below `path` is a child node of the element at `path`. */
  lemma {:induction false} NodeAtParent(root: Element, path: NodePath, i: nat, e: Element)
    requires NodeAt(root, path + [i]) == Some(Elem(e))
    ensures NodeAt(root, path).Some? && NodeAt(root, path).value.Elem?
    ensures i < |NodeAt(root, path).value.element.childNodes|
    ensures NodeAt(root, path).value.element.childNodes[i] == Elem(e)
    decreases |path|
  {
    if path != [] {
      assert (path + [i])[0] == path[0];
      assert (path + [i])[1..] == path[1..] + [i];
      match root.childNodes[path[0]]
      case Text(v) =>
      case Elem(c) => NodeAtParent(c, path[1..], i, e);
    }
  }

  /** Number of elements in the subtree of `e`, itself included. */
  function Size(e: Element): nat
    decreases e, 1
  {
    1 + SizeOfPrefix(e, |e.childNodes|)
  }

  /** Number of elements in the subtrees of the first `n` child nodes of `e`. */
  function SizeOfPrefix(e: Element, n: nat): nat
    requires n <= |e.childNodes|
    decreases e, 0, n
  {
    if n == 0 then 0
    else SizeOfPrefix(e, n - 1) + (match e.childNodes[n - 1] case Text(_) => 0 case Elem(c) => Size(c))
  }

  /** Total size of a list of element children. */
  function SizeOfChildren(ec: seq<ElementChild>): nat {
    if ec == [] then 0 else SizeOfChildren(ec[..|ec| - 1]) + Size(ec[|ec| - 1].element)
  }

  lemma SizeOfChildrenSnoc(ec: seq<ElementChild>, x: ElementChild)
    ensures SizeOfChildren(ec + [x]) == SizeOfChildren(ec) + Size(x.element)
  {
    assert (ec + [x])[..|ec|] == ec;
  }

  /** The element children of the first `n` child nodes account for their whole subtrees. */
  lemma {:induction false} SizeOfElementChildren(e: Element, n: nat)
    requires n <= |e.childNodes|
    ensures SizeOfChildren(ElementChildrenOf(e.childNodes[..n])) == SizeOfPrefix(e, n)
  {
    if n > 0 {
      SizeOfElementChildren(e, n - 1);
      var nodes := e.childNodes[..n];
      assert nodes[..n - 1] == e.childNodes[..n - 1];
      var r := ElementChildrenOf(nodes[..n - 1]);
      match nodes[n - 1]
      case Text(_) =>
        assert ElementChildrenOf(nodes) == r;
      case Elem(c) =>
        assert ElementChildrenOf(nodes) == r + [ElementChild(n - 1, c)];
        SizeOfChildrenSnoc(r, ElementChild(n - 1, c));
    }
  }

  /** An element's children account for all of its subtree but itself. */
  lemma ElementChildrenSize(e: Element)
    ensures SizeOfChildren(ElementChildren(e)) == Size(e) - 1
  {
    SizeOfElementChildren(e, |e.childNodes|);
    assert e.childNodes[..|e.childNodes|] == e.childNodes;
  }
}
