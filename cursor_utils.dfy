/**
 * The cursor adapter of the editor (src/web/cursorUtils.ts): placing the
 * DOM selection at flat-text offsets through the render tree, and reading
 * the flat offsets of the current DOM selection back.
 *
 * The document below the editor's target element is a `Dom.Element`;
 * a selection range is a pair of boundary points whose containers are
 * paths from the target. Scrolling the cursor into view is not modelled.
 */
module CursorUtils {
  import opened Wrappers
  import opened TextUtils
  import opened Dom
  import opened TreeUtils

  /** What `setCursorPosition` does: nothing, throw, or select `range`. */
  datatype Outcome = Unchanged | Threw | Selected(range: DomRange)

  /** JavaScript truthiness of the optional `end` argument (`null` and `0` are falsy). */
  predicate Truthy(end: Option<int>) {
    end.Some? && end.value != 0
  }

  /** `end || start`. */
  function EndOrStart(start: int, end: Option<int>): (r: int)
    ensures Truthy(end) ==> r == end.value
    ensures !Truthy(end) ==> r == start
  {
    if Truthy(end) then end.value else start
  }

  /** The DOM length of a node: a text node's characters, an element's child nodes. */
  function NodeLength(n: Node): nat {
    match n
    case Text(v) => |v|
    case Elem(e) => |e.childNodes|
  }

  /** The tree item the end of the selection is taken from: looked up anew only when a truthy `end` lies outside the start item. */
  function EndItem(items: seq<TreeItem>, startItem: Option<nat>, end: Option<int>): (r: Option<nat>)
    requires |items| >= 1
    requires startItem.Some? ==> startItem.value < |items|
    ensures startItem.None? ==> r.None?
    ensures r.Some? ==> r.value < |items|
    ensures startItem.Some? && !Truthy(end) ==> r == startItem
    ensures startItem.Some? && Truthy(end) && items[startItem.value].start <= end.value < End(items[startItem.value]) ==> r == startItem
  {
    if Truthy(end) && startItem.Some? &&
       (end.value < items[startItem.value].start || end.value >= End(items[startItem.value]))
    then ElementByIndex(items, end.value)
    else startItem
  }

  /**
   * The boundary point `setStart`/`setEnd` (or `setStartBefore`/`setEndBefore`
   * for a `br`) is given for flat offset `offset` in item `k`: just before a
   * `br` element, else `offset - start` into the element's first child node.
   * `None` when the DOM call throws: the item is the target itself (no parent
   * to place a boundary in), the element has no child node, or the offset
   * is outside the child node (`IndexSizeError`).
   */
  function BoundaryFor(items: seq<TreeItem>, k: nat, offset: int): (r: Option<Boundary>)
    requires k < |items|
    ensures r.Some? && items[k].elementType == "br" ==>
              items[k].path != [] && r.value == Boundary(items[k].path[..|items[k].path| - 1], items[k].path[|items[k].path| - 1])
    ensures r.Some? && items[k].elementType != "br" ==>
              r.value == Boundary(items[k].path + [0], offset - items[k].start)
    ensures r.Some? && items[k].elementType != "br" ==>
              |items[k].element.childNodes| > 0 && 0 <= r.value.offset <= NodeLength(items[k].element.childNodes[0])
  {
    var item := items[k];
    if item.elementType == "br" then
      if item.path == [] then None
      else Some(Boundary(item.path[..|item.path| - 1], item.path[|item.path| - 1]))
    else if |item.element.childNodes| == 0 then None
    else
      var o := offset - item.start;
      if o < 0 || o > NodeLength(item.element.childNodes[0]) then None
      else Some(Boundary(item.path + [0], o))
  }

  /**
   * Boundary point `a` comes before boundary point `b` in tree order (the
   * DOM Standard's position of a boundary point, for containers given as
   * paths from a common root).
   */
  predicate BoundaryBefore(a: Boundary, b: Boundary)
    decreases |a.container|
  {
    if a.container == b.container then a.offset < b.offset
    else if a.container == [] then a.offset <= b.container[0]
    else if b.container == [] then a.container[0] < b.offset
    else if a.container[0] != b.container[0] then a.container[0] < b.container[0]
    else BoundaryBefore(Boundary(a.container[1..], a.offset), Boundary(b.container[1..], b.offset))
  }

  /**
   * `setCursorPosition(target, start, end)` for the render tree `items`.
   * Nothing happens unless the target is focused, `start` is not negative
   * and a truthy `end` is not negative. Both items must be found. A falsy
   * `end` collapses the range to its start; an end boundary before the
   * start boundary moves the start there too, as `Range.setEnd` does.
   */
  function CursorRange(items: seq<TreeItem>, isFocused: bool, start: int, end: Option<int>): (o: Outcome)
    requires |items| >= 1
    ensures o == Unchanged <==> !isFocused || start < 0 || (Truthy(end) && end.value < 0)
    ensures o.Selected? ==> ElementByIndex(items, start).Some? && EndItem(items, ElementByIndex(items, start), end).Some?
    ensures o.Selected? && !Truthy(end) ==> o.range.start == o.range.end
    ensures o.Selected? ==> !BoundaryBefore(o.range.end, o.range.start)
  {
    if !isFocused || start < 0 || (Truthy(end) && end.value < 0) then Unchanged
    else
      var startItem := ElementByIndex(items, start);
      var endItem := EndItem(items, startItem, end);
      if startItem.None? || endItem.None? then Threw
      else
        var startBoundary := BoundaryFor(items, startItem.value, start);
        var endBoundary := BoundaryFor(items, endItem.value, EndOrStart(start, end));
        if startBoundary.None? || endBoundary.None? then Threw
        else if !Truthy(end) then Selected(DomRange(startBoundary.value, startBoundary.value))
        else if BoundaryBefore(endBoundary.value, startBoundary.value) then Selected(DomRange(endBoundary.value, endBoundary.value))
        else Selected(DomRange(startBoundary.value, endBoundary.value))
  }

  /** `setCursorPosition`: where the DOM selection is placed, through the tree's own `getElementByIndex`. */
  method SetCursorPosition(tree: RenderTree, isFocused: bool, start: int, end: Option<int>) returns (o: Outcome)
    requires tree.Valid()
    ensures o == CursorRange(tree.items, isFocused, start, end)
  {
    if !isFocused || start < 0 || (Truthy(end) && end.value < 0) {
      return Unchanged;
    }
    var startItem := tree.GetElementByIndex(start);
    var endItem := startItem;
    if Truthy(end) && startItem.Some? {
      var item := tree.items[startItem.value];
      if end.value < item.start || end.value >= item.start + item.length {
        endItem := tree.GetElementByIndex(end.value);
      }
    }
    if startItem.None? || endItem.None? {
      return Threw;
    }
    var startBoundary := BoundaryFor(tree.items, startItem.value, start);
    var endBoundary := BoundaryFor(tree.items, endItem.value, EndOrStart(start, end));
    if startBoundary.None? || endBoundary.None? {
      return Threw;
    }
    var range := DomRange(startBoundary.value, endBoundary.value);
    if BoundaryBefore(range.end, range.start) {
      range := DomRange(range.end, range.end);
    }
    if !Truthy(end) {
      range := DomRange(range.start, range.start);
    }
    o := Selected(range);
  }

  // ----- getCurrentCursorPosition -----

  /** `getHTMLElement`: a text node stands for its parent element. */
  function HtmlElementOf(root: Element, container: NodePath): (p: NodePath)
    ensures container != [] && NodeAt(root, container).Some? && NodeAt(root, container).value.Text? ==>
              p == container[..|container| - 1]
    ensures (container == [] || NodeAt(root, container).None? || NodeAt(root, container).value.Elem?) ==> p == container
  {
    if container != [] && NodeAt(root, container).Some? && NodeAt(root, container).value.Text?
    then container[..|container| - 1]
    else container
  }

  /** The `data-id` attribute of the element at `path`, if it has one. */
  function DataIdAt(dataIds: map<NodePath, string>, path: NodePath): Option<string> {
    if path in dataIds then Some(dataIds[path]) else None
  }

  /** The tree item of a boundary point's element. */
  function ItemOf(root: Element, items: seq<TreeItem>, dataIds: map<NodePath, string>, b: Boundary): Lookup
    requires |items| >= 1
  {
    FindInTree(items, DataIdAt(dataIds, HtmlElementOf(root, b.container)))
  }

  /** The flat offset of a boundary point in item `k`: its start, plus the offset unless `k` is a `br`. */
  function OffsetIn(items: seq<TreeItem>, k: nat, b: Boundary): int
    requires k < |items|
  {
    items[k].start + (if items[k].elementType == "br" then 0 else b.offset)
  }

  /**
   * `getCurrentCursorPosition`: `null` without a selection range, `-1`s
   * when either end's element has no tree item, else the flat offsets.
   */
  function GetCurrentCursorPosition(root: Element, items: seq<TreeItem>, dataIds: map<NodePath, string>,
                                    range: Option<DomRange>): (r: Option<Selection>)
    requires |items| >= 1
    ensures r.None? <==> range.None?
    ensures r.Some? && !(ItemOf(root, items, dataIds, range.value.start).Found? && ItemOf(root, items, dataIds, range.value.end).Found?) ==>
              r.value == Selection(-1, -1)
    ensures r.Some? && ItemOf(root, items, dataIds, range.value.start).Found? && ItemOf(root, items, dataIds, range.value.end).Found? ==>
              r.value == Selection(OffsetIn(items, ItemOf(root, items, dataIds, range.value.start).index, range.value.start),
                                   OffsetIn(items, ItemOf(root, items, dataIds, range.value.end).index, range.value.end))
  {
    match range
    case None => None
    case Some(rg) =>
      var startItem := ItemOf(root, items, dataIds, rg.start);
      var endItem := ItemOf(root, items, dataIds, rg.end);
      if startItem.Found? && endItem.Found? then
        Some(Selection(OffsetIn(items, startItem.index, rg.start), OffsetIn(items, endItem.index, rg.end)))
      else Some(Selection(-1, -1))
  }

  // ----- round trip -----

  /** The render tree as `buildTree` leaves it for the document under `root`, with its `data-id`s. */
  ghost predicate Indexed(items: seq<TreeItem>, slots: seq<nat>, root: Element, text: string, dataIds: map<NodePath, string>) {
    && IndexesDocument(items, slots, root, text)
    && (forall k | 0 < k < |items| :: items[k].path in dataIds && dataIds[items[k].path] == items[k].orderIndex)
  }

  /**
   * The boundary `setCursorPosition` places for offset `x` in a leaf item
   * that is not a `br` reads back as `x`.
   */
  lemma TextBoundaryRoundTrip(items: seq<TreeItem>, slots: seq<nat>, root: Element, text: string,
                              dataIds: map<NodePath, string>, k: nat, x: int)
    requires Indexed(items, slots, root, text, dataIds)
    requires 0 < k < |items| && items[k].children == [] && items[k].elementType != "br"
    requires BoundaryFor(items, k, x).Some?
    ensures ItemOf(root, items, dataIds, BoundaryFor(items, k, x).value) == Found(k)
    ensures OffsetIn(items, k, BoundaryFor(items, k, x).value) == x
  {
    var item := items[k];
    var b := BoundaryFor(items, k, x).value;
    assert InDocument(items, root, k) && Expanded(items, k);
    NodeAtChild(root, item.path, item.element, 0);
    if item.element.childNodes[0].Elem? {
      ElementChildrenComplete(item.element.childNodes, 0);
      assert false;
    }
    assert NodeAt(root, b.container) == Some(item.element.childNodes[0]);
    assert b.container[..|b.container| - 1] == item.path;
    FindOrderIndex(items, slots, k);
  }

  /**
   * A cursor placed by `setCursorPosition` in text items reads back as the
   * offsets it was placed at: `start` alone when `end` is falsy; else
   * `start` and `end` when the end boundary is not before the start
   * boundary, and `end` twice when it is (`setEnd` then collapses the range
   * onto its end).
   */
  lemma {:induction false} CursorRoundTrip(items: seq<TreeItem>, slots: seq<nat>, root: Element, text: string,
                                           dataIds: map<NodePath, string>, isFocused: bool, start: int, end: Option<int>)
    requires Indexed(items, slots, root, text, dataIds)
    requires CursorRange(items, isFocused, start, end).Selected?
    requires items[ElementByIndex(items, start).value].elementType != "br"
    requires items[EndItem(items, ElementByIndex(items, start), end).value].elementType != "br"
    ensures var r := GetCurrentCursorPosition(root, items, dataIds, Some(CursorRange(items, isFocused, start, end).range));
            && (!Truthy(end) ==> r == Some(Selection(start, start)))
            && (Truthy(end) ==>
                  var sb := BoundaryFor(items, ElementByIndex(items, start).value, start).value;
                  var eb := BoundaryFor(items, EndItem(items, ElementByIndex(items, start), end).value, end.value).value;
                  && (!BoundaryBefore(eb, sb) ==> r == Some(Selection(start, end.value)))
                  && (BoundaryBefore(eb, sb) ==> r == Some(Selection(end.value, end.value))))
  {
    var s := ElementByIndex(items, start).value;
    var e := EndItem(items, ElementByIndex(items, start), end).value;
    LeafFound(items, slots, start);
    TextBoundaryRoundTrip(items, slots, root, text, dataIds, s, start);
    if Truthy(end) {
      if e != s {
        LeafFound(items, slots, end.value);
      }
      TextBoundaryRoundTrip(items, slots, root, text, dataIds, e, end.value);
    }
  }

  /**
   * A boundary placed before a `br` reads back through the enclosing line:
   * its start plus the `br`'s position among the line's child nodes, which
   * is the `br`'s own start when it is the line's first child node.
   */
  lemma BrBoundaryReadsBack(items: seq<TreeItem>, slots: seq<nat>, root: Element, text: string,
                            dataIds: map<NodePath, string>, k: nat, x: int)
    requires Indexed(items, slots, root, text, dataIds)
    requires 0 < k < |items| && items[k].elementType == "br" && BoundaryFor(items, k, x).Some?
    requires items[k].parent.Some? && 0 < items[k].parent.value < |items|
    requires items[items[k].parent.value].elementType != "br"
    ensures var b := BoundaryFor(items, k, x).value;
            && ItemOf(root, items, dataIds, b) == Found(items[k].parent.value)
            && OffsetIn(items, items[k].parent.value, b) == items[items[k].parent.value].start + b.offset
            && (b.offset == 0 ==> OffsetIn(items, items[k].parent.value, b) == items[k].start)
  {
    var p := items[k].parent.value;
    var b := BoundaryFor(items, k, x).value;
    assert ParentLink(items, slots, k) && ParentOk(items, slots, k);
    var ec := ElementChildren(items[p].element);
    assert items[k].path == items[p].path + [ec[slots[k]].slot];
    assert b.container == items[p].path;
    assert InDocument(items, root, p);
    FindOrderIndex(items, slots, p);
    if b.offset == 0 {
      SlotsAtLeastPositions(items[p].element.childNodes, slots[k]);
      assert ChildOk(items, slots, p, slots[k]);
    }
  }

  /** The `j`-th element child sits at child-node index `j` or later. */
  lemma {:induction false} SlotsAtLeastPositions(nodes: seq<Node>, j: nat)
    requires j < |ElementChildrenOf(nodes)|
    ensures ElementChildrenOf(nodes)[j].slot >= j
  {
    if j > 0 {
      SlotsAtLeastPositions(nodes, j - 1);
    }
  }

  /** The item `getElementByIndex` finds is a leaf. */
  lemma LeafFound(items: seq<TreeItem>, slots: seq<nat>, index: int)
    requires WellFormed(items, slots) && ElementByIndex(items, index).Some?
    ensures items[ElementByIndex(items, index).value].children == []
  {
    DescendLeaf(items, slots, index, 0, 0, false);
  }

  lemma {:induction false} DescendLeaf(items: seq<TreeItem>, slots: seq<nat>, index: int, el: nat, i: nat, newline: bool)
    requires WellFormed(items, slots) && el < |items| && Descend(items, index, el, i, newline).Some?
    ensures items[Descend(items, index, el, i, newline).value].children == []
    decreases |items| - el, |items[el].children| - i
  {
    var child := items[el].children[i];
    var item := items[child];
    if item.start <= index < End(item) {
      if item.children != [] {
        DescendLeaf(items, slots, index, child, 0, newline);
      }
    } else if (item.isGeneratingNewline || newline) && index == End(item) {
      if item.children != [] {
        DescendLeaf(items, slots, index, child, |item.children| - 1, true);
      }
    } else {
      DescendLeaf(items, slots, index, el, i + 1, newline);
    }
  }
}
