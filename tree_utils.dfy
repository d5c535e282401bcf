/**
 * The render-tree index of the editor (src/web/treeUtils.ts).
 *
 * Every element under the editor's target element gets a tree item that
 * records the flat-text span it covers (`start`, `length`), its start
 * relative to its parent, its comma-separated path of child positions
 * (`orderIndex`, also written on the element as its `data-id` attribute)
 * and whether it is a line that produces a newline after it. The items
 * live in an arena: `parent` and `children` are indexes into `items`, and
 * item 0 is the root.
 */
module TreeUtils {
  import opened Wrappers
  import opened TextUtils
  import opened Dom

  /** The kind of a tree item: `line`, `br`, `text` or the `data-type` of a span. */
  type ElementType = string

  datatype TreeItem = TreeItem(
    element: Element,
    path: NodePath,
    parent: Option<nat>,
    children: seq<nat>,
    relativeStart: int,
    start: int,
    length: int,
    elementType: ElementType,
    orderIndex: string,
    isGeneratingNewline: bool)

  function End(item: TreeItem): int {
    item.start + item.length
  }

  /** The length an element contributes to the flat text: 1 for a `BR`, else its `innerText` length. */
  function ContentLength(e: Element): (n: nat)
    ensures e.nodeName == "BR" ==> n == 1
    ensures e.nodeName != "BR" ==> n == e.innerTextLength
  {
    if e.nodeName == "BR" then 1 else e.innerTextLength
  }

  /** `getElementType`: `BR` is `br`, `P` is `line`, otherwise the non-empty `data-type` or `text`. */
  function GetElementType(e: Element): (t: ElementType)
    ensures t != ""
    ensures e.nodeName == "BR" ==> t == "br"
    ensures e.nodeName == "P" ==> t == "line"
    ensures e.nodeName != "BR" && e.nodeName != "P" ==>
              t == (if e.dataType.Some? && e.dataType.value != "" then e.dataType.value else "text")
  {
    if e.nodeName == "BR" then "br"
    else if e.nodeName == "P" then "line"
    else if e.dataType.Some? && e.dataType.value != "" then e.dataType.value
    else "text"
  }

  /** A child node that is an element marked `data-type="br"`. */
  predicate IsBrMarker(n: Node) {
    n.Elem? && n.element.dataType == Some("br")
  }

  /**
   * Whether an item generates a newline after itself: only `line` items do,
   * and not when their only child node is a `br` marker. This is the
   * corrected reading of the check; `NewlineCheckAsWritten` is the code as written.
   */
  function GeneratesNewline(t: ElementType, e: Element): (r: bool)
    ensures r ==> t == "line"
    ensures t == "line" ==> (r <==> !(|e.childNodes| == 1 && IsBrMarker(e.childNodes[0])))
  {
    t == "line" && !(|e.childNodes| == 1 && IsBrMarker(e.childNodes[0]))
  }

  datatype NewlineCheck = Checked(generates: bool) | TypeError

  /**
   * The newline check as written: `childNodes[0]?.getAttribute(...)` calls
   * `getAttribute` on whatever the only child node is, and a text node has
   * no such method, so a `line` whose only child is text throws.
   */
  function NewlineCheckAsWritten(t: ElementType, e: Element): NewlineCheck {
    if t != "line" then Checked(false)
    else if |e.childNodes| != 1 then Checked(true)
    else
      match e.childNodes[0]
      case Text(_) => TypeError
      case Elem(c) => Checked(!(c.dataType == Some("br")))
  }

  /** A paragraph holding plain text makes the check as written throw. */
  lemma PlainLineThrows()
    ensures NewlineCheckAsWritten("line", Element("P", None, 1, [Text("a")])) == TypeError
    ensures GeneratesNewline("line", Element("P", None, 1, [Text("a")]))
  {
  }

  /** The check as written throws exactly on a `line` whose only child is a text node, and agrees with the corrected check elsewhere. */
  lemma NewlineCheckAgrees(t: ElementType, e: Element)
    ensures NewlineCheckAsWritten(t, e) == TypeError <==> (t == "line" && |e.childNodes| == 1 && e.childNodes[0].Text?)
    ensures NewlineCheckAsWritten(t, e).Checked? ==> NewlineCheckAsWritten(t, e).generates == GeneratesNewline(t, e)
  {
  }

  /** The `orderIndex` of the `j`-th child of `parent`: `j` below the root, `parent.orderIndex + "," + j` deeper. */
  function ChildOrderIndex(parent: TreeItem, j: nat): string {
    if parent.parent.None? then NatToString(j) else parent.orderIndex + [','] + NatToString(j)
  }

  /** Where the child at position `j` of `items[p]` starts: at the parent's start, or after the previous sibling and its newline. */
  function ChildStart(items: seq<TreeItem>, p: nat, j: nat): int
    requires p < |items| && j <= |items[p].children|
  {
    if j == 0 then items[p].start
    else
      var prev := items[p].children[j - 1];
      if prev < |items| then End(items[prev]) + (if items[prev].isGeneratingNewline then 1 else 0) else 0
  }

  /** What `addItemToTree` establishes for the `j`-th child of `items[p]`. */
  ghost predicate ChildOk(items: seq<TreeItem>, slots: seq<nat>, p: nat, j: nat)
    requires p < |items| && j < |items[p].children| && |slots| == |items|
  {
    var c := items[p].children[j];
    && p < c < |items|
    && items[c].parent == Some(p)
    && slots[c] == j
    && items[c].start == ChildStart(items, p, j)
    && items[c].relativeStart == items[c].start - items[p].start
    && items[c].orderIndex == ChildOrderIndex(items[p], j)
    && items[c].length == ContentLength(items[c].element)
    && items[c].isGeneratingNewline == GeneratesNewline(items[c].elementType, items[c].element)
  }

  /** Item `k` sits at position `slots[k]` among its parent's children. */
  ghost predicate ParentOk(items: seq<TreeItem>, slots: seq<nat>, k: nat)
    requires k < |items| && |slots| == |items|
  {
    && items[k].parent.Some?
    && items[k].parent.value < k
    && slots[k] < |items[items[k].parent.value].children|
    && items[items[k].parent.value].children[slots[k]] == k
  }

  /** The arena is a tree rooted at item 0 whose items satisfy `addItemToTree`'s arithmetic. */
  ghost predicate WellFormed(items: seq<TreeItem>, slots: seq<nat>) {
    && |items| >= 1 && |slots| == |items|
    && items[0].parent == None && items[0].path == [] && items[0].start == 0
    && items[0].relativeStart == 0 && items[0].orderIndex == ""
    && (forall k | 0 < k < |items| :: ParentOk(items, slots, k))
    && (forall p, j | 0 <= p < |items| && 0 <= j < |items[p].children| :: ChildOk(items, slots, p, j))
  }

  /** The arena after appending `item` as the last child of `items[p]`. */
  function Appended(items: seq<TreeItem>, p: nat, item: TreeItem): seq<TreeItem>
    requires p < |items|
  {
    items[p := items[p].(children := items[p].children + [|items|])] + [item]
  }

  /** What `addItemToTree` requires of the item it appends below `items[p]`. */
  ghost predicate NextChild(items: seq<TreeItem>, p: nat, item: TreeItem)
    requires p < |items|
  {
    && item.parent == Some(p) && item.children == []
    && item.start == ChildStart(items, p, |items[p].children|)
    && item.relativeStart == item.start - items[p].start
    && item.orderIndex == ChildOrderIndex(items[p], |items[p].children|)
    && item.length == ContentLength(item.element)
    && item.isGeneratingNewline == GeneratesNewline(item.elementType, item.element)
  }

  /** Appending changes no item but the parent, and the parent only in its children. */
  lemma AppendedItem(items: seq<TreeItem>, p: nat, item: TreeItem, q: nat)
    requires p < |items| && q < |items|
    ensures Appended(items, p, item)[q].(children := items[q].children) == items[q]
    ensures q != p ==> Appended(items, p, item)[q] == items[q]
  {
  }

  /** The `j`-th child of `q` still satisfies `addItemToTree`'s arithmetic after an append. */
  lemma AppendedChildOk(items: seq<TreeItem>, slots: seq<nat>, p: nat, item: TreeItem, q: nat, j: nat)
    requires WellFormed(items, slots) && p < |items| && NextChild(items, p, item)
    requires q <= |items| && j < |Appended(items, p, item)[q].children|
    ensures ChildOk(Appended(items, p, item), slots + [|items[p].children|], q, j)
  {
    var n := |items|;
    var items' := Appended(items, p, item);
    if q == p && j == |items[p].children| {
      assert items'[q].children[j] == n;
      AppendedItem(items, p, item, p);
      if j > 0 {
        assert ChildOk(items, slots, p, j - 1);
        var prev := items[p].children[j - 1];
        AppendedItem(items, p, item, prev);
        assert items'[q].children[j - 1] == prev;
      }
    } else {
      AppendedItem(items, p, item, q);
      assert q < n && j < |items[q].children| && items'[q].children[j] == items[q].children[j];
      assert ChildOk(items, slots, q, j);
      AppendedItem(items, p, item, items[q].children[j]);
      if j > 0 {
        assert ChildOk(items, slots, q, j - 1);
        var prev := items[q].children[j - 1];
        AppendedItem(items, p, item, prev);
        assert items'[q].children[j - 1] == prev;
      }
    }
  }

  /** Appending a child built the way `addItemToTree` builds it keeps the arena well formed. */
  lemma AppendedWellFormed(items: seq<TreeItem>, slots: seq<nat>, p: nat, item: TreeItem)
    requires WellFormed(items, slots) && p < |items| && NextChild(items, p, item)
    ensures WellFormed(Appended(items, p, item), slots + [|items[p].children|])
  {
    var n := |items|;
    var items' := Appended(items, p, item);
    var slots' := slots + [|items[p].children|];
    forall k | 0 < k < |items'| ensures ParentOk(items', slots', k) {
      if k < n {
        assert ParentOk(items, slots, k);
        AppendedItem(items, p, item, k);
        AppendedItem(items, p, item, items[k].parent.value);
      }
    }
    forall q, j | 0 <= q < |items'| && 0 <= j < |items'[q].children| ensures ChildOk(items', slots', q, j) {
      AppendedChildOk(items, slots, p, item, q, j);
    }
    AppendedItem(items, p, item, 0);
  }

  /** The arena after `addItemToTree` appended `item` below `items[p]`. */
  lemma AddItemFacts(items: seq<TreeItem>, slots: seq<nat>, p: nat, item: TreeItem)
    requires WellFormed(items, slots) && p < |items| && NextChild(items, p, item)
    ensures WellFormed(Appended(items, p, item), slots + [|items[p].children|])
    ensures |Appended(items, p, item)| == |items| + 1 && Appended(items, p, item)[|items|] == item
    ensures Appended(items, p, item)[p] == items[p].(children := items[p].children + [|items|])
    ensures forall q | 0 <= q < |items| && q != p :: Appended(items, p, item)[q] == items[q]
  {
    AppendedWellFormed(items, slots, p, item);
  }

  // ----- findElementInTree -----

  /** What `Number(segment || -1)` makes of one `data-id` segment, for the lookup loop. */
  datatype Segment =
    | Stop           // the empty segment or a negative number: the loop breaks
    | Index(n: nat)  // a child position
    | Invalid        // NaN and other non-integers: no such child

  function ParseSegment(seg: string): (r: Segment)
    ensures r == Stop <==> seg == "" || (|seg| > 1 && seg[0] == '-' && AllDigits(seg[1..]) && ParseDigits(seg[1..]) > 0)
    ensures AllDigits(seg) && seg != "" ==> r == Index(ParseDigits(seg))
    ensures r.Index? ==> (seg != "" && AllDigits(seg)) || (|seg| > 1 && seg[0] == '-' && AllDigits(seg[1..]) && r.n == 0)
    ensures r == Invalid <==> seg != "" && !AllDigits(seg) && !(|seg| > 1 && seg[0] == '-' && AllDigits(seg[1..]))
  {
    if seg == "" then Stop
    else if AllDigits(seg) then Index(ParseDigits(seg))
    else if |seg| > 1 && seg[0] == '-' && AllDigits(seg[1..]) then
      (if ParseDigits(seg[1..]) > 0 then Stop else Index(0))
    else Invalid
  }

  /** The result of `findElementInTree`: `undefined`, `null`, or an item. */
  datatype Lookup = NoDataId | NotFound | Found(index: nat)

  /** Following the segments of a `data-id` from item `el`. */
  function Walk(items: seq<TreeItem>, el: nat, segs: seq<string>): (r: Lookup)
    requires el < |items|
    ensures r.Found? ==> r.index < |items|
    ensures r != NoDataId
    decreases |segs|
  {
    if segs == [] then Found(el)
    else
      match ParseSegment(segs[0])
      case Stop => Found(el)
      case Invalid => NotFound
      case Index(n) =>
        if n < |items[el].children| && items[el].children[n] < |items|
        then Walk(items, items[el].children[n], segs[1..])
        else NotFound
  }

  /** `findElementInTree` for an element whose `data-id` attribute is `dataId`. */
  function FindInTree(items: seq<TreeItem>, dataId: Option<string>): Lookup
    requires |items| >= 1
  {
    if dataId.None? then NoDataId else Walk(items, 0, Split(dataId.value, ','))
  }

  /** The child positions leading from the root to item `k`. */
  ghost function IndexPath(items: seq<TreeItem>, slots: seq<nat>, k: nat): seq<nat>
    requires WellFormed(items, slots) && k < |items|
    decreases k
  {
    if k == 0 then [] else
      assert ParentOk(items, slots, k);
      IndexPath(items, slots, items[k].parent.value) + [slots[k]]
  }

  function Decimals(path: seq<nat>): (r: seq<string>)
    ensures |r| == |path|
    ensures forall i | 0 <= i < |r| :: r[i] == NatToString(path[i])
  {
    if path == [] then [] else Decimals(path[..|path| - 1]) + [NatToString(path[|path| - 1])]
  }

  /** An item's `orderIndex` is its index path written in decimal and joined by commas. */
  lemma {:induction false} OrderIndexIsIndexPath(items: seq<TreeItem>, slots: seq<nat>, k: nat)
    requires WellFormed(items, slots) && 0 < k < |items|
    ensures items[k].orderIndex == Join(Decimals(IndexPath(items, slots, k)), ',')
    decreases k
  {
    assert ParentOk(items, slots, k);
    var p := items[k].parent.value;
    assert ChildOk(items, slots, p, slots[k]);
    var path := IndexPath(items, slots, k);
    if p == 0 {
      assert IndexPath(items, slots, p) == [];
      assert path == [slots[k]];
    } else {
      assert ParentOk(items, slots, p);
      OrderIndexIsIndexPath(items, slots, p);
      var ds := Decimals(IndexPath(items, slots, p));
      JoinSnoc(ds, NatToString(slots[k]), ',');
      assert Decimals(path) == ds + [NatToString(slots[k])];
    }
  }

  lemma {:induction false} JoinSnoc(pieces: seq<string>, last: string, sep: char)
    requires |pieces| >= 1
    ensures Join(pieces + [last], sep) == Join(pieces, sep) + [sep] + last
    decreases |pieces|
  {
    if |pieces| > 1 {
      JoinSnoc(pieces[1..], last, sep);
      assert (pieces + [last])[1..] == pieces[1..] + [last];
    }
  }

  /** A decimal segment names the child at that position. */
  lemma ParseDecimalSegment(n: nat)
    ensures ParseSegment(NatToString(n)) == Index(n)
  {
    ParseNatToString(n);
  }

  /** A segment holding a negative integer stops the lookup where it stands; `-0` is child 0. */
  lemma ParseNegativeSegment(n: nat)
    ensures ParseSegment("-" + NatToString(n)) == (if n > 0 then Stop else Index(0))
  {
    var seg := "-" + NatToString(n);
    assert seg[1..] == NatToString(n);
    ParseNatToString(n);
  }

  /** Walking one more segment continues from wherever the walk stood. */
  lemma {:induction false} WalkSnoc(items: seq<TreeItem>, el: nat, segs: seq<string>, seg: string)
    requires el < |items|
    requires forall i | 0 <= i < |segs| :: ParseSegment(segs[i]).Index?
    ensures Walk(items, el, segs + [seg]) ==
              match Walk(items, el, segs)
              case Found(x) => Walk(items, x, [seg])
              case other => other
    decreases |segs|
  {
    if segs == [] {
      assert segs + [seg] == [seg];
    } else {
      assert (segs + [seg])[0] == segs[0];
      assert (segs + [seg])[1..] == segs[1..] + [seg];
      var n := ParseSegment(segs[0]).n;
      if n < |items[el].children| && items[el].children[n] < |items| {
        WalkSnoc(items, items[el].children[n], segs[1..], seg);
      }
    }
  }

  /** Walking the decimal index path of item `k` from the root reaches `k`. */
  lemma {:induction false} WalkIndexPath(items: seq<TreeItem>, slots: seq<nat>, k: nat)
    requires WellFormed(items, slots) && k < |items|
    ensures Walk(items, 0, Decimals(IndexPath(items, slots, k))) == Found(k)
    decreases k
  {
    if k > 0 {
      assert ParentOk(items, slots, k);
      var p := items[k].parent.value;
      assert ChildOk(items, slots, p, slots[k]);
      WalkIndexPath(items, slots, p);
      var segs := Decimals(IndexPath(items, slots, p));
      assert Decimals(IndexPath(items, slots, k)) == segs + [NatToString(slots[k])];
      forall i | 0 <= i < |segs| ensures ParseSegment(segs[i]).Index? {
        ParseDecimalSegment(IndexPath(items, slots, p)[i]);
      }
      WalkSnoc(items, 0, segs, NatToString(slots[k]));
      ParseDecimalSegment(slots[k]);
    }
  }

  /** Looking up an item's own `orderIndex` finds that item. */
  lemma FindOrderIndex(items: seq<TreeItem>, slots: seq<nat>, k: nat)
    requires WellFormed(items, slots) && 0 < k < |items|
    ensures FindInTree(items, Some(items[k].orderIndex)) == Found(k)
  {
    var path := IndexPath(items, slots, k);
    OrderIndexIsIndexPath(items, slots, k);
    forall i | 0 <= i < |Decimals(path)| ensures ',' !in Decimals(path)[i] {
      NatToStringHasNo(path[i], ',');
    }
    assert |Decimals(path)| >= 1 by {
      assert ParentOk(items, slots, k);
    }
    SplitJoin(Decimals(path), ',');
    WalkIndexPath(items, slots, k);
  }

  /** `k` has a newline-generating ancestor (itself included). */
  ghost predicate NewlineAncestor(items: seq<TreeItem>, k: nat)
    decreases k
  {
    && k < |items|
    && (|| items[k].isGeneratingNewline
        || (items[k].parent.Some? && items[k].parent.value < k && NewlineAncestor(items, items[k].parent.value)))
  }

  // ----- the arena -----

  class RenderTree {
    var items: seq<TreeItem>
    /** The `data-id` attributes of the document's elements, by path. */
    var dataIds: map<NodePath, string>
    /** `slots[k]` is the position of item `k` among its parent's children. */
    ghost var slots: seq<nat>

    ghost predicate Valid()
      reads this
    {
      WellFormed(items, slots)
    }

    /** The root item `buildTree` starts from; `attributes` are the `data-id`s already in the document. */
    constructor Root(rootElement: Element, text: string, attributes: map<NodePath, string>)
      ensures Valid() && dataIds == attributes
      ensures items == [TreeItem(rootElement, [], None, [], 0, 0, |text| + Count(text, '\n'), "text", "", false)]
    {
      EscapedLength(text);
      items := [TreeItem(rootElement, [], None, [], 0, 0, |EscapeNewlines(text)|, "text", "", false)];
      dataIds := attributes;
      slots := [0];
    }

    /** `addItemToTree`: append an item for `element` as the last child of `items[parent]`. */
    method AddItemToTree(element: Element, path: NodePath, parent: nat, elementType: ElementType) returns (k: nat)
      requires Valid() && parent < |items|
      modifies this
      ensures Valid()
      ensures k == old(|items|) && |items| == k + 1
      ensures items[k] == TreeItem(element, path, Some(parent), [],
                                   ChildStart(old(items), parent, |old(items[parent].children)|) - old(items[parent].start),
                                   ChildStart(old(items), parent, |old(items[parent].children)|),
                                   ContentLength(element), elementType,
                                   ChildOrderIndex(old(items[parent]), |old(items[parent].children)|),
                                   GeneratesNewline(elementType, element))
      ensures items[parent].children == old(items[parent].children) + [k]
      ensures items[parent] == old(items[parent]).(children := items[parent].children)
      ensures forall q | 0 <= q < k && q != parent :: items[q] == old(items[q])
      ensures dataIds == old(dataIds)[path := items[k].orderIndex]
      ensures slots == old(slots) + [|old(items[parent].children)|]
    {
      var arena := items;
      var contentLength := ContentLength(element);
      var isGeneratingNewline := GeneratesNewline(elementType, element);
      var parentItem := arena[parent];
      var parentChildrenCount := |parentItem.children|;
      var startIndex := parentItem.start;
      if parentChildrenCount > 0 {
        assert ChildOk(arena, slots, parent, parentChildrenCount - 1);
        var lastParentChild := arena[parentItem.children[parentChildrenCount - 1]];
        startIndex := lastParentChild.start + lastParentChild.length;
        startIndex := startIndex + if lastParentChild.isGeneratingNewline then 1 else 0;
      }
      assert startIndex == ChildStart(arena, parent, parentChildrenCount);
      var orderIndex := ChildOrderIndex(parentItem, parentChildrenCount);
      var item := TreeItem(element, path, Some(parent), [], startIndex - parentItem.start, startIndex,
                           contentLength, elementType, orderIndex, isGeneratingNewline);
      AddItemFacts(arena, slots, parent, item);
      k := |arena|;
      dataIds := dataIds[path := orderIndex];
      items := Appended(arena, parent, item);
      slots := slots + [parentChildrenCount];
    }

    /** `findElementInTree`: follow the comma-separated child positions of a `data-id` from the root. */
    method FindElementInTree(dataId: Option<string>) returns (r: Lookup)
      requires Valid()
      ensures r == FindInTree(items, dataId)
      ensures dataId.None? ==> r == NoDataId
      ensures r.Found? ==> r.index < |items|
    {
      if dataId.None? {
        return NoDataId;
      }
      var indexes := Split(dataId.value, ',');
      var el: Option<nat> := Some(0);
      while el.Some? && |indexes| > 0
        invariant el.Some? ==> el.value < |items|
        invariant FindInTree(items, dataId) == if el.None? then NotFound else Walk(items, el.value, indexes)
        decreases |indexes|
      {
        var index := ParseSegment(indexes[0]);
        indexes := indexes[1..];
        if index.Stop? {
          break;
        }
        var current := el.value;
        if index.Index? && index.n < |items[current].children| {
          assert ChildOk(items, slots, current, index.n);
          el := Some(items[current].children[index.n]);
        } else {
          el := None;
        }
      }
      r := if el.Some? then Found(el.value) else NotFound;
      WalkFound(items, if el.Some? then el.value else 0, indexes);
    }

    /**
     * `getElementByIndex`: descend from the root to the leaf holding flat
     * offset `index`; an offset just past a newline-generating line (or past
     * any item below one) resolves to that line's last descendant.
     */
    method GetElementByIndex(index: int) returns (r: Option<nat>)
      requires Valid()
      ensures r == ElementByIndex(items, index)
      ensures r.Some? ==> 0 < r.value < |items| && items[r.value].children == []
      ensures r.Some? ==> || items[r.value].start <= index < End(items[r.value])
                          || (index == End(items[r.value]) && NewlineAncestor(items, r.value))
    {
      var el := 0;
      var i := 0;
      var newLineGenerated := false;
      while |items[el].children| > 0 && i < |items[el].children|
        invariant el < |items| && 0 <= i
        invariant newLineGenerated ==> NewlineAncestor(items, el)
        invariant ElementByIndex(items, index) == Descend(items, index, el, i, newLineGenerated)
        decreases |items| - el, |items[el].children| - i
      {
        assert ChildOk(items, slots, el, i);
        var child := items[el].children[i];
        var item := items[child];
        if index >= item.start && index < item.start + item.length {
          if |item.children| == 0 {
            return Some(child);
          }
          el, i := child, 0;
        } else if (item.isGeneratingNewline || newLineGenerated) && index == item.start + item.length {
          newLineGenerated := true;
          if |item.children| == 0 {
            return Some(child);
          }
          el, i := child, |item.children| - 1;
        } else {
          i := i + 1;
        }
      }
      return None;
    }
  }

  /**
   * The descent of `getElementByIndex` from child `i` of `items[el]`;
   * `newline` records that an ancestor's newline has been passed. A child
   * index that does not point further into the arena ends the descent,
   * which cannot happen in a well-formed tree.
   */
  function Descend(items: seq<TreeItem>, index: int, el: nat, i: nat, newline: bool): (r: Option<nat>)
    requires el < |items|
    ensures r.Some? ==> el < r.value < |items|
    decreases |items| - el, |items[el].children| - i
  {
    if i >= |items[el].children| then None
    else
      var child := items[el].children[i];
      if child <= el || child >= |items| then None
      else
        var item := items[child];
        if item.start <= index < End(item) then
          if item.children == [] then Some(child) else Descend(items, index, child, 0, newline)
        else if (item.isGeneratingNewline || newline) && index == End(item) then
          if item.children == [] then Some(child) else Descend(items, index, child, |item.children| - 1, true)
        else Descend(items, index, el, i + 1, newline)
  }

  /** The leaf item `getElementByIndex` returns for flat offset `index`, if any. */
  function ElementByIndex(items: seq<TreeItem>, index: int): (r: Option<nat>)
    requires |items| >= 1
    ensures r.Some? ==> 0 < r.value < |items|
  {
    Descend(items, index, 0, 0, false)
  }

  /** A walk that has run out of segments, or was stopped, ends where it stands. */
  lemma WalkFound(items: seq<TreeItem>, el: nat, indexes: seq<string>)
    requires el < |items|
    ensures indexes == [] ==> Walk(items, el, indexes) == Found(el)
  {
  }

  /** `text.replace(/\n/g, '\\n')`: every newline written as a backslash and an `n`. */
  function EscapeNewlines(text: string): string {
    if text == [] then []
    else (if text[0] == '\n' then ['\\', 'n'] else [text[0]]) + EscapeNewlines(text[1..])
  }

  /** Escaping adds one character per newline. */
  lemma {:induction false} EscapedLength(text: string)
    ensures |EscapeNewlines(text)| == |text| + Count(text, '\n')
  {
    if text != [] {
      EscapedLength(text[1..]);
    }
  }

  // ----- buildTree -----

  /** Item `k` stands for the `slots[k]`-th element child of its parent's element, typed by `getElementType`. */
  ghost predicate ParentLink(items: seq<TreeItem>, slots: seq<nat>, k: nat)
    requires k < |items| && |slots| == |items|
  {
    && items[k].parent.Some? && items[k].parent.value < |items|
    && var p := items[k].parent.value;
       var ec := ElementChildren(items[p].element);
       && slots[k] < |ec|
       && items[k].element == ec[slots[k]].element
       && items[k].path == items[p].path + [ec[slots[k]].slot]
       && items[k].elementType == GetElementType(items[k].element)
  }

  /** An item whose element's children all have items. */
  ghost predicate Expanded(items: seq<TreeItem>, k: nat)
    requires k < |items|
  {
    |items[k].children| == |ElementChildren(items[k].element)|
  }

  /** The items built so far index elements of the document under `root`. */
  ghost predicate Built(items: seq<TreeItem>, slots: seq<nat>, root: Element, text: string) {
    && WellFormed(items, slots)
    && items[0].element == root
    && items[0].length == |text| + Count(text, '\n')
    && items[0].elementType == "text"
    && (forall k | 0 <= k < |items| :: InDocument(items, root, k))
    && (forall k | 0 < k < |items| :: ParentLink(items, slots, k))
  }

  /** Item `k`'s path leads to its element in the document under `root`. */
  ghost predicate InDocument(items: seq<TreeItem>, root: Element, k: nat)
    requires k < |items|
  {
    NodeAt(root, items[k].path) == Some(Elem(items[k].element))
  }

  /** The finished tree: one item per element of the document, each with all its element children. */
  ghost predicate IndexesDocument(items: seq<TreeItem>, slots: seq<nat>, root: Element, text: string) {
    && Built(items, slots, root, text)
    && (forall k | 0 <= k < |items| :: Expanded(items, k))
  }

  /** The `data-id` attributes `addItemToTree` writes for items `1..n-1`, later writes winning. */
  ghost function Ids(items: seq<TreeItem>, n: nat): map<NodePath, string>
    requires n <= |items|
  {
    if n <= 1 then map[] else Ids(items, n - 1)[items[n - 1].path := items[n - 1].orderIndex]
  }

  lemma {:induction false} IdsFrame(items: seq<TreeItem>, items': seq<TreeItem>, n: nat)
    requires n <= |items| && n <= |items'|
    requires forall q | 0 <= q < n :: items'[q].path == items[q].path && items'[q].orderIndex == items[q].orderIndex
    ensures Ids(items', n) == Ids(items, n)
  {
    if n > 1 {
      IdsFrame(items, items', n - 1);
    }
  }

  /** Distinct items stand for distinct elements of the document. */
  lemma {:induction false} PathsDistinct(items: seq<TreeItem>, slots: seq<nat>, a: nat, b: nat)
    requires WellFormed(items, slots) && a < |items| && b < |items|
    requires forall k | 0 < k < |items| :: ParentLink(items, slots, k)
    requires items[a].path == items[b].path
    ensures a == b
    decreases a + b
  {
    if a > 0 && b > 0 {
      assert ParentLink(items, slots, a) && ParentLink(items, slots, b);
      assert ParentOk(items, slots, a) && ParentOk(items, slots, b);
      var pa, pb := items[a].parent.value, items[b].parent.value;
      var pathA := items[a].path;
      assert items[pa].path == pathA[..|pathA| - 1];
      assert items[pb].path == pathA[..|pathA| - 1];
      PathsDistinct(items, slots, pa, pb);
      var ec := ElementChildren(items[pa].element);
      assert ec[slots[a]].slot == ec[slots[b]].slot;
    } else {
      NonRootPath(items, slots, a);
      NonRootPath(items, slots, b);
    }
  }

  /** Only the root sits at the empty path. */
  lemma NonRootPath(items: seq<TreeItem>, slots: seq<nat>, k: nat)
    requires WellFormed(items, slots) && k < |items|
    requires forall q | 0 < q < |items| :: ParentLink(items, slots, q)
    ensures k > 0 <==> items[k].path != []
  {
    if k > 0 {
      assert ParentLink(items, slots, k);
    }
  }

  /** Every item below the root finds its own `orderIndex` under its path. */
  lemma {:induction false} IdsLookup(items: seq<TreeItem>, slots: seq<nat>, n: nat, k: nat)
    requires WellFormed(items, slots) && n <= |items| && 0 < k < n
    requires forall q | 0 < q < |items| :: ParentLink(items, slots, q)
    ensures items[k].path in Ids(items, n) && Ids(items, n)[items[k].path] == items[k].orderIndex
  {
    if k < n - 1 {
      IdsLookup(items, slots, n - 1, k);
      if items[n - 1].path == items[k].path {
        PathsDistinct(items, slots, n - 1, k);
      }
    }
  }

  lemma SizeOfChildrenSnoc(ec: seq<ElementChild>, j: nat)
    requires j < |ec|
    ensures SizeOfChildren(ec[..j + 1]) == SizeOfChildren(ec[..j]) + Size(ec[j].element)
  {
    assert ec[..j + 1][..j] == ec[..j];
  }

  /** Adding an item for the next element child of `items[s]` keeps the items indexing the document. */
  lemma AddedBuilt(items: seq<TreeItem>, slots: seq<nat>, items': seq<TreeItem>, slots': seq<nat>,
                   root: Element, text: string, s: nat)
    requires Built(items, slots, root, text) && WellFormed(items', slots')
    requires s < |items| && |items[s].children| < |ElementChildren(items[s].element)|
    requires |items'| == |items| + 1 && slots' == slots + [|items[s].children|]
    requires items'[s] == items[s].(children := items'[s].children)
    requires forall q | 0 <= q < |items| && q != s :: items'[q] == items[q]
    requires var c := ElementChildren(items[s].element)[|items[s].children|];
             && items'[|items|].element == c.element
             && items'[|items|].path == items[s].path + [c.slot]
             && items'[|items|].parent == Some(s)
             && items'[|items|].elementType == GetElementType(c.element)
    ensures Built(items', slots', root, text)
  {
    var k := |items|;
    var c := ElementChildren(items[s].element)[|items[s].children|];
    assert InDocument(items, root, s);
    NodeAtChild(root, items[s].path, items[s].element, c.slot);
    forall q | 0 < q < |items'| ensures ParentLink(items', slots', q) {
      if q < k {
        assert ParentLink(items, slots, q);
        var p := items[q].parent.value;
        assert items'[p].element == items[p].element && items'[p].path == items[p].path;
      }
    }
    forall q | 0 <= q < |items'| ensures InDocument(items', root, q) {
      if q < k {
        assert InDocument(items, root, q);
      }
    }
  }

  lemma UpdateUnion(a: map<NodePath, string>, m: map<NodePath, string>, p: NodePath, v: string)
    ensures (a + m)[p := v] == a + m[p := v]
  {
  }

  /** The stack of `buildTree`: increasing item indexes whose children are not added yet. */
  ghost predicate StackOk(items: seq<TreeItem>, stack: seq<nat>) {
    && (forall i | 0 <= i < |stack| :: stack[i] < |items| && items[stack[i]].children == [])
    && (forall i, i' | 0 <= i < i' < |stack| :: stack[i] < stack[i'])
  }

  /** Total size of the subtrees of the elements of the stacked items: what remains to be added. */
  ghost function StackSize(items: seq<TreeItem>, stack: seq<nat>): nat
    requires forall i | 0 <= i < |stack| :: stack[i] < |items|
  {
    if stack == [] then 0 else StackSize(items, stack[..|stack| - 1]) + Size(items[stack[|stack| - 1]].element)
  }

  lemma {:induction false} StackSizeFrame(items0: seq<TreeItem>, items1: seq<TreeItem>, stack: seq<nat>)
    requires forall i | 0 <= i < |stack| :: stack[i] < |items0| && stack[i] < |items1|
    requires forall i | 0 <= i < |stack| :: items1[stack[i]].element == items0[stack[i]].element
    ensures StackSize(items1, stack) == StackSize(items0, stack)
    decreases |stack|
  {
    if stack != [] {
      StackSizeFrame(items0, items1, stack[..|stack| - 1]);
    }
  }

  lemma {:induction false} StackSizeAppend(items: seq<TreeItem>, rest: seq<nat>, added: seq<nat>, ec: seq<ElementChild>)
    requires forall i | 0 <= i < |rest| :: rest[i] < |items|
    requires |added| == |ec|
    requires forall i | 0 <= i < |added| :: added[i] < |items| && items[added[i]].element == ec[i].element
    ensures StackSize(items, rest + added) == StackSize(items, rest) + SizeOfChildren(ec)
    decreases |added|
  {
    if added == [] {
      assert rest + added == rest;
    } else {
      var n := |added| - 1;
      StackSizeAppend(items, rest, added[..n], ec[..n]);
      assert (rest + added)[..|rest| + n] == rest + added[..n];
    }
  }

  /** Popping an item and pushing the items of its element children keeps the stack and the expanded items in step, and shrinks what remains. */
  lemma StackStep(items0: seq<TreeItem>, items1: seq<TreeItem>, stack0: seq<nat>, added: seq<nat>)
    requires |stack0| > 0 && StackOk(items0, stack0)
    requires forall k | 0 <= k < |items0| && k !in stack0 :: Expanded(items0, k)
    requires |items1| == |items0| + |added|
    requires var s := stack0[|stack0| - 1];
             && s < |items1| && Expanded(items1, s) && items1[s].element == items0[s].element
             && |added| == |ElementChildren(items0[s].element)|
             && forall i | 0 <= i < |added| ::
                  && added[i] == |items0| + i && items1[added[i]].children == []
                  && items1[added[i]].element == ElementChildren(items0[s].element)[i].element
    requires forall q | 0 <= q < |items0| && q != stack0[|stack0| - 1] :: items1[q] == items0[q]
    ensures StackOk(items1, stack0[..|stack0| - 1] + added)
    ensures forall k | 0 <= k < |items1| && k !in stack0[..|stack0| - 1] + added :: Expanded(items1, k)
    ensures StackSize(items1, stack0[..|stack0| - 1] + added) < StackSize(items0, stack0)
  {
    StackShrinks(items0, items1, stack0, added);
    var s := stack0[|stack0| - 1];
    var rest := stack0[..|stack0| - 1];
    var stack := rest + added;
    assert forall i | 0 <= i < |rest| :: rest[i] < s && stack[i] == rest[i];
    forall q | |items0| <= q < |items1| ensures q in stack {
      assert stack[|rest| + (q - |items0|)] == q;
    }
    forall q | 0 <= q < |items0| && q != s && q !in stack ensures Expanded(items1, q) {
      assert q !in rest;
      assert stack0 == rest + [s];
      assert q !in stack0 && Expanded(items0, q);
    }
  }

  lemma StackShrinks(items0: seq<TreeItem>, items1: seq<TreeItem>, stack0: seq<nat>, added: seq<nat>)
    requires |stack0| > 0 && forall i | 0 <= i < |stack0| :: stack0[i] < |items0|
    requires forall i, i' | 0 <= i < i' < |stack0| :: stack0[i] < stack0[i']
    requires |items1| == |items0| + |added|
    requires var s := stack0[|stack0| - 1];
             && items1[s].element == items0[s].element
             && |added| == |ElementChildren(items0[s].element)|
             && forall i | 0 <= i < |added| ::
                  && added[i] == |items0| + i
                  && items1[added[i]].element == ElementChildren(items0[s].element)[i].element
    requires forall q | 0 <= q < |items0| && q != stack0[|stack0| - 1] :: items1[q] == items0[q]
    ensures StackSize(items1, stack0[..|stack0| - 1] + added) < StackSize(items0, stack0)
  {
    var s := stack0[|stack0| - 1];
    var rest := stack0[..|stack0| - 1];
    assert forall i | 0 <= i < |rest| :: rest[i] < s;
    StackSizeFrame(items0, items1, rest);
    StackSizeAppend(items1, rest, added, ElementChildren(items0[s].element));
    ElementChildrenSize(items0[s].element);
  }

  /** The state of the `forEach` of `buildTree` over the element children of `items0[s]` after `|added|` of them. */
  ghost predicate Adding(items: seq<TreeItem>, slots: seq<nat>, dataIds: map<NodePath, string>,
                         root: Element, text: string, attributes: map<NodePath, string>,
                         items0: seq<TreeItem>, s: nat, added: seq<nat>)
  {
    var children := if s < |items0| then ElementChildren(items0[s].element) else [];
    && Built(items, slots, root, text)
    && dataIds == attributes + Ids(items, |items|)
    && s < |items0| && s < |items| && items[s].element == items0[s].element
    && |items[s].children| == |added| <= |children|
    && |items| == |items0| + |added|
    && (forall i | 0 <= i < |added| ::
          && added[i] == |items0| + i
          && items[added[i]].element == children[i].element
          && items[added[i]].children == [])
    && (forall q | 0 <= q < |items0| && q != s :: items[q] == items0[q])
  }

  /** One more call of `addItemToTree` in the `forEach` keeps its state. */
  lemma AddingStep(items: seq<TreeItem>, slots: seq<nat>, dataIds: map<NodePath, string>,
                   items': seq<TreeItem>, slots': seq<nat>, dataIds': map<NodePath, string>,
                   root: Element, text: string, attributes: map<NodePath, string>,
                   items0: seq<TreeItem>, s: nat, added: seq<nat>)
    requires Adding(items, slots, dataIds, root, text, attributes, items0, s, added)
    requires |added| < |ElementChildren(items0[s].element)|
    requires WellFormed(items', slots')
    requires var c := ElementChildren(items0[s].element)[|added|];
             && |items'| == |items| + 1
             && items'[|items|] == TreeItem(c.element, items[s].path + [c.slot], Some(s), [],
                                            items'[|items|].relativeStart, items'[|items|].start,
                                            items'[|items|].length, GetElementType(c.element),
                                            items'[|items|].orderIndex, items'[|items|].isGeneratingNewline)
             && items'[s] == items[s].(children := items[s].children + [|items|])
             && (forall q | 0 <= q < |items| && q != s :: items'[q] == items[q])
             && dataIds' == dataIds[items[s].path + [c.slot] := items'[|items|].orderIndex]
             && slots' == slots + [|items[s].children|]
    ensures Adding(items', slots', dataIds', root, text, attributes, items0, s, added + [|items|])
  {
    var k := |items|;
    AddedBuilt(items, slots, items', slots', root, text, s);
    IdsFrame(items, items', k);
    UpdateUnion(attributes, Ids(items, k), items'[k].path, items'[k].orderIndex);
    var added' := added + [k];
    forall i | 0 <= i < |added| ensures items'[added'[i]] == items[added[i]] {
      assert added[i] < k && added[i] != s;
    }
  }

  /** The `forEach` of `buildTree`: add an item for every element child of `items[s]`, in order. */
  method AddChildItems(tree: RenderTree, s: nat, ghost root: Element, ghost text: string,
                       ghost attributes: map<NodePath, string>) returns (added: seq<nat>)
    requires tree.Valid() && Built(tree.items, tree.slots, root, text)
    requires tree.dataIds == attributes + Ids(tree.items, |tree.items|)
    requires s < |tree.items| && tree.items[s].children == []
    modifies tree
    ensures tree.Valid()
    ensures Adding(tree.items, tree.slots, tree.dataIds, root, text, attributes, old(tree.items), s, added)
    ensures |added| == |ElementChildren(old(tree.items[s].element))|
  {
    ghost var items0 := tree.items;
    var children := ElementChildren(tree.items[s].element);
    added := [];
    for j := 0 to |children|
      invariant tree.Valid() && |added| == j
      invariant Adding(tree.items, tree.slots, tree.dataIds, root, text, attributes, items0, s, added)
    {
      ghost var items, slots, dataIds := tree.items, tree.slots, tree.dataIds;
      var k := tree.AddItemToTree(children[j].element, tree.items[s].path + [children[j].slot], s,
                                  GetElementType(children[j].element));
      AddingStep(items, slots, dataIds, tree.items, tree.slots, tree.dataIds, root, text, attributes, items0, s, added);
      added := added + [k];
    }
  }

  /**
   * `buildTree`: index every element under `rootElement`, taking items off
   * a stack and adding an item for each of their element children. The
   * root item covers the text with every newline counted twice, as the
   * escaped text's length does.
   */
  method BuildTree(rootElement: Element, text: string, attributes: map<NodePath, string>) returns (tree: RenderTree)
    ensures fresh(tree) && tree.Valid()
    ensures IndexesDocument(tree.items, tree.slots, rootElement, text)
    ensures tree.dataIds == attributes + Ids(tree.items, |tree.items|)
    ensures forall k | 0 < k < |tree.items| ::
              tree.items[k].path in tree.dataIds && tree.dataIds[tree.items[k].path] == tree.items[k].orderIndex
  {
    tree := new RenderTree.Root(rootElement, text, attributes);
    var stack := [0];
    while |stack| > 0
      invariant tree.Valid() && Built(tree.items, tree.slots, rootElement, text)
      invariant tree.dataIds == attributes + Ids(tree.items, |tree.items|)
      invariant StackOk(tree.items, stack)
      invariant forall k | 0 <= k < |tree.items| && k !in stack :: Expanded(tree.items, k)
      decreases StackSize(tree.items, stack)
    {
      ghost var stack0, items0 := stack, tree.items;
      var s := stack[|stack| - 1];
      stack := stack[..|stack| - 1];
      var added := AddChildItems(tree, s, rootElement, text, attributes);
      StackStep(items0, tree.items, stack0, added);
      stack := stack + added;
    }
    forall k | 0 < k < |tree.items|
      ensures tree.items[k].path in tree.dataIds && tree.dataIds[tree.items[k].path] == tree.items[k].orderIndex
    {
      IdsLookup(tree.items, tree.slots, |tree.items|, k);
    }
  }

  /** Every element of the document under `root` has an item in the finished tree. */
  lemma {:induction false} EveryElementIndexed(items: seq<TreeItem>, slots: seq<nat>, root: Element, text: string,
                                               path: NodePath, e: Element)
    requires IndexesDocument(items, slots, root, text)
    requires NodeAt(root, path) == Some(Elem(e))
    ensures exists k | 0 <= k < |items| :: items[k].path == path && items[k].element == e
    decreases |path|
  {
    if path == [] {
      assert items[0].path == path && items[0].element == e;
    } else {
      var q, i := path[..|path| - 1], path[|path| - 1];
      assert path == q + [i];
      NodeAtParent(root, q, i, e);
      var pe := NodeAt(root, q).value.element;
      EveryElementIndexed(items, slots, root, text, q, pe);
      var p :| 0 <= p < |items| && items[p].path == q && items[p].element == pe;
      assert Expanded(items, p);
      ElementChildrenComplete(pe.childNodes, i);
      var ec := ElementChildren(pe);
      var j :| 0 <= j < |ec| && ec[j] == ElementChild(i, e);
      assert ChildOk(items, slots, p, j);
      var c := items[p].children[j];
      assert ParentLink(items, slots, c);
      assert items[c].path == path && items[c].element == e;
    }
  }

  /**
   * In the finished tree, the `data-id` written on any element below the
   * root leads `findElementInTree` back to that element's item.
   */
  lemma DataIdFindsItem(items: seq<TreeItem>, slots: seq<nat>, root: Element, text: string,
                        attributes: map<NodePath, string>, path: NodePath, e: Element)
    requires IndexesDocument(items, slots, root, text)
    requires NodeAt(root, path) == Some(Elem(e)) && path != []
    ensures path in attributes + Ids(items, |items|)
    ensures exists k | 0 < k < |items| ::
              && items[k].path == path && items[k].element == e
              && FindInTree(items, Some((attributes + Ids(items, |items|))[path])) == Found(k)
  {
    EveryElementIndexed(items, slots, root, text, path, e);
    var k :| 0 <= k < |items| && items[k].path == path && items[k].element == e;
    NonRootPath(items, slots, k);
    IdsLookup(items, slots, |items|, k);
    FindOrderIndex(items, slots, k);
  }
}
