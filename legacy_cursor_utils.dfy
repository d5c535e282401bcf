/**
 * The older cursor adapter of the CommonJS build
 * (lib/commonjs/web/cursorUtils.js). It knows nothing of the render tree:
 * it lists the text nodes under the target in document order and maps a
 * flat offset to the text node whose span of cumulative lengths holds it.
 * The module-level `prevTextLength`, the text length recorded by
 * `setPrevText` before an edit, steers where the caret goes after a newline.
 *
 * A selection boundary is a `Point`: the start or the end of the target,
 * or an offset in the `i`-th text node. These are the only boundaries the
 * adapter places, and the ones its reading of a selection is defined for.
 */
module LegacyCursorUtils {
  import opened Wrappers
  import opened Dom
  import CursorUtils

  /** A text node found under the target: its path and its characters. */
  datatype TextNode = TextNode(path: NodePath, value: string)

  // ----- findTextNodes -----

  /** The text nodes of the subtree of `node` (found at `path`), in document order. */
  function TextNodesOf(node: Node, path: NodePath): seq<TextNode>
    decreases node, 1
  {
    match node
    case Text(v) => [TextNode(path, v)]
    case Elem(e) => TextNodesUnder(e, path, |e.childNodes|)
  }

  /** The text nodes below the first `n` child nodes of `e`, in document order. */
  function TextNodesUnder(e: Element, path: NodePath, n: nat): seq<TextNode>
    requires n <= |e.childNodes|
    decreases e, 0, n
  {
    if n == 0 then []
    else TextNodesUnder(e, path, n - 1) + TextNodesOf(e.childNodes[n - 1], path + [n - 1])
  }

  /** `findTextNodes`: push the text nodes of `node`'s subtree onto `textNodes`. */
  method FindTextNodes(textNodes: seq<TextNode>, node: Node, path: NodePath) returns (found: seq<TextNode>)
    ensures found == textNodes + TextNodesOf(node, path)
    decreases node
  {
    match node
    case Text(v) =>
      found := textNodes + [TextNode(path, v)];
    case Elem(e) =>
      found := textNodes;
      var i := 0;
      while i < |e.childNodes|
        invariant 0 <= i <= |e.childNodes|
        invariant found == textNodes + TextNodesUnder(e, path, i)
      {
        found := FindTextNodes(found, e.childNodes[i], path + [i]);
        i := i + 1;
      }
  }

  /** Every text node listed for the subtree at `path` is the document's text node at its own path. */
  lemma {:induction false} TextNodesAreInDocument(root: Element, node: Node, path: NodePath)
    requires NodeAt(root, path) == Some(node)
    ensures forall t | t in TextNodesOf(node, path) :: NodeAt(root, t.path) == Some(Text(t.value))
    decreases node, 1
  {
    match node
    case Text(v) =>
    case Elem(e) => TextNodesUnderAreInDocument(root, e, path, |e.childNodes|);
  }

  lemma {:induction false} TextNodesUnderAreInDocument(root: Element, e: Element, path: NodePath, n: nat)
    requires NodeAt(root, path) == Some(Elem(e)) && n <= |e.childNodes|
    ensures forall t | t in TextNodesUnder(e, path, n) :: NodeAt(root, t.path) == Some(Text(t.value))
    decreases e, 0, n
  {
    if n > 0 {
      TextNodesUnderAreInDocument(root, e, path, n - 1);
      NodeAtChild(root, path, e, n - 1);
      TextNodesAreInDocument(root, e.childNodes[n - 1], path + [n - 1]);
    }
  }

  /**
   * Path `a` comes before path `b` in document pre-order: an ancestor
   * before its descendants, and an earlier sibling's subtree before a later
   * sibling's.
   */
  predicate PathBefore(a: NodePath, b: NodePath)
    decreases |a|
  {
    if a == [] then b != []
    else if b == [] then false
    else if a[0] != b[0] then a[0] < b[0]
    else PathBefore(a[1..], b[1..])
  }

  /** The listed text nodes are in strictly increasing document order. */
  ghost predicate InPreOrder(ts: seq<TextNode>) {
    forall i, j | 0 <= i < j < |ts| :: PathBefore(ts[i].path, ts[j].path)
  }

  /** Whatever lies under child `k` of the node at `p` comes before whatever lies under a later child `m`. */
  lemma {:induction false} PathBeforeSiblings(p: NodePath, k: nat, m: nat, a: NodePath, b: NodePath)
    requires k < m
    requires |p| < |a| && a[..|p| + 1] == p + [k]
    requires |p| < |b| && b[..|p| + 1] == p + [m]
    ensures PathBefore(a, b)
    decreases |p|
  {
    assert a[0] == (p + [k])[0] && b[0] == (p + [m])[0];
    if p != [] {
      assert a[1..][..|p|] == a[..|p| + 1][1..] == p[1..] + [k];
      assert b[1..][..|p|] == b[..|p| + 1][1..] == p[1..] + [m];
      PathBeforeSiblings(p[1..], k, m, a[1..], b[1..]);
    }
  }

  /** The text nodes of a subtree have paths that extend the subtree's path. */
  lemma {:induction false} TextNodesBelow(node: Node, path: NodePath)
    ensures forall t | t in TextNodesOf(node, path) :: |path| <= |t.path| && t.path[..|path|] == path
    decreases node, 1
  {
    match node
    case Text(v) =>
    case Elem(e) => TextNodesUnderBelow(e, path, |e.childNodes|);
  }

  /** The text nodes below the first `n` child nodes lie under one of those children. */
  lemma {:induction false} TextNodesUnderBelow(e: Element, path: NodePath, n: nat)
    requires n <= |e.childNodes|
    ensures forall t | t in TextNodesUnder(e, path, n) :: |path| < |t.path| && t.path[..|path|] == path && t.path[|path|] < n
    decreases e, 0, n
  {
    if n > 0 {
      TextNodesUnderBelow(e, path, n - 1);
      TextNodesBelow(e.childNodes[n - 1], path + [n - 1]);
      forall t | t in TextNodesOf(e.childNodes[n - 1], path + [n - 1])
        ensures |path| < |t.path| && t.path[..|path|] == path && t.path[|path|] < n
      {
        assert t.path[..|path| + 1] == path + [n - 1];
        assert t.path[..|path|] == t.path[..|path| + 1][..|path|];
        assert t.path[|path|] == t.path[..|path| + 1][|path|];
      }
    }
  }

  /** `findTextNodes` lists a subtree's text nodes in document pre-order. */
  lemma {:induction false} TextNodesInPreOrder(node: Node, path: NodePath)
    ensures InPreOrder(TextNodesOf(node, path))
    decreases node, 1
  {
    match node
    case Text(v) =>
    case Elem(e) => TextNodesUnderInPreOrder(e, path, |e.childNodes|);
  }

  lemma {:induction false} TextNodesUnderInPreOrder(e: Element, path: NodePath, n: nat)
    requires n <= |e.childNodes|
    ensures InPreOrder(TextNodesUnder(e, path, n))
    decreases e, 0, n
  {
    if n > 0 {
      var a := TextNodesUnder(e, path, n - 1);
      var b := TextNodesOf(e.childNodes[n - 1], path + [n - 1]);
      var ab: seq<TextNode> := a + b;
      assert TextNodesUnder(e, path, n) == ab;
      TextNodesUnderInPreOrder(e, path, n - 1);
      TextNodesInPreOrder(e.childNodes[n - 1], path + [n - 1]);
      TextNodesUnderBelow(e, path, n - 1);
      TextNodesBelow(e.childNodes[n - 1], path + [n - 1]);
      forall i, j | 0 <= i < j < |ab|
        ensures PathBefore(ab[i].path, ab[j].path)
      {
        if j < |a| {
          assert ab[i] == a[i] && ab[j] == a[j];
        } else if i >= |a| {
          assert ab[i] == b[i - |a|] && ab[j] == b[j - |a|];
        } else {
          var x := a[i];
          var y := b[j - |a|];
          assert x in a && y in b;
          assert x.path[..|path| + 1] == path + [x.path[|path|]] by {
            assert x.path[..|path| + 1] == x.path[..|path|] + [x.path[|path|]];
          }
          PathBeforeSiblings(path, x.path[|path|], n - 1, x.path, y.path);
          assert ab[i] == x && ab[j] == y;
        }
      }
    }
  }

  /** The text nodes of the first `m` child subtrees come first among those of the first `n`. */
  lemma {:induction false} TextNodesUnderPrefix(e: Element, path: NodePath, m: nat, n: nat)
    requires m <= n <= |e.childNodes|
    ensures TextNodesUnder(e, path, m) <= TextNodesUnder(e, path, n)
    decreases n
  {
    if m < n {
      TextNodesUnderPrefix(e, path, m, n - 1);
    }
  }

  /** Every text node of the document below an element is listed, with its path. */
  lemma {:induction false} TextNodesComplete(e: Element, path: NodePath, q: NodePath, v: string)
    requires NodeAt(e, q) == Some(Text(v))
    ensures TextNode(path + q, v) in TextNodesOf(Elem(e), path)
    decreases |q|
  {
    var k := q[0];
    TextNodesUnderPrefix(e, path, k + 1, |e.childNodes|);
    var listed := TextNodesOf(e.childNodes[k], path + [k]);
    assert TextNodesUnder(e, path, k + 1) == TextNodesUnder(e, path, k) + listed;
    match e.childNodes[k]
    case Text(w) =>
      assert q == [k];
      assert listed == [TextNode(path + q, v)];
      assert TextNode(path + q, v) in TextNodesUnder(e, path, k + 1);
    case Elem(c) =>
      TextNodesComplete(c, path + [k], q[1..], v);
      assert path + [k] + q[1..] == path + q;
      assert TextNode(path + q, v) in TextNodesUnder(e, path, k + 1);
  }

  /**
   * `findTextNodes(target)` lists exactly the text nodes of the document
   * below the target, each with its path, in document pre-order.
   */
  lemma TextNodesExactly(root: Element)
    ensures forall q: NodePath, v: string :: TextNode(q, v) in TextNodesOf(Elem(root), []) <==> NodeAt(root, q) == Some(Text(v))
    ensures InPreOrder(TextNodesOf(Elem(root), []))
  {
    TextNodesAreInDocument(root, Elem(root), []);
    forall q: NodePath, v: string | NodeAt(root, q) == Some(Text(v))
      ensures TextNode(q, v) in TextNodesOf(Elem(root), [])
    {
      TextNodesComplete(root, [], q, v);
      assert [] + q == q;
    }
    TextNodesInPreOrder(Elem(root), []);
  }

  // ----- cumulative lengths -----

  /** `textNodes.map(e => e.nodeValue).join('')`. */
  function Chars(nodes: seq<TextNode>): string {
    if nodes == [] then "" else Chars(nodes[..|nodes| - 1]) + nodes[|nodes| - 1].value
  }

  /** The characters in the text nodes before the `i`-th. */
  function CharsBefore(nodes: seq<TextNode>, i: nat): nat
    requires i <= |nodes|
  {
    if i == 0 then 0 else CharsBefore(nodes, i - 1) + |nodes[i - 1].value|
  }

  lemma CharsBeforeNext(nodes: seq<TextNode>, i: nat)
    requires i < |nodes|
    ensures CharsBefore(nodes, i + 1) == CharsBefore(nodes, i) + |nodes[i].value|
  {
  }

  /** Counting node by node gives the length of the joined text. */
  lemma {:induction false} CharsBeforeAll(nodes: seq<TextNode>)
    ensures CharsBefore(nodes, |nodes|) == |Chars(nodes)|
    decreases |nodes|
  {
    if nodes != [] {
      var init := nodes[..|nodes| - 1];
      CharsBeforeAll(init);
      CharsBeforePrefix(nodes, init, |init|);
    }
  }

  lemma {:induction false} CharsBeforePrefix(nodes: seq<TextNode>, init: seq<TextNode>, i: nat)
    requires i <= |init| <= |nodes| && init == nodes[..|init|]
    ensures CharsBefore(nodes, i) == CharsBefore(init, i)
  {
    if i > 0 {
      CharsBeforePrefix(nodes, init, i - 1);
      assert init[i - 1] == nodes[i - 1];
    }
  }

  lemma {:induction false} CharsBeforeMonotone(nodes: seq<TextNode>, i: nat, j: nat)
    requires i <= j <= |nodes|
    ensures CharsBefore(nodes, i) <= CharsBefore(nodes, j) <= |Chars(nodes)|
    decreases |nodes| - i
  {
    if i < |nodes| {
      CharsBeforeNext(nodes, i);
      if i < j {
        CharsBeforeMonotone(nodes, i + 1, j);
      } else {
        CharsBeforeMonotone(nodes, i + 1, i + 1);
      }
    } else {
      CharsBeforeAll(nodes);
    }
  }

  /**
   * The scan's test for text node `i`: `x` lies in the node's closed span of
   * cumulative offsets (the second disjunct of the source's test adds nothing).
   */
  predicate Holds(nodes: seq<TextNode>, i: nat, x: int)
    requires i < |nodes|
  {
    var charCount := CharsBefore(nodes, i);
    var nextCharCount := charCount + |nodes[i].value|;
    x >= charCount && (x <= nextCharCount || (x == nextCharCount && i < |nodes| - 1))
  }

  /** The first text node from `from` on whose span holds `x`. */
  function FirstHolding(nodes: seq<TextNode>, x: int, from: nat): (r: Option<nat>)
    ensures r.Some? ==> from <= r.value < |nodes| && Holds(nodes, r.value, x)
    decreases |nodes| - from
  {
    if from >= |nodes| then None
    else if Holds(nodes, from, x) then Some(from)
    else FirstHolding(nodes, x, from + 1)
  }

  /** No node between `from` and the one found holds `x`; none at all when none is found. */
  lemma {:induction false} FirstHoldingIsFirst(nodes: seq<TextNode>, x: int, from: nat)
    ensures FirstHolding(nodes, x, from).Some? ==> forall j | from <= j < FirstHolding(nodes, x, from).value :: !Holds(nodes, j, x)
    ensures FirstHolding(nodes, x, from).None? ==> forall j | from <= j < |nodes| :: !Holds(nodes, j, x)
    decreases |nodes| - from
  {
    if from < |nodes| && !Holds(nodes, from, x) {
      FirstHoldingIsFirst(nodes, x, from + 1);
    }
  }

  /** Every offset of the text, from 0 to its length, is held by some text node. */
  lemma {:induction false} SomeNodeHolds(nodes: seq<TextNode>, x: int, from: nat)
    requires from < |nodes| && CharsBefore(nodes, from) <= x <= |Chars(nodes)|
    ensures FirstHolding(nodes, x, from).Some?
    decreases |nodes| - from
  {
    CharsBeforeNext(nodes, from);
    if !Holds(nodes, from, x) {
      if from + 1 == |nodes| {
        CharsBeforeAll(nodes);
        assert false;
      }
      SomeNodeHolds(nodes, x, from + 1);
    }
  }

  // ----- boundaries -----

  datatype Point = TargetStart | InText(node: nat, offset: int) | TargetEnd

  datatype TextRange = TextRange(start: Point, end: Point)

  /** A boundary inside a listed text node, at most its length in. */
  predicate ValidPoint(nodes: seq<TextNode>, p: Point) {
    p.InText? ==> p.node < |nodes| && 0 <= p.offset <= |nodes[p.node].value|
  }

  /** Tree order of boundaries: the target's start, the text nodes in document order, the target's end. */
  predicate PointBefore(a: Point, b: Point) {
    match a
    case TargetStart => !b.TargetStart?
    case InText(i, o) => b.TargetEnd? || (b.InText? && (i < b.node || (i == b.node && o < b.offset)))
    case TargetEnd => false
  }

  /** A DOM Range's start is never after its end. */
  predicate ValidRange(nodes: seq<TextNode>, r: TextRange) {
    ValidPoint(nodes, r.start) && ValidPoint(nodes, r.end) && !PointBefore(r.end, r.start)
  }

  /** `range.setStart(p)`: a start after the end drags the end along. */
  function SetStart(r: TextRange, p: Point): (r': TextRange)
    ensures r'.start == p && !PointBefore(r'.end, r'.start)
    ensures !PointBefore(r.end, p) ==> r'.end == r.end
  {
    if PointBefore(r.end, p) then TextRange(p, p) else TextRange(p, r.end)
  }

  /** `range.setEnd(p)`: an end before the start drags the start along. */
  function SetEnd(r: TextRange, p: Point): (r': TextRange)
    ensures r'.end == p && !PointBefore(r'.end, r'.start)
    ensures !PointBefore(p, r.start) ==> r'.start == r.start
  {
    if PointBefore(p, r.start) then TextRange(p, p) else TextRange(r.start, p)
  }

  /** `range.collapse(true)`. */
  function Collapse(r: TextRange): TextRange {
    TextRange(r.start, r.start)
  }

  // ----- setCursorPosition -----

  /** `textCharacters[k] ?? ''`: the character at `k`, none outside the text. */
  function CharAt(s: string, k: int): Option<char> {
    if 0 <= k < |s| then Some(s[k]) else None
  }

  /**
   * The boundary case after an Enter: the character before `start` is a
   * newline and the text has grown since `setPrevText` recorded its length.
   */
  predicate AfterNewline(chars: string, prevTextLength: Option<nat>, start: int) {
    CharAt(chars, start - 1) == Some('\n') && prevTextLength.Some? && prevTextLength.value < |chars|
  }

  /**
   * Where the start goes once text node `i` holds `start`: `start - charCount`
   * into it, except after a newline; then at the start of the next text node
   * if the next character is not a newline, one character into this node if
   * it is not the last, `start - charCount` in it on Firefox, else two
   * characters in. `None` when the DOM throws: there is no next node, or the
   * node is too short for the offset.
   */
  function StartPoint(nodes: seq<TextNode>, i: nat, prevTextLength: Option<nat>, isFirefox: bool, start: int): (p: Option<Point>)
    requires i < |nodes|
    ensures !AfterNewline(Chars(nodes), prevTextLength, start) ==> p == Some(InText(i, start - CharsBefore(nodes, i)))
    ensures p.Some? && p.value.InText? && p.value.node != i ==> p.value == InText(i + 1, 0)
  {
    var chars := Chars(nodes);
    var charCount := CharsBefore(nodes, i);
    if AfterNewline(chars, prevTextLength, start) then
      if CharAt(chars, start) != Some('\n') then
        if i + 1 < |nodes| then Some(InText(i + 1, 0)) else None
      else if i != |nodes| - 1 then
        if 1 <= |nodes[i].value| then Some(InText(i, 1)) else None
      else if isFirefox then Some(InText(i, start - charCount))
      else if 2 <= |nodes[i].value| then Some(InText(i, 2)) else None
    else Some(InText(i, start - charCount))
  }

  /** The text node holding the end: looked for only when `end` is truthy. */
  function EndNode(nodes: seq<TextNode>, end: Option<int>): Option<nat> {
    if CursorUtils.Truthy(end) then FirstHolding(nodes, end.value, 0) else None
  }

  /**
   * The range the scan leaves when text node `s` holds the start and `e`
   * the end (`None`: no such node), or `None` when placing the start
   * throws. The start and the end are placed in the order the scan meets
   * their nodes, so when the end's node comes first the range is set by
   * `setEnd` and then `setStart`.
   */
  function Placed(nodes: seq<TextNode>, prevTextLength: Option<nat>, isFirefox: bool, start: int, end: Option<int>,
                  s: Option<nat>, e: Option<nat>): Option<TextRange>
    requires s.Some? ==> s.value < |nodes|
    requires e.Some? ==> e.value < |nodes| && end.Some?
  {
    var init := TextRange(TargetStart, TargetEnd);
    var sp := if s.Some? then StartPoint(nodes, s.value, prevTextLength, isFirefox, start) else None;
    var ep := if e.Some? then InText(e.value, end.value - CharsBefore(nodes, e.value)) else TargetEnd;
    if s.Some? && sp.None? then None
    else if s.None? then Some(if e.Some? then SetEnd(init, ep) else init)
    else if e.None? then Some(SetStart(init, sp.value))
    else if e.value < s.value then Some(SetStart(SetEnd(init, ep), sp.value))
    else Some(SetEnd(SetStart(init, sp.value), ep))
  }

  /** Placing the start in node `i` after an end placed in an earlier node, or before any end. */
  lemma PlacedStart(nodes: seq<TextNode>, prevTextLength: Option<nat>, isFirefox: bool, start: int, end: Option<int>,
                    e: Option<nat>, i: nat, r: TextRange, p: Point)
    requires i < |nodes| && (e.Some? ==> e.value < i && end.Some?)
    requires Placed(nodes, prevTextLength, isFirefox, start, end, None, e) == Some(r)
    requires StartPoint(nodes, i, prevTextLength, isFirefox, start) == Some(p)
    ensures Placed(nodes, prevTextLength, isFirefox, start, end, Some(i), e) == Some(SetStart(r, p))
  {
  }

  /** Placing the end in node `i`, at or after the start's node. */
  lemma PlacedEnd(nodes: seq<TextNode>, prevTextLength: Option<nat>, isFirefox: bool, start: int, end: Option<int>,
                  s: Option<nat>, i: nat, r: TextRange)
    requires i < |nodes| && end.Some? && (s.Some? ==> s.value <= i)
    requires Placed(nodes, prevTextLength, isFirefox, start, end, s, None) == Some(r)
    ensures Placed(nodes, prevTextLength, isFirefox, start, end, s, Some(i)) == Some(SetEnd(r, InText(i, end.value - CharsBefore(nodes, i))))
  {
  }

  datatype Outcome = Threw | Selected(range: TextRange)

  /**
   * `setCursorPosition(target, start, end)` over the target's text nodes:
   * the selection it leaves, collapsed to its start when `end` is falsy.
   * Only the boundary placements after a newline can throw.
   */
  function PlaceRange(nodes: seq<TextNode>, prevTextLength: Option<nat>, isFirefox: bool, start: int, end: Option<int>): (o: Outcome)
    ensures o.Threw? ==> AfterNewline(Chars(nodes), prevTextLength, start) && FirstHolding(nodes, start, 0).Some?
    ensures o.Selected? && !CursorUtils.Truthy(end) ==> o.range.start == o.range.end
  {
    match Placed(nodes, prevTextLength, isFirefox, start, end, FirstHolding(nodes, start, 0), EndNode(nodes, end))
    case None => Threw
    case Some(r) => Selected(if CursorUtils.Truthy(end) then r else Collapse(r))
  }

  /** The selection `setCursorPosition` leaves is a valid range over the text nodes. */
  lemma PlacedRangeValid(nodes: seq<TextNode>, prevTextLength: Option<nat>, isFirefox: bool, start: int, end: Option<int>)
    ensures PlaceRange(nodes, prevTextLength, isFirefox, start, end).Selected? ==>
              ValidRange(nodes, PlaceRange(nodes, prevTextLength, isFirefox, start, end).range)
  {
    HoldingSpans(nodes, start, end);
  }

  /**
   * When no text node holds `start`, the start stays at the start of the
   * target, and a truthy `end` is placed as found or left at the target's end.
   */
  lemma PlacedWithoutStart(nodes: seq<TextNode>, prevTextLength: Option<nat>, isFirefox: bool, start: int, end: Option<int>)
    requires FirstHolding(nodes, start, 0).None?
    ensures var o := PlaceRange(nodes, prevTextLength, isFirefox, start, end);
            && o.Selected? && o.range.start == TargetStart
            && o.range.end == (if EndNode(nodes, end).Some? then InText(EndNode(nodes, end).value, end.value - CharsBefore(nodes, EndNode(nodes, end).value))
                               else if CursorUtils.Truthy(end) then TargetEnd else TargetStart)
  {
  }

  /** The spans of the nodes holding `start` and `end`, in cumulative offsets. */
  lemma HoldingSpans(nodes: seq<TextNode>, start: int, end: Option<int>)
    ensures FirstHolding(nodes, start, 0).Some? ==>
              var i := FirstHolding(nodes, start, 0).value;
              CharsBefore(nodes, i) <= start <= CharsBefore(nodes, i) + |nodes[i].value|
    ensures EndNode(nodes, end).Some? ==>
              var j := EndNode(nodes, end).value;
              CharsBefore(nodes, j) <= end.value <= CharsBefore(nodes, j) + |nodes[j].value|
  {
  }

  /** The module's state: `prevTextLength`, undefined until `setPrevText` runs. */
  class LegacyCursor {
    var prevTextLength: Option<nat>

    constructor()
      ensures prevTextLength == None
    {
      prevTextLength := None;
    }

    /** `setPrevText`: record the number of characters in the target's text nodes. */
    method SetPrevText(target: Element)
      modifies this
      ensures prevTextLength == Some(|Chars(TextNodesOf(Elem(target), []))|)
    {
      var textNodes := FindTextNodes([], Elem(target), []);
      assert textNodes == TextNodesOf(Elem(target), []);
      var text := Chars(textNodes);
      prevTextLength := Some(|text|);
    }

    /**
     * `setCursorPosition`: the scan over the text nodes, accumulating
     * `charCount`, placing the start in the first node that holds `start`
     * and the end in the first node that holds a truthy `end`.
     */
    method SetCursorPosition(target: Element, start: int, end: Option<int>, isFirefox: bool) returns (o: Outcome)
      ensures o == PlaceRange(TextNodesOf(Elem(target), []), prevTextLength, isFirefox, start, end)
    {
      var textNodes := FindTextNodes([], Elem(target), []);
      assert textNodes == TextNodesOf(Elem(target), []);
      o := ScanTextNodes(textNodes, prevTextLength, isFirefox, start, end);
    }
  }

  /**
   * What the scan knows after the first `i` text nodes: `charCount` counts
   * their characters, `startNode` and `endNode` are the first of them to
   * hold `start` and a truthy `end`, and `range` is what placing those
   * gave.
   */
  predicate Scanned(nodes: seq<TextNode>, prevTextLength: Option<nat>, isFirefox: bool, start: int, end: Option<int>,
                    i: nat, charCount: int, startNode: Option<nat>, endNode: Option<nat>, range: TextRange) {
    && i <= |nodes|
    && charCount == CharsBefore(nodes, i)
    && (startNode.None? ==> FirstHolding(nodes, start, 0) == FirstHolding(nodes, start, i))
    && (startNode.Some? ==> FirstHolding(nodes, start, 0) == startNode && startNode.value < i)
    && (endNode.None? ==> EndNode(nodes, end) == (if CursorUtils.Truthy(end) then FirstHolding(nodes, end.value, i) else None))
    && (endNode.Some? ==> EndNode(nodes, end) == endNode && endNode.value < i)
    && Placed(nodes, prevTextLength, isFirefox, start, end, startNode, endNode) == Some(range)
  }

  /**
   * The body of the scan for text node `i`. `threw` when placing the start
   * throws; `stop` when the start is placed and `end` is falsy, so the
   * scan breaks off.
   */
  method ScanTextNode(nodes: seq<TextNode>, prevTextLength: Option<nat>, isFirefox: bool, start: int, end: Option<int>,
                      i: nat, charCount: int, startNode: Option<nat>, endNode: Option<nat>, range: TextRange)
    returns (nextCharCount: int, startNode': Option<nat>, endNode': Option<nat>, range': TextRange, threw: bool, stop: bool)
    requires i < |nodes| && Scanned(nodes, prevTextLength, isFirefox, start, end, i, charCount, startNode, endNode, range)
    ensures threw ==> PlaceRange(nodes, prevTextLength, isFirefox, start, end) == Threw
    ensures !threw && stop ==> !CursorUtils.Truthy(end)
    ensures !threw && stop ==>
              Placed(nodes, prevTextLength, isFirefox, start, end, FirstHolding(nodes, start, 0), EndNode(nodes, end)) == Some(range')
    ensures !threw && !stop ==> Scanned(nodes, prevTextLength, isFirefox, start, end, i + 1, nextCharCount, startNode', endNode', range')
  {
    var n := |nodes|;
    var textNode := nodes[i];
    nextCharCount := charCount + |textNode.value|;
    startNode', endNode', range', threw, stop := startNode, endNode, range, false, false;
    if startNode.None? && start >= charCount && (start <= nextCharCount || (start == nextCharCount && i < n - 1)) {
      assert FirstHolding(nodes, start, 0) == Some(i);
      startNode' := Some(i);
      var p := StartPoint(nodes, i, prevTextLength, isFirefox, start);
      if p.None? {
        threw := true;
        return;
      }
      PlacedStart(nodes, prevTextLength, isFirefox, start, end, endNode, i, range, p.value);
      range' := SetStart(range, p.value);
      if !CursorUtils.Truthy(end) {
        stop := true;
        return;
      }
    }
    if CursorUtils.Truthy(end) && endNode.None? && end.value >= charCount && (end.value <= nextCharCount || (end.value == nextCharCount && i < n - 1)) {
      assert EndNode(nodes, end) == Some(i);
      PlacedEnd(nodes, prevTextLength, isFirefox, start, end, startNode', i, range');
      endNode' := Some(i);
      range' := SetEnd(range', InText(i, end.value - charCount));
    }
  }

  /**
   * The loop of `setCursorPosition` over the text nodes, accumulating
   * `charCount`, placing the start in the first node that holds `start`
   * and the end in the first node that holds a truthy `end`.
   */
  method ScanTextNodes(nodes: seq<TextNode>, prevTextLength: Option<nat>, isFirefox: bool, start: int, end: Option<int>) returns (o: Outcome)
    ensures o == PlaceRange(nodes, prevTextLength, isFirefox, start, end)
  {
    var range := TextRange(TargetStart, TargetEnd);
    var charCount := 0;
    var startNode: Option<nat> := None;
    var endNode: Option<nat> := None;
    var i := 0;
    while i < |nodes|
      invariant Scanned(nodes, prevTextLength, isFirefox, start, end, i, charCount, startNode, endNode, range)
      decreases |nodes| - i
    {
      var threw, stop;
      charCount, startNode, endNode, range, threw, stop :=
        ScanTextNode(nodes, prevTextLength, isFirefox, start, end, i, charCount, startNode, endNode, range);
      if threw {
        return Threw;
      }
      if stop {
        break;
      }
      i := i + 1;
    }
    if !CursorUtils.Truthy(end) {
      range := Collapse(range);
    }
    o := Selected(range);
  }

  // ----- getCurrentCursorPosition -----

  /** The length of the text before a boundary: `toString()` of the range from the target's start to it. */
  function LengthBefore(nodes: seq<TextNode>, p: Point): nat
    requires ValidPoint(nodes, p)
  {
    match p
    case TargetStart => 0
    case InText(i, o) => CharsBefore(nodes, i) + o
    case TargetEnd => |Chars(nodes)|
  }

  lemma LengthBeforeMonotone(nodes: seq<TextNode>, a: Point, b: Point)
    requires ValidPoint(nodes, a) && ValidPoint(nodes, b) && !PointBefore(b, a)
    ensures LengthBefore(nodes, a) <= LengthBefore(nodes, b) <= |Chars(nodes)|
  {
    if a.InText? {
      CharsBeforeNext(nodes, a.node);
      CharsBeforeMonotone(nodes, a.node + 1, |nodes|);
      if b.InText? && a.node < b.node {
        CharsBeforeMonotone(nodes, a.node + 1, b.node);
      }
    }
    if b.InText? {
      CharsBeforeNext(nodes, b.node);
      CharsBeforeMonotone(nodes, b.node + 1, |nodes|);
    }
  }

  /** `range.toString()`: the characters between the range's boundaries. */
  function RangeText(nodes: seq<TextNode>, r: TextRange): string
    requires ValidRange(nodes, r)
  {
    LengthBeforeMonotone(nodes, r.start, r.end);
    Chars(nodes)[LengthBefore(nodes, r.start)..LengthBefore(nodes, r.end)]
  }

  /**
   * `getCurrentCursorPosition`: `null` without a selection range, else the
   * length of the text before the range and that plus the selected text's.
   */
  function GetCurrentCursorPosition(nodes: seq<TextNode>, range: Option<TextRange>): (r: Option<Selection>)
    requires range.Some? ==> ValidRange(nodes, range.value)
    ensures r.None? <==> range.None?
    ensures r.Some? ==> 0 <= r.value.start <= r.value.end <= |Chars(nodes)|
    ensures r.Some? ==> r.value.start == LengthBefore(nodes, range.value.start) && r.value.end == LengthBefore(nodes, range.value.end)
  {
    match range
    case None => None
    case Some(rg) =>
      LengthBeforeMonotone(nodes, rg.start, rg.end);
      var start := LengthBefore(nodes, rg.start);
      Some(Selection(start, start + |RangeText(nodes, rg)|))
  }

  /**
   * Away from the newline case, a cursor placed at offsets inside the text
   * reads back as those offsets: `start`, and `end` when it is truthy.
   */
  lemma {:induction false} LegacyRoundTrip(nodes: seq<TextNode>, prevTextLength: Option<nat>, isFirefox: bool, start: int, end: Option<int>)
    requires 0 <= start <= |Chars(nodes)|
    requires CursorUtils.Truthy(end) ==> start <= end.value <= |Chars(nodes)|
    requires !AfterNewline(Chars(nodes), prevTextLength, start)
    ensures var o := PlaceRange(nodes, prevTextLength, isFirefox, start, end);
            && o.Selected? && ValidRange(nodes, o.range)
            && GetCurrentCursorPosition(nodes, Some(o.range)) == Some(Selection(start, CursorUtils.EndOrStart(start, end)))
  {
    var o := PlaceRange(nodes, prevTextLength, isFirefox, start, end);
    if nodes == [] {
      assert Chars(nodes) == "";
      assert o == Selected(TextRange(TargetStart, TargetStart));
    } else {
      SomeNodeHolds(nodes, start, 0);
      var i := FirstHolding(nodes, start, 0).value;
      var sp := InText(i, start - CharsBefore(nodes, i));
      assert StartPoint(nodes, i, prevTextLength, isFirefox, start) == Some(sp);
      assert LengthBefore(nodes, sp) == start;
      if CursorUtils.Truthy(end) {
        SomeNodeHolds(nodes, end.value, 0);
        var j := FirstHolding(nodes, end.value, 0).value;
        if j < i {
          FirstHoldingIsFirst(nodes, start, 0);
          CharsBeforeNext(nodes, j);
          CharsBeforeMonotone(nodes, j + 1, i);
          assert Holds(nodes, j, start);
          assert false;
        }
        var ep := InText(j, end.value - CharsBefore(nodes, j));
        assert !PointBefore(ep, sp);
        assert o == Selected(TextRange(sp, ep));
        assert LengthBefore(nodes, ep) == end.value;
      } else {
        assert o == Selected(TextRange(sp, sp));
      }
    }
  }
}
