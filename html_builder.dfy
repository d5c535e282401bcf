/**
 * The nesting loop of `parseRangesToHTMLNodes` (src/web/parserUtils.ts): the
 * text is split into paragraphs, the ranges are ungrouped and assigned to
 * paragraphs, and each paragraph's ranges become spans nested under the
 * paragraph, with the literal text between them as text nodes. The builder
 * is an arena: an item's parent and children are indexes into `items`,
 * and `current` is the item new elements are appended to (the top level
 * when there is none).
 */
module HtmlBuilder {
  import opened Wrappers
  import opened TextUtils
  import opened StyleMerge
  import opened ParserUtils

  /** What `createParagraph` puts in a new `<p>`. */
  datatype ParagraphContent = NoContent | LineBreak | TextChild(text: string)

  /** How a span is decorated: inline styles, or a class name naming its type. */
  datatype Decoration = Styled(style: Props) | ClassName(name: string)

  /** The elements the builder creates; a span's `innerText` is set only on a leaf span. */
  datatype HtmlElement =
    | ParagraphElement(content: ParagraphContent)
    | TextNode(text: string)
    | SpanElement(decoration: Decoration, innerText: Option<string>)

  /** `createParagraph`: a `<br>` for the empty line, a text node for a non-empty one, nothing for none. */
  function CreateParagraph(text: Option<string>): (p: HtmlElement)
    ensures p.ParagraphElement?
    ensures p.content == LineBreak <==> text == Some("")
    ensures p.content.TextChild? <==> text.Some? && text.value != ""
    ensures p.content.TextChild? ==> p.content.text == text.value
  {
    if text == Some("") then ParagraphElement(LineBreak)
    else if text.Some? then ParagraphElement(TextChild(text.value))
    else ParagraphElement(NoContent)
  }

  /** `element.textContent.length` at the moment the element is added, before any child is appended to it. */
  function TextContentLength(e: HtmlElement): nat {
    match e
    case ParagraphElement(content) => if content.TextChild? then |content.text| else 0
    case TextNode(text) => |text|
    case SpanElement(_, innerText) => if innerText.Some? then |innerText.value| else 0
  }

  /** `length || element.textContent.length`: the given length unless it is null or 0. */
  function ItemLength(length: Option<int>, e: HtmlElement): (r: int)
    ensures length.Some? && length.value != 0 ==> r == length.value
    ensures length.None? || length.value == 0 ==> r == TextContentLength(e)
  {
    if length.Some? && length.value != 0 then length.value else TextContentLength(e)
  }

  datatype HtmlItem = HtmlItem(element: HtmlElement, parent: Option<nat>, children: seq<nat>, start: int, length: int, itemType: MarkdownType)

  function ItemEnd(item: HtmlItem): int {
    item.start + item.length
  }

  /** Only a paragraph, or a span that opened a nesting, ever receives children. */
  predicate IsContainer(e: HtmlElement) {
    e.ParagraphElement? || (e.SpanElement? && e.innerText.None?)
  }

  /**
   * Item `k`'s links agree with the rest of the arena: its parent comes
   * before it, is a container and lists it; its children come after it, in
   * order, and name it as their parent.
   */
  ghost predicate ItemOk(items: seq<HtmlItem>, k: nat)
    requires k < |items|
  {
    && (items[k].parent.Some? ==>
          items[k].parent.value < k && IsContainer(items[items[k].parent.value].element)
          && k in items[items[k].parent.value].children)
    && (forall j | 0 <= j < |items[k].children| ::
          k < items[k].children[j] < |items| && items[items[k].children[j]].parent == Some(k))
    && (forall j, j' | 0 <= j < j' < |items[k].children| :: items[k].children[j] < items[k].children[j'])
  }

  /** Every parent comes before its children, so following parents always ends. */
  ghost predicate ParentsBefore(items: seq<HtmlItem>) {
    forall k | 0 <= k < |items| && items[k].parent.Some? :: items[k].parent.value < k
  }

  ghost predicate Forest(items: seq<HtmlItem>) {
    ParentsBefore(items) && forall k | 0 <= k < |items| :: ItemOk(items, k)
  }

  /** `addItemToTree`'s effect on the arena: the item is appended, and listed as the next child of its parent if it has one. */
  function Attach(items: seq<HtmlItem>, item: HtmlItem): seq<HtmlItem>
    requires item.parent.Some? ==> item.parent.value < |items|
  {
    var p := item.parent;
    (if p.Some? then items[p.value := items[p.value].(children := items[p.value].children + [|items|])] else items) + [item]
  }

  /** What `Attach` leaves at each index: the old item, with the new index as its last child if it is the parent. */
  lemma AttachAt(items: seq<HtmlItem>, item: HtmlItem, k: nat)
    requires item.parent.Some? ==> item.parent.value < |items|
    requires k <= |items|
    ensures |Attach(items, item)| == |items| + 1
    ensures k == |items| ==> Attach(items, item)[k] == item
    ensures k < |items| ==>
              Attach(items, item)[k] == items[k].(children := if item.parent == Some(k) then items[k].children + [|items|] else items[k].children)
  {
  }

  lemma AttachForest(items: seq<HtmlItem>, item: HtmlItem)
    requires Forest(items) && item.children == []
    requires item.parent.Some? ==> item.parent.value < |items| && IsContainer(items[item.parent.value].element)
    ensures Forest(Attach(items, item))
  {
    var next := Attach(items, item);
    AttachParentsBefore(items, item);
    forall k | 0 <= k < |next| ensures ItemOk(next, k) {
      AttachItemOk(items, item, k);
    }
  }

  lemma AttachParentsBefore(items: seq<HtmlItem>, item: HtmlItem)
    requires ParentsBefore(items)
    requires item.parent.Some? ==> item.parent.value < |items|
    ensures ParentsBefore(Attach(items, item))
  {
    forall k | 0 <= k <= |items|
      ensures Attach(items, item)[k].parent == if k < |items| then items[k].parent else item.parent
    {
      AttachAt(items, item, k);
    }
  }

  lemma AttachItemOk(items: seq<HtmlItem>, item: HtmlItem, k: nat)
    requires Forest(items) && item.children == []
    requires item.parent.Some? ==> item.parent.value < |items| && IsContainer(items[item.parent.value].element)
    requires k <= |items|
    ensures ItemOk(Attach(items, item), k)
  {
    var next := Attach(items, item);
    var n := |items|;
    AttachAt(items, item, k);
    if k < n {
      assert ItemOk(items, k);
    }
    if next[k].parent.Some? {
      var p := next[k].parent.value;
      AttachAt(items, item, p);
    }
    if k < n {
      assert ItemOk(items, k);
      forall j | 0 <= j < |next[k].children|
        ensures k < next[k].children[j] < |next| && next[next[k].children[j]].parent == Some(k)
      {
        if j < |items[k].children| {
          assert next[k].children[j] == items[k].children[j];
          AttachAt(items, item, items[k].children[j]);
        }
      }
      forall j, j' | 0 <= j < j' < |next[k].children|
        ensures next[k].children[j] < next[k].children[j']
      {
        if j' < |items[k].children| {
          assert next[k].children[j] == items[k].children[j];
        }
      }
    }
  }

  /** The three kinds of item the builder creates. */
  datatype Kind = ParagraphKind | SpanKind | TextKind

  function KindOf(e: HtmlElement): Kind {
    match e
    case ParagraphElement(_) => ParagraphKind
    case SpanElement(_, _) => SpanKind
    case TextNode(_) => TextKind
  }

  /** An item without its links: what it is, where it starts, how long it is and its type. */
  datatype ItemShape = ItemShape(element: HtmlElement, start: int, length: int, itemType: MarkdownType)

  function ShapeOf(item: HtmlItem): ItemShape {
    ItemShape(item.element, item.start, item.length, item.itemType)
  }

  /** The shapes of the items of one kind, in creation order. */
  function Shapes(items: seq<HtmlItem>, kind: Kind): seq<ItemShape> {
    if items == [] then []
    else Shapes(items[..|items| - 1], kind) + (if KindOf(items[|items| - 1].element) == kind then [ShapeOf(items[|items| - 1])] else [])
  }

  function ShapesOfItem(item: HtmlItem, kind: Kind): seq<ItemShape> {
    if KindOf(item.element) == kind then [ShapeOf(item)] else []
  }

  /** Changing only an item's children leaves every list of shapes as it was. */
  lemma {:induction false} ShapesIgnoreChildren(items: seq<HtmlItem>, p: nat, children: seq<nat>, kind: Kind)
    requires p < |items|
    ensures Shapes(items[p := items[p].(children := children)], kind) == Shapes(items, kind)
    decreases |items|
  {
    var next := items[p := items[p].(children := children)];
    if p < |items| - 1 {
      assert next[..|next| - 1] == items[..|items| - 1][p := items[p].(children := children)];
      ShapesIgnoreChildren(items[..|items| - 1], p, children, kind);
    } else {
      assert next[..|next| - 1] == items[..|items| - 1];
    }
  }

  lemma ShapesAttach(items: seq<HtmlItem>, item: HtmlItem, kind: Kind)
    requires item.parent.Some? ==> item.parent.value < |items|
    ensures Shapes(Attach(items, item), kind) == Shapes(items, kind) + ShapesOfItem(item, kind)
  {
    var next := Attach(items, item);
    assert next[..|next| - 1] == (if item.parent.Some? then items[item.parent.value := items[item.parent.value].(children := items[item.parent.value].children + [|items|])] else items);
    if item.parent.Some? {
      ShapesIgnoreChildren(items, item.parent.value, items[item.parent.value].children + [|items|], kind);
    }
  }

  /** Text nodes are never empty, and paragraphs are always at the top level. */
  ghost predicate WellShaped(items: seq<HtmlItem>) {
    && (forall k | 0 <= k < |items| && items[k].element.TextNode? :: items[k].element.text != "")
    && (forall k | 0 <= k < |items| && items[k].element.ParagraphElement? :: items[k].parent.None?)
  }

  // ----- the builder's state as a value -----

  /** The arena and `currentTreeItem` at some point of the build. */
  datatype Build = Build(items: seq<HtmlItem>, current: Option<nat>)

  /** The state the spec functions below work on: parents precede children and the current item exists. */
  ghost predicate Linked(b: Build) {
    ParentsBefore(b.items) && (b.current.Some? ==> b.current.value < |b.items|)
  }

  /** `addItemToTree`: a childless item appended under the current item, which stays current. */
  ghost function AddNode(b: Build, element: HtmlElement, itemType: MarkdownType, start: int, length: Option<int>): (r: Build)
    requires Linked(b)
    ensures Linked(r) && r.current == b.current && |r.items| == |b.items| + 1
  {
    var item := HtmlItem(element, b.current, [], start, ItemLength(length, element), itemType);
    AttachParentsBefore(b.items, item);
    Build(Attach(b.items, item), b.current)
  }

  /** The text node of a non-empty `text`, with its parent and start; no node for the empty text. */
  function TextItem(text: string, parent: Option<nat>, start: int): seq<HtmlItem> {
    if text != "" then [HtmlItem(TextNode(text), parent, [], start, |text|, Text)] else []
  }

  /** `if (text) addItemToTree(document.createTextNode(text), 'text', from)` for `text = lineText.substring(from, to)`. */
  ghost function AddTextNode(b: Build, lineText: string, from: int, to: int): (r: Build)
    requires Linked(b)
    ensures Linked(r) && r.current == b.current && |b.items| <= |r.items|
  {
    var text := Substring(lineText, from, to);
    if text != "" then AddNode(b, TextNode(text), Text, from, None) else b
  }

  /** The state after a step, with `lastRangeEndIndex`. */
  datatype Step = Step(build: Build, lastRangeEnd: int)

  /**
   * The pop loop: while the next range starts at or after the current item's
   * end, the text before that end goes into the item, and its parent becomes
   * current.
   */
  ghost function CloseEnded(b: Build, lineText: string, nextRangeStart: int, lastRangeEnd: int): (s: Step)
    requires Linked(b)
    ensures Linked(s.build) && |b.items| <= |s.build.items|
    decreases Height(b.current)
  {
    if b.current.None? || nextRangeStart < ItemEnd(b.items[b.current.value]) then Step(b, lastRangeEnd)
    else
      var closing := b.items[b.current.value];
      var b1 := AddTextNode(b, lineText, lastRangeEnd, ItemEnd(closing));
      CloseEnded(Build(b1.items, closing.parent), lineText, nextRangeStart, ItemEnd(closing))
  }

  /** The range's span: a nesting span that becomes current, or a leaf after which the ended items are closed. */
  ghost function SpanStep(b: Build, lineText: string, range: MarkdownRange, nextRangeStart: int, stackLength: nat,
                          ms: MarkdownStyle, disableInlineStyles: bool): (s: Step)
    requires Linked(b)
    ensures Linked(s.build)
  {
    var endOfCurrentRange := range.start + range.length;
    var decoration := Decorate(range.rangeType, ms, disableInlineStyles);
    if stackLength > 0 && nextRangeStart < endOfCurrentRange && range.rangeType != Syntax then
      var b1 := AddNode(b, SpanElement(decoration, None), range.rangeType, range.start, Some(range.length));
      Step(Build(b1.items, Some(|b.items|)), range.start)
    else
      var span := SpanElement(decoration, Some(Substring(lineText, range.start, endOfCurrentRange)));
      CloseEnded(AddNode(b, span, range.rangeType, range.start, Some(range.length)), lineText, nextRangeStart, endOfCurrentRange)
  }

  /** One turn of the line loop: the text since the last range, then the range's span. */
  ghost function RangeStep(b: Build, lineText: string, range: MarkdownRange, nextRangeStart: int, stackLength: nat,
                           lastRangeEnd: int, ms: MarkdownStyle, disableInlineStyles: bool): (s: Step)
    requires Linked(b)
    ensures Linked(s.build)
  {
    SpanStep(AddTextNode(b, lineText, lastRangeEnd, range.start), lineText, range, nextRangeStart, stackLength, ms, disableInlineStyles)
  }

  /** The line loop from range `j` on. */
  ghost function LineRangesFrom(b: Build, line: Paragraph, textLength: int, stackLength: nat, ms: MarkdownStyle,
                                disableInlineStyles: bool, j: nat, lastRangeEnd: int): (r: Build)
    requires Linked(b) && j <= |line.markdownRanges|
    ensures Linked(r)
    decreases |line.markdownRanges| - j
  {
    if j == |line.markdownRanges| then b
    else
      var rs := line.markdownRanges;
      var s := RangeStep(b, line.text, rs[j], NextRangeStart(rs, j, textLength), stackLength, lastRangeEnd, ms, disableInlineStyles);
      LineRangesFrom(s.build, line, textLength, stackLength, ms, disableInlineStyles, j + 1, s.lastRangeEnd)
  }

  /** One turn of the line loop, for `LineRangesFrom`: the rest of the loop from the state the range's step leaves. */
  lemma LineRangesFromStep(b: Build, after: Build, newLastRangeEnd: int, line: Paragraph, textLength: int, stackLength: nat,
                           ms: MarkdownStyle, disableInlineStyles: bool, j: nat, lastRangeEnd: int)
    requires Linked(b) && Linked(after) && j < |line.markdownRanges|
    requires var rs := line.markdownRanges;
             Step(after, newLastRangeEnd)
             == RangeStep(b, line.text, rs[j], NextRangeStart(rs, j, textLength), stackLength, lastRangeEnd, ms, disableInlineStyles)
    ensures LineRangesFrom(b, line, textLength, stackLength, ms, disableInlineStyles, j, lastRangeEnd)
            == LineRangesFrom(after, line, textLength, stackLength, ms, disableInlineStyles, j + 1, newLastRangeEnd)
  {
  }

  /** One turn of `lines.forEach`: the line's `<p>` at the top level, then its ranges with the `<p>` as current item. */
  ghost function LineBuild(items: seq<HtmlItem>, line: Paragraph, textLength: int, stackLength: nat, ms: MarkdownStyle,
                           disableInlineStyles: bool): (r: Build)
    requires ParentsBefore(items)
    ensures Linked(r)
  {
    var p := CreateParagraph(if |line.markdownRanges| > 0 then None else Some(line.text));
    var b := AddNode(Build(items, None), p, Text, line.start, Some(line.length));
    LineRangesFrom(Build(b.items, Some(|items|)), line, textLength, stackLength, ms, disableInlineStyles, 0, 0)
  }

  /** All the lines, in order, from an empty tree. */
  ghost function LinesBuild(lines: seq<Paragraph>, textLength: int, stackLength: nat, ms: MarkdownStyle, disableInlineStyles: bool): (r: Build)
    ensures Linked(r)
  {
    if lines == [] then Build([], None)
    else LineBuild(LinesBuild(lines[..|lines| - 1], textLength, stackLength, ms, disableInlineStyles).items,
                   lines[|lines| - 1], textLength, stackLength, ms, disableInlineStyles)
  }

  // ----- what the pop loop and a range do to the tree -----

  /** One more than the index of `current`: parents come before children, so this falls along the parent chain. */
  function Height(current: Option<nat>): nat {
    if current.Some? then current.value + 1 else 0
  }

  /**
   * The first item on the parent chain from `current` (itself included)
   * that has not ended by `nextRangeStart`; none when all of them have.
   */
  ghost function FirstOpen(items: seq<HtmlItem>, current: Option<nat>, nextRangeStart: int): (r: Option<nat>)
    requires ParentsBefore(items) && Height(current) <= |items|
    ensures Height(r) <= Height(current)
    ensures r.Some? ==> nextRangeStart < ItemEnd(items[r.value])
    decreases Height(current)
  {
    if current.None? || nextRangeStart < ItemEnd(items[current.value]) then current
    else FirstOpen(items, items[current.value].parent, nextRangeStart)
  }

  /** The end of the last item on that chain before `FirstOpen`; `lastRangeEnd` when the first item is open. */
  ghost function ClosedEnd(items: seq<HtmlItem>, current: Option<nat>, nextRangeStart: int, lastRangeEnd: int): int
    requires ParentsBefore(items) && Height(current) <= |items|
    decreases Height(current)
  {
    if current.None? || nextRangeStart < ItemEnd(items[current.value]) then lastRangeEnd
    else ClosedEnd(items, items[current.value].parent, nextRangeStart, ItemEnd(items[current.value]))
  }

  /**
   * The text nodes that closing the ended items of the chain adds: into
   * each, the text from the previous end to its own end, when non-empty.
   */
  ghost function ClosedTexts(items: seq<HtmlItem>, current: Option<nat>, nextRangeStart: int, lineText: string,
                             lastRangeEnd: int): seq<HtmlItem>
    requires ParentsBefore(items) && Height(current) <= |items|
    decreases Height(current)
  {
    if current.None? || nextRangeStart < ItemEnd(items[current.value]) then []
    else
      var itemEnd := ItemEnd(items[current.value]);
      TextItem(Substring(lineText, lastRangeEnd, itemEnd), current, lastRangeEnd)
        + ClosedTexts(items, items[current.value].parent, nextRangeStart, lineText, itemEnd)
  }

  /** Two items that differ at most in their children. */
  predicate SameButChildren(a: HtmlItem, b: HtmlItem) {
    ShapeOf(a) == ShapeOf(b) && a.parent == b.parent
  }

  /** `after` keeps every item of `before`, up to its children. */
  ghost predicate Extends(before: seq<HtmlItem>, after: seq<HtmlItem>) {
    |before| <= |after| && forall k | 0 <= k < |before| :: SameButChildren(after[k], before[k])
  }

  lemma AddNodeExtends(b: Build, element: HtmlElement, itemType: MarkdownType, start: int, length: Option<int>)
    requires Linked(b)
    ensures var r := AddNode(b, element, itemType, start, length);
            && Extends(b.items, r.items)
            && r.items[|b.items|] == HtmlItem(element, b.current, [], start, ItemLength(length, element), itemType)
            && forall k | 0 <= k < |b.items| && Some(k) != b.current :: r.items[k] == b.items[k]
  {
    var item := HtmlItem(element, b.current, [], start, ItemLength(length, element), itemType);
    forall k | 0 <= k <= |b.items| {
      AttachAt(b.items, item, k);
    }
  }

  lemma AddTextNodeAdds(b: Build, lineText: string, from: int, to: int)
    requires Linked(b)
    ensures Extends(b.items, AddTextNode(b, lineText, from, to).items)
    ensures AddTextNode(b, lineText, from, to).items[|b.items|..] == TextItem(Substring(lineText, from, to), b.current, from)
    ensures forall k | 0 <= k < |b.items| && Some(k) != b.current :: AddTextNode(b, lineText, from, to).items[k] == b.items[k]
  {
    var r := AddTextNode(b, lineText, from, to);
    var text := Substring(lineText, from, to);
    if text != "" {
      AddNonEmptyTextNode(b, text, from);
    } else {
      assert r == b;
      assert r.items[|b.items|..] == [];
    }
  }

  lemma AddNonEmptyTextNode(b: Build, text: string, from: int)
    requires Linked(b) && text != ""
    ensures var r := AddNode(b, TextNode(text), Text, from, None);
            && Extends(b.items, r.items)
            && r.items[|b.items|..] == TextItem(text, b.current, from)
            && forall k | 0 <= k < |b.items| && Some(k) != b.current :: r.items[k] == b.items[k]
  {
    var r := AddNode(b, TextNode(text), Text, from, None);
    AddNodeExtends(b, TextNode(text), Text, from, None);
    assert r.items[|b.items|..] == [r.items[|b.items|]];
  }

  lemma {:induction false} ExtendsTrans(a: seq<HtmlItem>, b: seq<HtmlItem>, c: seq<HtmlItem>)
    requires Extends(a, b) && Extends(b, c)
    ensures Extends(a, c)
  {
  }

  /** The chain functions read only parents and ends, which `Extends` keeps. */
  lemma {:induction false} ChainKept(before: seq<HtmlItem>, after: seq<HtmlItem>, current: Option<nat>, nextRangeStart: int,
                                     lineText: string, lastRangeEnd: int)
    requires ParentsBefore(before) && ParentsBefore(after) && Extends(before, after) && Height(current) <= |before|
    ensures FirstOpen(after, current, nextRangeStart) == FirstOpen(before, current, nextRangeStart)
    ensures ClosedEnd(after, current, nextRangeStart, lastRangeEnd) == ClosedEnd(before, current, nextRangeStart, lastRangeEnd)
    ensures ClosedTexts(after, current, nextRangeStart, lineText, lastRangeEnd)
         == ClosedTexts(before, current, nextRangeStart, lineText, lastRangeEnd)
    decreases Height(current)
  {
    if current.Some? {
      var c := current.value;
      assert SameButChildren(after[c], before[c]);
      assert ItemEnd(after[c]) == ItemEnd(before[c]) && after[c].parent == before[c].parent;
      ChainKept(before, after, before[c].parent, nextRangeStart, lineText, ItemEnd(before[c]));
    }
  }

  /**
   * The pop loop stops at the first item of the current item's parent chain
   * that has not ended by `nextRangeStart` (none when all have), and leaves
   * `lastRangeEndIndex` at the end of the last item it closed.
   */
  lemma {:induction false} CloseEndedClimbs(b: Build, lineText: string, nextRangeStart: int, lastRangeEnd: int)
    requires Linked(b)
    ensures var s := CloseEnded(b, lineText, nextRangeStart, lastRangeEnd);
            && s.build.current == FirstOpen(b.items, b.current, nextRangeStart)
            && s.lastRangeEnd == ClosedEnd(b.items, b.current, nextRangeStart, lastRangeEnd)
    decreases Height(b.current)
  {
    if b.current.Some? && nextRangeStart >= ItemEnd(b.items[b.current.value]) {
      var closing := b.items[b.current.value];
      var b1 := AddTextNode(b, lineText, lastRangeEnd, ItemEnd(closing));
      AddTextNodeAdds(b, lineText, lastRangeEnd, ItemEnd(closing));
      CloseEndedClimbs(Build(b1.items, closing.parent), lineText, nextRangeStart, ItemEnd(closing));
      ChainKept(b.items, b1.items, closing.parent, nextRangeStart, lineText, ItemEnd(closing));
    }
  }

  /**
   * What the pop loop adds: the `ClosedTexts` of the chain, after the items
   * there were; the old items keep their shapes and parents, and those past
   * the current item do not change at all.
   */
  lemma {:induction false} CloseEndedAdds(b: Build, lineText: string, nextRangeStart: int, lastRangeEnd: int)
    requires Linked(b)
    ensures var s := CloseEnded(b, lineText, nextRangeStart, lastRangeEnd);
            && Extends(b.items, s.build.items)
            && s.build.items[|b.items|..] == ClosedTexts(b.items, b.current, nextRangeStart, lineText, lastRangeEnd)
            && (forall k | Height(b.current) <= k < |b.items| :: s.build.items[k] == b.items[k])
    decreases Height(b.current)
  {
    if b.current.Some? && nextRangeStart >= ItemEnd(b.items[b.current.value]) {
      var closing := b.items[b.current.value];
      var b1 := AddTextNode(b, lineText, lastRangeEnd, ItemEnd(closing));
      CloseEndedAdds(Build(b1.items, closing.parent), lineText, nextRangeStart, ItemEnd(closing));
      CloseEndedAddsStep(b, lineText, nextRangeStart, lastRangeEnd);
    }
  }

  /** The recursive step of `CloseEndedAdds`, from what it states about the rest of the pop loop. */
  lemma CloseEndedAddsStep(b: Build, lineText: string, nextRangeStart: int, lastRangeEnd: int)
    requires Linked(b) && b.current.Some? && nextRangeStart >= ItemEnd(b.items[b.current.value])
    requires var closing := b.items[b.current.value];
             var b1 := AddTextNode(b, lineText, lastRangeEnd, ItemEnd(closing));
             var s := CloseEnded(Build(b1.items, closing.parent), lineText, nextRangeStart, ItemEnd(closing));
             && Extends(b1.items, s.build.items)
             && s.build.items[|b1.items|..] == ClosedTexts(b1.items, closing.parent, nextRangeStart, lineText, ItemEnd(closing))
             && (forall k | Height(closing.parent) <= k < |b1.items| :: s.build.items[k] == b1.items[k])
    ensures var s := CloseEnded(b, lineText, nextRangeStart, lastRangeEnd);
            && Extends(b.items, s.build.items)
            && s.build.items[|b.items|..] == ClosedTexts(b.items, b.current, nextRangeStart, lineText, lastRangeEnd)
            && (forall k | Height(b.current) <= k < |b.items| :: s.build.items[k] == b.items[k])
  {
    var c := b.current.value;
    var closing := b.items[c];
    var b1 := AddTextNode(b, lineText, lastRangeEnd, ItemEnd(closing));
    var result := CloseEnded(Build(b1.items, closing.parent), lineText, nextRangeStart, ItemEnd(closing)).build.items;
    AddTextNodeAdds(b, lineText, lastRangeEnd, ItemEnd(closing));
    ChainKept(b.items, b1.items, closing.parent, nextRangeStart, lineText, ItemEnd(closing));
    ComposeSteps(b.items, b1.items, result, c, Height(closing.parent));
    assert ClosedTexts(b.items, b.current, nextRangeStart, lineText, lastRangeEnd)
        == b1.items[|b.items|..] + ClosedTexts(b.items, closing.parent, nextRangeStart, lineText, ItemEnd(closing));
    assert result[|b.items|..] == ClosedTexts(b.items, b.current, nextRangeStart, lineText, lastRangeEnd);
    CloseEndedUnfold(b, lineText, nextRangeStart, lastRangeEnd);
  }

  /** One turn of the pop loop, on an ended current item. */
  lemma CloseEndedUnfold(b: Build, lineText: string, nextRangeStart: int, lastRangeEnd: int)
    requires Linked(b) && b.current.Some? && nextRangeStart >= ItemEnd(b.items[b.current.value])
    ensures var closing := b.items[b.current.value];
            var b1 := AddTextNode(b, lineText, lastRangeEnd, ItemEnd(closing));
            CloseEnded(b, lineText, nextRangeStart, lastRangeEnd)
            == CloseEnded(Build(b1.items, closing.parent), lineText, nextRangeStart, ItemEnd(closing))
  {
  }

  /** An item-adding step into item `c`, then a step that leaves the items from `bound` on alone. */
  lemma ComposeSteps(items: seq<HtmlItem>, items1: seq<HtmlItem>, result: seq<HtmlItem>, c: nat, bound: nat)
    requires Extends(items, items1) && Extends(items1, result) && bound <= c < |items|
    requires forall k | 0 <= k < |items| && k != c :: items1[k] == items[k]
    requires forall k | bound <= k < |items1| :: result[k] == items1[k]
    ensures Extends(items, result)
    ensures result[|items|..] == items1[|items|..] + result[|items1|..]
    ensures forall k | c < k < |items| :: result[k] == items[k]
  {
    KeptPast(items1, result, |items|, bound);
    SliceSplit(result, |items|, |items1|);
  }

  /** Items from `lo` on that a step leaves alone, as a slice. */
  lemma KeptPast(items1: seq<HtmlItem>, result: seq<HtmlItem>, lo: nat, bound: nat)
    requires bound <= lo <= |items1| <= |result|
    requires forall k | bound <= k < |items1| :: result[k] == items1[k]
    ensures result[lo..|items1|] == items1[lo..]
  {
  }

  lemma SliceSplit<T>(s: seq<T>, a: nat, b: nat)
    requires a <= b <= |s|
    ensures s[a..] == s[a..b] + s[b..]
  {
  }

  /**
   * A range appends the text since the last range as a text node (when
   * non-empty) and then its `SpanItem`, both under the current item. A span
   * that opens a nesting becomes current with `lastRangeEndIndex` at its
   * start; after any other span the pop loop closes the ended items of the
   * current item's chain, appending their `ClosedTexts`, as
   * `CloseEndedClimbs` and `CloseEndedAdds` say.
   */
  lemma RangeStepAdds(b: Build, lineText: string, range: MarkdownRange, nextRangeStart: int, stackLength: nat,
                      lastRangeEnd: int, ms: MarkdownStyle, disableInlineStyles: bool)
    requires Linked(b)
    ensures var s := RangeStep(b, lineText, range, nextRangeStart, stackLength, lastRangeEnd, ms, disableInlineStyles);
            var before := TextItem(Substring(lineText, lastRangeEnd, range.start), b.current, lastRangeEnd);
            var span := SpanItem(lineText, range, nextRangeStart, stackLength, b.current, ms, disableInlineStyles);
            var opens := Opens(range, nextRangeStart, stackLength);
            var endOfCurrentRange := range.start + range.length;
            && Extends(b.items, s.build.items)
            && s.build.items[|b.items|..]
               == before + [span] + (if opens then [] else ClosedTexts(b.items, b.current, nextRangeStart, lineText, endOfCurrentRange))
            && s.build.current
               == (if opens then Some(|b.items| + |before|) else FirstOpen(b.items, b.current, nextRangeStart))
            && s.lastRangeEnd
               == (if opens then range.start else ClosedEnd(b.items, b.current, nextRangeStart, endOfCurrentRange))
  {
    var b2 := RangeStepAppends(b, lineText, range, nextRangeStart, stackLength, lastRangeEnd, ms, disableInlineStyles);
    if Opens(range, nextRangeStart, stackLength) {
      assert b2.items[|b.items|..] == b2.items[|b.items|..] + [];
    } else {
      var s := CloseEnded(b2, lineText, nextRangeStart, range.start + range.length);
      SpanLeafStep(b, b2, lineText, nextRangeStart, range.start + range.length);
      SliceSplit(s.build.items, |b.items|, |b2.items|);
    }
  }

  /** The text node and the span a range appends before any pop loop, as `b2`. */
  lemma RangeStepAppends(b: Build, lineText: string, range: MarkdownRange, nextRangeStart: int, stackLength: nat,
                         lastRangeEnd: int, ms: MarkdownStyle, disableInlineStyles: bool) returns (b2: Build)
    requires Linked(b)
    ensures var before := TextItem(Substring(lineText, lastRangeEnd, range.start), b.current, lastRangeEnd);
            var span := SpanItem(lineText, range, nextRangeStart, stackLength, b.current, ms, disableInlineStyles);
            && Linked(b2) && b2.current == b.current && Extends(b.items, b2.items)
            && |b.items| < |b2.items| && b2.items[|b.items|..] == before + [span]
            && RangeStep(b, lineText, range, nextRangeStart, stackLength, lastRangeEnd, ms, disableInlineStyles)
               == if Opens(range, nextRangeStart, stackLength) then Step(Build(b2.items, Some(|b.items| + |before|)), range.start)
                  else CloseEnded(b2, lineText, nextRangeStart, range.start + range.length)
  {
    var b1 := AddTextNode(b, lineText, lastRangeEnd, range.start);
    AddTextNodeAdds(b, lineText, lastRangeEnd, range.start);
    var item := SpanItem(lineText, range, nextRangeStart, stackLength, b.current, ms, disableInlineStyles);
    b2 := AddNode(b1, item.element, range.rangeType, range.start, Some(range.length));
    AddNodeExtends(b1, item.element, range.rangeType, range.start, Some(range.length));
    ExtendsTrans(b.items, b1.items, b2.items);
    assert b2.items[|b.items|..|b1.items|] == b1.items[|b.items|..];
    SliceSplit(b2.items, |b.items|, |b1.items|);
    assert b2.items[|b1.items|..] == [item];
    SpanStepUnfold(b1, lineText, range, nextRangeStart, stackLength, ms, disableInlineStyles);
  }

  /** The span step, with its span as `SpanItem` gives it. */
  lemma SpanStepUnfold(b: Build, lineText: string, range: MarkdownRange, nextRangeStart: int, stackLength: nat,
                       ms: MarkdownStyle, disableInlineStyles: bool)
    requires Linked(b)
    ensures var item := SpanItem(lineText, range, nextRangeStart, stackLength, b.current, ms, disableInlineStyles);
            var b2 := AddNode(b, item.element, range.rangeType, range.start, Some(range.length));
            var s := SpanStep(b, lineText, range, nextRangeStart, stackLength, ms, disableInlineStyles);
            && b2.items[|b.items|] == item
            && s == if Opens(range, nextRangeStart, stackLength) then Step(Build(b2.items, Some(|b.items|)), range.start)
                    else CloseEnded(b2, lineText, nextRangeStart, range.start + range.length)
  {
    var item := SpanItem(lineText, range, nextRangeStart, stackLength, b.current, ms, disableInlineStyles);
    AddNodeExtends(b, item.element, range.rangeType, range.start, Some(range.length));
  }

  /** After a leaf span at the end of `b2`, the pop loop runs on `b`'s chain and leaves the items from `b` on alone. */
  lemma SpanLeafStep(b: Build, b2: Build, lineText: string, nextRangeStart: int, endOfCurrentRange: int)
    requires Linked(b) && Linked(b2) && Extends(b.items, b2.items) && b2.current == b.current && |b.items| < |b2.items|
    ensures var s := CloseEnded(b2, lineText, nextRangeStart, endOfCurrentRange);
            && Extends(b.items, s.build.items)
            && s.build.items[|b.items|..|b2.items|] == b2.items[|b.items|..]
            && s.build.items[|b2.items|..] == ClosedTexts(b.items, b.current, nextRangeStart, lineText, endOfCurrentRange)
            && s.build.current == FirstOpen(b.items, b.current, nextRangeStart)
            && s.lastRangeEnd == ClosedEnd(b.items, b.current, nextRangeStart, endOfCurrentRange)
  {
    var s := CloseEnded(b2, lineText, nextRangeStart, endOfCurrentRange);
    CloseEndedClimbs(b2, lineText, nextRangeStart, endOfCurrentRange);
    CloseEndedAdds(b2, lineText, nextRangeStart, endOfCurrentRange);
    ChainKept(b.items, b2.items, b.current, nextRangeStart, lineText, endOfCurrentRange);
    ExtendsTrans(b.items, b2.items, s.build.items);
    KeptPast(b2.items, s.build.items, |b.items|, Height(b.current));
  }


  class TreeBuilder {
    /** Every item created so far; the ones without a parent are the root `<div>`'s children (`tree`). */
    var items: seq<HtmlItem>
    /** `currentTreeItem`. */
    var current: Option<nat>

    ghost predicate Valid()
      reads this
    {
      Forest(items) && (current.Some? ==> current.value < |items| && IsContainer(items[current.value].element))
    }

    constructor ()
      ensures Valid() && items == [] && current == None
    {
      items := [];
      current := None;
    }

    /**
     * `addItemToTree`: a new childless item under the current item (or at the
     * top level), with the given length unless that is null or 0.
     */
    method AddItemToTree(element: HtmlElement, itemType: MarkdownType, start: int, length: Option<int>) returns (k: nat)
      requires Valid()
      modifies this
      ensures Valid() && current == old(current) && k == old(|items|)
      ensures |items| == k + 1 && items[k] == HtmlItem(element, current, [], start, ItemLength(length, element), itemType)
      ensures items == Attach(old(items), HtmlItem(element, current, [], start, ItemLength(length, element), itemType))
      ensures Shapes(items, ParagraphKind) == old(Shapes(items, ParagraphKind)) + ShapesOfItem(items[k], ParagraphKind)
      ensures Shapes(items, SpanKind) == old(Shapes(items, SpanKind)) + ShapesOfItem(items[k], SpanKind)
      ensures WellShaped(old(items)) && (element.TextNode? ==> element.text != "") && (element.ParagraphElement? ==> current.None?)
              ==> WellShaped(items)
    {
      var item := HtmlItem(element, current, [], start, ItemLength(length, element), itemType);
      AttachForest(items, item);
      ShapesAttach(items, item, ParagraphKind);
      ShapesAttach(items, item, SpanKind);
      k := |items|;
      if current.Some? {
        var p := current.value;
        items := items[p := items[p].(children := items[p].children + [k])];
      }
      items := items + [item];
    }

    /**
     * The pop loop after a leaf span: while the next range starts at or after
     * the current item's end, the text left before that end becomes a text
     * node (when non-empty) and the current item moves to its parent. It
     * stops at `FirstOpen`, ends with `lastRangeEndIndex` at `ClosedEnd` and
     * appends the `ClosedTexts`, nothing else.
     */
    method CloseEndedItems(lineText: string, nextRangeStart: int, lastRangeEnd: int) returns (newLastRangeEnd: int)
      requires Valid()
      modifies this
      ensures Valid()
      ensures Step(Build(items, current), newLastRangeEnd) == CloseEnded(Build(old(items), old(current)), lineText, nextRangeStart, lastRangeEnd)
      ensures current == FirstOpen(old(items), old(current), nextRangeStart)
      ensures newLastRangeEnd == ClosedEnd(old(items), old(current), nextRangeStart, lastRangeEnd)
      ensures Extends(old(items), items)
      ensures items[|old(items)|..] == ClosedTexts(old(items), old(current), nextRangeStart, lineText, lastRangeEnd)
      ensures Shapes(items, ParagraphKind) == old(Shapes(items, ParagraphKind))
      ensures Shapes(items, SpanKind) == old(Shapes(items, SpanKind))
      ensures WellShaped(old(items)) ==> WellShaped(items)
    {
      ghost var b0 := Build(items, current);
      newLastRangeEnd := lastRangeEnd;
      while current.Some? && nextRangeStart >= ItemEnd(items[current.value])
        invariant Valid()
        invariant CloseEnded(Build(items, current), lineText, nextRangeStart, newLastRangeEnd)
               == CloseEnded(b0, lineText, nextRangeStart, lastRangeEnd)
        invariant Shapes(items, ParagraphKind) == old(Shapes(items, ParagraphKind))
        invariant Shapes(items, SpanKind) == old(Shapes(items, SpanKind))
        invariant WellShaped(old(items)) ==> WellShaped(items)
        decreases Height(current)
      {
        assert ItemOk(items, current.value);
        ghost var b := Build(items, current);
        CloseEndedUnfold(b, lineText, nextRangeStart, newLastRangeEnd);
        var closing := items[current.value];
        var textAfterRange := Substring(lineText, newLastRangeEnd, ItemEnd(closing));
        if textAfterRange != "" {
          var _ := AddItemToTree(TextNode(textAfterRange), Text, newLastRangeEnd, None);
        }
        assert items == AddTextNode(b, lineText, newLastRangeEnd, ItemEnd(closing)).items;
        newLastRangeEnd := ItemEnd(closing);
        current := closing.parent;
      }
      CloseEndedClimbs(b0, lineText, nextRangeStart, lastRangeEnd);
      CloseEndedAdds(b0, lineText, nextRangeStart, lastRangeEnd);
    }
  }

  // ----- what each paragraph's ranges become -----

  /** `nextRangeStartIndex`: the start of the next range of the line, or the whole text's length after its last one. */
  function NextRangeStart(rs: seq<MarkdownRange>, j: nat, textLength: int): int
    requires j < |rs|
  {
    if j + 1 < |rs| then rs[j + 1].start else textLength
  }

  /** A range opens a nesting span when the next range starts before its end and it is not syntax. */
  predicate OpensNesting(rs: seq<MarkdownRange>, j: nat, textLength: int)
    requires j < |rs|
  {
    NextRangeStart(rs, j, textLength) < rs[j].start + rs[j].length && rs[j].rangeType != Syntax
  }

  function Decorate(t: MarkdownType, ms: MarkdownStyle, disableInlineStyles: bool): Decoration {
    if disableInlineStyles then ClassName(TypeName(t)) else Styled(AddStyling(map[], t, ms))
  }

  /** `stackLength > 0 && nextRangeStartIndex < endOfCurrentRange && range.type !== 'syntax'`: the span gets children. */
  predicate Opens(range: MarkdownRange, nextRangeStart: int, stackLength: nat) {
    stackLength > 0 && nextRangeStart < range.start + range.length && range.rangeType != Syntax
  }

  /** The item a range's span becomes under `parent`: empty when it opens a nesting, else holding the text the range covers. */
  function SpanItem(lineText: string, range: MarkdownRange, nextRangeStart: int, stackLength: nat, parent: Option<nat>,
                    ms: MarkdownStyle, disableInlineStyles: bool): HtmlItem
  {
    var innerText := if Opens(range, nextRangeStart, stackLength) then None
                     else Some(Substring(lineText, range.start, range.start + range.length));
    var span := SpanElement(Decorate(range.rangeType, ms, disableInlineStyles), innerText);
    HtmlItem(span, parent, [], range.start, ItemLength(Some(range.length), span), range.rangeType)
  }

  /** The span a range becomes, given the start of the range after it: a nesting span, or a leaf holding the text the range covers. */
  function RangeSpan(lineText: string, r: MarkdownRange, nextRangeStart: int, ms: MarkdownStyle, disableInlineStyles: bool): ItemShape {
    var opens := nextRangeStart < r.start + r.length && r.rangeType != Syntax;
    var innerText := if opens then None else Some(Substring(lineText, r.start, r.start + r.length));
    var span := SpanElement(Decorate(r.rangeType, ms, disableInlineStyles), innerText);
    ItemShape(span, r.start, ItemLength(Some(r.length), span), r.rangeType)
  }

  /** The span range `j` of a line becomes. */
  function SpanShape(line: Paragraph, j: nat, textLength: int, ms: MarkdownStyle, disableInlineStyles: bool): ItemShape
    requires j < |line.markdownRanges|
  {
    RangeSpan(line.text, line.markdownRanges[j], NextRangeStart(line.markdownRanges, j, textLength), ms, disableInlineStyles)
  }

  function LineSpans(line: Paragraph, textLength: int, ms: MarkdownStyle, disableInlineStyles: bool): seq<ItemShape> {
    seq(|line.markdownRanges|, j requires 0 <= j < |line.markdownRanges| => SpanShape(line, j, textLength, ms, disableInlineStyles))
  }

  /** The spans of all the lines, in order. */
  function AllSpans(lines: seq<Paragraph>, textLength: int, ms: MarkdownStyle, disableInlineStyles: bool): seq<ItemShape> {
    if lines == [] then []
    else AllSpans(lines[..|lines| - 1], textLength, ms, disableInlineStyles) + LineSpans(lines[|lines| - 1], textLength, ms, disableInlineStyles)
  }

  /** The `<p>` shapes of the lines, in order. */
  function ParagraphShapes(lines: seq<Paragraph>): seq<ItemShape> {
    seq(|lines|, l requires 0 <= l < |lines| => ParagraphShape(lines[l]))
  }

  lemma ParagraphShapesStep(lines: seq<Paragraph>, l: nat)
    requires l < |lines|
    ensures ParagraphShapes(lines[..l + 1]) == ParagraphShapes(lines[..l]) + [ParagraphShape(lines[l])]
  {
  }

  lemma AllSpansStep(lines: seq<Paragraph>, l: nat, textLength: int, ms: MarkdownStyle, disableInlineStyles: bool)
    requires l < |lines|
    ensures AllSpans(lines[..l + 1], textLength, ms, disableInlineStyles)
            == AllSpans(lines[..l], textLength, ms, disableInlineStyles) + LineSpans(lines[l], textLength, ms, disableInlineStyles)
  {
    assert lines[..l + 1][..l] == lines[..l];
  }

  /** A line's `<p>`: empty when ranges were assigned to the line, else holding the line's text. */
  function ParagraphShape(line: Paragraph): ItemShape {
    var p := CreateParagraph(if |line.markdownRanges| > 0 then None else Some(line.text));
    ItemShape(p, line.start, ItemLength(Some(line.length), p), Text)
  }

  /**
   * One turn of the line loop: the text since the last range (when
   * non-empty) as a text node under the current item, then the range's span,
   * as `AddRangeSpan` places it, and then what the pop loop adds.
   */
  method AddRange(tree: TreeBuilder, lineText: string, range: MarkdownRange, nextRangeStartIndex: int, stackLength: nat,
                  lastRangeEndIndex: int, ms: MarkdownStyle, disableInlineStyles: bool) returns (newLastRangeEnd: int)
    requires tree.Valid() && WellShaped(tree.items) && stackLength > 0
    modifies tree
    ensures tree.Valid() && WellShaped(tree.items)
    ensures Step(Build(tree.items, tree.current), newLastRangeEnd)
            == RangeStep(Build(old(tree.items), old(tree.current)), lineText, range, nextRangeStartIndex, stackLength,
                         lastRangeEndIndex, ms, disableInlineStyles)
    ensures var before := TextItem(Substring(lineText, lastRangeEndIndex, range.start), old(tree.current), lastRangeEndIndex);
            var span := SpanItem(lineText, range, nextRangeStartIndex, stackLength, old(tree.current), ms, disableInlineStyles);
            var closed := ClosedTexts(old(tree.items), old(tree.current), nextRangeStartIndex, lineText, range.start + range.length);
            && Extends(old(tree.items), tree.items)
            && tree.items[|old(tree.items)|..] == before + [span] + (if Opens(range, nextRangeStartIndex, stackLength) then [] else closed)
    ensures Shapes(tree.items, ParagraphKind) == old(Shapes(tree.items, ParagraphKind))
    ensures Shapes(tree.items, SpanKind) == old(Shapes(tree.items, SpanKind)) + [RangeSpan(lineText, range, nextRangeStartIndex, ms, disableInlineStyles)]
  {
    ghost var b0 := Build(tree.items, tree.current);
    ghost var paragraphs := Shapes(tree.items, ParagraphKind);
    ghost var spans := Shapes(tree.items, SpanKind);
    var textBeforeRange := Substring(lineText, lastRangeEndIndex, range.start);
    if textBeforeRange != "" {
      var k := tree.AddItemToTree(TextNode(textBeforeRange), Text, lastRangeEndIndex, None);
      assert KindOf(tree.items[k].element) == TextKind;
    }
    assert Shapes(tree.items, ParagraphKind) == paragraphs && Shapes(tree.items, SpanKind) == spans;
    assert Build(tree.items, tree.current) == AddTextNode(b0, lineText, lastRangeEndIndex, range.start);
    newLastRangeEnd := AddRangeSpan(tree, lineText, range, nextRangeStartIndex, stackLength, ms, disableInlineStyles);
    RangeStepAdds(b0, lineText, range, nextRangeStartIndex, stackLength, lastRangeEndIndex, ms, disableInlineStyles);
  }

  /**
   * The range's span under the current item, which either becomes the
   * current item or is a leaf after which the ended items are closed.
   */
  method AddRangeSpan(tree: TreeBuilder, lineText: string, range: MarkdownRange, nextRangeStartIndex: int, stackLength: nat,
                      ms: MarkdownStyle, disableInlineStyles: bool) returns (newLastRangeEnd: int)
    requires tree.Valid() && WellShaped(tree.items) && stackLength > 0
    modifies tree
    ensures tree.Valid() && WellShaped(tree.items)
    ensures Step(Build(tree.items, tree.current), newLastRangeEnd)
            == SpanStep(Build(old(tree.items), old(tree.current)), lineText, range, nextRangeStartIndex, stackLength, ms, disableInlineStyles)
    ensures Shapes(tree.items, ParagraphKind) == old(Shapes(tree.items, ParagraphKind))
    ensures Shapes(tree.items, SpanKind) == old(Shapes(tree.items, SpanKind)) + [RangeSpan(lineText, range, nextRangeStartIndex, ms, disableInlineStyles)]
  {
    var endOfCurrentRange := range.start + range.length;
    var decoration := Decorate(range.rangeType, ms, disableInlineStyles);
    if stackLength > 0 && nextRangeStartIndex < endOfCurrentRange && range.rangeType != Syntax {
      newLastRangeEnd := AddNestingSpan(tree, lineText, range, nextRangeStartIndex, stackLength, ms, disableInlineStyles, decoration);
    } else {
      newLastRangeEnd := AddLeafSpan(tree, lineText, range, nextRangeStartIndex, stackLength, ms, disableInlineStyles, decoration);
    }
  }

  /** The nesting branch of `AddRangeSpan`: an empty span that becomes the current item. */
  method AddNestingSpan(tree: TreeBuilder, lineText: string, range: MarkdownRange, nextRangeStartIndex: int, stackLength: nat,
                        ms: MarkdownStyle, disableInlineStyles: bool, decoration: Decoration) returns (newLastRangeEnd: int)
    requires tree.Valid() && WellShaped(tree.items) && Opens(range, nextRangeStartIndex, stackLength)
    requires decoration == Decorate(range.rangeType, ms, disableInlineStyles)
    modifies tree
    ensures tree.Valid() && WellShaped(tree.items)
    ensures Step(Build(tree.items, tree.current), newLastRangeEnd)
            == SpanStep(Build(old(tree.items), old(tree.current)), lineText, range, nextRangeStartIndex, stackLength, ms, disableInlineStyles)
    ensures Shapes(tree.items, ParagraphKind) == old(Shapes(tree.items, ParagraphKind))
    ensures Shapes(tree.items, SpanKind) == old(Shapes(tree.items, SpanKind)) + [RangeSpan(lineText, range, nextRangeStartIndex, ms, disableInlineStyles)]
  {
    ghost var b0 := Build(tree.items, tree.current);
    ghost var item := SpanItem(lineText, range, nextRangeStartIndex, stackLength, tree.current, ms, disableInlineStyles);
    SpanStepUnfold(b0, lineText, range, nextRangeStartIndex, stackLength, ms, disableInlineStyles);
    SpanItemShapes(lineText, range, nextRangeStartIndex, stackLength, tree.current, ms, disableInlineStyles);
    var k := tree.AddItemToTree(SpanElement(decoration, None), range.rangeType, range.start, Some(range.length));
    assert tree.items[k] == item;
    assert tree.items == AddNode(b0, item.element, range.rangeType, range.start, Some(range.length)).items;
    tree.current := Some(k);
    newLastRangeEnd := range.start;
  }

  /** The leaf branch of `AddRangeSpan`: a span holding the covered text, after which the pop loop closes the ended items. */
  method AddLeafSpan(tree: TreeBuilder, lineText: string, range: MarkdownRange, nextRangeStartIndex: int, stackLength: nat,
                     ms: MarkdownStyle, disableInlineStyles: bool, decoration: Decoration) returns (newLastRangeEnd: int)
    requires tree.Valid() && WellShaped(tree.items) && stackLength > 0 && !Opens(range, nextRangeStartIndex, stackLength)
    requires decoration == Decorate(range.rangeType, ms, disableInlineStyles)
    modifies tree
    ensures tree.Valid() && WellShaped(tree.items)
    ensures Step(Build(tree.items, tree.current), newLastRangeEnd)
            == SpanStep(Build(old(tree.items), old(tree.current)), lineText, range, nextRangeStartIndex, stackLength, ms, disableInlineStyles)
    ensures Shapes(tree.items, ParagraphKind) == old(Shapes(tree.items, ParagraphKind))
    ensures Shapes(tree.items, SpanKind) == old(Shapes(tree.items, SpanKind)) + [RangeSpan(lineText, range, nextRangeStartIndex, ms, disableInlineStyles)]
  {
    ghost var b0 := Build(tree.items, tree.current);
    ghost var item := SpanItem(lineText, range, nextRangeStartIndex, stackLength, tree.current, ms, disableInlineStyles);
    SpanStepUnfold(b0, lineText, range, nextRangeStartIndex, stackLength, ms, disableInlineStyles);
    SpanItemShapes(lineText, range, nextRangeStartIndex, stackLength, tree.current, ms, disableInlineStyles);
    var endOfCurrentRange := range.start + range.length;
    var span := SpanElement(decoration, Some(Substring(lineText, range.start, endOfCurrentRange)));
    var k := tree.AddItemToTree(span, range.rangeType, range.start, Some(range.length));
    assert tree.items[k] == item;
    assert Build(tree.items, tree.current) == AddNode(b0, item.element, range.rangeType, range.start, Some(range.length));
    newLastRangeEnd := tree.CloseEndedItems(lineText, nextRangeStartIndex, endOfCurrentRange);
  }



  /** The span item of a range is a span whose shape is the range's `RangeSpan`. */
  lemma SpanItemShapes(lineText: string, range: MarkdownRange, nextRangeStart: int, stackLength: nat, parent: Option<nat>,
                       ms: MarkdownStyle, disableInlineStyles: bool)
    requires stackLength > 0
    ensures var item := SpanItem(lineText, range, nextRangeStart, stackLength, parent, ms, disableInlineStyles);
            && ShapesOfItem(item, SpanKind) == [RangeSpan(lineText, range, nextRangeStart, ms, disableInlineStyles)]
            && ShapesOfItem(item, ParagraphKind) == []
  {
  }


  lemma LineSpansStep(line: Paragraph, textLength: int, ms: MarkdownStyle, disableInlineStyles: bool, j: nat,
                      spans: seq<ItemShape>, before: seq<ItemShape>, after: seq<ItemShape>)
    requires j < |line.markdownRanges|
    requires before == spans + LineSpans(line, textLength, ms, disableInlineStyles)[..j]
    requires after == before + [SpanShape(line, j, textLength, ms, disableInlineStyles)]
    ensures after == spans + LineSpans(line, textLength, ms, disableInlineStyles)[..j + 1]
  {
    assert LineSpans(line, textLength, ms, disableInlineStyles)[..j + 1]
        == LineSpans(line, textLength, ms, disableInlineStyles)[..j] + [SpanShape(line, j, textLength, ms, disableInlineStyles)];
  }

  /**
   * What the line loop keeps after its first `k` ranges: the rest of the
   * loop from here yields `target`, no paragraph was added, and the spans
   * added are the first `k` of the line's.
   */
  ghost predicate LineLoop(b: Build, line: Paragraph, textLength: int, stackLength: nat, ms: MarkdownStyle, disableInlineStyles: bool,
                           k: nat, lastRangeEnd: int, target: Build, paragraphs: seq<ItemShape>, spans: seq<ItemShape>)
  {
    && k <= |line.markdownRanges| && Linked(b)
    && Shapes(b.items, ParagraphKind) == paragraphs
    && Shapes(b.items, SpanKind) == spans + LineSpans(line, textLength, ms, disableInlineStyles)[..k]
    && LineRangesFrom(b, line, textLength, stackLength, ms, disableInlineStyles, k, lastRangeEnd) == target
  }

  /** The `while (lineStack.length > 0)` loop for one line, with the line's `<p>` as the current item. */
  method AddLineRanges(tree: TreeBuilder, line: Paragraph, textLength: int, stackLength: nat, ms: MarkdownStyle, disableInlineStyles: bool)
    requires tree.Valid() && WellShaped(tree.items)
    requires |line.markdownRanges| > 0 ==> stackLength > 0
    modifies tree
    ensures tree.Valid() && WellShaped(tree.items)
    ensures Build(tree.items, tree.current)
            == LineRangesFrom(Build(old(tree.items), old(tree.current)), line, textLength, stackLength, ms, disableInlineStyles, 0, 0)
    ensures Shapes(tree.items, ParagraphKind) == old(Shapes(tree.items, ParagraphKind))
    ensures Shapes(tree.items, SpanKind) == old(Shapes(tree.items, SpanKind)) + LineSpans(line, textLength, ms, disableInlineStyles)
  {
    var rs := line.markdownRanges;
    ghost var b0 := Build(tree.items, tree.current);
    ghost var paragraphs := Shapes(tree.items, ParagraphKind);
    ghost var spans := Shapes(tree.items, SpanKind);
    var lineStack := rs;
    var lastRangeEndIndex := 0;
    ghost var target := LineRangesFrom(b0, line, textLength, stackLength, ms, disableInlineStyles, 0, 0);
    ghost var k := 0;
    assert spans + LineSpans(line, textLength, ms, disableInlineStyles)[..0] == spans;
    while |lineStack| > 0
      invariant tree.Valid() && WellShaped(tree.items)
      invariant k == |rs| - |lineStack| && lineStack == rs[k..]
      invariant LineLoop(Build(tree.items, tree.current), line, textLength, stackLength, ms, disableInlineStyles, k, lastRangeEndIndex,
                         target, paragraphs, spans)
    {
      var range := lineStack[0];
      lineStack := lineStack[1..];
      // `lineStack[0].start || 0` is `lineStack[0].start`, as a start of 0 is 0 either way
      var nextRangeStartIndex := if |lineStack| > 0 then lineStack[0].start else textLength;
      lastRangeEndIndex := AddLineRange(tree, line, k, range, nextRangeStartIndex, textLength, stackLength, lastRangeEndIndex, ms,
                                        disableInlineStyles, target, paragraphs, spans);
      k := k + 1;
    }
    assert LineSpans(line, textLength, ms, disableInlineStyles)[..|rs|] == LineSpans(line, textLength, ms, disableInlineStyles);
    LineRangesFromDone(Build(tree.items, tree.current), line, textLength, stackLength, ms, disableInlineStyles, lastRangeEndIndex);
  }

  /** The `addRange` call of the turn for the line's range `j`, which keeps `LineLoop` from `j` to `j + 1`. */
  method AddLineRange(tree: TreeBuilder, line: Paragraph, ghost j: nat, range: MarkdownRange, nextRangeStartIndex: int, textLength: int,
                      stackLength: nat, lastRangeEndIndex: int, ms: MarkdownStyle, disableInlineStyles: bool,
                      ghost target: Build, ghost paragraphs: seq<ItemShape>, ghost spans: seq<ItemShape>)
    returns (newLastRangeEnd: int)
    requires tree.Valid() && WellShaped(tree.items) && stackLength > 0
    requires j < |line.markdownRanges| && range == line.markdownRanges[j]
    requires nextRangeStartIndex == NextRangeStart(line.markdownRanges, j, textLength)
    requires LineLoop(Build(tree.items, tree.current), line, textLength, stackLength, ms, disableInlineStyles, j, lastRangeEndIndex,
                      target, paragraphs, spans)
    modifies tree
    ensures tree.Valid() && WellShaped(tree.items)
    ensures LineLoop(Build(tree.items, tree.current), line, textLength, stackLength, ms, disableInlineStyles, j + 1, newLastRangeEnd,
                     target, paragraphs, spans)
  {
    ghost var before := Build(tree.items, tree.current);
    ghost var spansBefore := Shapes(tree.items, SpanKind);
    newLastRangeEnd := AddRange(tree, line.text, range, nextRangeStartIndex, stackLength, lastRangeEndIndex, ms, disableInlineStyles);
    LineSpansStep(line, textLength, ms, disableInlineStyles, j, spans, spansBefore, Shapes(tree.items, SpanKind));
    LineRangesFromStep(before, Build(tree.items, tree.current), newLastRangeEnd, line, textLength, stackLength, ms,
                       disableInlineStyles, j, lastRangeEndIndex);
  }

  lemma LineRangesFromDone(b: Build, line: Paragraph, textLength: int, stackLength: nat, ms: MarkdownStyle,
                           disableInlineStyles: bool, lastRangeEnd: int)
    requires Linked(b)
    ensures LineRangesFrom(b, line, textLength, stackLength, ms, disableInlineStyles, |line.markdownRanges|, lastRangeEnd) == b
  {
  }

  /** One turn of `lines.forEach`: the line's `<p>` at the top level, as the current item for the line's ranges. */
  method AddLine(tree: TreeBuilder, line: Paragraph, textLength: int, stackLength: nat, ms: MarkdownStyle, disableInlineStyles: bool)
    requires tree.Valid() && WellShaped(tree.items)
    requires |line.markdownRanges| > 0 ==> stackLength > 0
    modifies tree
    ensures tree.Valid() && WellShaped(tree.items)
    ensures Build(tree.items, tree.current) == LineBuild(old(tree.items), line, textLength, stackLength, ms, disableInlineStyles)
    ensures Shapes(tree.items, ParagraphKind) == old(Shapes(tree.items, ParagraphKind)) + [ParagraphShape(line)]
    ensures Shapes(tree.items, SpanKind) == old(Shapes(tree.items, SpanKind)) + LineSpans(line, textLength, ms, disableInlineStyles)
  {
    ghost var items0 := tree.items;
    ghost var paragraphs := Shapes(tree.items, ParagraphKind);
    ghost var spans := Shapes(tree.items, SpanKind);
    tree.current := None;
    var p := tree.AddItemToTree(CreateParagraph(if |line.markdownRanges| > 0 then None else Some(line.text)), Text, line.start, Some(line.length));
    assert ShapeOf(tree.items[p]) == ParagraphShape(line);
    assert Shapes(tree.items, ParagraphKind) == paragraphs + [ParagraphShape(line)];
    assert Shapes(tree.items, SpanKind) == spans;
    tree.current := Some(p);
    LineBuildStart(items0, line, textLength, stackLength, ms, disableInlineStyles);
    AddLineRanges(tree, line, textLength, stackLength, ms, disableInlineStyles);
  }

  /** `LineBuild` once the line's `<p>` is attached at the top level and made current. */
  lemma LineBuildStart(items: seq<HtmlItem>, line: Paragraph, textLength: int, stackLength: nat, ms: MarkdownStyle,
                       disableInlineStyles: bool)
    requires ParentsBefore(items)
    ensures var p := CreateParagraph(if |line.markdownRanges| > 0 then None else Some(line.text));
            var item := HtmlItem(p, None, [], line.start, ItemLength(Some(line.length), p), Text);
            && Linked(Build(Attach(items, item), Some(|items|)))
            && LineBuild(items, line, textLength, stackLength, ms, disableInlineStyles)
               == LineRangesFrom(Build(Attach(items, item), Some(|items|)), line, textLength, stackLength, ms, disableInlineStyles, 0, 0)
  {
    var p := CreateParagraph(if |line.markdownRanges| > 0 then None else Some(line.text));
    var b := AddNode(Build(items, None), p, Text, line.start, Some(line.length));
    AddNodeExtends(Build(items, None), p, Text, line.start, Some(line.length));
  }

  /**
   * `parseRangesToHTMLNodes`: with no ranges, one `<p>` per line holding its
   * text; otherwise one `<p>` per line at the top level, and per assigned
   * range one span, in order, as `SpanShape` says.
   */
  method ParseRangesToHTMLNodes(text: string, ranges: seq<MarkdownRange>, ms: MarkdownStyle, disableInlineStyles: bool) returns (tree: TreeBuilder)
    ensures fresh(tree) && tree.Valid() && WellShaped(tree.items)
    ensures ranges == [] ==>
              tree.items == seq(|Lines(text)|, i requires 0 <= i < |Lines(text)| =>
                HtmlItem(CreateParagraph(Some(Lines(text)[i].text)), None, [], Lines(text)[i].start, Lines(text)[i].length, Text))
    ensures var grouped := Grouped(Lines(text), Ungrouped(ranges));
            && Shapes(tree.items, ParagraphKind) == ParagraphShapes(grouped)
            && Shapes(tree.items, SpanKind) == AllSpans(grouped, |text|, ms, disableInlineStyles)
    ensures ranges != [] ==>
              tree.items == LinesBuild(Grouped(Lines(text), Ungrouped(ranges)), |text|, |Ungrouped(ranges)|, ms, disableInlineStyles).items
  {
    tree := new TreeBuilder();
    var lines := SplitLines(text);
    LinesOfText(text);

    if |ranges| == 0 {
      AddPlainLines(tree, lines);
      ParagraphsOfPlainText(tree.items, lines);
      NoSpansWithoutRanges(lines, |text|, ms, disableInlineStyles);
      return;
    }

    var stack := UngroupRanges(ranges);
    var grouped := GroupRangesByLine(lines, stack);
    if |stack| == 0 {
      assert grouped == lines;
    }
    AddLines(tree, grouped, |text|, |stack|, ms, disableInlineStyles);
  }

  /** The `lines.forEach` once the ranges are assigned: the lines' paragraphs and spans in order. */
  method AddLines(tree: TreeBuilder, grouped: seq<Paragraph>, textLength: int, stackLength: nat, ms: MarkdownStyle, disableInlineStyles: bool)
    requires tree.Valid() && WellShaped(tree.items) && tree.items == []
    requires stackLength == 0 ==> forall l | 0 <= l < |grouped| :: grouped[l].markdownRanges == []
    modifies tree
    ensures tree.Valid() && WellShaped(tree.items)
    ensures Build(tree.items, tree.current) == LinesBuild(grouped, textLength, stackLength, ms, disableInlineStyles)
    ensures Shapes(tree.items, ParagraphKind) == ParagraphShapes(grouped)
    ensures Shapes(tree.items, SpanKind) == AllSpans(grouped, textLength, ms, disableInlineStyles)
  {
    for l := 0 to |grouped|
      invariant tree.Valid() && WellShaped(tree.items)
      invariant Build(tree.items, tree.current) == LinesBuild(grouped[..l], textLength, stackLength, ms, disableInlineStyles)
      invariant Shapes(tree.items, ParagraphKind) == ParagraphShapes(grouped[..l])
      invariant Shapes(tree.items, SpanKind) == AllSpans(grouped[..l], textLength, ms, disableInlineStyles)
    {
      ghost var before := tree.items;
      AddLine(tree, grouped[l], textLength, stackLength, ms, disableInlineStyles);
      ParagraphShapesStep(grouped, l);
      AllSpansStep(grouped, l, textLength, ms, disableInlineStyles);
      LinesBuildStep(grouped, l, before, Build(tree.items, tree.current), textLength, stackLength, ms, disableInlineStyles);
    }
    assert grouped[..|grouped|] == grouped;
  }

  lemma LinesBuildStep(grouped: seq<Paragraph>, l: nat, before: seq<HtmlItem>, after: Build, textLength: int, stackLength: nat,
                       ms: MarkdownStyle, disableInlineStyles: bool)
    requires l < |grouped|
    requires before == LinesBuild(grouped[..l], textLength, stackLength, ms, disableInlineStyles).items
    requires after == LineBuild(before, grouped[l], textLength, stackLength, ms, disableInlineStyles)
    ensures after == LinesBuild(grouped[..l + 1], textLength, stackLength, ms, disableInlineStyles)
  {
    assert grouped[..l + 1][..l] == grouped[..l];
  }

  /** The `lines.forEach` for a text without ranges: each line's `<p>` holds its text and sits at the top level. */
  method AddPlainLines(tree: TreeBuilder, lines: seq<Paragraph>)
    requires tree.Valid() && tree.current == None && tree.items == []
    requires forall k | 0 <= k < |lines| :: lines[k].length == |lines[k].text|
    modifies tree
    ensures tree.Valid() && WellShaped(tree.items)
    ensures tree.items == seq(|lines|, k requires 0 <= k < |lines| => HtmlItem(CreateParagraph(Some(lines[k].text)), None, [], lines[k].start, lines[k].length, Text))
  {
    for i := 0 to |lines|
      invariant tree.Valid() && tree.current == None && WellShaped(tree.items)
      invariant tree.items == PlainItems(lines, i)
    {
      ghost var before := tree.items;
      var _ := tree.AddItemToTree(CreateParagraph(Some(lines[i].text)), Text, lines[i].start, Some(lines[i].length));
      PlainItemsStep(lines, i, before, tree.items);
    }
  }

  /** The `<p>` items of the first `n` lines of a text without ranges. */
  function PlainItems(lines: seq<Paragraph>, n: nat): seq<HtmlItem>
    requires n <= |lines|
  {
    seq(n, k requires 0 <= k < n => HtmlItem(CreateParagraph(Some(lines[k].text)), None, [], lines[k].start, lines[k].length, Text))
  }

  lemma PlainItemsStep(lines: seq<Paragraph>, i: nat, before: seq<HtmlItem>, after: seq<HtmlItem>)
    requires i < |lines| && lines[i].length == |lines[i].text|
    requires before == PlainItems(lines, i)
    requires after == Attach(before, HtmlItem(CreateParagraph(Some(lines[i].text)), None, [], lines[i].start, ItemLength(Some(lines[i].length), CreateParagraph(Some(lines[i].text))), Text))
    ensures after == PlainItems(lines, i + 1)
  {
  }

  /** Lines without ranges give no spans. */
  lemma {:induction false} NoSpansWithoutRanges(lines: seq<Paragraph>, textLength: int, ms: MarkdownStyle, disableInlineStyles: bool)
    requires forall k | 0 <= k < |lines| :: lines[k].markdownRanges == []
    ensures AllSpans(lines, textLength, ms, disableInlineStyles) == []
  {
    if lines != [] {
      NoSpansWithoutRanges(lines[..|lines| - 1], textLength, ms, disableInlineStyles);
    }
  }

  /** With no ranges, the items are exactly one paragraph per line, all at the top level. */
  lemma ParagraphsOfPlainText(items: seq<HtmlItem>, lines: seq<Paragraph>)
    requires items == seq(|lines|, k requires 0 <= k < |lines| => HtmlItem(CreateParagraph(Some(lines[k].text)), None, [], lines[k].start, lines[k].length, Text))
    requires forall k | 0 <= k < |lines| :: lines[k].markdownRanges == [] && lines[k].length == |lines[k].text|
    ensures Shapes(items, ParagraphKind) == ParagraphShapes(lines)
    ensures Shapes(items, SpanKind) == []
  {
    if lines != [] {
      var n := |lines| - 1;
      ParagraphsOfPlainText(items[..n], lines[..n]);
    }
  }

  // ----- a worked example -----

  const BoldText: string := "**bold** text"

  /** The line of `"**bold** text"` with its ranges assigned: `syntax` `**`, `bold` `bold`, `syntax` `**`. */
  const BoldLine: Paragraph :=
    Paragraph(BoldText, 0, 13, [MarkdownRange(Syntax, 0, 2, None), MarkdownRange(Bold, 2, 4, None), MarkdownRange(Syntax, 6, 2, None)])

  /** The line's empty `<p>`, with the children it has once `k` items follow it. */
  function BoldParagraph(k: nat): HtmlItem {
    HtmlItem(ParagraphElement(NoContent), None, seq(k, i => i + 1), 0, 13, Text)
  }

  /** The items of the line after `n` ranges (and, for `n == 4`, the text node the pop loop adds). */
  function BoldItems(n: nat, ms: MarkdownStyle, disableInlineStyles: bool): (r: seq<HtmlItem>)
    requires n <= 4
    ensures |r| == n + 1 && ParentsBefore(r)
  {
    var open := SpanElement(Decorate(Syntax, ms, disableInlineStyles), Some("**"));
    var bold := SpanElement(Decorate(Bold, ms, disableInlineStyles), Some("bold"));
    var all := [HtmlItem(open, Some(0), [], 0, 2, Syntax), HtmlItem(bold, Some(0), [], 2, 4, Bold),
                HtmlItem(open, Some(0), [], 6, 2, Syntax), HtmlItem(TextNode(" text"), Some(0), [], 8, 5, Text)];
    [BoldParagraph(n)] + all[..n]
  }

  lemma BoldAttach(n: nat, ms: MarkdownStyle, disableInlineStyles: bool)
    requires n < 4
    ensures Attach(BoldItems(n, ms, disableInlineStyles), BoldItems(n + 1, ms, disableInlineStyles)[n + 1])
            == BoldItems(n + 1, ms, disableInlineStyles)
  {
    var items := BoldItems(n, ms, disableInlineStyles);
    var item := BoldItems(n + 1, ms, disableInlineStyles)[n + 1];
    AttachAt(items, item, 0);
    assert seq(n, i => i + 1) + [n + 1] == seq(n + 1, i => i + 1);
    forall k | 0 <= k <= n + 1
      ensures Attach(items, item)[k] == BoldItems(n + 1, ms, disableInlineStyles)[k]
    {
      AttachAt(items, item, k);
    }
  }

  /** The `<p>` goes in first, as the current item for the ranges. */
  lemma BoldParagraphFirst(ms: MarkdownStyle, disableInlineStyles: bool)
    ensures LineBuild([], BoldLine, 13, 3, ms, disableInlineStyles)
            == LineRangesFrom(Build(BoldItems(0, ms, disableInlineStyles), Some(0)), BoldLine, 13, 3, ms, disableInlineStyles, 0, 0)
  {
    LineBuildStart([], BoldLine, 13, 3, ms, disableInlineStyles);
    assert CreateParagraph(None) == ParagraphElement(NoContent);
    AttachAt([], BoldParagraph(0), 0);
    assert Attach([], BoldParagraph(0)) == BoldItems(0, ms, disableInlineStyles);
  }

  /** The first `**` is a leaf: the next range starts at its end. */
  lemma BoldFirstRange(ms: MarkdownStyle, disableInlineStyles: bool)
    ensures LineRangesFrom(Build(BoldItems(0, ms, disableInlineStyles), Some(0)), BoldLine, 13, 3, ms, disableInlineStyles, 0, 0)
         == LineRangesFrom(Build(BoldItems(1, ms, disableInlineStyles), Some(0)), BoldLine, 13, 3, ms, disableInlineStyles, 1, 2)
  {
    var b := Build(BoldItems(0, ms, disableInlineStyles), Some(0));
    BoldAttach(0, ms, disableInlineStyles);
    assert Substring(BoldText, 0, 0) == "" && Substring(BoldText, 0, 2) == "**";
    assert RangeStep(b, BoldText, BoldLine.markdownRanges[0], 2, 3, 0, ms, disableInlineStyles)
        == Step(Build(BoldItems(1, ms, disableInlineStyles), Some(0)), 2);
    LineRangesFromStep(b, Build(BoldItems(1, ms, disableInlineStyles), Some(0)), 2, BoldLine, 13, 3, ms, disableInlineStyles, 0, 0);
  }

  /** `bold` is a leaf too: the closing `**` starts at its end, so it does not nest. */
  lemma BoldSecondRange(ms: MarkdownStyle, disableInlineStyles: bool)
    ensures LineRangesFrom(Build(BoldItems(1, ms, disableInlineStyles), Some(0)), BoldLine, 13, 3, ms, disableInlineStyles, 1, 2)
         == LineRangesFrom(Build(BoldItems(2, ms, disableInlineStyles), Some(0)), BoldLine, 13, 3, ms, disableInlineStyles, 2, 6)
  {
    var b := Build(BoldItems(1, ms, disableInlineStyles), Some(0));
    BoldAttach(1, ms, disableInlineStyles);
    assert Substring(BoldText, 2, 2) == "" && Substring(BoldText, 2, 6) == "bold";
    assert RangeStep(b, BoldText, BoldLine.markdownRanges[1], 6, 3, 2, ms, disableInlineStyles)
        == Step(Build(BoldItems(2, ms, disableInlineStyles), Some(0)), 6);
    LineRangesFromStep(b, Build(BoldItems(2, ms, disableInlineStyles), Some(0)), 6, BoldLine, 13, 3, ms, disableInlineStyles, 1, 2);
  }

  /** The closing `**` is the last range: the next start is the text's length, and the pop loop closes the `<p>` with ` text`. */
  lemma BoldLastRange(ms: MarkdownStyle, disableInlineStyles: bool)
    ensures LineRangesFrom(Build(BoldItems(2, ms, disableInlineStyles), Some(0)), BoldLine, 13, 3, ms, disableInlineStyles, 2, 6)
         == LineRangesFrom(Build(BoldItems(4, ms, disableInlineStyles), None), BoldLine, 13, 3, ms, disableInlineStyles, 3, 13)
  {
    var b := Build(BoldItems(2, ms, disableInlineStyles), Some(0));
    var b3 := Build(BoldItems(3, ms, disableInlineStyles), Some(0));
    BoldAttach(2, ms, disableInlineStyles);
    assert Substring(BoldText, 6, 6) == "" && Substring(BoldText, 6, 8) == "**";
    assert RangeStep(b, BoldText, BoldLine.markdownRanges[2], 13, 3, 6, ms, disableInlineStyles) == CloseEnded(b3, BoldText, 13, 8);
    BoldClosesParagraph(ms, disableInlineStyles);
    LineRangesFromStep(b, Build(BoldItems(4, ms, disableInlineStyles), None), 13, BoldLine, 13, 3, ms, disableInlineStyles, 2, 6);
  }

  lemma BoldClosesParagraph(ms: MarkdownStyle, disableInlineStyles: bool)
    ensures CloseEnded(Build(BoldItems(3, ms, disableInlineStyles), Some(0)), BoldText, 13, 8)
            == Step(Build(BoldItems(4, ms, disableInlineStyles), None), 13)
  {
    var b3 := Build(BoldItems(3, ms, disableInlineStyles), Some(0));
    CloseEndedUnfold(b3, BoldText, 13, 8);
    BoldAttach(3, ms, disableInlineStyles);
    assert Substring(BoldText, 8, 13) == " text";
    assert AddTextNode(b3, BoldText, 8, 13) == Build(BoldItems(4, ms, disableInlineStyles), Some(0));
  }

  /**
   * `"**bold** text"` with its two `syntax` ranges around a `bold` range:
   * the line's `<p>` holds, in order, a leaf span `**`, a leaf span `bold`
   * (the next range starts at its end, so it does not nest), a leaf span
   * `**`, and the text node ` text` that the pop loop adds when it closes
   * the `<p>` at the whole text's length; no item is left current.
   */
  lemma BoldExample(ms: MarkdownStyle, disableInlineStyles: bool)
    ensures var syntax := Decorate(Syntax, ms, disableInlineStyles);
            LineBuild([], BoldLine, 13, 3, ms, disableInlineStyles)
            == Build([HtmlItem(ParagraphElement(NoContent), None, [1, 2, 3, 4], 0, 13, Text),
                      HtmlItem(SpanElement(syntax, Some("**")), Some(0), [], 0, 2, Syntax),
                      HtmlItem(SpanElement(Decorate(Bold, ms, disableInlineStyles), Some("bold")), Some(0), [], 2, 4, Bold),
                      HtmlItem(SpanElement(syntax, Some("**")), Some(0), [], 6, 2, Syntax),
                      HtmlItem(TextNode(" text"), Some(0), [], 8, 5, Text)],
                     None)
  {
    BoldParagraphFirst(ms, disableInlineStyles);
    BoldFirstRange(ms, disableInlineStyles);
    BoldSecondRange(ms, disableInlineStyles);
    BoldLastRange(ms, disableInlineStyles);
    LineRangesFromDone(Build(BoldItems(4, ms, disableInlineStyles), None), BoldLine, 13, 3, ms, disableInlineStyles, 13);
    BoldItemsSpelled(ms, disableInlineStyles);
  }

  lemma BoldItemsSpelled(ms: MarkdownStyle, disableInlineStyles: bool)
    ensures var syntax := Decorate(Syntax, ms, disableInlineStyles);
            BoldItems(4, ms, disableInlineStyles)
            == [HtmlItem(ParagraphElement(NoContent), None, [1, 2, 3, 4], 0, 13, Text),
                HtmlItem(SpanElement(syntax, Some("**")), Some(0), [], 0, 2, Syntax),
                HtmlItem(SpanElement(Decorate(Bold, ms, disableInlineStyles), Some("bold")), Some(0), [], 2, 4, Bold),
                HtmlItem(SpanElement(syntax, Some("**")), Some(0), [], 6, 2, Syntax),
                HtmlItem(TextNode(" text"), Some(0), [], 8, 5, Text)]
  {
    assert seq(4, i => i + 1) == [1, 2, 3, 4];
  }
}
