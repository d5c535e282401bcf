# react-native-live-markdown, web editor core, in Dafny

This project models the web half of react-native-live-markdown. The editor is a
`contentEditable` div that renders markdown as you type. It covers these parts:

- **Rendering.** `parseRangesToHTMLNodes` turns a text and its classified markdown
  ranges into a tree of `<p>`, `<span>` and text nodes. `addStyling` styles each
  span. `ungroupRanges` and the line grouping prepare the ranges.
- **Render tree.** `buildTree` indexes the rendered DOM as a tree of items with flat
  text offsets and `data-id` order indexes. `findElementInTree` and
  `getElementByIndex` map between DOM elements and text offsets.
- **Cursor adapters.** There are two:
  - the tree-based one in `src/web/cursorUtils.ts`;
  - the older text-node one in `lib/commonjs/web/cursorUtils.js`.

  Each adapter places a caret or selection at a flat offset, and reads one back.
- **Editor component.** `lib/commonjs/MarkdownTextInput.web.js` normalises values,
  picks the placeholder and detects compositions. It also keeps the selection cache,
  dispatches undo and redo, and seeds the history.
- **Style defaults.** Both builds define the default markdown style and merge
  user styles over it.

## How the model is built

Each source file has a module:

| source file | module |
|---|---|
| `src/web/treeUtils.ts` | `TreeUtils` |
| `src/web/parserUtils.ts` | `ParserUtils`, plus `HtmlBuilder` for `parseRangesToHTMLNodes` |
| `src/web/cursorUtils.ts` | `CursorUtils` |
| `lib/commonjs/web/cursorUtils.js` | `LegacyCursorUtils` |
| `lib/commonjs/MarkdownTextInput.web.js` | `MarkdownTextInput` |
| `lib/commonjs/styleUtils.js` | `CommonJsStyleUtils` |
| `lib/module/styleUtils.js` | `ModuleStyleUtils` |

Shared modules:
- `Wrappers` holds `Option`.
- `TextUtils` holds JavaScript's `split`, `join`, `substring` and decimal rendering.
- `Dom` holds the DOM as a value. An element is a node name, an optional `data-type`,
  an opaque `innerText` length and its child nodes. A node is addressed by its path of
  `childNodes` indexes.
- `StyleMerge` holds the merge both style builds share.

How the source's mutable objects are modelled:
- **Render tree.** The class `TreeUtils.RenderTree` stores it as an arena: a sequence
  of items whose parent and children are indexes. The `data-id` attributes are a map
  from element paths to strings.
- **`parseRangesToHTMLNodes`.** Its nested tree is the class `HtmlBuilder.TreeBuilder`,
  holding the items and `currentTreeItem`.
- **`prevTextLength`.** The legacy adapter's module variable is a field of
  `LegacyCursorUtils.LegacyCursor`.
- **Component refs.** They are fields of `MarkdownTextInput.MarkdownInput`.

Loops in the source are loops in the model. Each is proved against a specification
function, and the properties are then proved about that function.

These become parameters, because they come from the browser:
- whether the target is focused;
- the current DOM `Range`;
- `BrowserUtils.isFirefox`;
- the platform's monospace font;
- the caret and history text that the component's handlers would read.

## Model

| member | source | states |
|---|---|---|
| TextUtils.Split | src/web/parserUtils.ts:149 | `split` on a character always yields at least one piece |
| TextUtils.SplitCount | src/web/parserUtils.ts:149 | `split` yields exactly one more piece than there are separators |
| TextUtils.JoinSplit | src/web/parserUtils.ts:149 | joining the pieces of a `split` with the same separator gives the string back |
| TextUtils.SplitJoin | src/web/treeUtils.ts:92 | splitting a join of separator-free pieces gives the pieces back (the `data-id` written with `','` splits back into its indexes) |
| TextUtils.Substring | src/web/parserUtils.ts:203-225 | `substring` clamps both bounds into the string and swaps them when reversed, so the result is never longer than the string |
| TextUtils.SubstringInRange | src/web/parserUtils.ts:203-225 | with bounds in order and within the string, `substring` is the plain slice |
| TextUtils.SubstringSwap | src/web/parserUtils.ts:203-225 | `substring` swaps reversed bounds, so `s.substring(a, b)` and `s.substring(b, a)` are the same text for every `a` and `b` |
| TextUtils.NatToString | src/web/treeUtils.ts:40 | the decimal rendering of an index is a non-empty string of digits |
| TextUtils.ParseNatToString | src/web/treeUtils.ts:96 | reading back the decimal rendering of an index gives the index |
| ParserUtils.Lines | src/web/parserUtils.ts:148-159 | one paragraph per piece of `text.split('\n')` |
| TreeUtils.GetElementType | src/web/treeUtils.ts:50-59 | `BR` gives `br`, `P` gives `line`, any other element its non-empty `data-type` or else `text`; never empty |
| TreeUtils.GeneratesNewline | src/web/treeUtils.ts:21 | only `line` items generate a newline, and a `line` does exactly when its sole child node is not a `br` marker (corrected check) |
| TreeUtils.PlainLineThrows | src/web/treeUtils.ts:21 | the check as written throws a TypeError on a `<p>` whose only child is a text node, where the corrected check answers true |
| TreeUtils.NewlineCheckAgrees | src/web/treeUtils.ts:21 | the check as written throws exactly for a `line` whose only child node is text, and otherwise agrees with the corrected check |
| TreeUtils.RenderTree.Root | src/web/treeUtils.ts:60-70 | the root item has start 0, no parent, order index `''`, type `text`, and length = text length + number of newlines (the length of `text.replace(/\n/g, '\\n')`) |
| TreeUtils.EscapedLength | src/web/treeUtils.ts:66 | escaping every newline as two characters adds exactly one character per newline |
| TreeUtils.RenderTree.AddItemToTree | src/web/treeUtils.ts:19-47 | appends exactly one item as the parent's last child, all other items unchanged; length 1 for `BR` else `innerText` length; start = parent's start for a first child, else previous sibling's end plus 1 if it generates a newline; `relativeStart = start - parent.start`; order index decimal at the root's children, else `parent.orderIndex + "," + index`; the element's `data-id` becomes that order index |
| TreeUtils.ContentLength | src/web/treeUtils.ts:20 | an element contributes 1 to the flat text when it is a `BR`, otherwise the length of its `innerText` |
| TreeUtils.AddItemFacts | src/web/treeUtils.ts:19-47 | appending a child keeps the arena well formed (every child's start, relative start and order index as above) |
| TreeUtils.AppendedWellFormed | src/web/treeUtils.ts:23-45 | appending a correctly computed child to a well-formed arena leaves it well formed |
| TreeUtils.AppendedChildOk | src/web/treeUtils.ts:23-45 | after an append, every child slot of every item still satisfies the start/order-index rules |
| TreeUtils.AppendedItem | src/web/treeUtils.ts:45 | an append changes no item but the parent, and the parent only in its children |
| TreeUtils.BuildTree | src/web/treeUtils.ts:49-86 | the tree indexes the whole document: each element child becomes exactly one item, in element order, with its path, element and type; the `data-id` attributes are the input attributes overwritten with every item's order index |
| TreeUtils.AddChildItems | src/web/treeUtils.ts:78-81 | the `forEach` adds one item per element child of the popped item, in order, and pushes each |
| TreeUtils.StackStep | src/web/treeUtils.ts:72-81 | after a pop and its pushes, the stack holds unexpanded items in increasing order and every other item is expanded |
| TreeUtils.StackShrinks | src/web/treeUtils.ts:72-81 | the number of elements still to add strictly decreases with each pop, so the loop ends |
| TreeUtils.EveryElementIndexed | src/web/treeUtils.ts:49-86 | every element under the root has an item with its path and element |
| TreeUtils.DataIdFindsItem | src/web/treeUtils.ts:40-107 | looking up the `data-id` that `buildTree` wrote on any element below the root finds that element's item |
| TreeUtils.FindOrderIndex | src/web/treeUtils.ts:88-107 | following an item's order index from the root finds that item (the path round trip) |
| TreeUtils.OrderIndexIsIndexPath | src/web/treeUtils.ts:40 | an item's order index is its path of child positions from the root, in decimal, joined by commas |
| TreeUtils.WalkIndexPath | src/web/treeUtils.ts:95-104 | walking the decimal child positions of an item's path from the root reaches that item |
| TreeUtils.ParseDecimalSegment | src/web/treeUtils.ts:96 | `Number` of a rendered child index gives the index back |
| TreeUtils.ParseSegment | src/web/treeUtils.ts:96-99 | `Number(segment \|\| -1)` with the `index < 0` break: the empty segment and a negative integer stop the lookup; a string of digits is that child index (`-0` is child 0); any other segment is `NaN`, which finds no child |
| TreeUtils.ParseNegativeSegment | src/web/treeUtils.ts:96-99 | the segment `-n` stops the lookup at the current item for every `n > 0`, and `-0` selects child 0 |
| TreeUtils.IdsLookup | src/web/treeUtils.ts:44 | the `data-id` written last at an item's path is that item's order index |
| TreeUtils.PathsDistinct | src/web/treeUtils.ts:72-81 | no two items share an element path |
| TreeUtils.RenderTree.FindElementInTree | src/web/treeUtils.ts:88-107 | undefined without a `data-id`; otherwise the walk of its comma-separated indexes, null when an index is out of range, stopping at an empty or negative segment |
| TreeUtils.Walk | src/web/treeUtils.ts:95-104 | the walk never yields undefined and only yields items of the tree |
| TreeUtils.RenderTree.GetElementByIndex | src/web/treeUtils.ts:109-139 | equals the descent `ElementByIndex`; returns only leaves, and a returned leaf either contains the index in `[start, start+length)` or ends exactly at it below a newline-generating ancestor |
| TreeUtils.ElementByIndex | src/web/treeUtils.ts:109-139 | the descent from the root returns only non-root items |
| TreeUtils.Descend | src/web/treeUtils.ts:114-137 | each step of the descent only moves to a later item of the arena |
| CursorUtils.LeafFound | src/web/treeUtils.ts:122-131 | in a well-formed tree the item the descent returns has no children |
| ParserUtils.AddStyling | src/web/parserUtils.ts:29-87 | `h1` always sets bold, `link` always underlines, `blockquote` always sets a solid left border, `text` changes nothing |
| ParserUtils.AddStylingOverrides | src/web/parserUtils.ts:29-87 | every type's styling is the old style overwritten by the type's markdown-style entry, then by the type's fixed properties |
| ParserUtils.AddStylingKeepsOthers | src/web/parserUtils.ts:29-87 | a property neither the entry nor the fixed set mentions keeps its value |
| ParserUtils.AddStylingIdempotent | src/web/parserUtils.ts:29-87 | styling a span twice for the same type gives the same style as once |
| ParserUtils.StylingWithSpread | src/web/parserUtils.ts:56-83 | `Object.assign` of `{...entry, ...fixed}` equals overwriting by the entry then the fixed properties |
| ParserUtils.StylingWithEntry | src/web/parserUtils.ts:32-67 | the entry-only types overwrite the style by their markdown-style entry |
| ParserUtils.StylingWithoutEntry | src/web/parserUtils.ts:35-85 | bold, italic, strikethrough and text ignore the markdown style |
| ParserUtils.Expansion | src/web/parserUtils.ts:92-98 | a range with no or zero depth is emitted once unchanged; depth d > 0 emits d copies without depth; a negative depth emits nothing |
| ParserUtils.UngroupRanges | src/web/parserUtils.ts:89-101 | the loop's output is the concatenation of the ranges' expansions, in input order |
| ParserUtils.UngroupedAppend | src/web/parserUtils.ts:91 | ungrouping distributes over concatenation (order is preserved) |
| ParserUtils.UngroupedFlat | src/web/parserUtils.ts:89-101 | no range of the output has a depth |
| ParserUtils.UngroupedIdentity | src/web/parserUtils.ts:92-94 | ranges without depth are passed through unchanged |
| ParserUtils.UngroupedIdempotent | src/web/parserUtils.ts:89-101 | ungrouping twice is ungrouping once |
| ParserUtils.SplitLines | src/web/parserUtils.ts:148-159 | the `split('\n').map` loop yields `Lines(text)` |
| ParserUtils.LinesOfText | src/web/parserUtils.ts:148-159 | one more line than newlines; first line at 0; each next line starts one past the previous end; no line holds a newline; the line texts joined by `'\n'` give the text |
| ParserUtils.LineSlices | src/web/parserUtils.ts:148-159 | every line is the slice of the text at its start and length, and the last line ends the text |
| ParserUtils.LineSlice | src/web/parserUtils.ts:149-157 | one line is the slice of the text at its start and length |
| ParserUtils.LineOf | src/web/parserUtils.ts:175-179 | the line index never moves back; it stops at the first line from the line index whose end is not before the start, past every line it skips |
| ParserUtils.GroupRangesByLine | src/web/parserUtils.ts:171-187 | the grouping loop yields `Grouped(lines, stack)` |
| ParserUtils.GroupKeepsLines | src/web/parserUtils.ts:181-186 | grouping keeps every line's text, start and length and only appends to its ranges |
| ParserUtils.GroupPastEnd | src/web/parserUtils.ts:181 | ranges met with the line index past the last line are dropped |
| ParserUtils.GroupKeepsEveryRange | src/web/parserUtils.ts:171-187 | ranges starting no later than the end of the text are all assigned, none dropped |
| ParserUtils.LineOfFound | src/web/parserUtils.ts:175-179 | a start no later than the last line's end always finds a line |
| ParserUtils.TotalRangesAssigned | src/web/parserUtils.ts:182 | assigning a range adds exactly one range to the lines |
| ParserUtils.GroupedInLines | src/web/parserUtils.ts:171-187 | ranges sorted by start, starting in the text, land rebased inside the line they are assigned to (`0 <= start <= line.length`) |
| ParserUtils.GroupInLinesFrom | src/web/parserUtils.ts:171-187 | the same from any line index, for the rest of the ranges |
| ParserUtils.ParseText | src/web/parserUtils.ts:251-291 | `parseText` returns its input text; the cursor position is the given one, else the end of the current selection when focused, else 0 (`cursorPosition \|\| 0`) |
| ParserUtils.ParseTextAsWritten | src/web/parserUtils.ts:289-291 | `parseText` as written returns only if `./cursorUtils` exports `setPrevText`; otherwise calling it throws a `TypeError`, and the value it would return is `ParseText`'s |
| ParserUtils.ParseTextAsWrittenThrows | src/web/parserUtils.ts:289 | `./cursorUtils` exports no `setPrevText` (its export list is `getCurrentCursorPosition`, `moveCursorToEnd`, `setCursorPosition`, `removeSelection`, `scrollCursorIntoView`), so `parseText` as written throws for every input |
| HtmlBuilder.CreateParagraph | src/web/parserUtils.ts:103-118 | an empty text gives a `<p>` holding a `<br>`, a non-empty text a `<p>` holding that text, no text an empty `<p>` |
| HtmlBuilder.ItemLength | src/web/parserUtils.ts:127 | an item's length is the given length unless it is null or 0, then the element's text length |
| HtmlBuilder.TreeBuilder.AddItemToTree | src/web/parserUtils.ts:126-146 | appends one item under the current item (or at the top level), with the `length \|\| textContent.length` rule; the arena stays a forest; shapes grow by exactly that item |
| HtmlBuilder.AttachForest | src/web/parserUtils.ts:137-143 | attaching a childless item under a container keeps every parent/children link consistent |
| HtmlBuilder.ShapesAttach | src/web/parserUtils.ts:137-143 | attaching an item adds exactly its own shape to the list of shapes of its kind |
| HtmlBuilder.TreeBuilder.CloseEndedItems | src/web/parserUtils.ts:224-231 | the pop loop ends with the current item at the first item of the parent chain that has not ended by the next range's start (`FirstOpen`, none when all have), with `lastRangeEndIndex` at the end of the last item it closed (`ClosedEnd`), having appended exactly the non-empty texts from each previous end to each closed item's end (`ClosedTexts`) and changed no older item beyond its children |
| HtmlBuilder.CloseEndedClimbs | src/web/parserUtils.ts:224-231 | the pop loop stops at the first item of the current item's parent chain that has not ended by the next range's start, and leaves `lastRangeEndIndex` at the end of the last item it closed |
| HtmlBuilder.CloseEndedAdds | src/web/parserUtils.ts:224-231 | the pop loop appends exactly the `ClosedTexts` of the chain; old items keep their shape and parent, and items past the current one do not change |
| HtmlBuilder.RangeStepAdds | src/web/parserUtils.ts:196-232 | a range appends the non-empty text since the last range and its span under the current item; a nesting span becomes current with `lastRangeEndIndex` at its start; after a leaf the ended items of the chain are closed as the pop loop says |
| HtmlBuilder.BoldExample | src/web/parserUtils.ts:189-232 | for `**bold** text` with ranges `syntax` (0, 2), `bold` (2, 4), `syntax` (6, 2) the line's `<p>` holds, in order, the leaf spans `**`, `bold`, `**` and the text node ` text` added when the `<p>` is closed; no item stays current |
| HtmlBuilder.AddRange | src/web/parserUtils.ts:196-232 | one turn of the line loop appends exactly: the text since the last range as a text node when non-empty, the range's span (`SpanItem`) under the current item, and, unless the span opens a nesting, the `ClosedTexts` of the pop loop; older items keep their shape and parent; the span list grows by `RangeSpan` of the range |
| HtmlBuilder.AddRangeSpan | src/web/parserUtils.ts:208-232 | the span step equals `SpanStep`; the span list grows by exactly the range's `RangeSpan`: a nesting span when the next range starts before its end and it is not `syntax`, otherwise a leaf holding the covered text, styled by `addStyling` or by class name; no paragraph is added |
| HtmlBuilder.AddLineRanges | src/web/parserUtils.ts:193-233 | the line loop over the line's ranges yields `LineRangesFrom` from the first range with `lastRangeEndIndex` 0; the spans added are the line's `LineSpans`, in range order; no paragraph is added |
| HtmlBuilder.AddLine | src/web/parserUtils.ts:189-192 | one turn of `lines.forEach` yields `LineBuild`: one top-level `<p>` (empty when ranges were assigned to the line, else holding its text) with the line's start and length, then the line's spans |
| HtmlBuilder.AddLines | src/web/parserUtils.ts:189-234 | the loop over the lines yields `LinesBuild`, one `<p>` per line in order (`ParagraphShapes`) and all lines' spans in order (`AllSpans`) |
| HtmlBuilder.AddPlainLines | src/web/parserUtils.ts:161-166 | without ranges, exactly one top-level `<p>` per line holding its text, with the line's start and length, type `text` |
| HtmlBuilder.ParseRangesToHTMLNodes | src/web/parserUtils.ts:120-237 | without ranges, exactly one top-level text paragraph per line; with ranges, the arena is `LinesBuild` over the lines of the text with the ungrouped ranges assigned, so one `<p>` per line and exactly the spans `AllSpans` lists, in order; the result is a forest |
| HtmlBuilder.ParagraphsOfPlainText | src/web/parserUtils.ts:161-166 | plain paragraphs are the line paragraphs and there are no spans |
| HtmlBuilder.NoSpansWithoutRanges | src/web/parserUtils.ts:161-166 | lines without ranges contribute no spans |
| CursorUtils.EndOrStart | src/web/cursorUtils.ts:30 | `end \|\| start`: the end when it is truthy (present and non-zero), else the start |
| CursorUtils.EndItem | src/web/cursorUtils.ts:14-15 | the end item is looked up anew only for a truthy end outside the start item's `[start, start+length)`; otherwise it is the start item |
| CursorUtils.BoundaryFor | src/web/cursorUtils.ts:21-31 | a `br` item's boundary is before its element in its parent; any other item's is `offset - item.start` in its first child node, and only within that node's length (else `setStart` throws) |
| CursorUtils.CursorRange | src/web/cursorUtils.ts:4-36 | no effect exactly when unfocused, start < 0 or a truthy end < 0; a selection only when both items are found (else it throws); a falsy end collapses it; the end never precedes the start |
| CursorUtils.SetCursorPosition | src/web/cursorUtils.ts:4-36 | the method's outcome equals `CursorRange` over the tree it reads |
| CursorUtils.HtmlElementOf | src/web/cursorUtils.ts:58-64 | a text node stands for its parent element; any other container for itself |
| CursorUtils.GetCurrentCursorPosition | src/web/cursorUtils.ts:57-86 | null exactly without a range; (-1, -1) unless both boundary elements are found; else each side is `item.start + (br ? 0 : offset)` |
| CursorUtils.TextBoundaryRoundTrip | src/web/cursorUtils.ts:24-85 | the boundary placed for offset x in a non-`br` leaf is read back as that item and as x |
| CursorUtils.CursorRoundTrip | src/web/cursorUtils.ts:4-86 | placing a caret at start in an indexed tree reads back (start, start); a selection reads back (start, end) when the placed end boundary is not before the start boundary, and (end, end) when it is, because `setEnd` then collapses the range onto its end |
| CursorUtils.BrBoundaryReadsBack | src/web/cursorUtils.ts:22-82 | a boundary before a `br` is read back through its parent line as the line's start plus the child position, the `br`'s own start for a first child |
| CursorUtils.DescendLeaf | src/web/treeUtils.ts:114-137 | every step of the descent that returns an item returns a leaf |
| CursorUtils.SlotsAtLeastPositions | src/web/treeUtils.ts:78 | an element child's `childNodes` index is at least its position among `children` |
| LegacyCursorUtils.FindTextNodes | lib/commonjs/web/cursorUtils.js:16-27 | appends exactly `TextNodesOf` the subtree to the list it is given; `TextNodesExactly` shows these are all the subtree's text nodes, in pre-order |
| LegacyCursorUtils.TextNodesExactly | lib/commonjs/web/cursorUtils.js:16-27 | the list for the target holds a text node at path `q` with value `v` exactly when the document has that text node there, and its paths are strictly increasing in document pre-order |
| LegacyCursorUtils.TextNodesComplete | lib/commonjs/web/cursorUtils.js:19-24 | every text node below an element is listed, with its full path |
| LegacyCursorUtils.TextNodesInPreOrder | lib/commonjs/web/cursorUtils.js:19-24 | a text node is pushed before every text node of a later sibling's subtree, so the list is in pre-order |
| LegacyCursorUtils.TextNodesUnderPrefix | lib/commonjs/web/cursorUtils.js:22-24 | the loop over `childNodes` only appends: the nodes of the first m children stay a prefix of those of the first n |
| LegacyCursorUtils.TextNodesAreInDocument | lib/commonjs/web/cursorUtils.js:16-27 | every collected text node is the text node at its path under the target |
| LegacyCursorUtils.TextNodesUnderAreInDocument | lib/commonjs/web/cursorUtils.js:20-25 | the same for the text nodes below the first n child nodes of an element |
| LegacyCursorUtils.LegacyCursor.constructor | lib/commonjs/web/cursorUtils.js:15 | `prevTextLength` starts undefined |
| LegacyCursorUtils.LegacyCursor.SetPrevText | lib/commonjs/web/cursorUtils.js:28-35 | records the total character count of the target's text nodes |
| LegacyCursorUtils.CharsBeforeAll | lib/commonjs/web/cursorUtils.js:55-86 | counting node by node (`charCount`) ends at the total text length |
| LegacyCursorUtils.CharsBeforeMonotone | lib/commonjs/web/cursorUtils.js:55-86 | `charCount` never decreases and never exceeds the total |
| LegacyCursorUtils.CharsBeforePrefix | lib/commonjs/web/cursorUtils.js:55 | the count before node i depends only on the nodes before it |
| LegacyCursorUtils.FirstHolding | lib/commonjs/web/cursorUtils.js:56-82 | the node found holds the offset by the source's span condition |
| LegacyCursorUtils.FirstHoldingIsFirst | lib/commonjs/web/cursorUtils.js:56-82 | no earlier node holds it, and without a result no node does |
| LegacyCursorUtils.SomeNodeHolds | lib/commonjs/web/cursorUtils.js:56-82 | an offset within the text is held by some node |
| LegacyCursorUtils.HoldingSpans | lib/commonjs/web/cursorUtils.js:56-82 | the start node's closed span `[charCount, charCount+len]` contains start, and the end node's the end |
| LegacyCursorUtils.SetStart | lib/commonjs/web/cursorUtils.js:67-76 | DOM `setStart`: the start moves; an end before it is pulled along, else kept |
| LegacyCursorUtils.SetEnd | lib/commonjs/web/cursorUtils.js:84 | DOM `setEnd`: the end moves; a start after it is pulled along, else kept |
| LegacyCursorUtils.StartPoint | lib/commonjs/web/cursorUtils.js:65-77 | the default offset `start - charCount` unless the character before start is `'\n'` and the text grew past `prevTextLength`; the special placement only moves to the next node's offset 0 |
| LegacyCursorUtils.PlacedStart | lib/commonjs/web/cursorUtils.js:56-77 | placing the start node sets the range's start to its start point |
| LegacyCursorUtils.PlacedEnd | lib/commonjs/web/cursorUtils.js:82-85 | placing the end node sets the range's end to `end - charCount` in it |
| LegacyCursorUtils.PlaceRange | lib/commonjs/web/cursorUtils.js:36-98 | it throws only in the special newline placement; a falsy end leaves a caret |
| LegacyCursorUtils.PlacedRangeValid | lib/commonjs/web/cursorUtils.js:36-98 | the range left is a valid pair of boundaries inside the text nodes |
| LegacyCursorUtils.PlacedWithoutStart | lib/commonjs/web/cursorUtils.js:38-91 | when no node holds start, the range keeps the target's start, with the end where `setEnd` put it |
| LegacyCursorUtils.ScanTextNode | lib/commonjs/web/cursorUtils.js:53-86 | one loop turn: it throws as `PlaceRange` does, breaks only for a falsy end once the start is placed, and otherwise keeps the scan invariant at the next node |
| LegacyCursorUtils.ScanTextNodes | lib/commonjs/web/cursorUtils.js:48-91 | the loop's outcome equals `PlaceRange` |
| LegacyCursorUtils.LegacyCursor.SetCursorPosition | lib/commonjs/web/cursorUtils.js:36-98 | the outcome equals `PlaceRange` over the target's text nodes and the recorded `prevTextLength` |
| LegacyCursorUtils.LengthBeforeMonotone | lib/commonjs/web/cursorUtils.js:115-119 | a boundary not before another has at least as much text before it |
| LegacyCursorUtils.GetCurrentCursorPosition | lib/commonjs/web/cursorUtils.js:109-124 | null exactly without a range; otherwise start = text before the range, end = start + selected length, `0 <= start <= end <= total` |
| LegacyCursorUtils.LegacyRoundTrip | lib/commonjs/web/cursorUtils.js:36-124 | outside the newline special case, placing (start, end) with `0 <= start <= length` and, for a truthy end, `start <= end <= length` (the length of the target's text) and reading it back gives (start, `end \|\| start`) |
| MarkdownTextInput.NormalizeValue | lib/commonjs/MarkdownTextInput.web.js:47-50 | the value is the result followed by one `'\n'` exactly when the value ends in one, else the result is the value |
| MarkdownTextInput.NormalizeDropsOne | lib/commonjs/MarkdownTextInput.web.js:48-50 | only one trailing newline is removed, however many there are |
| MarkdownTextInput.ProcessedValue | lib/commonjs/MarkdownTextInput.web.js:183-189 | an absent value stays absent; a present one stays present |
| MarkdownTextInput.ProcessedRoundTrip | lib/commonjs/MarkdownTextInput.web.js:184-189 | `normalizeValue(processedValue(v)) == v` for every string |
| MarkdownTextInput.ValueSync | lib/commonjs/MarkdownTextInput.web.js:385-396 | nothing without the div; without a value the div's own text is re-parsed without a caret |
| MarkdownTextInput.ValueSyncRoundTrip | lib/commonjs/MarkdownTextInput.web.js:385-396 | a value the div does not show is rendered, caret at its end, as text that normalises back to the value; one it shows already is left alone |
| MarkdownTextInput.SyncEntryOfValue | lib/commonjs/MarkdownTextInput.web.js:149-159 | the entry `parseText` hands to `debouncedAdd` for a sync is the processed value with the caret at its end, which normalises back to the value; for a re-parse of the div's own text it is that text with the focused selection's end, else 0 |
| MarkdownTextInput.GetPlaceholderValue | lib/commonjs/MarkdownTextInput.web.js:57-63 | never empty; the placeholder when non-empty, else a zero-width space |
| MarkdownTextInput.ChangeSource | lib/commonjs/MarkdownTextInput.web.js:237-246 | `historyUndo` undoes, `historyRedo` redoes, anything else re-parses |
| MarkdownTextInput.MetaZDispatch | lib/commonjs/MarkdownTextInput.web.js:268-276 | exactly meta+z reaches the history: with shift as a redo, without as an undo |
| MarkdownTextInput.EnterKey | lib/commonjs/MarkdownTextInput.web.js:279-305 | Enter acts exactly when not composing and not already handled; a line break only in multiline inputs and never with a submit; shift never submits or blurs |
| MarkdownTextInput.ComposingEnterIgnored | lib/commonjs/MarkdownTextInput.web.js:289-291 | a keystroke with `isComposing` or key code 229 never submits, breaks a line or blurs |
| MarkdownTextInput.EnterIgnoredIffComposing | lib/commonjs/MarkdownTextInput.web.js:54-56 | an uncancelled Enter is ignored if and only if the event is composing, that is, `isComposing` is set or the key code is 229; every other Enter reaches the submit, line-break and blur logic |
| MarkdownTextInput.SingleLineEnterBlurs | lib/commonjs/MarkdownTextInput.web.js:294-304 | in a single-line input a plain Enter always blurs, never breaks a line, and submits exactly when `onSubmitEditing` is given |
| MarkdownTextInput.Replaces | lib/commonjs/MarkdownTextInput.web.js:218 | a new selection replaces the cache exactly when there is one and it differs from the cache |
| MarkdownTextInput.PropSelection | lib/commonjs/MarkdownTextInput.web.js:419-422 | a `selection` prop is cached with its start, and its end when truthy, else the start |
| MarkdownTextInput.PropSelectionSettles | lib/commonjs/MarkdownTextInput.web.js:414-422 | once the legacy adapter places a `selection` prop, the caret the DOM reports equals the cached selection, so the next `updateSelection` changes nothing |
| MarkdownTextInput.SeedEntry | lib/commonjs/MarkdownTextInput.web.js:429-430 | the seed entry is `value ?? ''` with the caret at its end |
| MarkdownTextInput.MarkdownInput.constructor | lib/commonjs/MarkdownTextInput.web.js:122-126 | no div, no cached selection, both flags false, no `add` or `debouncedAdd` entries |
| MarkdownTextInput.MarkdownInput.SetRef | lib/commonjs/MarkdownTextInput.web.js:383 | only the div ref changes |
| MarkdownTextInput.MarkdownInput.HandlePaste | lib/commonjs/MarkdownTextInput.web.js:356-358 | sets the paste flag, nothing else |
| MarkdownTextInput.MarkdownInput.StartComposition | lib/commonjs/MarkdownTextInput.web.js:359-361 | sets the composition flag, nothing else |
| MarkdownTextInput.MarkdownInput.UpdateSelection | lib/commonjs/MarkdownTextInput.web.js:213-225 | with a div, the predefined selection (else the DOM caret) replaces the cache exactly when `Replaces` holds, and `onSelectionChange` fires only then and only with an event; nothing else changes |
| MarkdownTextInput.MarkdownInput.ApplySelectionProp | lib/commonjs/MarkdownTextInput.web.js:414-423 | a present prop that does not match the cache field by field is placed by the legacy adapter's `setCursorPosition` (`PlaceRange` over the div's text nodes); when that throws the cache is left as it was, otherwise the placed range is returned and the prop is cached as `PropSelection`; a skipped prop changes nothing |
| MarkdownTextInput.MarkdownInput.SyncValue | lib/commonjs/MarkdownTextInput.web.js:385-396 | the `parseAndStyleValue` effect asks for exactly the parse `ValueSync` gives for the mounted div, and each parse it asks for appends its `SyncEntry` to the `debouncedAdd` entries, since `parseText` adds to the history by default; no other ref changes |
| MarkdownTextInput.MarkdownInput.HandleOnChangeText | lib/commonjs/MarkdownTextInput.web.js:226-261 | ignored without a div or an HTML target; a pending composition only clears its flag; otherwise the text comes from undo, redo or parse by `inputType`, is emitted normalised, and a pending paste clears its flag and refreshes the selection; only the parse branch hands `(parsed text, parsed cursor position)` to `debouncedAdd`, since undo and redo parse with `shouldAddToHistory` false |
| MarkdownTextInput.MarkdownInput.HandleKeyPress | lib/commonjs/MarkdownTextInput.web.js:262-306 | meta+z goes to `handleOnChangeText` as a redo with shift, an undo without: ignored for a non-HTML target, only ends a pending composition, or emits the history text normalised, clears the paste flag and refreshes the selection after a paste, adding nothing to the history; any other key refreshes the selection and acts on Enter as `EnterKey` says |
| MarkdownTextInput.MarkdownInput.SeedHistory | lib/commonjs/MarkdownTextInput.web.js:424-432 | when the history holds no entries, exactly one entry `(value ?? '', its length)` is added; otherwise none |
| StyleMerge.Assign | lib/commonjs/styleUtils.js:56 | `Object.assign`: the given properties win, the others keep their values, and undefined changes nothing |
| StyleMerge.Merged | lib/commonjs/styleUtils.js:49-60 | an undefined input gives exactly the defaults; the keys are the default keys; for a known key the given properties override and the rest keep their defaults |
| StyleMerge.MergeInto | lib/commonjs/styleUtils.js:50-58 | the `forEach` over the input keys yields `Merged`, skipping keys the output lacks |
| CommonJsStyleUtils.MakeDefaultMarkdownStyle | lib/commonjs/styleUtils.js:12-48 | the eight default keys; `code` and `pre` are equal and use the monospace font |
| CommonJsStyleUtils.MergeMarkdownStyleWithDefault | lib/commonjs/styleUtils.js:49-60 | the result depends only on the input (fresh defaults each call): exactly the defaults for an undefined input, the default key set, no `emoji` |
| ModuleStyleUtils.MakeDefaultMarkdownStyle | lib/module/styleUtils.js:6-45 | the CommonJS keys plus `emoji`, whose default is font size 20 |
| ModuleStyleUtils.DefaultsExtendCommonJs | lib/module/styleUtils.js:6-45 | the two builds' defaults agree except for the added `emoji` entry |
| ModuleStyleUtils.MergeMarkdownStyleWithDefault | lib/module/styleUtils.js:46-57 | the same merge over these defaults; the `emoji` font size is the input's when given, else 20 |

## Left out

- `scrollCursorIntoView` in both cursor files: floating-point layout maths over measured boxes and browser-specific offsets.
- `moveCursorToEnd` and `removeSelection` in both cursor files: direct DOM selection calls with no logic.
- `lib/commonjs/web/browserUtils.js`: user-agent sniffing. `isFirefox` and `isChromium` are parameters where used.
- The `.d.ts` files: type declarations only.
- `console.log` in `buildTree`: output only.
- TreeUtils.ParseSegment: the render tree's order-index lookup parses digits, an optional minus sign and the empty string. `Number`'s other accepted forms (fractions, a leading `+`, `Infinity`, surrounding whitespace, exponents, hexadecimal) are not modelled, so the model finds no child for `1.0` or `+1` where the editor takes child 1, and finds no child for `-0.5` or `-Infinity` where the editor stops the lookup. Rendered order indexes never take these forms.
- Text with characters outside the Basic Multilingual Plane: a Dafny `char` is a Unicode scalar value, while JavaScript's lengths and offsets count UTF-16 code units. Each such character (most emoji among them) counts two there and one here, so on such text the model's offsets differ from the editor's. The `emoji` markdown type itself is modelled as a range like any other.
- An element's `innerText` length is an opaque field of the element: it depends on rendering.
- An unknown markdown type string (the default branch of `addStyling`) is not representable: `ParserUtils.MarkdownType` lists the known types only. In the style merge, names inherited from `Object.prototype` (`toString`, ...) are not keys.
- `ParserUtils.Expansion`: a negative `depth` drops the range. `Array.from({length: -1})` is empty and `!depth` is false, so the code does this, whatever the written intent.
- `global.parseExpensiMarkToRanges` is the external markdown classifier. Its output is an input to the model.
- `parseText`'s effects on the DOM are not modelled: rewriting `innerHTML` and moving the caret. `ParserUtils.ParseText` states only the value it returns. Its `setPrevText` call is a finding (below).
- CSS value coercion and the style functions of react-native-web: `processUnitsInMarkdownStyle`, `createReactDOMStyle`, `preprocessStyle` and `dangerousStyleValue`.
- `Platform.select` for the monospace font: the font is a parameter.
- In the component, these are not modelled:
  - React's hooks and memoisation, and the focus, blur and click handlers;
  - `setEventProps`;
  - `setTimeout`, `document.execCommand('insertLineBreak')` and the height adjustment;
  - placeholder colouring.

  `EnterKey` reports a line break or a blur as a decision only.
- `InputHistory`'s ring and debouncing (its source is not part of this model). The `add` of the seeding effect and the `debouncedAdd` calls of `handleOnChangeText` and of the `parseAndStyleValue` effect are recorded in order; the one of the `processedMarkdownStyle` memo is not (see below). The undo or redo text is a parameter.
- `lib/commonjs/web/parserUtils.js`, the parser build the component calls, is not part of this model. What its `parseText` returns to `handleOnChangeText` (the text and the cursor position) is a parameter. For the `parseAndStyleValue` effect, `MarkdownInput.SyncValue` takes that result as `ParserUtils.ParseText` gives it: the text unchanged, and the caret `cursorPosition || 0` or the focused selection's end.
- `updateTextColor`, which `parseAndStyleValue` calls after a parse of the value, sets the div's colour for the placeholder. It is DOM styling and is not modelled.
- The `processedMarkdownStyle` memo also re-parses the div and so calls `debouncedAdd`. It is a React memo and is not modelled.
- `MarkdownTextInput.MarkdownInput.SeedHistory`: the effect runs once on mount, because its dependency list is empty. The model states the emptiness guard only, since what `add` does to the history's length is unknown.
- `MarkdownTextInput.MarkdownInput.UpdateSelection`: `updateRefSelectionVariables` also copies the new start and end onto the div. That copy is not kept.
- `LegacyCursorUtils.GetCurrentCursorPosition` is stated for ranges between text-node boundaries and the target's own start and end. These are the only boundaries the legacy adapter places. A selection anchored elsewhere by the user is not representable.
- `LegacyCursorUtils.LegacyRoundTrip` excludes the newline special case (start right after a `'\n'` in grown text). There the caret is deliberately moved off the requested offset.
- `CursorUtils.CursorRoundTrip` is stated for items that are not `br`. `CursorUtils.BrBoundaryReadsBack` covers a `br` boundary, read back through its parent line.
- `CursorUtils.GetCurrentCursorPosition` takes each boundary's container as a path from the target, so a selection anchored outside the editor is not representable. The source still runs the `data-id` lookup (`findElementInTree`) on whatever element holds such a selection. `CursorUtils.CursorRange` is not affected: `setCursorPosition` builds its range inside the target and never reads the existing selection.
- `MarkdownTextInput.ProcessedValue` and `MarkdownTextInput.ValueSync` take `value` as an optional string, so `undefined` and `null` are one case. A `null` value is not modelled. The prop is typed as a string. In the source, a `null` value makes `processedValue` `null` rather than `undefined`, and `text.length` then throws in the `parseAndStyleValue` effect.
- `LegacyCursorUtils.FindTextNodes` receives its accumulator as a value and returns it extended. The source pushes onto a shared array.

## Findings

| source | as written | input that shows it | evidently intended | confidence | as-written member | corrected member |
|---|---|---|---|---|---|---|
| src/web/treeUtils.ts:21 | `element.childNodes[0]?.getAttribute('data-type')` calls `getAttribute` on the only child node even when it is a text node, which has no such method | a `<p>` whose only child node is the text `a`: `buildTree` throws a TypeError | a `line` holding plain text generates a newline (only a sole `br` marker suppresses it) | not executed | TreeUtils.PlainLineThrows | TreeUtils.GeneratesNewline |
| src/web/parserUtils.ts:289 | `CursorUtils.setPrevText(target)` calls a name that `./cursorUtils` does not export, so it is `undefined` and the call throws a `TypeError` after the DOM has been rewritten | any call, e.g. `parseText(div, 'a', null)`: no value is returned | record the text length as the older cursor module's `setPrevText` does, then return `{text, cursorPosition: cursorPosition \|\| 0}` | not executed | ParserUtils.ParseTextAsWrittenThrows | ParserUtils.ParseText |
