/**
 * The web editor component of the CommonJS build
 * (lib/commonjs/MarkdownTextInput.web.js): how it turns the `value` prop
 * into the text it renders and back, its placeholder, how it recognises a
 * keystroke that belongs to an input-method composition, and the refs it
 * keeps between events: the cached selection, the composition and paste
 * flags, and the entries it hands to its undo history (`add` and
 * `debouncedAdd`).
 *
 * React's hooks, the event objects and the browser are not modelled: each
 * handler is a method on `MarkdownInput`, and what it would read from the
 * DOM or from the history (the caret, the text an undo restores) is a
 * parameter.
 */
module MarkdownTextInput {
  import opened Wrappers
  import opened Dom
  import CursorUtils
  import LegacyCursorUtils
  import ParserUtils

  // ----- the value prop and the rendered text -----

  predicate EndsInNewline(s: string) {
    |s| > 0 && s[|s| - 1] == '\n'
  }

  /**
   * `normalizeValue`: a contentEditable div reports one extra '\n' after
   * a trailing newline; the regular expression `/\n$/` drops exactly one.
   */
  function NormalizeValue(value: string): (r: string)
    ensures value == r + (if EndsInNewline(value) then "\n" else "")
  {
    if EndsInNewline(value) then value[..|value| - 1] else value
  }

  /** Only one newline goes, however many the text ends with. */
  lemma NormalizeDropsOne(v: string)
    ensures NormalizeValue(v + "\n") == v
  {
    assert EndsInNewline(v + "\n");
    assert (v + "\n")[..|v|] == v;
  }

  /**
   * The `processedValue` rule: a value ending in a newline gets one more,
   * the one the div will swallow. An absent or empty value is passed on.
   */
  function ProcessedValue(value: Option<string>): (r: Option<string>)
    ensures r.None? <==> value.None?
  {
    match value
    case None => None
    case Some(v) => if v != "" && v[|v| - 1] == '\n' then Some(v + "\n") else Some(v)
  }

  /** What the component renders for `value`, normalised, is `value` again. */
  lemma {:induction false} ProcessedRoundTrip(v: string)
    ensures NormalizeValue(ProcessedValue(Some(v)).value) == v
  {
    if EndsInNewline(v) {
      NormalizeDropsOne(v);
    }
  }

  /** A request to `parseText`: the text to render and where to put the caret. */
  datatype ParseRequest = ParseRequest(text: string, cursorPosition: Option<int>)

  /**
   * The `parseAndStyleValue` effect, given the `value` prop and the div's
   * `innerText` when the div is mounted: nothing when the div is missing
   * or already shows the processed value; the div's own text, without a
   * caret, when there is no value; else the processed value, with the
   * caret at its end.
   */
  function ValueSync(value: Option<string>, divText: Option<string>): (r: Option<ParseRequest>)
    ensures divText.None? ==> r.None?
    ensures r.Some? && value.None? ==> r.value == ParseRequest(divText.value, None)
  {
    match divText
    case None => None
    case Some(inner) =>
      if ProcessedValue(value) == Some(inner) then None
      else if value.None? then Some(ParseRequest(inner, None))
      else
        var text := ProcessedValue(value).value;
        Some(ParseRequest(text, Some(|text|)))
  }

  /**
   * A value the div does not show yet is rendered, caret at the end, as
   * text that reads back as the value once the div's extra newline is
   * dropped; a value it shows already is left alone.
   */
  lemma ValueSyncRoundTrip(v: string, inner: string)
    ensures var r := ValueSync(Some(v), Some(inner));
            && (r.None? <==> inner == ProcessedValue(Some(v)).value)
            && (r.Some? ==> NormalizeValue(r.value.text) == v && r.value.cursorPosition == Some(|r.value.text|))
  {
    ProcessedRoundTrip(v);
  }

  /**
   * The entry `parseText` hands to `debouncedAdd` for a sync request: the
   * requested text, with the parse's cursor position (`cursorPosition || 0`
   * for a given one, else the focused selection's end, else 0).
   */
  function SyncEntry(req: ParseRequest, isFocused: bool, domSelection: Option<Selection>): HistoryItem {
    var parsed := ParserUtils.ParseText(req.text, req.cursorPosition, isFocused, domSelection);
    HistoryItem(parsed.text, parsed.cursorPosition)
  }

  /**
   * A value the div does not show yet goes into the history as the
   * processed value with the caret at its end, whatever the focus; the
   * div's own text, re-parsed without a value, goes in with the caret the
   * focused selection reports, else 0.
   */
  lemma SyncEntryOfValue(value: Option<string>, inner: string, isFocused: bool, domSelection: Option<Selection>)
    ensures var r := ValueSync(value, Some(inner));
            && (r.Some? && value.Some? ==>
                  SyncEntry(r.value, isFocused, domSelection) == HistoryItem(ProcessedValue(value).value, |ProcessedValue(value).value|)
                  && NormalizeValue(SyncEntry(r.value, isFocused, domSelection).text) == value.value)
            && (r.Some? && value.None? ==>
                  SyncEntry(r.value, isFocused, domSelection)
                  == HistoryItem(inner, if isFocused && domSelection.Some? then domSelection.value.end else 0))
  {
    if value.Some? {
      ProcessedRoundTrip(value.value);
    }
  }

  // ----- placeholder -----

  const ZeroWidthSpace: char := '\U{200B}'

  /**
   * `getPlaceholderValue`: an empty placeholder would collapse the div, so
   * a missing or empty one becomes a zero-width space.
   */
  function GetPlaceholderValue(placeholder: Option<string>): (r: string)
    ensures r != ""
    ensures placeholder.Some? && placeholder.value != "" ==> r == placeholder.value
    ensures placeholder.None? || placeholder.value == "" ==> r == [ZeroWidthSpace]
  {
    if placeholder.None? || placeholder.value == "" then [ZeroWidthSpace]
    else if |placeholder.value| != 0 then placeholder.value
    else [ZeroWidthSpace]
  }

  // ----- keyboard -----

  /** The fields of a `keydown` event the component reads. */
  datatype KeyEvent = KeyEvent(key: string, metaKey: bool, shiftKey: bool, isComposing: bool, keyCode: int, defaultPrevented: bool)

  /** The key code browsers report for a keystroke an input method is processing. */
  const ImeKeyCode := 229

  /** `isEventComposing`. */
  predicate IsEventComposing(e: KeyEvent) {
    e.isComposing || e.keyCode == ImeKeyCode
  }

  /** Where `handleOnChangeText` takes the new text from, by `inputType`. */
  datatype TextSource = FromUndo | FromRedo | FromParse

  function ChangeSource(inputType: string): (s: TextSource)
    ensures s == FromUndo <==> inputType == "historyUndo"
    ensures s == FromRedo <==> inputType == "historyRedo"
  {
    if inputType == "historyUndo" then FromUndo
    else if inputType == "historyRedo" then FromRedo
    else FromParse
  }

  /** The `inputType` meta+z gives the event before passing it on; `None` for any other key. */
  function HistoryInputType(e: KeyEvent): Option<string> {
    if e.key == "z" && e.metaKey then Some(if e.shiftKey then "historyRedo" else "historyUndo")
    else None
  }

  /** meta+shift+z redoes, meta+z undoes, and no other key reaches the history. */
  lemma MetaZDispatch(e: KeyEvent)
    ensures HistoryInputType(e).Some? <==> e.key == "z" && e.metaKey
    ensures HistoryInputType(e).Some? ==> ChangeSource(HistoryInputType(e).value) == (if e.shiftKey then FromRedo else FromUndo)
  {
  }

  /** What Enter does: call `onSubmitEditing`, insert a line break, schedule a blur. */
  datatype EnterAction = EnterAction(submit: bool, lineBreak: bool, blur: bool)

  /**
   * The Enter branch of `handleKeyPress`; `None` when the key is not a
   * plain Enter (another key, a composition, or a handled event).
   * `blurOnSubmit` is `None` when the prop is `null`, which makes the
   * blur default to single-line inputs.
   */
  function EnterKey(e: KeyEvent, multiline: bool, blurOnSubmit: Option<bool>, hasOnSubmitEditing: bool, hasHostNode: bool): (a: Option<EnterAction>)
    ensures a.Some? <==> e.key == "Enter" && !IsEventComposing(e) && !e.defaultPrevented
    ensures a.Some? && a.value.lineBreak ==> multiline && !a.value.submit
    ensures a.Some? && e.shiftKey ==> !a.value.submit && !a.value.blur
  {
    if e.key == "Enter" && !IsEventComposing(e) && !e.defaultPrevented then
      var submitting := blurOnSubmit == Some(true) || !multiline;
      var shouldBlur := if blurOnSubmit.None? then !multiline else blurOnSubmit.value;
      var submit := !e.shiftKey && submitting && hasOnSubmitEditing;
      Some(EnterAction(submit, !submit && multiline, !e.shiftKey && ((shouldBlur && hasHostNode) || !multiline)))
    else None
  }

  /** A keystroke an input method is composing (key code 229) never submits, breaks a line or blurs. */
  lemma ComposingEnterIgnored(e: KeyEvent, multiline: bool, blurOnSubmit: Option<bool>, hasOnSubmitEditing: bool, hasHostNode: bool)
    requires e.isComposing || e.keyCode == 229
    ensures EnterKey(e, multiline, blurOnSubmit, hasOnSubmitEditing, hasHostNode).None?
  {
  }

  /**
   * An Enter that no earlier handler has cancelled is acted on exactly when
   * no input method is composing it: the event is not flagged `isComposing`
   * and its key code is not 229.
   */
  lemma EnterIgnoredIffComposing(e: KeyEvent, multiline: bool, blurOnSubmit: Option<bool>, hasOnSubmitEditing: bool, hasHostNode: bool)
    requires e.key == "Enter" && !e.defaultPrevented
    ensures EnterKey(e, multiline, blurOnSubmit, hasOnSubmitEditing, hasHostNode).None? <==> e.isComposing || e.keyCode == 229
  {
  }

  /** In a single-line input, Enter without shift always blurs and never breaks the line. */
  lemma SingleLineEnterBlurs(e: KeyEvent, blurOnSubmit: Option<bool>, hasOnSubmitEditing: bool, hasHostNode: bool)
    requires e.key == "Enter" && !IsEventComposing(e) && !e.defaultPrevented && !e.shiftKey
    ensures var a := EnterKey(e, false, blurOnSubmit, hasOnSubmitEditing, hasHostNode);
            a.Some? && a.value.blur && !a.value.lineBreak && a.value.submit == hasOnSubmitEditing
  {
  }

  // ----- the selection cache -----

  /**
   * The `updateSelection` change check: a new selection replaces the
   * cached one when there is no cache or its start or end differ.
   */
  function Replaces(cache: Option<Selection>, candidate: Option<Selection>): (b: bool)
    ensures b <==> candidate.Some? && cache != candidate
  {
    candidate.Some? && (cache.None? || cache.value.start != candidate.value.start || cache.value.end != candidate.value.end)
  }

  /** The `selection` prop: `end` is optional, and `0` counts as absent. */
  datatype SelectionProp = SelectionProp(start: int, end: Option<int>)

  /** The selection a `selection` prop is cached as: `end || start` for the end. */
  function PropSelection(p: SelectionProp): (s: Selection)
    ensures s.start == p.start
    ensures CursorUtils.Truthy(p.end) ==> s.end == p.end.value
    ensures !CursorUtils.Truthy(p.end) ==> s.end == p.start
  {
    Selection(p.start, CursorUtils.EndOrStart(p.start, p.end))
  }

  /**
   * The selection effect compares the prop with the cache field by field,
   * the end as given: a prop that matches the cache is skipped.
   */
  predicate MatchesCache(cache: Option<Selection>, p: SelectionProp) {
    cache.Some? && p.start == cache.value.start && p.end == Some(cache.value.end)
  }

  /**
   * Once the legacy adapter has placed a `selection` prop in the div, the
   * caret the DOM reports is the selection the prop was cached as, so the
   * next `updateSelection` from the DOM sees no change.
   */
  lemma PropSelectionSettles(nodes: seq<LegacyCursorUtils.TextNode>, prevTextLength: Option<nat>, isFirefox: bool, p: SelectionProp)
    requires 0 <= p.start <= |LegacyCursorUtils.Chars(nodes)|
    requires CursorUtils.Truthy(p.end) ==> p.start <= p.end.value <= |LegacyCursorUtils.Chars(nodes)|
    requires !LegacyCursorUtils.AfterNewline(LegacyCursorUtils.Chars(nodes), prevTextLength, p.start)
    ensures var o := LegacyCursorUtils.PlaceRange(nodes, prevTextLength, isFirefox, p.start, p.end);
            && o.Selected? && LegacyCursorUtils.ValidRange(nodes, o.range)
            && !Replaces(Some(PropSelection(p)), LegacyCursorUtils.GetCurrentCursorPosition(nodes, Some(o.range)))
  {
    LegacyCursorUtils.LegacyRoundTrip(nodes, prevTextLength, isFirefox, p.start, p.end);
  }

  // ----- the refs -----

  /** An entry handed to the undo history: a text and the caret in it. */
  datatype HistoryItem = HistoryItem(text: string, cursorPosition: int)

  /** The entry the history is seeded with: `value ?? ''`, caret at its end. */
  function SeedEntry(value: Option<string>): (h: HistoryItem)
    ensures h.cursorPosition == |h.text|
    ensures value.Some? ==> h.text == value.value
    ensures value.None? ==> h.text == ""
  {
    var text := if value.Some? then value.value else "";
    HistoryItem(text, |text|)
  }

  /** What `handleOnChangeText` did with an input event. */
  datatype ChangeOutcome =
    | Ignored
    | CompositionEnded
    | Changed(source: TextSource, emitted: string, selectionNotified: bool)

  /** What the `selection` effect did: nothing, a placement that threw, or the range the legacy adapter placed. */
  datatype SelectionEffect = Skipped | PlacementThrew | Placed(range: LegacyCursorUtils.TextRange)

  /** What `handleKeyPress` did with a keystroke. */
  datatype KeyOutcome =
    | NoDiv
    | HistoryKey(change: ChangeOutcome)
    | Pressed(selectionNotified: bool, enter: Option<EnterAction>)

  /**
   * The component's refs: whether the div is mounted (`divRef`), the
   * cached selection (`contentSelection`), the composition and paste
   * flags, and the entries passed to the history's `add` and to its
   * `debouncedAdd`, each in order.
   */
  class MarkdownInput {
    var hasDiv: bool
    var contentSelection: Option<Selection>
    var composing: bool
    var pasted: bool
    var historyAdds: seq<HistoryItem>
    var debouncedAdds: seq<HistoryItem>

    /** The refs as `useRef` creates them, before the div mounts. */
    constructor ()
      ensures !hasDiv && contentSelection.None? && !composing && !pasted && historyAdds == [] && debouncedAdds == []
    {
      hasDiv := false;
      contentSelection := None;
      composing := false;
      pasted := false;
      historyAdds := [];
      debouncedAdds := [];
    }

    /** `setRef`: the div mounts or unmounts. */
    method SetRef(present: bool)
      modifies this
      ensures hasDiv == present
      ensures contentSelection == old(contentSelection) && composing == old(composing)
      ensures pasted == old(pasted) && historyAdds == old(historyAdds) && debouncedAdds == old(debouncedAdds)
    {
      hasDiv := present;
    }

    /** `handlePaste`. */
    method HandlePaste()
      modifies this
      ensures pasted
      ensures hasDiv == old(hasDiv) && contentSelection == old(contentSelection)
      ensures composing == old(composing) && historyAdds == old(historyAdds) && debouncedAdds == old(debouncedAdds)
    {
      pasted := true;
    }

    /** `startComposition`. */
    method StartComposition()
      modifies this
      ensures composing
      ensures hasDiv == old(hasDiv) && contentSelection == old(contentSelection)
      ensures pasted == old(pasted) && historyAdds == old(historyAdds) && debouncedAdds == old(debouncedAdds)
    {
      composing := true;
    }

    /**
     * `updateSelection`: the predefined selection if given, else the
     * caret the DOM reports, replaces the cache when it differs from it;
     * `onSelectionChange` is then called when there is an event.
     */
    method UpdateSelection(hasEvent: bool, predefined: Option<Selection>, caret: Option<Selection>) returns (notified: bool)
      modifies this
      ensures var candidate := if predefined.Some? then predefined else caret;
              var changing := old(hasDiv) && Replaces(old(contentSelection), candidate);
              && contentSelection == (if changing then candidate else old(contentSelection))
              && notified == (changing && hasEvent)
      ensures hasDiv == old(hasDiv) && composing == old(composing)
      ensures pasted == old(pasted) && historyAdds == old(historyAdds) && debouncedAdds == old(debouncedAdds)
    {
      notified := false;
      if !hasDiv {
        return;
      }
      var candidate := if predefined.Some? then predefined else caret;
      if Replaces(contentSelection, candidate) {
        contentSelection := candidate;
        notified := hasEvent;
      }
    }

    /**
     * The `selection` effect: a prop that is present and differs from the
     * cache is placed in the div by the legacy adapter's
     * `setCursorPosition` and then cached with `end || start` as its end.
     * When the placement throws, `updateSelection` is never reached and the
     * cache stays as it was.
     */
    method ApplySelectionProp(selection: Option<SelectionProp>, cursor: LegacyCursorUtils.LegacyCursor, target: Element, isFirefox: bool)
      returns (effect: SelectionEffect)
      modifies this
      ensures effect.Skipped? <==> !(old(hasDiv) && selection.Some? && !MatchesCache(old(contentSelection), selection.value))
      ensures !effect.Skipped? ==>
                var o := LegacyCursorUtils.PlaceRange(LegacyCursorUtils.TextNodesOf(Elem(target), []), cursor.prevTextLength, isFirefox,
                                                      selection.value.start, selection.value.end);
                && (effect.PlacementThrew? <==> o.Threw?)
                && (effect.Placed? ==> o == LegacyCursorUtils.Selected(effect.range))
      ensures effect.Placed? ==> contentSelection == Some(PropSelection(selection.value))
      ensures !effect.Placed? ==> contentSelection == old(contentSelection)
      ensures hasDiv == old(hasDiv) && composing == old(composing)
      ensures pasted == old(pasted) && historyAdds == old(historyAdds) && debouncedAdds == old(debouncedAdds)
    {
      if !hasDiv || selection.None? || MatchesCache(contentSelection, selection.value) {
        return Skipped;
      }
      var p := selection.value;
      var o := cursor.SetCursorPosition(target, p.start, p.end, isFirefox);
      if o.Threw? {
        return PlacementThrew;
      }
      effect := Placed(o.range);
      var _ := UpdateSelection(false, Some(Selection(p.start, CursorUtils.EndOrStart(p.start, p.end))), None);
    }

    /**
     * The `parseAndStyleValue` effect, given the div's `innerText` and the
     * focus and selection `parseText` reads: it asks for the parse
     * `ValueSync` gives and hands the parsed entry to `debouncedAdd`, as
     * `parseText` does by default.
     */
    method SyncValue(value: Option<string>, innerText: string, isFocused: bool, domSelection: Option<Selection>)
      returns (r: Option<ParseRequest>)
      modifies this
      ensures r == ValueSync(value, if old(hasDiv) then Some(innerText) else None)
      ensures debouncedAdds == old(debouncedAdds) + (if r.Some? then [SyncEntry(r.value, isFocused, domSelection)] else [])
      ensures hasDiv == old(hasDiv) && contentSelection == old(contentSelection)
      ensures composing == old(composing) && pasted == old(pasted) && historyAdds == old(historyAdds)
    {
      r := ValueSync(value, if hasDiv then Some(innerText) else None);
      if r.Some? {
        var parsed := ParserUtils.ParseText(r.value.text, r.value.cursorPosition, isFocused, domSelection);
        debouncedAdds := debouncedAdds + [HistoryItem(parsed.text, parsed.cursorPosition)];
      }
    }

    /**
     * `handleOnChangeText`, given whether the event's target is an HTML
     * element, its `inputType`, the text the chosen source returns (the
     * history's entry for undo and redo, the parsed div text otherwise),
     * the cursor position the parse returns, and the caret the DOM
     * reports. The text passed to `onChangeText` is returned. Only the
     * parse of an ordinary input hands its text and cursor position to the
     * history's `debouncedAdd`; undo and redo parse with
     * `shouldAddToHistory` false.
     */
    method HandleOnChangeText(isHtmlTarget: bool, inputType: string, sourceText: string, parsedCursorPosition: int,
                              caret: Option<Selection>) returns (o: ChangeOutcome)
      modifies this
      ensures !old(hasDiv) || !isHtmlTarget ==> o == Ignored && composing == old(composing) && pasted == old(pasted) && contentSelection == old(contentSelection)
      ensures old(hasDiv) && isHtmlTarget && old(composing) ==> o == CompositionEnded && pasted == old(pasted) && contentSelection == old(contentSelection)
      ensures old(hasDiv) && isHtmlTarget && !old(composing) ==>
                && o == Changed(ChangeSource(inputType), NormalizeValue(sourceText), old(pasted) && Replaces(old(contentSelection), caret))
                && contentSelection == (if old(pasted) && Replaces(old(contentSelection), caret) then caret else old(contentSelection))
                && !pasted
      ensures old(hasDiv) && isHtmlTarget ==> !composing
      ensures debouncedAdds == old(debouncedAdds) + (if o.Changed? && o.source == FromParse then [HistoryItem(sourceText, parsedCursorPosition)] else [])
      ensures hasDiv == old(hasDiv) && historyAdds == old(historyAdds)
    {
      if !hasDiv || !isHtmlTarget {
        return Ignored;
      }
      if composing {
        composing := false;
        return CompositionEnded;
      }
      var source := ChangeSource(inputType);
      if source == FromParse {
        debouncedAdds := debouncedAdds + [HistoryItem(sourceText, parsedCursorPosition)];
      }
      var notified := false;
      if pasted {
        pasted := false;
        notified := UpdateSelection(true, None, caret);
      }
      o := Changed(source, NormalizeValue(sourceText), notified);
    }

    /**
     * `handleKeyPress`: meta+z becomes an undo or a redo passed on to
     * `handleOnChangeText`; any other key refreshes the selection and,
     * for Enter, acts as `EnterKey` says.
     */
    method HandleKeyPress(e: KeyEvent, multiline: bool, blurOnSubmit: Option<bool>, hasOnSubmitEditing: bool, hasHostNode: bool,
                          isHtmlTarget: bool, historyText: string, caret: Option<Selection>) returns (o: KeyOutcome)
      modifies this
      ensures !old(hasDiv) ==> o == NoDiv && contentSelection == old(contentSelection) && composing == old(composing) && pasted == old(pasted)
      ensures old(hasDiv) && e.key == "z" && e.metaKey ==>
                && o.HistoryKey?
                && (!isHtmlTarget ==> o.change == Ignored && composing == old(composing) && pasted == old(pasted)
                                      && contentSelection == old(contentSelection))
                && (isHtmlTarget && old(composing) ==> o.change == CompositionEnded && !composing && pasted == old(pasted)
                                                       && contentSelection == old(contentSelection))
                && (isHtmlTarget && !old(composing) ==>
                      && o.change == Changed(if e.shiftKey then FromRedo else FromUndo, NormalizeValue(historyText),
                                             old(pasted) && Replaces(old(contentSelection), caret))
                      && contentSelection == (if old(pasted) && Replaces(old(contentSelection), caret) then caret else old(contentSelection))
                      && !pasted && !composing)
      ensures old(hasDiv) && !(e.key == "z" && e.metaKey) ==>
                && o == Pressed(Replaces(old(contentSelection), caret), EnterKey(e, multiline, blurOnSubmit, hasOnSubmitEditing, hasHostNode))
                && contentSelection == (if Replaces(old(contentSelection), caret) then caret else old(contentSelection))
                && composing == old(composing) && pasted == old(pasted)
      ensures hasDiv == old(hasDiv) && historyAdds == old(historyAdds) && debouncedAdds == old(debouncedAdds)
    {
      if !hasDiv {
        return NoDiv;
      }
      var inputType := HistoryInputType(e);
      if inputType.Some? {
        MetaZDispatch(e);
        var change := HandleOnChangeText(isHtmlTarget, inputType.value, historyText, 0, caret);
        return HistoryKey(change);
      }
      var notified := UpdateSelection(true, None, caret);
      o := Pressed(notified, EnterKey(e, multiline, blurOnSubmit, hasOnSubmitEditing, hasHostNode));
    }

    /**
     * The mount effect that seeds the history: when it holds no entries,
     * `value ?? ''` is added with the caret at its end.
     */
    method SeedHistory(value: Option<string>, historyLength: nat)
      modifies this
      ensures historyAdds == old(historyAdds) + (if historyLength == 0 then [SeedEntry(value)] else [])
      ensures hasDiv == old(hasDiv) && contentSelection == old(contentSelection)
      ensures debouncedAdds == old(debouncedAdds)
      ensures composing == old(composing) && pasted == old(pasted)
    {
      if historyLength != 0 {
        return;
      }
      var currentValue := if value.Some? then value.value else "";
      historyAdds := historyAdds + [HistoryItem(currentValue, |currentValue|)];
    }
  }
}
