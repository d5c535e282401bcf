/**
 * The pure stages of `src/web/parserUtils.ts`: the markdown range types, the
 * styling of a span by its type, the expansion of grouped ranges, the split
 * of the text into paragraphs with cumulative starts, the assignment of
 * ranges to paragraphs, and the result of `parseText`.
 */
module ParserUtils {
  import opened Wrappers
  import opened TextUtils
  import opened StyleMerge
  import Dom

  datatype MarkdownType =
    | Bold | Italic | Strikethrough | Emoji | Link | Code | Pre | Blockquote | H1
    | Syntax | MentionHere | MentionUser | MentionReport | Text

  /** The type's name as the parser spells it; a span's class name when inline styles are off. */
  function TypeName(t: MarkdownType): string {
    match t
    case Bold => "bold"
    case Italic => "italic"
    case Strikethrough => "strikethrough"
    case Emoji => "emoji"
    case Link => "link"
    case Code => "code"
    case Pre => "pre"
    case Blockquote => "blockquote"
    case H1 => "h1"
    case Syntax => "syntax"
    case MentionHere => "mention-here"
    case MentionUser => "mention-user"
    case MentionReport => "mention-report"
    case Text => "text"
  }

  /** A classified stretch of the text; `depth` is how many times a grouped range repeats. */
  datatype MarkdownRange = MarkdownRange(rangeType: MarkdownType, start: int, length: int, depth: Option<int>)

  /** One line of the text, its absolute start, and the ranges assigned to it (line-relative). */
  datatype Paragraph = Paragraph(text: string, start: int, length: int, markdownRanges: seq<MarkdownRange>)

  function LineEnd(line: Paragraph): int {
    line.start + line.length
  }

  // ----- addStyling -----

  /** The markdown style entry a type assigns onto the span's style, if any. */
  function StyleKey(t: MarkdownType): Option<string> {
    match t
    case Syntax => Some("syntax")
    case Emoji => Some("emoji")
    case MentionHere => Some("mentionHere")
    case MentionUser => Some("mentionUser")
    case MentionReport => Some("mentionReport")
    case Link => Some("link")
    case Code => Some("code")
    case Pre => Some("pre")
    case Blockquote => Some("blockquote")
    case H1 => Some("h1")
    case _ => None
  }

  /** The properties a type sets whatever the markdown style says. */
  function FixedProps(t: MarkdownType): Props {
    match t
    case Bold => map["fontWeight" := Str("bold")]
    case Italic => map["fontStyle" := Str("italic")]
    case Strikethrough => map["textDecoration" := Str("line-through")]
    case Link => map["textDecoration" := Str("underline")]
    case Blockquote => map["borderLeftStyle" := Str("solid"), "display" := Str("inline-block"), "maxWidth" := Str("100%"), "boxSizing" := Str("border-box")]
    case H1 => map["fontWeight" := Str("bold")]
    case _ => map[]
  }

  /** The properties of the markdown style entry a type assigns (`{...markdownStyle.key}`; none when absent). */
  function EntryProps(t: MarkdownType, ms: MarkdownStyle): Props {
    if StyleKey(t).Some? then StyleOf(ms, StyleKey(t).value).GetOr(map[]) else map[]
  }

  /** `{...entry, ...fixed}`: the object a type assigns onto the style. */
  function Spread(entry: Option<Props>, fixed: Props): Props {
    entry.GetOr(map[]) + fixed
  }

  /** `addStyling`: the span's style after the switch over its type. */
  function AddStyling(style: Props, t: MarkdownType, ms: MarkdownStyle): (r: Props)
    ensures t == H1 ==> "fontWeight" in r && r["fontWeight"] == Str("bold")
    ensures t == Link ==> "textDecoration" in r && r["textDecoration"] == Str("underline")
    ensures t == Blockquote ==> "borderLeftStyle" in r && r["borderLeftStyle"] == Str("solid")
    ensures t == Text ==> r == style
  {
    match t
    case Syntax => Assign(style, StyleOf(ms, "syntax"))
    case Bold => style["fontWeight" := Str("bold")]
    case Italic => style["fontStyle" := Str("italic")]
    case Strikethrough => style["textDecoration" := Str("line-through")]
    case Emoji => Assign(style, StyleOf(ms, "emoji"))
    case MentionHere => Assign(style, StyleOf(ms, "mentionHere"))
    case MentionUser => Assign(style, StyleOf(ms, "mentionUser"))
    case MentionReport => Assign(style, StyleOf(ms, "mentionReport"))
    case Link => Assign(style, Some(Spread(StyleOf(ms, "link"), map["textDecoration" := Str("underline")])))
    case Code => Assign(style, StyleOf(ms, "code"))
    case Pre => Assign(style, StyleOf(ms, "pre"))
    case Blockquote =>
      Assign(style, Some(Spread(StyleOf(ms, "blockquote"),
        map["borderLeftStyle" := Str("solid"), "display" := Str("inline-block"), "maxWidth" := Str("100%"), "boxSizing" := Str("border-box")])))
    case H1 => Assign(style, Some(Spread(StyleOf(ms, "h1"), map["fontWeight" := Str("bold")])))
    case Text => style
  }

  /**
   * Every type's styling is the old style overwritten by the type's markdown
   * style entry and then by its fixed properties.
   */
  lemma AddStylingOverrides(style: Props, t: MarkdownType, ms: MarkdownStyle)
    ensures AddStyling(style, t, ms) == style + EntryProps(t, ms) + FixedProps(t)
  {
    if t in {Bold, Italic, Strikethrough, Text} {
      StylingWithoutEntry(style, t, ms);
    } else if t in {Link, Blockquote, H1} {
      StylingWithSpread(style, t, ms);
    } else {
      StylingWithEntry(style, t, ms);
    }
  }

  lemma StylingWithoutEntry(style: Props, t: MarkdownType, ms: MarkdownStyle)
    requires t in {Bold, Italic, Strikethrough, Text}
    ensures AddStyling(style, t, ms) == style + EntryProps(t, ms) + FixedProps(t)
  {
    assert EntryProps(t, ms) == map[];
    assert style + map[] == style;
  }

  lemma StylingWithSpread(style: Props, t: MarkdownType, ms: MarkdownStyle)
    requires t in {Link, Blockquote, H1}
    ensures AddStyling(style, t, ms) == style + EntryProps(t, ms) + FixedProps(t)
  {
    var spread := Spread(StyleOf(ms, StyleKey(t).value), FixedProps(t));
    assert AddStyling(style, t, ms) == style + spread by {
      if t == Link {
      } else if t == Blockquote {
      } else {
      }
    }
    UnionAssociates(style, EntryProps(t, ms), FixedProps(t));
  }

  lemma UnionAssociates(a: Props, b: Props, c: Props)
    ensures a + (b + c) == a + b + c
  {
  }

  /** Overwriting with the same two maps again changes nothing. */
  lemma UnionAbsorbs(a: Props, b: Props, c: Props)
    ensures a + b + c + b + c == a + b + c
  {
    var m := a + b + c;
    assert (m + b + c).Keys == m.Keys;
    forall p | p in m
      ensures (m + b + c)[p] == m[p]
    {
    }
  }

  lemma StylingWithEntry(style: Props, t: MarkdownType, ms: MarkdownStyle)
    requires t in {Syntax, Emoji, MentionHere, MentionUser, MentionReport, Code, Pre}
    ensures AddStyling(style, t, ms) == style + EntryProps(t, ms) + FixedProps(t)
  {
    assert FixedProps(t) == map[];
    assert AddStyling(style, t, ms) == style + EntryProps(t, ms);
  }

  /** A property neither the type's entry nor its fixed set mentions keeps its value. */
  lemma AddStylingKeepsOthers(style: Props, t: MarkdownType, ms: MarkdownStyle, p: string)
    requires p in style && p !in EntryProps(t, ms) && p !in FixedProps(t)
    ensures p in AddStyling(style, t, ms) && AddStyling(style, t, ms)[p] == style[p]
  {
    AddStylingOverrides(style, t, ms);
  }

  /** Styling a span a second time for the same type changes nothing more. */
  lemma AddStylingIdempotent(style: Props, t: MarkdownType, ms: MarkdownStyle)
    ensures AddStyling(AddStyling(style, t, ms), t, ms) == AddStyling(style, t, ms)
  {
    AddStylingOverrides(style, t, ms);
    AddStylingOverrides(AddStyling(style, t, ms), t, ms);
    UnionAbsorbs(style, EntryProps(t, ms), FixedProps(t));
  }

  // ----- ungroupRanges -----

  /** `!range.depth`: no depth, or a depth of 0. */
  predicate IsFlat(r: MarkdownRange) {
    r.depth.None? || r.depth.value == 0
  }

  /** `Array.from({length: depth})` has this many entries: none for an absent, zero or negative depth. */
  function CopyCount(r: MarkdownRange): nat {
    if r.depth.Some? && r.depth.value > 0 then r.depth.value else 0
  }

  /** What one range contributes to the ungrouped list. */
  function Expansion(r: MarkdownRange): (e: seq<MarkdownRange>)
    ensures IsFlat(r) ==> e == [r]
    ensures r.depth.Some? && r.depth.value > 0 ==> |e| == r.depth.value && forall i | 0 <= i < |e| :: e[i] == r.(depth := None)
    ensures r.depth.Some? && r.depth.value < 0 ==> e == []
  {
    (if IsFlat(r) then [r] else []) + seq(CopyCount(r), _ => r.(depth := None))
  }

  /** The expansions of the ranges, in input order. */
  function Ungrouped(rs: seq<MarkdownRange>): seq<MarkdownRange> {
    if rs == [] then [] else Ungrouped(rs[..|rs| - 1]) + Expansion(rs[|rs| - 1])
  }

  /** `ungroupRanges`. */
  method UngroupRanges(ranges: seq<MarkdownRange>) returns (ungrouped: seq<MarkdownRange>)
    ensures ungrouped == Ungrouped(ranges)
  {
    ungrouped := [];
    for i := 0 to |ranges|
      invariant ungrouped == Ungrouped(ranges[..i])
    {
      var range := ranges[i];
      if range.depth.None? || range.depth.value == 0 {
        ungrouped := ungrouped + [range];
      }
      var rangeWithoutDepth := range.(depth := None);
      var copies := if range.depth.Some? && range.depth.value > 0 then range.depth.value else 0;
      ghost var before := ungrouped;
      for c := 0 to copies
        invariant ungrouped == before + seq(c, _ => rangeWithoutDepth)
      {
        ungrouped := ungrouped + [rangeWithoutDepth];
      }
      assert ranges[..i + 1][..i] == ranges[..i];
    }
    assert ranges[..|ranges|] == ranges;
  }

  /** Ungrouping keeps the input order: it distributes over concatenation. */
  lemma {:induction false} UngroupedAppend(a: seq<MarkdownRange>, b: seq<MarkdownRange>)
    ensures Ungrouped(a + b) == Ungrouped(a) + Ungrouped(b)
    decreases |b|
  {
    if b == [] {
      assert a + b == a;
    } else {
      var b' := b[..|b| - 1];
      assert (a + b)[..|a + b| - 1] == a + b';
      UngroupedAppend(a, b');
      assert Ungrouped(b) == Ungrouped(b') + Expansion(b[|b| - 1]);
    }
  }

  /** No range left by ungrouping has a positive depth. */
  lemma {:induction false} UngroupedFlat(rs: seq<MarkdownRange>)
    ensures forall i | 0 <= i < |Ungrouped(rs)| :: IsFlat(Ungrouped(rs)[i])
    decreases |rs|
  {
    if rs != [] {
      UngroupedFlat(rs[..|rs| - 1]);
      var u := Ungrouped(rs[..|rs| - 1]);
      var e := Expansion(rs[|rs| - 1]);
      forall i | 0 <= i < |u + e| ensures IsFlat((u + e)[i]) {
        if i >= |u| {
          assert (u + e)[i] == e[i - |u|];
        }
      }
    }
  }

  /** A list of flat ranges is its own ungrouping; hence ungrouping twice is ungrouping once. */
  lemma {:induction false} UngroupedIdentity(rs: seq<MarkdownRange>)
    requires forall i | 0 <= i < |rs| :: IsFlat(rs[i])
    ensures Ungrouped(rs) == rs
    decreases |rs|
  {
    if rs != [] {
      UngroupedIdentity(rs[..|rs| - 1]);
      assert rs == rs[..|rs| - 1] + [rs[|rs| - 1]];
    }
  }

  lemma UngroupedIdempotent(rs: seq<MarkdownRange>)
    ensures Ungrouped(Ungrouped(rs)) == Ungrouped(rs)
  {
    UngroupedFlat(rs);
    UngroupedIdentity(Ungrouped(rs));
  }

  // ----- the line split -----

  /** The start of piece `i` once the pieces are joined back with one separator between each two. */
  function LineStart(pieces: seq<string>, i: nat): (s: nat)
    requires i <= |pieces|
    ensures s >= i
  {
    if i == 0 then 0 else LineStart(pieces, i - 1) + |pieces[i - 1]| + 1
  }

  /** The paragraphs of `text`: its `'\n'`-separated lines, each with its absolute start and no ranges yet. */
  function Lines(text: string): (lines: seq<Paragraph>)
    ensures |lines| == |Split(text, '\n')|
  {
    var pieces := Split(text, '\n');
    seq(|pieces|, i requires 0 <= i < |pieces| => Paragraph(pieces[i], LineStart(pieces, i), |pieces[i]|, []))
  }

  /** The `text.split('\n').map(...)` that advances `lineStartIndex` past each line and its newline. */
  method SplitLines(text: string) returns (lines: seq<Paragraph>)
    ensures lines == Lines(text)
  {
    var pieces := Split(text, '\n');
    var lineStartIndex := 0;
    lines := [];
    for i := 0 to |pieces|
      invariant lineStartIndex == LineStart(pieces, i)
      invariant lines == Lines(text)[..i]
    {
      lines := lines + [Paragraph(pieces[i], lineStartIndex, |pieces[i]|, [])];
      lineStartIndex := lineStartIndex + |pieces[i]| + 1;
    }
  }

  /** Lines that tile the text from offset 0, one separator between each two. */
  predicate Contiguous(lines: seq<Paragraph>) {
    && |lines| >= 1
    && lines[0].start == 0
    && (forall i | 0 <= i < |lines| :: lines[i].length >= 0)
    && (forall i | 0 <= i < |lines| - 1 :: lines[i + 1].start == LineEnd(lines[i]) + 1)
  }

  /** The line split: one more line than newlines, cumulative starts, and the lines join back to the text. */
  lemma LinesOfText(text: string)
    ensures |Lines(text)| == Count(text, '\n') + 1
    ensures Contiguous(Lines(text))
    ensures Join(seq(|Lines(text)|, i requires 0 <= i < |Lines(text)| => Lines(text)[i].text), '\n') == text
    ensures forall i | 0 <= i < |Lines(text)| :: '\n' !in Lines(text)[i].text && Lines(text)[i].markdownRanges == []
  {
    var pieces := Split(text, '\n');
    SplitCount(text, '\n');
    SplitPiecesFree(text, '\n');
    JoinSplit(text, '\n');
    assert seq(|Lines(text)|, i requires 0 <= i < |Lines(text)| => Lines(text)[i].text) == pieces;
  }

  /** Where piece `i` starts within the pieces after the first. */
  lemma {:induction false} LineStartTail(pieces: seq<string>, i: nat)
    requires 1 <= i <= |pieces|
    ensures LineStart(pieces, i) == |pieces[0]| + 1 + LineStart(pieces[1..], i - 1)
  {
    if i > 1 {
      LineStartTail(pieces, i - 1);
    }
  }

  /** Each piece sits in the join at its line start. */
  lemma {:induction false} JoinSlice(pieces: seq<string>, i: nat)
    requires i < |pieces|
    ensures LineStart(pieces, i) + |pieces[i]| <= |Join(pieces, '\n')|
    ensures Join(pieces, '\n')[LineStart(pieces, i)..LineStart(pieces, i) + |pieces[i]|] == pieces[i]
    decreases |pieces|
  {
    if i > 0 {
      var head := pieces[0] + ['\n'];
      var tail := Join(pieces[1..], '\n');
      assert Join(pieces, '\n') == head + tail;
      LineStartTail(pieces, i);
      JoinSlice(pieces[1..], i - 1);
      var s := LineStart(pieces[1..], i - 1);
      assert (head + tail)[|head| + s..|head| + s + |pieces[i]|] == tail[s..s + |pieces[i]|];
    }
  }

  /** The joined pieces end where the last piece ends. */
  lemma {:induction false} JoinLength(pieces: seq<string>)
    requires |pieces| >= 1
    ensures |Join(pieces, '\n')| == LineStart(pieces, |pieces| - 1) + |pieces[|pieces| - 1]|
    decreases |pieces|
  {
    if |pieces| > 1 {
      JoinLength(pieces[1..]);
      LineStartTail(pieces, |pieces| - 1);
    }
  }

  /** Line `i` is the slice of the text at its start and length. */
  lemma LineSlice(text: string, i: nat)
    requires i < |Lines(text)|
    ensures 0 <= Lines(text)[i].start && LineEnd(Lines(text)[i]) <= |text|
    ensures text[Lines(text)[i].start..LineEnd(Lines(text)[i])] == Lines(text)[i].text
  {
    JoinSplit(text, '\n');
    JoinSlice(Split(text, '\n'), i);
  }

  /** Every line is the slice of the text at its start and length; the last line ends the text. */
  lemma LineSlices(text: string)
    ensures forall i | 0 <= i < |Lines(text)| ::
              0 <= Lines(text)[i].start && LineEnd(Lines(text)[i]) <= |text|
              && text[Lines(text)[i].start..LineEnd(Lines(text)[i])] == Lines(text)[i].text
    ensures LineEnd(Lines(text)[|Lines(text)| - 1]) == |text|
  {
    forall i | 0 <= i < |Lines(text)|
      ensures 0 <= Lines(text)[i].start && LineEnd(Lines(text)[i]) <= |text|
      ensures text[Lines(text)[i].start..LineEnd(Lines(text)[i])] == Lines(text)[i].text
    {
      LineSlice(text, i);
    }
    JoinSplit(text, '\n');
    JoinLength(Split(text, '\n'));
  }

  // ----- grouping ranges by line -----

  /**
   * Where the line index stops for a range starting at `start`: the first
   * line from `ptr` on whose end is not before `start`, or `|lines|` (no
   * current line) when there is none.
   */
  function LineOf(lines: seq<Paragraph>, ptr: nat, start: int): (l: nat)
    requires ptr <= |lines|
    ensures ptr <= l <= |lines|
    ensures l < |lines| ==> start <= LineEnd(lines[l])
    ensures forall i | ptr <= i < l :: start > LineEnd(lines[i])
    decreases |lines| - ptr
  {
    if ptr == |lines| then ptr
    else if start > LineEnd(lines[ptr]) then LineOf(lines, ptr + 1, start)
    else ptr
  }

  /** A range with its start made relative to the line it is assigned to. */
  function Rebase(r: MarkdownRange, line: Paragraph): MarkdownRange {
    r.(start := r.start - line.start)
  }

  /** The line with one more range assigned to it. */
  function Assigned(line: Paragraph, r: MarkdownRange): Paragraph {
    line.(markdownRanges := line.markdownRanges + [Rebase(r, line)])
  }

  /** Assigns `rs`, in order, with the line index at `ptr`; a range with no current line is dropped. */
  function GroupFrom(lines: seq<Paragraph>, rs: seq<MarkdownRange>, ptr: nat): seq<Paragraph>
    requires ptr <= |lines|
    decreases |rs|
  {
    if rs == [] then lines
    else
      var l := LineOf(lines, ptr, rs[0].start);
      if l == |lines| then GroupFrom(lines, rs[1..], l)
      else GroupFrom(lines[l := Assigned(lines[l], rs[0])], rs[1..], l)
  }

  function Grouped(lines: seq<Paragraph>, rs: seq<MarkdownRange>): seq<Paragraph> {
    GroupFrom(lines, rs, 0)
  }

  /** The `stack.forEach` that walks the line index forward and pushes each range, rebased, onto its line. */
  method GroupRangesByLine(lines: seq<Paragraph>, stack: seq<MarkdownRange>) returns (grouped: seq<Paragraph>)
    ensures grouped == Grouped(lines, stack)
  {
    grouped := lines;
    var lineIndex := 0;
    for k := 0 to |stack|
      invariant lineIndex <= |grouped|
      invariant GroupFrom(grouped, stack[k..], lineIndex) == Grouped(lines, stack)
    {
      var start := stack[k].start;
      ghost var from := lineIndex;
      while lineIndex < |grouped| && start > grouped[lineIndex].start + grouped[lineIndex].length
        invariant from <= lineIndex <= |grouped|
        invariant LineOf(grouped, from, start) == LineOf(grouped, lineIndex, start)
      {
        lineIndex := lineIndex + 1;
      }
      assert stack[k..][1..] == stack[k + 1..];
      if lineIndex < |grouped| {
        var currentLine := grouped[lineIndex];
        grouped := grouped[lineIndex := currentLine.(markdownRanges := currentLine.markdownRanges + [stack[k].(start := start - currentLine.start)])];
      }
    }
  }

  /** Two lists of lines that differ at most in the ranges assigned to them. */
  predicate SameLines(a: seq<Paragraph>, b: seq<Paragraph>) {
    |a| == |b| && forall i | 0 <= i < |a| :: a[i].(markdownRanges := []) == b[i].(markdownRanges := [])
  }

  /** Grouping keeps every line's text, start and length, and only appends to its ranges. */
  lemma {:induction false} GroupKeepsLines(lines: seq<Paragraph>, rs: seq<MarkdownRange>, ptr: nat)
    requires ptr <= |lines|
    ensures SameLines(GroupFrom(lines, rs, ptr), lines)
    ensures forall i | 0 <= i < |lines| :: lines[i].markdownRanges <= GroupFrom(lines, rs, ptr)[i].markdownRanges
    decreases |rs|
  {
    if rs != [] {
      var l := LineOf(lines, ptr, rs[0].start);
      if l == |lines| {
        GroupKeepsLines(lines, rs[1..], l);
      } else {
        var next := lines[l := Assigned(lines[l], rs[0])];
        GroupKeepsLines(next, rs[1..], l);
      }
    }
  }

  /** With the line index past the last line, every remaining range is dropped. */
  lemma {:induction false} GroupPastEnd(lines: seq<Paragraph>, rs: seq<MarkdownRange>)
    ensures GroupFrom(lines, rs, |lines|) == lines
    decreases |rs|
  {
    if rs != [] {
      GroupPastEnd(lines, rs[1..]);
    }
  }

  /** Number of ranges assigned over all lines. */
  function TotalRanges(lines: seq<Paragraph>): nat {
    if lines == [] then 0 else TotalRanges(lines[..|lines| - 1]) + |lines[|lines| - 1].markdownRanges|
  }

  lemma {:induction false} TotalRangesAssigned(lines: seq<Paragraph>, l: nat, r: MarkdownRange)
    requires l < |lines|
    ensures TotalRanges(lines[l := Assigned(lines[l], r)]) == TotalRanges(lines) + 1
    decreases |lines|
  {
    var next := lines[l := Assigned(lines[l], r)];
    if l < |lines| - 1 {
      assert next[..|next| - 1] == lines[..|lines| - 1][l := Assigned(lines[l], r)];
      TotalRangesAssigned(lines[..|lines| - 1], l, r);
    } else {
      assert next[..|next| - 1] == lines[..|lines| - 1];
    }
  }

  /** A start not past the last line's end always finds a line. */
  lemma {:induction false} LineOfFound(lines: seq<Paragraph>, ptr: nat, start: int)
    requires ptr < |lines| && start <= LineEnd(lines[|lines| - 1])
    ensures LineOf(lines, ptr, start) < |lines|
    decreases |lines| - ptr
  {
    if start > LineEnd(lines[ptr]) {
      LineOfFound(lines, ptr + 1, start);
    }
  }

  /** No range is dropped while every range starts at or before the end of the last line. */
  lemma {:induction false} GroupKeepsEveryRange(lines: seq<Paragraph>, rs: seq<MarkdownRange>, ptr: nat)
    requires ptr < |lines|
    requires forall j | 0 <= j < |rs| :: rs[j].start <= LineEnd(lines[|lines| - 1])
    ensures TotalRanges(GroupFrom(lines, rs, ptr)) == TotalRanges(lines) + |rs|
    decreases |rs|
  {
    if rs != [] {
      LineOfFound(lines, ptr, rs[0].start);
      var l := LineOf(lines, ptr, rs[0].start);
      var next := lines[l := Assigned(lines[l], rs[0])];
      TotalRangesAssigned(lines, l, rs[0]);
      assert LineEnd(next[|next| - 1]) == LineEnd(lines[|lines| - 1]);
      GroupKeepsEveryRange(next, rs[1..], l);
    }
  }

  /** Ranges ordered by start. */
  predicate SortedByStart(rs: seq<MarkdownRange>) {
    forall i, j | 0 <= i < j < |rs| :: rs[i].start <= rs[j].start
  }

  /** Every range assigned to a line starts within it once rebased. */
  predicate RangesInLines(lines: seq<Paragraph>) {
    forall i, j | 0 <= i < |lines| && 0 <= j < |lines[i].markdownRanges| ::
      0 <= lines[i].markdownRanges[j].start <= lines[i].length
  }

  /**
   * Ranges sorted by start and starting in the text land, rebased, inside
   * the line they are assigned to.
   */
  lemma GroupedInLines(lines: seq<Paragraph>, rs: seq<MarkdownRange>)
    requires Contiguous(lines) && RangesInLines(lines)
    requires SortedByStart(rs) && forall j | 0 <= j < |rs| :: rs[j].start >= 0
    ensures RangesInLines(Grouped(lines, rs))
  {
    GroupInLinesFrom(lines, rs, 0);
  }

  lemma {:induction false} GroupInLinesFrom(lines: seq<Paragraph>, rs: seq<MarkdownRange>, ptr: nat)
    requires ptr <= |lines| && Contiguous(lines) && RangesInLines(lines)
    requires SortedByStart(rs)
    requires rs != [] && ptr < |lines| ==> rs[0].start >= lines[ptr].start
    ensures RangesInLines(GroupFrom(lines, rs, ptr))
    decreases |rs|
  {
    if rs != [] {
      var l := LineOf(lines, ptr, rs[0].start);
      if l == |lines| {
        GroupPastEnd(lines, rs[1..]);
      } else {
        assert rs[0].start >= lines[l].start by {
          if l > ptr {
            assert rs[0].start > LineEnd(lines[l - 1]);
          }
        }
        var next := lines[l := Assigned(lines[l], rs[0])];
        assert Contiguous(next) by {
          assert forall i | 0 <= i < |next| :: next[i].start == lines[i].start && next[i].length == lines[i].length;
        }
        assert RangesInLines(next) by {
          forall i, j | 0 <= i < |next| && 0 <= j < |next[i].markdownRanges|
            ensures 0 <= next[i].markdownRanges[j].start <= next[i].length
          {
            if i == l && j == |lines[l].markdownRanges| {
              assert next[i].markdownRanges[j] == Rebase(rs[0], lines[l]);
            } else if i == l {
              assert next[i].markdownRanges[j] == lines[i].markdownRanges[j];
            }
          }
        }
        GroupInLinesFrom(next, rs[1..], l);
      }
    }
  }

  // ----- parseText -----

  /** What `parseText` returns: the text, and the cursor position it worked with (0 when there is none). */
  datatype ParseResult = ParseResult(text: string, cursorPosition: int)

  /**
   * The result of `parseText`. When the editor is focused and no cursor
   * position is given, the position is the end of the current selection
   * (none without a selection); `cursorPosition || 0` then turns none into 0.
   */
  function ParseText(text: string, cursorPositionIndex: Option<int>, isFocused: bool, selection: Option<Dom.Selection>): (r: ParseResult)
    ensures r.text == text
    ensures cursorPositionIndex.Some? ==> r.cursorPosition == cursorPositionIndex.value
    ensures cursorPositionIndex.None? && isFocused && selection.Some? ==> r.cursorPosition == selection.value.end
    ensures cursorPositionIndex.None? && !(isFocused && selection.Some?) ==> r.cursorPosition == 0
  {
    var cursorPosition :=
      if isFocused && cursorPositionIndex.None? then
        (if selection.Some? then Some(selection.value.end) else None)
      else cursorPositionIndex;
    ParseResult(text, cursorPosition.GetOr(0))
  }

  /** The names `src/web/cursorUtils.ts` exports (its `export` list). */
  const CursorUtilsExports: set<string> :=
    {"getCurrentCursorPosition", "moveCursorToEnd", "setCursorPosition", "removeSelection", "scrollCursorIntoView"}

  /** How a call of `parseText` ends: with its value, or with the `TypeError` of calling an undefined member. */
  datatype ParseOutcome = Returned(result: ParseResult) | ThrewTypeError

  /**
   * `parseText` as written: before returning it calls
   * `CursorUtils.setPrevText(target)`, and calling a name the module does
   * not export throws a `TypeError`.
   */
  function ParseTextAsWritten(text: string, cursorPositionIndex: Option<int>, isFocused: bool, selection: Option<Dom.Selection>): (o: ParseOutcome)
    ensures o.Returned? <==> "setPrevText" in CursorUtilsExports
    ensures o.Returned? ==> o.result.text == text
  {
    if "setPrevText" in CursorUtilsExports then Returned(ParseText(text, cursorPositionIndex, isFocused, selection))
    else ThrewTypeError
  }

  /** The module exports no `setPrevText`, so `parseText` as written never returns. */
  lemma ParseTextAsWrittenThrows(text: string, cursorPositionIndex: Option<int>, isFocused: bool, selection: Option<Dom.Selection>)
    ensures ParseTextAsWritten(text, cursorPositionIndex, isFocused, selection) == ThrewTypeError
  {
  }
}
