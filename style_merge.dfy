/**
 * Style objects as the editor handles them, and the merge of a user's
 * markdown style over the defaults that both builds of `styleUtils` share.
 * A style object maps CSS property names to string or numeric values; a
 * markdown style maps a markdown style key (`syntax`, `link`, `h1`, ...) to
 * a style object.
 */
module StyleMerge {
  import opened Wrappers

  /** A CSS property value: a string (`'bold'`, `'gray'`) or a number (`25`). */
  datatype StyleValue = Str(s: string) | Num(n: int)

  type Props = map<string, StyleValue>

  type MarkdownStyle = map<string, Props>

  /**
   * A markdown style as a caller passes it: a key may be present with an
   * `undefined` value, which `Object.assign` ignores.
   */
  type PartialStyle = map<string, Option<Props>>

  /** `Object.assign(target, source)`: the source's properties overwrite the target's; an undefined source changes nothing. */
  function Assign(target: Props, source: Option<Props>): (r: Props)
    ensures source.None? ==> r == target
    ensures source.Some? ==> r.Keys == target.Keys + source.value.Keys
    ensures source.Some? ==> forall p | p in source.value :: r[p] == source.value[p]
    ensures forall p | p in target && (source.None? || p !in source.value) :: p in r && r[p] == target[p]
  {
    match source
    case None => target
    case Some(s) => target + s
  }

  /** `markdownStyle[key]`, undefined when the key is absent. */
  function StyleOf(ms: MarkdownStyle, key: string): Option<Props> {
    if key in ms then Some(ms[key]) else None
  }

  /** What the input gives for `key`, undefined when it gives nothing. */
  function Given(input: PartialStyle, key: string): Option<Props> {
    if key in input then input[key] else None
  }

  /** The defaults with each known key's style object overwritten by the input's properties for it. */
  function Merged(defaults: MarkdownStyle, input: Option<PartialStyle>): (r: MarkdownStyle)
    ensures input.None? ==> r == defaults
    ensures r.Keys == defaults.Keys
    ensures forall k | k in defaults && input.Some? && Given(input.value, k).Some? ::
              r[k].Keys == defaults[k].Keys + Given(input.value, k).value.Keys
    ensures forall k, p | k in defaults && input.Some? && Given(input.value, k).Some? && p in Given(input.value, k).value ::
              r[k][p] == Given(input.value, k).value[p]
    ensures forall k, p | k in defaults && p in defaults[k] && (input.None? || Given(input.value, k).None? || p !in Given(input.value, k).value) ::
              p in r[k] && r[k][p] == defaults[k][p]
  {
    match input
    case None => defaults
    case Some(given) => MergedKeys(defaults, given, given.Keys)
  }

  /** The merge restricted to the input keys in `done`. */
  function MergedKeys(defaults: MarkdownStyle, input: PartialStyle, done: set<string>): MarkdownStyle {
    map k | k in defaults :: if k in done then Assign(defaults[k], Given(input, k)) else defaults[k]
  }

  /**
   * The `forEach` of `mergeMarkdownStyleWithDefault`: every key of the input
   * that the output already has gets the input's properties assigned onto
   * its style object; every other key is skipped.
   */
  method MergeInto(defaults: MarkdownStyle, input: Option<PartialStyle>) returns (output: MarkdownStyle)
    ensures output == Merged(defaults, input)
  {
    output := defaults;
    if input.Some? {
      var keys := input.value.Keys;
      ghost var done: set<string> := {};
      while keys != {}
        invariant keys !! done && keys + done == input.value.Keys
        invariant output == MergedKeys(defaults, input.value, done)
        decreases keys
      {
        var key :| key in keys;
        if key in output {
          output := output[key := Assign(output[key], input.value[key])];
        }
        keys := keys - {key};
        done := done + {key};
      }
    }
  }
}
