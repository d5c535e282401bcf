/**
 * `lib/commonjs/styleUtils.js`: the default markdown style of the CommonJS
 * build and its merge with a caller's style. The platform's monospace font
 * (`Platform.select`) is a parameter.
 */
module CommonJsStyleUtils {
  import opened Wrappers
  import opened StyleMerge

  /** The style object shared by `code` and `pre`. */
  function CodeStyle(monospace: string): Props {
    map["fontFamily" := Str(monospace), "color" := Str("black"), "backgroundColor" := Str("lightgray")]
  }

  /** A fresh copy of the defaults on every call. */
  function MakeDefaultMarkdownStyle(monospace: string): (d: MarkdownStyle)
    ensures d.Keys == {"syntax", "link", "h1", "blockquote", "code", "pre", "mentionHere", "mentionUser"}
    ensures "code" in d && "pre" in d && d["code"] == d["pre"]
    ensures "fontFamily" in d["code"] && d["code"]["fontFamily"] == Str(monospace)
  {
    map[
      "syntax" := map["color" := Str("gray")],
      "link" := map["color" := Str("blue")],
      "h1" := map["fontSize" := Num(25)],
      "blockquote" := map["borderColor" := Str("gray"), "borderWidth" := Num(6), "marginLeft" := Num(6), "paddingLeft" := Num(6)],
      "code" := CodeStyle(monospace),
      "pre" := CodeStyle(monospace),
      "mentionHere" := map["color" := Str("green"), "backgroundColor" := Str("lime")],
      "mentionUser" := map["color" := Str("blue"), "backgroundColor" := Str("cyan")]
    ]
  }

  /**
   * `mergeMarkdownStyleWithDefault`. The defaults are built afresh as a
   * value, so nothing one call assigns can reach another call's result.
   * The CommonJS defaults have no `emoji` entry, so an `emoji` style in the
   * input is dropped.
   */
  method MergeMarkdownStyleWithDefault(input: Option<PartialStyle>, monospace: string) returns (output: MarkdownStyle)
    ensures output == Merged(MakeDefaultMarkdownStyle(monospace), input)
    ensures input.None? ==> output == MakeDefaultMarkdownStyle(monospace)
    ensures output.Keys == MakeDefaultMarkdownStyle(monospace).Keys && "emoji" !in output
  {
    var defaults := MakeDefaultMarkdownStyle(monospace);
    output := MergeInto(defaults, input);
  }
}
