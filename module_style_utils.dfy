/**
 * `lib/module/styleUtils.js`: the ES-module build of the style defaults,
 * which adds an `emoji` entry to the CommonJS set, and the same merge.
 */
module ModuleStyleUtils {
  import opened Wrappers
  import opened StyleMerge
  import CommonJsStyleUtils

  function MakeDefaultMarkdownStyle(monospace: string): (d: MarkdownStyle)
    ensures d.Keys == CommonJsStyleUtils.MakeDefaultMarkdownStyle(monospace).Keys + {"emoji"}
    ensures "code" in d && "pre" in d && d["code"] == d["pre"]
    ensures "fontFamily" in d["code"] && d["code"]["fontFamily"] == Str(monospace)
    ensures "emoji" in d && d["emoji"] == map["fontSize" := Num(20)]
  {
    map[
      "syntax" := map["color" := Str("gray")],
      "link" := map["color" := Str("blue")],
      "h1" := map["fontSize" := Num(25)],
      "emoji" := map["fontSize" := Num(20)],
      "blockquote" := map["borderColor" := Str("gray"), "borderWidth" := Num(6), "marginLeft" := Num(6), "paddingLeft" := Num(6)],
      "code" := CommonJsStyleUtils.CodeStyle(monospace),
      "pre" := CommonJsStyleUtils.CodeStyle(monospace),
      "mentionHere" := map["color" := Str("green"), "backgroundColor" := Str("lime")],
      "mentionUser" := map["color" := Str("blue"), "backgroundColor" := Str("cyan")]
    ]
  }

  /** The two builds agree on every default but `emoji`, which only this one has. */
  lemma DefaultsExtendCommonJs(monospace: string)
    ensures MakeDefaultMarkdownStyle(monospace) == CommonJsStyleUtils.MakeDefaultMarkdownStyle(monospace)["emoji" := map["fontSize" := Num(20)]]
  {
  }

  /** `mergeMarkdownStyleWithDefault`; an `emoji` style in the input is kept, over a 20-point default. */
  method MergeMarkdownStyleWithDefault(input: Option<PartialStyle>, monospace: string) returns (output: MarkdownStyle)
    ensures output == Merged(MakeDefaultMarkdownStyle(monospace), input)
    ensures input.None? ==> output == MakeDefaultMarkdownStyle(monospace)
    ensures output.Keys == MakeDefaultMarkdownStyle(monospace).Keys
    ensures "fontSize" in output["emoji"]
    ensures output["emoji"]["fontSize"] == (if input.Some? && Given(input.value, "emoji").Some? && "fontSize" in Given(input.value, "emoji").value
                                            then Given(input.value, "emoji").value["fontSize"] else Num(20))
  {
    var defaults := MakeDefaultMarkdownStyle(monospace);
    output := MergeInto(defaults, input);
  }
}
