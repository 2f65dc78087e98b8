/**
 * The answers of the interactive build prompt, a read-only value. Adding post-process choices
 * makes a new value and leaves the old one as it was.
 */
module PromptChoices {
  import opened Wrappers

  /** One post-process the user picked: its strategy and its option map. */
  datatype PostProcessChoice = PostProcessChoice(strategy: string, options: seq<(string, string)>)

  datatype PromptChoices = PromptChoices(
    package: string,
    variant: string,
    artwork: bool,
    folder: bool,
    portmaster: bool,
    zip: bool,
    transfer: bool,
    postProcessChoices: seq<PostProcessChoice>,
    theme: Option<string>)
  {
    /**
     * `cloneWithAdditionalPostProcessChoices`: the new choices come first, then this value's
     * choices, and every other field is copied.
     */
    function CloneWithAdditionalPostProcessChoices(choices: seq<PostProcessChoice>): (r: PromptChoices)
      ensures |r.postProcessChoices| == |choices| + |postProcessChoices|
      ensures r.postProcessChoices[..|choices|] == choices
      ensures r.postProcessChoices[|choices|..] == postProcessChoices
      ensures r.package == package && r.variant == variant && r.theme == theme
      ensures r.artwork == artwork && r.folder == folder && r.portmaster == portmaster
      ensures r.zip == zip && r.transfer == transfer
    {
      PromptChoices(package, variant, artwork, folder, portmaster, zip, transfer,
                    choices + postProcessChoices, theme)
    }
  }

  /** Adding nothing gives back an equal value. */
  lemma CloneWithNothing(c: PromptChoices)
    ensures c.CloneWithAdditionalPostProcessChoices([]) == c
  {
    assert [] + c.postProcessChoices == c.postProcessChoices;
  }

  /** Two additions in a row equal one addition of the later choices followed by the earlier ones. */
  lemma CloneTwice(c: PromptChoices, first: seq<PostProcessChoice>, second: seq<PostProcessChoice>)
    ensures c.CloneWithAdditionalPostProcessChoices(first).CloneWithAdditionalPostProcessChoices(second)
      == c.CloneWithAdditionalPostProcessChoices(second + first)
  {
    assert second + (first + c.postProcessChoices) == (second + first) + c.postProcessChoices;
  }
}
