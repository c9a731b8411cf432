/** `reduceTalkStyle` of `src/utils/reduceTalkStyle.ts`: the free-form style
    label of a talk is narrowed to the three styles the speech server knows
    before a synthesis request is sent. */
module TalkStyle {

  /** The three labels the speech server accepts. */
  const ReducedStyles: set<string> := {"talk", "happy", "sad"}

  /** Known labels pass through unchanged; anything else, the empty string and
      differently-cased spellings included, becomes `"talk"`. */
  function ReduceTalkStyle(style: string): (r: string)
    ensures r in ReducedStyles
    ensures style in ReducedStyles ==> r == style
    ensures style !in ReducedStyles ==> r == "talk"
  {
    if style == "talk" || style == "happy" || style == "sad" then style else "talk"
  }

  /** Reducing twice is reducing once. */
  lemma ReduceIdempotent(style: string)
    ensures ReduceTalkStyle(ReduceTalkStyle(style)) == ReduceTalkStyle(style)
  {
  }

  /** Case matters: capitalised spellings are not recognised. */
  lemma ReduceIsCaseSensitive()
    ensures ReduceTalkStyle("Happy") == "talk"
    ensures ReduceTalkStyle("SAD") == "talk"
    ensures ReduceTalkStyle("") == "talk"
  {
  }
}
