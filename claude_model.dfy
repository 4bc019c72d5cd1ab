/** get_claude_model: the model id requested for the model chosen in the sidebar. */
module ClaudeModel {
  import opened Wrappers

  /** The choices the sidebar offers, in order; the first is the initial selection. */
  const SidebarChoices: seq<string> := ["Claude Opus 4", "Claude Sonnet 4.5", "Claude Opus 4.5", "Claude Sonnet 4.1"]
  const DefaultChoice := "Claude Opus 4"

  const Opus3 := "claude-3-opus-20240229"
  const Sonnet35 := "claude-3-5-sonnet-20241022"
  const Sonnet3 := "claude-3-sonnet-20240229"

  const ModelMapping: map<string, string> := map[
    "Claude Opus 4" := Opus3,
    "Claude Sonnet 4.5" := Sonnet35,
    "Claude Opus 4.5" := Opus3,
    "Claude Sonnet 4.1" := Sonnet3
  ]

  /** `model_mapping[selected]`; None stands for the KeyError an unknown name raises. */
  function GetClaudeModel(selected: string): (r: Option<string>)
    ensures r.Some? <==> selected in SidebarChoices
    ensures r.Some? ==> r.value in {Opus3, Sonnet35, Sonnet3}
    ensures selected == DefaultChoice ==> r == Some(Opus3)
    ensures selected == "Claude Opus 4.5" ==> r == Some(Opus3)
    ensures selected == "Claude Sonnet 4.5" ==> r == Some(Sonnet35)
    ensures selected == "Claude Sonnet 4.1" ==> r == Some(Sonnet3)
  {
    if selected in ModelMapping then Some(ModelMapping[selected]) else None
  }

  /** Every model id is requested by some sidebar choice, so no entry of the table is unreachable. */
  lemma EveryModelOffered(model: string)
    requires model in {Opus3, Sonnet35, Sonnet3}
    ensures exists k | 0 <= k < |SidebarChoices| :: GetClaudeModel(SidebarChoices[k]) == Some(model)
  {
    if model == Opus3 {
      assert GetClaudeModel(SidebarChoices[0]) == Some(model);
    } else if model == Sonnet35 {
      assert GetClaudeModel(SidebarChoices[1]) == Some(model);
    } else {
      assert GetClaudeModel(SidebarChoices[3]) == Some(model);
    }
  }
}
