/**
  The sidecar decision of `process_png_file`: which of the two known tags
  is used, in which format, with which content. `Prompt` is tried first;
  a value that parses as JSON is kept as the parsed document, one that does
  not is kept as its raw text. Only without `Prompt` is `Parameters` used,
  as text. With neither there is no sidecar. JSON parsing is an oracle.
 */
module Sidecar {
  import opened Options
  import opened Paths

  const PromptTag: string := "Prompt"
  const ParametersTag: string := "Parameters"

  /** The single sidecar an image gets, if any; `J` is the parsed-JSON value. */
  datatype Plan<J> = NoSidecar | JsonSidecar(data: J) | TextSidecar(text: string)

  function PlanSidecar<J>(metadata: map<string, string>, parseJson: string -> Option<J>): (plan: Plan<J>)
    ensures plan.NoSidecar? <==> PromptTag !in metadata && ParametersTag !in metadata
    ensures plan.JsonSidecar? <==> PromptTag in metadata && parseJson(metadata[PromptTag]).Some?
    ensures plan.JsonSidecar? ==> Some(plan.data) == parseJson(metadata[PromptTag])
    ensures plan.TextSidecar? && PromptTag in metadata ==> plan.text == metadata[PromptTag]
    ensures plan.TextSidecar? && PromptTag !in metadata ==> plan.text == metadata[ParametersTag]
  {
    if PromptTag in metadata then
      match parseJson(metadata[PromptTag])
      case Some(data) => JsonSidecar(data)
      case None => TextSidecar(metadata[PromptTag])
    else if ParametersTag in metadata then
      TextSidecar(metadata[ParametersTag])
    else
      NoSidecar
  }

  /** The suffix given to the image path for the sidecar (`with_suffix`). */
  function Extension<J>(plan: Plan<J>): (ext: string)
    requires !plan.NoSidecar?
    ensures plan.JsonSidecar? ==> ext == ".json"
    ensures plan.TextSidecar? ==> ext == ".txt"
    ensures IsDottedSuffix(ext)
  {
    if plan.JsonSidecar? then ".json" else ".txt"
  }

  /** When `Prompt` is present, `Parameters` has no influence, whatever its value or presence. */
  lemma PromptTakesPriority<J>(metadata: map<string, string>, parseJson: string -> Option<J>, parameters: string)
    requires PromptTag in metadata
    ensures PlanSidecar(metadata[ParametersTag := parameters], parseJson) == PlanSidecar(metadata, parseJson)
    ensures PlanSidecar(metadata - {ParametersTag}, parseJson) == PlanSidecar(metadata, parseJson)
  {
    assert PromptTag != ParametersTag;
  }

  /** Only the two known tags matter: two tag maps agreeing on them get the same sidecar. */
  lemma OnlyKnownTagsMatter<J>(m1: map<string, string>, m2: map<string, string>, parseJson: string -> Option<J>)
    requires PromptTag in m1 <==> PromptTag in m2
    requires ParametersTag in m1 <==> ParametersTag in m2
    requires PromptTag in m1 ==> m1[PromptTag] == m2[PromptTag]
    requires ParametersTag in m1 ==> m1[ParametersTag] == m2[ParametersTag]
    ensures PlanSidecar(m1, parseJson) == PlanSidecar(m2, parseJson)
  {
  }
}
