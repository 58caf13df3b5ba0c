/**
 * `CalorieDisplay` (components/CalorieDisplay.tsx): which of the four panels
 * the component renders for its three props. The props are tested by
 * JavaScript truthiness, so an empty string counts as absent.
 */
module CalorieDisplay {
  import opened Wrappers
  import opened JsString

  datatype Panel = Spinner | ErrorPanel(message: string) | ResultPanel(text: string) | NoPanel

  function Render(isLoading: bool, error: Option<string>, estimationResult: Option<string>): (p: Panel)
    ensures isLoading <==> p == Spinner
    ensures p.ErrorPanel? <==> !isLoading && Truthy(error)
    ensures p.ErrorPanel? ==> p.message == error.value && p.message != ""
    ensures p.ResultPanel? <==> !isLoading && !Truthy(error) && Truthy(estimationResult)
    ensures p.ResultPanel? ==> p.text == estimationResult.value && p.text != ""
    ensures p == NoPanel <==> !isLoading && !Truthy(error) && !Truthy(estimationResult)
  {
    if isLoading then Spinner
    else if Truthy(error) then ErrorPanel(error.value)
    else if Truthy(estimationResult) then ResultPanel(estimationResult.value)
    else NoPanel
  }

  /** Loading wins over everything: the other two props do not matter. */
  lemma LoadingHidesEverything(e1: Option<string>, r1: Option<string>, e2: Option<string>, r2: Option<string>)
    ensures Render(true, e1, r1) == Render(true, e2, r2) == Spinner
  {
  }

  /** An error hides any result, whatever the result is. */
  lemma ErrorHidesResult(error: Option<string>, r1: Option<string>, r2: Option<string>)
    requires Truthy(error)
    ensures Render(false, error, r1) == Render(false, error, r2) == ErrorPanel(error.value)
  {
  }

  /** Falsy props render nothing: null and the empty string behave alike. */
  lemma FalsyRendersNothing(error: Option<string>, result: Option<string>)
    requires error == None || error == Some("")
    requires result == None || result == Some("")
    ensures Render(false, error, result) == NoPanel
  {
  }
}
