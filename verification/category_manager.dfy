/** The category manager (src/components/modals/CategoryManagerModal.tsx): adding and deleting categories. */
module CategoryManager {
  import opened Types
  import opened JsText

  /** The name input after a submit, and the name `onCreate` was called with, if any. */
  datatype SubmitResult = SubmitResult(input: string, created: Option<string>)

  /**
   * `handleSubmit`: a blank name does nothing; any other name goes to `onCreate` exactly as
   * typed, and once that call resolves the input is emptied. `resolved` is false when
   * `onCreate` rejects, which leaves the input as it was.
   */
  function HandleSubmit(input: string, resolved: bool): (r: SubmitResult)
    ensures (forall i :: 0 <= i < |input| ==> IsSpace(input[i])) ==> r == SubmitResult(input, None)
    ensures (exists i :: 0 <= i < |input| && !IsSpace(input[i])) ==>
              r.created == Some(input) && r.input == (if resolved then "" else input)
  {
    if IsBlank(input) then SubmitResult(input, None)
    else SubmitResult(if resolved then "" else input, Some(input))
  }

  /** The id the delete button of row `row` hands to `onDelete`, if that row exists. */
  function DeleteTarget(categories: seq<Category>, row: int): (r: Option<int>)
    ensures r.Some? <==> 0 <= row < |categories|
    ensures r.Some? ==> r.value == categories[row].id
  {
    if 0 <= row < |categories| then Some(categories[row].id) else None
  }
}
