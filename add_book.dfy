/** The Add dialog: a draft without an id, stamped with `nextId` and reset on submit. */
module AddBookDialog {
  import opened Options
  import opened BookTypes
  import opened DraftForm

  /** What a submit does: the book handed to `onAddBook` (if any) and the draft afterwards. */
  datatype AddOutcome = AddOutcome(emitted: Option<Book>, draft: Draft)

  /**
   * `handleSubmit` on a draft: a valid draft is emitted with `id = nextId` and
   * the form is reset to the empty draft; an invalid one emits nothing and
   * stays as it is.
   */
  function AddSubmit(d: Draft, nextId: int): (r: AddOutcome)
    ensures r.emitted.Some? <==> IsValid(d)
    ensures r.emitted.Some? ==> r.emitted.value.id == nextId && Fields(r.emitted.value) == d
    ensures r.draft == if IsValid(d) then EmptyDraft else d
  {
    if IsValid(d) then AddOutcome(Some(WithId(d, nextId)), EmptyDraft)
    else AddOutcome(None, d)
  }

  /** Two submits in a row never add two books: the first one leaves an invalid draft behind. */
  lemma SecondSubmitEmitsNothing(d: Draft, nextId: int, laterId: int)
    requires IsValid(d)
    ensures AddSubmit(AddSubmit(d, nextId).draft, laterId).emitted == None
  {
    EmptyDraftIsInvalid();
  }

  /** The component state: the `newBook` draft and the `isFormValid` flag derived from it. */
  class AddBookForm {
    var newBook: Draft
    var isFormValid: bool

    /** `isFormValid` always agrees with the current draft. */
    ghost predicate Valid()
      reads this
    {
      isFormValid == IsValid(newBook)
    }

    constructor ()
      ensures newBook == EmptyDraft && !isFormValid
      ensures Valid()
    {
      newBook := EmptyDraft;
      isFormValid := IsValid(EmptyDraft);
      EmptyDraftIsInvalid();
    }

    /** `handleInputChange`; `parsed` is what `parseFloat(value)` returns. */
    method HandleInputChange(name: InputField, value: string, parsed: Number)
      requires Valid()
      modifies this
      ensures Valid()
      ensures newBook == ApplyInput(old(newBook), name, value, parsed)
    {
      newBook := ApplyInput(newBook, name, value, parsed);
      isFormValid := IsValid(newBook);
    }

    /** `handleMultiSelectChange` */
    method HandleMultiSelectChange(name: ListField, values: seq<int>)
      requires Valid()
      modifies this
      ensures Valid()
      ensures newBook == ApplyListChange(old(newBook), name, values)
    {
      newBook := ApplyListChange(newBook, name, values);
      isFormValid := IsValid(newBook);
    }

    /**
     * `handleSubmit`: returns the book passed to `onAddBook`, or `None` when
     * the form is invalid and nothing happens. `onClose` runs exactly when a
     * book is returned.
     */
    method HandleSubmit(nextId: int) returns (emitted: Option<Book>)
      requires Valid()
      modifies this
      ensures Valid()
      ensures AddOutcome(emitted, newBook) == AddSubmit(old(newBook), nextId)
    {
      if isFormValid {
        emitted := Some(WithId(newBook, nextId));
        newBook := EmptyDraft;
        isFormValid := IsValid(newBook);
        EmptyDraftIsInvalid();
      } else {
        emitted := None;
      }
    }

    /** The submit button is disabled exactly when the form is not valid. */
    function SubmitDisabled(): (r: bool)
      reads this
      requires Valid()
      ensures r <==> !IsValid(newBook)
    {
      !isFormValid
    }
  }
}
