/** The Edit dialog: a full `Book` draft seeded from `initialBook`, emitted as it is. */
module EditBookDialog {
  import opened Options
  import opened BookTypes
  import opened DraftForm
  import AddBookDialog

  /** `handleSubmit` on a book: a valid book is emitted unchanged; an invalid one emits nothing. */
  function EditSubmit(b: Book): (r: Option<Book>)
    ensures r.Some? <==> IsValid(Fields(b))
    ensures r.Some? ==> r.value == b
  {
    if IsValid(Fields(b)) then Some(b) else None
  }

  /** One handler call on the Edit dialog's draft: every field but the id may change. */
  function ApplyToBook(b: Book, e: FormEvent): (r: Book)
    ensures r.id == b.id
  {
    WithId(Apply(Fields(b), e), b.id)
  }

  /** The Edit dialog's draft after a sequence of handler calls, oldest first. */
  function ApplyAllToBook(b: Book, es: seq<FormEvent>): (r: Book)
    decreases |es|
  {
    if es == [] then b else ApplyAllToBook(ApplyToBook(b, es[0]), es[1..])
  }

  /**
   * No handler touches the id: after any edits the draft is the Add dialog's
   * draft logic applied to the fields, under the id of `initialBook`.
   */
  lemma {:induction false} EditsKeepId(b: Book, es: seq<FormEvent>)
    ensures ApplyAllToBook(b, es).id == b.id
    ensures Fields(ApplyAllToBook(b, es)) == ApplyAll(Fields(b), es)
    decreases |es|
  {
    if es != [] {
      EditsKeepId(ApplyToBook(b, es[0]), es[1..]);
      FieldsOfWithId(Apply(Fields(b), es[0]), b.id);
    }
  }

  /**
   * The two dialogs apply one validity rule: a draft the Add dialog would emit
   * under an id is exactly a book the Edit dialog would emit, and the two
   * emit the same book.
   */
  lemma DialogsAgree(d: Draft, id: int)
    ensures AddBookDialog.AddSubmit(d, id).emitted == EditSubmit(WithId(d, id))
  {
    FieldsOfWithId(d, id);
  }

  /** A book emitted after any edits still carries the id of `initialBook`. */
  lemma EditedBookKeepsId(b: Book, es: seq<FormEvent>)
    ensures var r := EditSubmit(ApplyAllToBook(b, es));
      r.Some? ==> r.value.id == b.id && Fields(r.value) == ApplyAll(Fields(b), es)
  {
    EditsKeepId(b, es);
  }

  /** The component state: the `book` draft and the `isFormValid` flag derived from it. */
  class EditBookForm {
    var book: Book
    var isFormValid: bool

    ghost predicate Valid()
      reads this
    {
      isFormValid == IsValid(Fields(book))
    }

    /** The draft starts as `initialBook`, with validity derived at once. */
    constructor (initialBook: Book)
      ensures Valid()
      ensures book == initialBook
    {
      book := initialBook;
      isFormValid := IsValid(Fields(initialBook));
    }

    /** The effect on `[initialBook]`: the draft becomes exactly the new `initialBook`. */
    method SyncInitialBook(initialBook: Book)
      requires Valid()
      modifies this
      ensures Valid()
      ensures book == initialBook
    {
      book := initialBook;
      isFormValid := IsValid(Fields(book));
    }

    /** `handleInputChange`; `parsed` is what `parseFloat(value)` returns. */
    method HandleInputChange(name: InputField, value: string, parsed: Number)
      requires Valid()
      modifies this
      ensures Valid()
      ensures book.id == old(book.id)
      ensures Fields(book) == ApplyInput(Fields(old(book)), name, value, parsed)
    {
      book := WithId(ApplyInput(Fields(book), name, value, parsed), book.id);
      isFormValid := IsValid(Fields(book));
    }

    /** `handleMultiSelectChange` */
    method HandleMultiSelectChange(name: ListField, values: seq<int>)
      requires Valid()
      modifies this
      ensures Valid()
      ensures book.id == old(book.id)
      ensures Fields(book) == ApplyListChange(Fields(old(book)), name, values)
    {
      book := WithId(ApplyListChange(Fields(book), name, values), book.id);
      isFormValid := IsValid(Fields(book));
    }

    /**
     * `handleSubmit`: returns the book passed to `onEditBook`, or `None` when
     * the form is invalid. The draft is left as it is; `onClose` runs exactly
     * when a book is returned.
     */
    method HandleSubmit() returns (emitted: Option<Book>)
      requires Valid()
      ensures emitted.Some? <==> IsValid(Fields(book))
      ensures emitted.Some? ==> emitted.value == book
    {
      if isFormValid {
        emitted := Some(book);
      } else {
        emitted := None;
      }
    }

    /** The submit button is disabled exactly when the form is not valid. */
    function SubmitDisabled(): (r: bool)
      reads this
      requires Valid()
      ensures r <==> !IsValid(Fields(book))
    {
      !isFormValid
    }
  }
}
