# Book tracker: draft form and association projection

This project models the logic inside the book tracker's three React components.

- **The Add and Edit dialogs** share one draft form. The draft form has these parts:
  - typed field updates;
  - the rating clamp to [0, 5];
  - the validity rule behind `isFormValid`;
  - submission. Add stamps `nextId` on the book and resets the draft. Edit emits the draft as it is.
  - the checkboxes of the category and tag selection boxes.
- **The book table** turns each book's numeric category and tag ids into display names joined by ", ".

The components hold two mutable values: the draft and the `isFormValid` flag. Each dialog is therefore a class, `AddBookForm` or `EditBookForm`. Its methods change the draft one handler at a time, and the methods are proved against pure functions of the draft. The class invariant `Valid()` says that `isFormValid` always equals the validity of the current draft. The book table is pure and is modelled as functions.

Modules:

- `Options`: the `Option` type.
- `Text`: ECMAScript whitespace and `trim`, `join`, and a reference `Split` used to state the join round trip.
- `Decimal`: two conversions.
  - `Number.prototype.toString` on integers.
  - `parseInt` without a radix. It skips leading whitespace, takes an optional sign, reads hexadecimal after `0x`/`0X`, and otherwise reads the longest run of decimal digits.
- `BookTypes`: the records of `interfaces/Book.ts`.
  - A JavaScript number is modelled as `Number`: a finite real, one of the two infinities, or NaN.
  - `Draft` is a `Book` without its id.
- `Associations`: how an id resolves to a name. The id is rendered in decimal. The first entry with that string id is found, and its name is taken. `undefined` is joined as "".
- `DraftForm`: the parts both dialogs share.
  - field updates through the `InputField` and `ListField` enums;
  - `ClampRating` and `IsValid`;
  - the two checkbox rules, one with `indexOf` and one with `includes`.
- `AddBookDialog` and `EditBookDialog`: the two dialog components.
- `BookList`: `getCategoryNames`, `getTagNames` and the `rows` projection.

An id with no matching entry is not dropped. The lookup gives `undefined` for it, and `join` writes that as an empty string, so the slot stays. The model follows the code: `[1, 2]`, with only "1" known as "Fiction", renders as "Fiction, ".

Ids are compared as strings after decimal rendering. A category id that is not in canonical form, such as "007", is ticked in the selection box for the number 7. Yet 7 renders as "7", so that category's name shows as an empty slot. The model proves this case, alongside the round trip for canonical ids.

## Model

| member | source | states |
|---|---|---|
| BookTypes.WithId | components/AddBook.tsx:76 | Stamping an id on a draft gives a book with that id. |
| BookTypes.Fields | interfaces/Book.ts:1-9 | A book's fields without its id stamp back to the same book. |
| BookTypes.FieldsOfWithId | components/AddBook.tsx:76 | Removing the id from a stamped draft gives back the draft. |
| BookTypes.Less | components/AddBook.tsx:53 | JavaScript `x < c`: true for -Infinity, false for Infinity and NaN, and the real comparison on finite values. |
| BookTypes.Greater | components/AddBook.tsx:55 | JavaScript `x > c`: true for Infinity, false for -Infinity and NaN, and the real comparison on finite values. |
| BookTypes.AtLeast | components/AddBook.tsx:43 | JavaScript `x >= c`: greater or equal, hence false for NaN. |
| BookTypes.AtMost | components/AddBook.tsx:43 | JavaScript `x <= c`: less or equal, hence false for NaN. |
| Text.Trim | components/AddBook.tsx:43 | The result is the input with whitespace cut from its two ends and nothing else. It is empty exactly when every character is whitespace. Otherwise it starts and ends with a non-whitespace character, so all the outer whitespace is gone. |
| Text.SplitJoin | components/BookList.tsx:35 | If no part contains ", ", splitting the ", "-join of a non-empty list gives back the same parts in order. |
| Text.JoinLength | components/BookList.tsx:35 | n parts joined by ", " have the length of the parts plus n - 1 two-character separators. |
| Decimal.NatToDecimal | components/BookList.tsx:35 | The rendering of a natural number is a non-empty digit string. Its first digit is '0' only for the number 0, which renders as "0". |
| Decimal.IntToDecimal | components/BookList.tsx:35 | An integer's rendering is non-empty and starts with '-' exactly when the integer is negative. |
| Decimal.DigitPrefix | components/AddBook.tsx:141 | The digits `parseInt` reads are the longest prefix made of digits of the radix. |
| Decimal.ParseMagnitude | components/AddBook.tsx:141 | Hexadecimal digits after a `0x`/`0X` prefix, otherwise decimal digits. The value of the longest digit run, or NaN when there is none. |
| Decimal.ParseSigned | components/AddBook.tsx:141 | One optional sign: a leading '-' negates the magnitude, a leading '+' is skipped. |
| Decimal.ParseInt | components/AddBook.tsx:141 | `parseInt` without a radix: leading whitespace is skipped, then a signed magnitude is read. The lemmas below give its values. |
| Decimal.ParseIntOfDigits | components/AddBook.tsx:141 | `parseInt` of a decimal digit string is that string's value. |
| Decimal.ParseIntOfNegatedDigits | components/AddBook.tsx:141 | `parseInt` of '-' followed by digits is the negated value of the digits. |
| Decimal.ParseIntOfDecimal | components/AddBook.tsx:138-141 | `parseInt` gives back every integer that `toString` rendered. |
| Decimal.CanonicalRoundTrip | components/AddBook.tsx:138-142 | On a canonical decimal id, `parseInt` succeeds, and rendering its result gives back that id. |
| Decimal.CanonicalIffRendering | components/AddBook.tsx:138-142 | The canonical strings are exactly the renderings of integers. |
| Decimal.NatToDecimalOfValue | components/BookList.tsx:35 | A digit string with no leading zero is the rendering of its own value. |
| Decimal.ValueOfNatToDecimal | components/BookList.tsx:35 | The decimal rendering of n is a digit string whose value is n. |
| Associations.FindFirst | components/BookList.tsx:35 | `None` exactly when no entry carries the key. Otherwise the result is the first entry that carries it. |
| Associations.FindName | components/BookList.tsx:35 | `None` exactly when no entry's id is the id's decimal rendering. Otherwise it is the name of an entry whose id is that rendering. |
| Associations.Slot | components/BookList.tsx:35 | How `join` writes one mapped element: a found name as it is, `undefined` as "". |
| Associations.Slots | components/BookList.tsx:35 | One slot per id, in order. Each slot is that id's name, or "" for `undefined`. |
| Associations.ResolveNames | components/BookList.tsx:35 | No ids give "". If no name contains ", ", the text splits back at ", " into exactly one slot per id, in order. |
| Associations.ResolvedLength | components/BookList.tsx:35 | With n >= 1 ids, the text is the slots plus n - 1 separators. |
| Associations.ResolvesToFirstMatch | components/BookList.tsx:35 | An id resolves to the name of the first entry that carries its decimal rendering. |
| Associations.UnknownIdKeepsEmptySlot | components/BookList.tsx:35 | A known id followed by an unknown one renders as "Fiction, ". The unknown id is kept as an empty slot, not dropped. |
| Associations.NoIdsLookLikeOneUnknownId | components/BookList.tsx:35 | One unknown id renders the same as no ids: "". |
| DraftForm.ClampRating | components/AddBook.tsx:51-59 | NaN stays NaN. Any other input is stored as a finite rating in [0, 5]. A finite input already in [0, 5] is kept. |
| DraftForm.ClampIsMaxMin | components/AddBook.tsx:53-59 | A finite input is clamped to max(0, min(5, x)). Infinity becomes 5 and -Infinity becomes 0. |
| DraftForm.IsValid | components/AddBook.tsx:43 | The validity rule: all three text fields are non-empty once trimmed, and the rating is at least 0 and at most 5. So a valid draft always has a finite rating in [0, 5]. |
| DraftForm.ValidIff | components/AddBook.tsx:41-44 | Valid exactly when title, author and genre each hold a non-whitespace character and the rating is a finite number in [0, 5]. |
| DraftForm.FilledIff | components/AddBook.tsx:43 | A text field passes exactly when it is not all whitespace. |
| DraftForm.InRangeIff | components/AddBook.tsx:43 | The rating passes both comparisons exactly when it is finite and in [0, 5]. |
| DraftForm.NaNRatingIsInvalid | components/AddBook.tsx:52-58 | A NaN rating makes the form invalid, whatever the text fields hold. |
| DraftForm.EmptyDraftIsInvalid | components/AddBook.tsx:31-39 | `EmptyDraft` holds "", "", "", rating 0 and two empty lists. It is both the initial draft and the draft the submit resets to (lines 77-84), and it is invalid. |
| DraftForm.ApplyInput | components/AddBook.tsx:46-65 | A rating input stores the clamp of the parsed value. |
| DraftForm.ApplyListChange | components/AddBook.tsx:67-72 | The named list becomes the new selection. Title, author, genre and rating are kept. |
| DraftForm.InputChangesOnlyNamedField | components/AddBook.tsx:46-65 | A text input stores the raw, untrimmed string in the named field. A rating input stores the clamp. Every other field is unchanged. |
| DraftForm.ListChangeOnlyNamedList | components/AddBook.tsx:67-72 | A multi-select change replaces the named list, and only that list. |
| DraftForm.StoredRatingInRange | components/AddBook.tsx:51-59 | After a rating input, the stored rating is in [0, 5] exactly when the input was a number. |
| DraftForm.RatingInputValidity | components/AddBook.tsx:41-59 | After a rating input, the form is valid exactly when the input was a number and the three text fields are filled in. |
| DraftForm.IndexOf | components/AddBook.tsx:142 | -1 exactly when the value is absent. Otherwise the result is the first position of the value. |
| DraftForm.CheckedByIndexOf | components/AddBook.tsx:142 | The Add checkbox is ticked exactly when the entry's id parses and the parsed value is in the selection. |
| DraftForm.CheckedByIncludes | components/EditBook.tsx:116 | The Edit checkbox: the selection includes the parsed id. An id that does not parse is never ticked, because the selection holds integers only. |
| DraftForm.CheckboxRulesAgree | components/EditBook.tsx:116 | The `indexOf` rule and the `includes` rule agree. Both tick exactly when the id parses and the parsed value is in the selection. |
| DraftForm.TickedEntryRendersOwnName | components/AddBook.tsx:138-142 | A ticked entry whose id is canonical, and shared by no earlier entry, shows its own name in some slot of the rendered selection. |
| DraftForm.NonCanonicalIdIsTicked | components/AddBook.tsx:141-142 | A category with id "007" is ticked when the selection is [7]. |
| DraftForm.NonCanonicalIdRendersEmpty | components/AddBook.tsx:138 | The same selection [7] renders as "" against that category, because 7 renders as "7". |
| AddBookDialog.AddSubmit | components/AddBook.tsx:74-87 | A book is emitted exactly when the draft is valid. It carries `nextId` and the draft's fields, and the draft resets to empty. An invalid draft emits nothing and stays as it is. |
| AddBookDialog.SecondSubmitEmitsNothing | components/AddBook.tsx:77-84 | Right after a successful submit, a second submit emits nothing. |
| AddBookDialog.AddBookForm.constructor | components/AddBook.tsx:31-39 | The form starts as the empty draft with `isFormValid` false. The invariant holds. |
| AddBookDialog.AddBookForm.HandleInputChange | components/AddBook.tsx:46-65 | The draft becomes the input update of the old draft. `isFormValid` follows it. |
| AddBookDialog.AddBookForm.HandleMultiSelectChange | components/AddBook.tsx:67-72 | The draft becomes the list update of the old draft. `isFormValid` follows it. |
| AddBookDialog.AddBookForm.HandleSubmit | components/AddBook.tsx:74-87 | The emitted book and the new draft are exactly what `AddSubmit` gives for the old draft. |
| AddBookDialog.AddBookForm.SubmitDisabled | components/AddBook.tsx:170 | The button is disabled exactly when the draft is invalid. |
| EditBookDialog.EditSubmit | components/EditBook.tsx:56-61 | The book is emitted exactly when its fields are valid. It is emitted unchanged. |
| EditBookDialog.ApplyToBook | components/EditBook.tsx:43-53 | A handler call keeps the book's id. |
| EditBookDialog.EditsKeepId | components/EditBook.tsx:28-54 | After any handler calls, the id is unchanged and the fields are the shared draft logic applied to the original fields. |
| EditBookDialog.DialogsAgree | components/EditBook.tsx:23-26 | The Add dialog emits a draft under an id exactly when the Edit dialog emits the stamped book, and the two emit the same book. |
| EditBookDialog.EditedBookKeepsId | components/EditBook.tsx:56-61 | A book emitted after any edits carries the id of `initialBook` and the edited fields. |
| EditBookDialog.EditBookForm.constructor | components/EditBook.tsx:16-17 | The draft starts as `initialBook`. The invariant holds. |
| EditBookDialog.EditBookForm.SyncInitialBook | components/EditBook.tsx:19-21 | The draft becomes exactly the new `initialBook`. The invariant holds. |
| EditBookDialog.EditBookForm.HandleInputChange | components/EditBook.tsx:28-47 | The id is unchanged. The fields become the input update of the old fields. |
| EditBookDialog.EditBookForm.HandleMultiSelectChange | components/EditBook.tsx:49-54 | The id is unchanged. The fields become the list update of the old fields. |
| EditBookDialog.EditBookForm.HandleSubmit | components/EditBook.tsx:56-61 | The current book is returned exactly when valid, and the draft is not reset. |
| EditBookDialog.EditBookForm.SubmitDisabled | components/EditBook.tsx:144 | The button is disabled exactly when the draft is invalid. |
| BookList.GetCategoryNames | components/BookList.tsx:34-36 | No ids give "". If no name contains ", ", the text splits back into one category slot per id. |
| BookList.GetTagNames | components/BookList.tsx:38-40 | The same resolution, applied to the tags table. |
| BookList.RowOf | components/BookList.tsx:42-46 | The row copies id, title, author, genre and rating. An empty list gives an empty column. |
| BookList.Rows | components/BookList.tsx:42-46 | One row per book, in the order of the books. |
| BookList.RowsKeepBooks | components/BookList.tsx:42-46 | With the id lists put back, every row is exactly its book. Only categories and tags are rewritten. |
| BookList.RowSplitsBack | components/BookList.tsx:42-46 | A row's categories text and tags text split back into one slot per id of its book. |
| BookList.RowShowsKnownCategory | components/BookList.tsx:34-46 | A category id whose rendering first appears at entry k shows entry k's name in its own slot of the row. |

## Left out

- Rendering is not modelled: the MUI dialogs, text fields, selects, the data grid, its columns and its pagination. They are presentation only.
- The load of `/books.json` in the book table is not modelled. It is asynchronous I/O. `books`, `categories` and `tags` are inputs.
- `components/Actions.tsx` and `app/page.tsx` are not modelled. They only forward callbacks and mount components.
- `parseFloat` is not modelled. The parsed rating is an input: a `Number` that may be finite, infinite or NaN.
- IEEE-754 rounding is not modelled. Ratings are exact reals.
- React effect scheduling is not modelled. `isFormValid` is recomputed in the same step as each draft update, not one render later.
  - Because of this, `EditBookForm.constructor` states validity at once. The component starts with `isFormValid` false until its effect has run.
- The 2^53 precision limit of JavaScript numbers is not modelled for `parseInt` and `toString`. Ids are unbounded integers.
  - An id whose `toString` would use exponent notation is not modelled either.
- Non-integer numbers and NaN inside the selection lists are not modelled. The lists hold integers.
- DraftForm.CheckboxRulesAgree: holds only because the selections hold integers. In the source, an option whose id does not parse has the value NaN, and selecting it puts NaN in the list. The Edit dialog's `includes` then finds NaN and ticks that box. The Add dialog's `indexOf` never finds NaN and leaves it unticked. The model does not capture this divergence.
- Where `nextId` comes from is not modelled. Neither is what the `onAddBook` and `onEditBook` callbacks do with the emitted book.
  - Closing the dialog is not modelled separately. It happens exactly when a book is emitted.
- The `name` attribute is restricted to the four input fields and the two lists. The source writes any key it is given into the draft.
- Case folding and Unicode normalisation are not modelled. `trim` strips the fixed ECMAScript whitespace and line-terminator set.
