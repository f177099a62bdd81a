/**
 * The logic the Add and Edit dialogs share: the typed field updates that
 * replace `{ ...draft, [name]: value }`, the rating clamp, the validity
 * predicate behind `isFormValid`, and the two checkbox rules.
 */
module DraftForm {
  import opened Options
  import opened BookTypes
  import Text
  import Decimal
  import Associations

  /** The `name` of a text input: the three text fields and the rating. */
  datatype InputField = Title | Author | Genre | Rating

  /** The `name` passed to `handleMultiSelectChange`. */
  datatype ListField = Categories | Tags

  /**
   * The rating clamp applied to `parseFloat(value)`: below 0 gives 0, above 5
   * gives 5, anything else (NaN included, since both comparisons fail) passes.
   */
  function ClampRating(parsed: Number): (r: Number)
    ensures r.NaN? <==> parsed.NaN?
    ensures !parsed.NaN? ==> r.Finite? && 0.0 <= r.value <= 5.0
    ensures parsed.Finite? && 0.0 <= parsed.value <= 5.0 ==> r == parsed
  {
    if Less(parsed, 0.0) then Finite(0.0)
    else if Greater(parsed, 5.0) then Finite(5.0)
    else parsed
  }

  function Min(a: real, b: real): real { if a <= b then a else b }
  function Max(a: real, b: real): real { if a <= b then b else a }

  /** On a finite input the clamp is `max(0, min(5, x))`; the infinities go to the nearer bound. */
  lemma ClampIsMaxMin(parsed: Number)
    ensures parsed.Finite? ==> ClampRating(parsed) == Finite(Max(0.0, Min(5.0, parsed.value)))
    ensures parsed.PosInfinity? ==> ClampRating(parsed) == Finite(5.0)
    ensures parsed.NegInfinity? ==> ClampRating(parsed) == Finite(0.0)
  {
  }

  /** A text field counts as filled in when trimming leaves something. */
  predicate Filled(s: string) {
    Text.Trim(s) != ""
  }

  /**
   * The rule behind `isFormValid`: the three text fields are non-empty once
   * trimmed, and the rating compares at least 0 and at most 5.
   */
  predicate IsValid(d: Draft)
    ensures IsValid(d) ==> d.rating.Finite? && 0.0 <= d.rating.value <= 5.0
  {
    Filled(d.title) && Filled(d.author) && Filled(d.genre)
    && AtLeast(d.rating, 0.0) && AtMost(d.rating, 5.0)
  }

  /**
   * The form is valid exactly when each text field holds a character that is
   * not whitespace and the rating is a number in [0, 5].
   */
  lemma ValidIff(d: Draft)
    ensures IsValid(d) <==>
      && !Text.AllWhitespace(d.title)
      && !Text.AllWhitespace(d.author)
      && !Text.AllWhitespace(d.genre)
      && d.rating.Finite? && 0.0 <= d.rating.value <= 5.0
  {
    FilledIff(d.title);
    FilledIff(d.author);
    FilledIff(d.genre);
    InRangeIff(d.rating);
  }

  lemma InRangeIff(r: Number)
    ensures (AtLeast(r, 0.0) && AtMost(r, 5.0)) <==> r.Finite? && 0.0 <= r.value <= 5.0
  {
  }

  lemma FilledIff(s: string)
    ensures Filled(s) <==> !Text.AllWhitespace(s)
  {
  }

  /** A NaN rating fails both comparisons, so the form is invalid whatever the text fields hold. */
  lemma NaNRatingIsInvalid(d: Draft)
    requires d.rating.NaN?
    ensures !IsValid(d)
  {
  }

  /** The initial `newBook` and the draft the Add dialog resets to after a submit. */
  const EmptyDraft: Draft := Draft("", "", "", Finite(0.0), [], [])

  /** A fresh or just-reset form cannot submit: its title is empty. */
  lemma EmptyDraftIsInvalid()
    ensures !IsValid(EmptyDraft)
  {
    assert Text.Trim("") == "";
  }

  /**
   * `handleInputChange`: a text field stores the raw, untrimmed string; the
   * rating stores the clamp of `parsed`, which stands for `parseFloat(value)`.
   */
  function ApplyInput(d: Draft, name: InputField, value: string, parsed: Number): (r: Draft)
    ensures name == Rating ==> r.rating == ClampRating(parsed)
  {
    match name
    case Title => d.(title := value)
    case Author => d.(author := value)
    case Genre => d.(genre := value)
    case Rating => d.(rating := ClampRating(parsed))
  }

  /** `handleMultiSelectChange`: the named list becomes the new selection. */
  function ApplyListChange(d: Draft, name: ListField, values: seq<int>): (r: Draft)
    ensures r.title == d.title && r.author == d.author && r.genre == d.genre && r.rating == d.rating
  {
    match name
    case Categories => d.(categories := values)
    case Tags => d.(tags := values)
  }

  /** An input change writes the named field and leaves every other field as it was. */
  lemma InputChangesOnlyNamedField(d: Draft, name: InputField, value: string, parsed: Number)
    ensures ApplyInput(d, name, value, parsed).title == if name == Title then value else d.title
    ensures ApplyInput(d, name, value, parsed).author == if name == Author then value else d.author
    ensures ApplyInput(d, name, value, parsed).genre == if name == Genre then value else d.genre
    ensures ApplyInput(d, name, value, parsed).rating == if name == Rating then ClampRating(parsed) else d.rating
    ensures ApplyInput(d, name, value, parsed).categories == d.categories
    ensures ApplyInput(d, name, value, parsed).tags == d.tags
  {
  }

  /** A multi-select change replaces exactly one list. */
  lemma ListChangeOnlyNamedList(d: Draft, name: ListField, values: seq<int>)
    ensures ApplyListChange(d, name, values).categories == if name == Categories then values else d.categories
    ensures ApplyListChange(d, name, values).tags == if name == Tags then values else d.tags
    ensures var r := ApplyListChange(d, name, values);
      r.title == d.title && r.author == d.author && r.genre == d.genre && r.rating == d.rating
  {
  }

  /** Any rating entered as a number is stored in [0, 5]; only NaN is stored out of range. */
  lemma StoredRatingInRange(d: Draft, value: string, parsed: Number)
    ensures var r := ApplyInput(d, Rating, value, parsed).rating;
      (AtLeast(r, 0.0) && AtMost(r, 5.0)) <==> !parsed.NaN?
  {
  }

  /**
   * After a rating input, validity depends on the text fields alone when the
   * input parsed as a number, and is false when it did not.
   */
  lemma RatingInputValidity(d: Draft, value: string, parsed: Number)
    ensures IsValid(ApplyInput(d, Rating, value, parsed)) <==>
      !parsed.NaN? && Filled(d.title) && Filled(d.author) && Filled(d.genre)
  {
  }

  /** Every update the two dialogs accept, as one event type. */
  datatype FormEvent =
    | InputChange(name: InputField, value: string, parsed: Number)
    | MultiSelectChange(list: ListField, values: seq<int>)

  function Apply(d: Draft, e: FormEvent): Draft {
    match e
    case InputChange(name, value, parsed) => ApplyInput(d, name, value, parsed)
    case MultiSelectChange(list, values) => ApplyListChange(d, list, values)
  }

  /** The draft after a sequence of events, oldest first. */
  function ApplyAll(d: Draft, es: seq<FormEvent>): Draft
    decreases |es|
  {
    if es == [] then d else ApplyAll(Apply(d, es[0]), es[1..])
  }

  /** `Array.prototype.indexOf` on a list of integers: -1 or the first position of `x`. */
  function IndexOf(s: seq<int>, x: int): (r: int)
    ensures -1 <= r < |s|
    ensures r == -1 <==> x !in s
    ensures r >= 0 ==> s[r] == x && x !in s[..r]
  {
    if s == [] then -1
    else if s[0] == x then 0
    else
      var k := IndexOf(s[1..], x);
      if k == -1 then -1
      else
        assert s[..k + 1] == [s[0]] + s[1..][..k];
        k + 1
  }

  /**
   * The Add dialog's checkbox: the entry's id, read by `parseInt`, has a
   * position in the selection (`indexOf` is not -1).
   * A NaN never compares equal, so an id that does not parse is never ticked.
   */
  function CheckedByIndexOf(selection: seq<int>, entry: Entry): (r: bool)
    ensures r <==> Decimal.ParseInt(entry.id).Some? && Decimal.ParseInt(entry.id).value in selection
  {
    match Decimal.ParseInt(entry.id)
    case None => false
    case Some(v) => IndexOf(selection, v) > -1
  }

  /**
   * The Edit dialog's checkbox: the selection `includes` the entry's id as
   * read by `parseInt`.
   * The selection holds integers only, so NaN is never included.
   */
  function CheckedByIncludes(selection: seq<int>, entry: Entry): bool {
    match Decimal.ParseInt(entry.id)
    case None => false
    case Some(v) => v in selection
  }

  /** Both checkbox rules tick an entry exactly when its parsed id is in the selection. */
  lemma CheckboxRulesAgree(selection: seq<int>, entry: Entry)
    ensures CheckedByIndexOf(selection, entry) == CheckedByIncludes(selection, entry)
    ensures CheckedByIncludes(selection, entry) <==>
      Decimal.ParseInt(entry.id).Some? && Decimal.ParseInt(entry.id).value in selection
  {
  }

  /**
   * A ticked entry with a canonical decimal id that no earlier entry shares is
   * rendered by its own name in the selection box's `renderValue`.
   */
  lemma TickedEntryRendersOwnName(table: seq<Entry>, k: nat, selection: seq<int>)
    requires k < |table| && Decimal.Canonical(table[k].id)
    requires forall j :: 0 <= j < k ==> table[j].id != table[k].id
    requires CheckedByIndexOf(selection, table[k])
    ensures exists p :: 0 <= p < |selection| && Associations.Slots(table, selection)[p] == table[k].name
  {
    Decimal.CanonicalRoundTrip(table[k].id);
    var v := Decimal.ParseInt(table[k].id).value;
    var p := IndexOf(selection, v);
    Associations.ResolvesToFirstMatch(table, v, k);
    assert Associations.Slots(table, selection)[p] == table[k].name;
  }

  /**
   * The round trip needs a canonical id: an id "007" is ticked for the
   * selection [7], yet 7 renders as "7", matches nothing, and shows as "".
   */
  lemma NonCanonicalIdIsTicked()
    ensures CheckedByIndexOf([7], Entry("007", "Poetry"))
  {
    var z := "007";
    Decimal.ParseIntOfDigits(z);
    assert Decimal.DigitsValue(z, 10) == 7 by {
      assert z[..2] == "00" && "00"[..1] == "0" && "0"[..0] == "";
    }
    assert IndexOf([7], 7) == 0;
  }

  lemma NonCanonicalIdRendersEmpty()
    ensures Associations.ResolveNames([Entry("007", "Poetry")], [7]) == ""
  {
    assert Decimal.IntToDecimal(7) == "7";
    assert Associations.FindName([Entry("007", "Poetry")], 7) == None by {
      assert "007" != "7";
    }
    assert Associations.Slots([Entry("007", "Poetry")], [7]) == [""];
  }
}
