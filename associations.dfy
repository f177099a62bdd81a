/**
 * Resolution of numeric association ids to display names, as the book table
 * and both dialogs' selection boxes do it: each id is rendered in decimal,
 * looked up by string equality on the entries' ids, and the names found are
 * joined by ", ".
 */
module Associations {
  import opened Options
  import opened BookTypes
  import Text
  import Decimal

  /** `find` on the table by id: the index of the first entry whose id is `key`. */
  function FindFirst(table: seq<Entry>, key: string): (r: Option<nat>)
    ensures r.None? <==> forall k :: 0 <= k < |table| ==> table[k].id != key
    ensures r.Some? ==> r.value < |table| && table[r.value].id == key
    ensures r.Some? ==> forall j :: 0 <= j < r.value ==> table[j].id != key
  {
    if table == [] then None
    else if table[0].id == key then Some(0)
    else
      match FindFirst(table[1..], key)
      case None => None
      case Some(k) => Some(k + 1)
  }

  /** The name of the first entry whose id is the id's decimal rendering; `None` is `undefined`. */
  function FindName(table: seq<Entry>, id: int): (r: Option<string>)
    ensures r.None? <==> forall k :: 0 <= k < |table| ==> table[k].id != Decimal.IntToDecimal(id)
    ensures r.Some? ==> exists k :: 0 <= k < |table| && table[k].id == Decimal.IntToDecimal(id) && table[k].name == r.value
  {
    match FindFirst(table, Decimal.IntToDecimal(id))
    case None => None
    case Some(k) => Some(table[k].name)
  }

  /** How `join` renders one element: `undefined` becomes the empty string. */
  function Slot(name: Option<string>): string {
    match name
    case None => ""
    case Some(n) => n
  }

  /** The mapped array before the join: one slot per id, in the order of the ids. */
  function Slots(table: seq<Entry>, ids: seq<int>): (r: seq<string>)
    ensures |r| == |ids|
    ensures forall i :: 0 <= i < |ids| ==> r[i] == Slot(FindName(table, ids[i]))
  {
    seq(|ids|, i requires 0 <= i < |ids| => Slot(FindName(table, ids[i])))
  }

  /** No entry's name contains the ", " separator. */
  predicate NamesFreeOfSeparator(table: seq<Entry>) {
    forall k :: 0 <= k < |table| ==> !Text.Contains(table[k].name, Text.CommaSpace)
  }

  /**
   * The display string for a list of ids. No ids give "". Otherwise, when no
   * name contains ", ", splitting the result at ", " gives back exactly one
   * piece per id, in order: the name of the first matching entry, or "" for an
   * id that matches none.
   */
  function ResolveNames(table: seq<Entry>, ids: seq<int>): (r: string)
    ensures ids == [] ==> r == ""
    ensures |ids| >= 1 && NamesFreeOfSeparator(table) ==> Text.Split(r, Text.CommaSpace) == Slots(table, ids)
  {
    var slots := Slots(table, ids);
    if |ids| >= 1 && NamesFreeOfSeparator(table) then
      assert forall k :: 0 <= k < |slots| ==> !Text.Contains(slots[k], Text.CommaSpace) by {
        forall k | 0 <= k < |slots| ensures !Text.Contains(slots[k], Text.CommaSpace) {
          if FindName(table, ids[k]).None? {
            assert slots[k] == "";
            assert !Text.OccursAt("", Text.CommaSpace, 0);
          }
        }
      }
      Text.SplitJoin(slots);
      Text.Join(slots, Text.CommaSpace)
    else
      Text.Join(slots, Text.CommaSpace)
  }

  /** With n >= 1 ids the text is the n slots plus n - 1 separators of two characters. */
  lemma ResolvedLength(table: seq<Entry>, ids: seq<int>)
    requires |ids| >= 1
    ensures |ResolveNames(table, ids)| == Text.TotalLength(Slots(table, ids)) + 2 * (|ids| - 1)
  {
    Text.JoinLength(Slots(table, ids));
  }

  /** The name an id resolves to is that of the first entry carrying the id's decimal rendering. */
  lemma ResolvesToFirstMatch(table: seq<Entry>, id: int, k: nat)
    requires k < |table| && table[k].id == Decimal.IntToDecimal(id)
    requires forall j :: 0 <= j < k ==> table[j].id != table[k].id
    ensures FindName(table, id) == Some(table[k].name)
  {
  }

  /** A known id followed by an unknown one leaves an empty slot after the separator: "Fiction, ". */
  lemma UnknownIdKeepsEmptySlot()
    ensures ResolveNames([Entry("1", "Fiction")], [1, 2]) == "Fiction, "
  {
    var table := [Entry("1", "Fiction")];
    assert Decimal.IntToDecimal(1) == "1";
    assert Decimal.IntToDecimal(2) == "2";
    assert FindName(table, 1) == Some("Fiction");
    assert FindName(table, 2) == None;
    assert Slots(table, [1, 2]) == ["Fiction", ""];
  }

  /** No ids and one unknown id render the same: both give "". */
  lemma NoIdsLookLikeOneUnknownId(table: seq<Entry>, id: int)
    requires FindName(table, id).None?
    ensures ResolveNames(table, [id]) == ResolveNames(table, [])
  {
    assert Slots(table, [id]) == [""];
  }
}
