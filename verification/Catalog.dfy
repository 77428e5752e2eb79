/**
 * The fetched face-label catalog (`allFaceLabels`) and the lookups both label
 * pages run against it: label text to id, id to label text, and the option
 * lists shown in the selects.
 */
module Catalog {
  import opened Wrappers
  import opened JsText

  /** One catalog entry. */
  datatype Label = Label(id: int, text: string)

  /** What an id that resolves to no entry is shown as. */
  const NOT_SET: string := "Not Set"

  /** What a label text that resolves to no entry maps to. */
  const NO_ID: int := -1

  /** No two entries share an id (the backend's primary key). */
  ghost predicate UniqueIds(cat: seq<Label>)
  {
    forall i, j :: 0 <= i < j < |cat| ==> cat[i].id != cat[j].id
  }

  /** Position of the first entry whose text equals `text`. */
  function FirstWithText(cat: seq<Label>, text: string): (r: Option<nat>)
    ensures r.Some? ==> r.value < |cat| && cat[r.value].text == text
    ensures r.Some? ==> forall j :: 0 <= j < r.value ==> cat[j].text != text
    ensures r.None? ==> forall j :: 0 <= j < |cat| ==> cat[j].text != text
  {
    if cat == [] then None
    else if cat[0].text == text then Some(0)
    else match FirstWithText(cat[1..], text)
      case None => None
      case Some(k) => Some(k + 1)
  }

  /** Position of the first entry whose id equals `id`; `None` (JavaScript `null`) matches nothing. */
  function FirstWithId(cat: seq<Label>, id: Option<int>): (r: Option<nat>)
    ensures r.Some? ==> id.Some? && r.value < |cat| && cat[r.value].id == id.value
    ensures r.Some? ==> forall j :: 0 <= j < r.value ==> cat[j].id != id.value
    ensures r.None? && id.Some? ==> forall j :: 0 <= j < |cat| ==> cat[j].id != id.value
  {
    if cat == [] || id.None? then None
    else if cat[0].id == id.value then Some(0)
    else match FirstWithId(cat[1..], id)
      case None => None
      case Some(k) => Some(k + 1)
  }

  /** `FaceLabelIdFromLabel`: the id of the first entry labelled `text`, else -1. */
  function IdFromLabel(cat: seq<Label>, text: string): (r: int)
    ensures (forall j :: 0 <= j < |cat| ==> cat[j].text != text) ==> r == NO_ID
    ensures forall k :: 0 <= k < |cat| && cat[k].text == text && (forall j :: 0 <= j < k ==> cat[j].text != text) ==>
              r == cat[k].id
  {
    match FirstWithText(cat, text)
    case Some(k) => cat[k].id
    case None => NO_ID
  }

  /** `FaceLabelFromLabelId`: the text of the first entry with this id, else "Not Set". */
  function LabelFromId(cat: seq<Label>, id: Option<int>): (r: string)
    ensures id.None? ==> r == NOT_SET
    ensures id.Some? && (forall j :: 0 <= j < |cat| ==> cat[j].id != id.value) ==> r == NOT_SET
    ensures forall k :: 0 <= k < |cat| && id == Some(cat[k].id) && (forall j :: 0 <= j < k ==> cat[j].id != cat[k].id) ==>
              r == cat[k].text
  {
    match FirstWithId(cat, id)
    case Some(k) => cat[k].text
    case None => NOT_SET
  }

  /** The ids as strings, in catalog order. */
  function IdOptions(cat: seq<Label>): seq<string>
  {
    seq(|cat|, i requires 0 <= i < |cat| => IntToString(cat[i].id))
  }

  /** `GetLabelOptions`: one option per catalog entry, its text, in catalog order. */
  method GetLabelOptions(cat: seq<Label>) returns (items: seq<string>)
    ensures |items| == |cat|
    ensures forall i :: 0 <= i < |cat| ==> items[i] == cat[i].text
  {
    items := [];
    for i := 0 to |cat|
      invariant |items| == i
      invariant forall k :: 0 <= k < i ==> items[k] == cat[k].text
    {
      items := items + [cat[i].text];
    }
  }

  /** `GetLabelIdOptions`: one option per catalog entry, its id as a string, in catalog order. */
  method GetLabelIdOptions(cat: seq<Label>) returns (items: seq<string>)
    ensures items == IdOptions(cat)
  {
    items := [];
    for i := 0 to |cat|
      invariant items == IdOptions(cat[..i])
    {
      assert IdOptions(cat[..i + 1]) == IdOptions(cat[..i]) + [IntToString(cat[i].id)];
      items := items + [IntToString(cat[i].id)];
    }
    assert cat[..|cat|] == cat;
  }

  /** With unique ids, an id string occurs in the options exactly at its entry's position. */
  lemma IdOptionsPosition(cat: seq<Label>, k: nat, j: nat)
    requires UniqueIds(cat)
    requires k < |cat| && j < |cat|
    ensures IdOptions(cat)[j] == IntToString(cat[k].id) <==> j == k
  {
    if IdOptions(cat)[j] == IntToString(cat[k].id) {
      IntToStringInjective(cat[j].id, cat[k].id);
    }
  }
}
