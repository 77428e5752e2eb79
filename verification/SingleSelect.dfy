/**
 * The single-choice dropdown: which options are shown checked for a
 * comma-joined `selection`, and the text each option is shown with.
 */
module SingleSelect {
  import opened Wrappers
  import opened JsText

  /**
   * `isOptionSelected(item)`: a falsy selection (`null`, `undefined` or `''`,
   * all `None` or empty here) checks nothing; otherwise `item` must equal one
   * of the comma-separated fields of the selection.
   */
  function IsOptionSelected(selection: Option<string>, item: string): (r: bool)
    ensures selection.None? || selection.value == "" ==> !r
    ensures ',' in item ==> !r
  {
    if selection.Some? && selection.value != "" then IndexOf(Split(selection.value, ','), Some(item)) > -1
    else false
  }

  /** A selection joined from comma-free labels checks exactly those labels, whole and nothing else. */
  lemma SelectedIffField(fields: seq<string>, item: string)
    requires |fields| >= 1
    requires forall k :: 0 <= k < |fields| ==> ',' !in fields[k]
    requires Join(fields, ',') != ""
    ensures IsOptionSelected(Some(Join(fields, ',')), item) <==> item in fields
  {
    SplitJoin(fields, ',');
    if item in fields {
      var k :| 0 <= k < |fields| && fields[k] == item;
      assert IndexOf(fields, Some(item)) != -1;
    }
  }

  /** `item.replaceAll('_', ' ')`. */
  function DisplayText(item: string): (r: string)
    ensures |r| == |item|
    ensures '_' !in r
    ensures forall i :: 0 <= i < |item| && item[i] != '_' ==> r[i] == item[i]
    ensures forall i :: 0 <= i < |item| && item[i] == '_' ==> r[i] == ' '
  {
    if item == [] then []
    else [if item[0] == '_' then ' ' else item[0]] + DisplayText(item[1..])
  }

  /** Showing an already shown text changes nothing. */
  lemma {:induction false} DisplayTextIdempotent(item: string)
    ensures DisplayText(DisplayText(item)) == DisplayText(item)
  {
    if item != [] {
      DisplayTextIdempotent(item[1..]);
      assert DisplayText(item)[1..] == DisplayText(item[1..]);
    }
  }

  /** One row of the open menu: its shown text, its checkbox, and the value `onToggle` receives. */
  datatype MenuRow = MenuRow(shown: string, checked: bool, toggles: string)

  /** The rows of the open menu, one per option in option order. */
  function MenuRows(options: seq<string>, selection: Option<string>): (rows: seq<MenuRow>)
    ensures |rows| == |options|
    ensures forall i :: 0 <= i < |options| ==> rows[i].toggles == options[i]
    ensures forall i :: 0 <= i < |options| ==> rows[i].checked == IsOptionSelected(selection, options[i])
    ensures forall i :: 0 <= i < |options| ==> rows[i].shown == DisplayText(options[i])
  {
    seq(|options|, i requires 0 <= i < |options| =>
      MenuRow(DisplayText(options[i]), IsOptionSelected(selection, options[i]), options[i]))
  }

  /**
   * Two labels can be shown alike (`Ann_Lee` and `Ann Lee`), yet the checkbox
   * test and the toggled value still tell them apart.
   */
  lemma ShownAlikeToggledApart(item: string, i: nat)
    requires i < |item| && item[i] == '_' && ',' !in item
    ensures var rows := MenuRows([item, item[i := ' ']], Some(item));
            && rows[0].shown == rows[1].shown
            && rows[0].toggles != rows[1].toggles
            && rows[0].checked && !rows[1].checked
  {
    var other := item[i := ' '];
    assert DisplayText(item) == DisplayText(other);
    assert other != item by {
      assert other[i] != item[i];
    }
    assert Join([item], ',') == item;
    SelectedIffField([item], item);
    SelectedIffField([item], other);
  }
}
