/**
 * The label management page: one selected label text (`selectParams.labels`)
 * and the add, change and delete requests made against it.
 */
module FaceLabels {
  import opened Wrappers
  import opened JsText
  import opened Params
  import opened Catalog

  /** The HTTP status that counts as success. */
  const OK: int := 200

  class LabelEditor {
    /** `selectParams`: holds the selected label text under `labels`. */
    var selectParams: Params
    /** Whether the delete confirmation dialog is open (`deleteState.showDelete`). */
    var showDelete: bool

    ghost predicate Valid()
      reads this
    {
      UniqueKeys(selectParams) && |selectParams| >= 1 && selectParams[0].0 == "labels" && selectParams[0].1.Str?
    }

    /** `GetLabelSelection()`: the selected label text. */
    function Selection(): (s: string)
      reads this
      requires Valid()
      ensures Get(selectParams, "labels") == Some(Str(s))
    {
      selectParams[0].1.s
    }

    /** The page opened with route property `labels` (absent is `None`). */
    constructor(labels: Option<string>)
      ensures Valid()
      ensures Selection() == labels.GetOr(NOT_SET)
      ensures selectParams == [("labels", Str(labels.GetOr(NOT_SET)))]
      ensures !showDelete
    {
      selectParams := [("labels", Str(labels.GetOr(NOT_SET)))];
      showDelete := false;
    }

    /** `onLabelSelect(name, value)`: replace one field of the selection state. */
    method OnLabelSelect(name: string, value: string)
      requires Valid()
      modifies this
      ensures Valid()
      ensures selectParams == With(old(selectParams), name, Str(value))
      ensures name == "labels" ==> Selection() == value
      ensures name != "labels" ==> Selection() == old(Selection())
      ensures showDelete == old(showDelete)
    {
      WithUniqueKeys(selectParams, name, Str(value));
      WithEntries(selectParams, name, Str(value));
      selectParams := With(selectParams, name, Str(value));
    }

    /** `onToggleNamedLabelSelect('labels', item)`: picking an option selects it. */
    method ToggleLabel(item: string)
      requires Valid()
      modifies this
      ensures Valid()
      ensures Selection() == item
      ensures selectParams == With(old(selectParams), "labels", Str(item))
      ensures showDelete == old(showDelete)
    {
      OnLabelSelect("labels", item);
    }

    /** `onDeleteLabel(e, true)`: the delete button only opens the confirmation dialog. */
    method AskDelete()
      modifies this
      ensures showDelete
      ensures selectParams == old(selectParams)
    {
      showDelete := true;
    }

    /**
     * Confirming the dialog: it closes, `DELETE facelabels/<id>/delete` goes to
     * the id of the selected text (-1 when no entry carries it), and on a 200
     * the selection becomes "Not Set"; any other status leaves it.
     */
    method ConfirmDelete(cat: seq<Label>, status: int) returns (target: int)
      requires Valid()
      modifies this
      ensures Valid()
      ensures !showDelete
      ensures target == IdFromLabel(cat, old(Selection()))
      ensures status == OK ==> Selection() == NOT_SET
      ensures status == OK ==> selectParams == With(old(selectParams), "labels", Str(NOT_SET))
      ensures status != OK ==> selectParams == old(selectParams)
    {
      showDelete := false;
      target := IdFromLabel(cat, Selection());
      if status == OK {
        var selectedItems := [NOT_SET];
        OnLabelSelect("labels", Join(selectedItems, ','));
      }
    }

    /** `onAddLabel`: `POST facelabels/add` with the typed text; on a 200 the typed text is selected. */
    method AddLabel(typed: string, status: int)
      requires Valid()
      modifies this
      ensures Valid()
      ensures status == OK ==> Selection() == typed
      ensures status == OK ==> selectParams == With(old(selectParams), "labels", Str(typed))
      ensures status != OK ==> selectParams == old(selectParams)
      ensures showDelete == old(showDelete)
    {
      if status == OK {
        var selectedItems := [typed];
        OnLabelSelect("labels", Join(selectedItems, ','));
      }
    }

    /**
     * `onChangeLabel`: `PUT facelabels/<id>/change` with the typed text, where
     * the id is resolved from the selected text; on a 200 the typed text is selected.
     */
    method ChangeLabel(cat: seq<Label>, typed: string, status: int) returns (target: int)
      requires Valid()
      modifies this
      ensures Valid()
      ensures target == IdFromLabel(cat, old(Selection()))
      ensures status == OK ==> Selection() == typed
      ensures status == OK ==> selectParams == With(old(selectParams), "labels", Str(typed))
      ensures status != OK ==> selectParams == old(selectParams)
      ensures showDelete == old(showDelete)
    {
      target := IdFromLabel(cat, Selection());
      if status == OK {
        var selectedItems := [typed];
        OnLabelSelect("labels", Join(selectedItems, ','));
      }
    }
  }
}
