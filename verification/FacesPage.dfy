/**
 * The face history page: its search parameters (the date range and the
 * `label_ids` filter), the route it writes them to, the cursor keys of its
 * infinite list, and the scroll trigger that asks for one more page.
 */
module FacesPage {
  import opened Wrappers
  import opened JsText
  import opened Params
  import opened Catalog
  import opened FaceFilter

  /** Faces fetched per page (`API_LIMIT`). */
  const API_LIMIT: nat := 25

  /**
   * One fetched face: its id string (capture time and a random suffix), its
   * capture time, and its label id, `null` (`None`) until a label is assigned.
   */
  class Face {
    const id: string
    const captureTime: int
    var labelId: Option<int>

    constructor(id: string, captureTime: int, labelId: Option<int>)
      ensures this.id == id && this.captureTime == captureTime && this.labelId == labelId
    {
      this.id := id;
      this.captureTime := captureTime;
      this.labelId := labelId;
    }
  }

  /** The request `PUT faces/<faceId>/label` with body `{labelid}`. */
  datatype LabelPut = LabelPut(faceId: string, labelId: int)

  /**
   * The `IntersectionObserver` made by the last ref callback. Its callback
   * closes over the `size` and `isDone` of the render that made it; `watching`
   * says whether a node was handed to `observe`.
   */
  datatype Observer = Observer(size: nat, done: bool, watching: bool)

  /** `facesFetcher`: the request parameters are the key's parameters plus `limit=25`. */
  function FetchParams(params: Params): (r: Params)
    ensures Get(r, "limit") == Some(Num(API_LIMIT))
    ensures forall k :: k != "limit" ==> Get(r, k) == Get(params, k)
  {
    With(params, "limit", Num(API_LIMIT))
  }

  /**
   * `getKey(index, prevData)`: page 0 is keyed by the search parameters;
   * every later page by the same parameters with `before` set to the capture
   * time of the previous page's last face. Reading the last face of an empty
   * page throws a `TypeError`.
   */
  function PageKey(index: nat, prevPage: seq<Face>, params: Params): (r: Result<Params, PyError>)
    ensures index == 0 ==> r == Success(params)
    ensures index > 0 && prevPage == [] ==> r == Failure(TypeError)
    ensures index > 0 && prevPage != [] ==>
              && r.Success?
              && Get(r.value, "before") == Some(Num(prevPage[|prevPage| - 1].captureTime))
              && forall k :: k != "before" ==> Get(r.value, k) == Get(params, k)
  {
    if index > 0 then
      if prevPage == [] then Failure(TypeError)
      else Success(With(params, "before", Num(prevPage[|prevPage| - 1].captureTime)))
    else
      Success(params)
  }

  /** The cursor of a later page ignores a `before` chosen through the date range. */
  lemma PageKeyOverridesBefore(index: nat, prevPage: seq<Face>, params: Params, before: JsValue)
    requires index > 0
    ensures PageKey(index, prevPage, With(params, "before", before)) == PageKey(index, prevPage, params)
  {
    if prevPage != [] {
      WithTwice(params, "before", before, Num(prevPage[|prevPage| - 1].captureTime));
    }
  }

  /**
   * `isDone`: the list is complete when no page is loaded yet, the loaded
   * list is empty, or the last page holds fewer than `API_LIMIT` faces.
   */
  function IsDone<T>(pages: Option<seq<seq<T>>>): (r: bool)
    ensures pages.None? || pages.value == [] ==> r
    ensures pages.Some? && pages.value != [] ==> (r <==> |pages.value[|pages.value| - 1]| < API_LIMIT)
  {
    var lastLength := if pages.Some? && |pages.value| > 0 then |pages.value[|pages.value| - 1]| else 0;
    lastLength < API_LIMIT
  }

  /** Only the newest page decides `isDone`: a full page keeps the list open, a short one ends it. */
  lemma IsDoneLastPage<T>(loaded: seq<seq<T>>, page: seq<T>)
    ensures IsDone(Some(loaded + [page])) <==> |page| < API_LIMIT
  {
    assert (loaded + [page])[|loaded|] == page;
  }

  /**
   * The id list `onToggleNamedFilter('label_ids', item)` stores: the label
   * text is looked up in the catalog, then its id is spliced out of or
   * pushed onto the current list.
   */
  method ToggledIds(current: JsValue, cat: seq<Label>, item: string) returns (items: JsValue)
    requires current.Str? || current.AllList?
    ensures items == ToggleLabelIds(current, cat, item)
  {
    var toggleItem: Option<string> := None;
    var i := 0;
    while i < |cat|
      invariant 0 <= i <= |cat|
      invariant forall j :: 0 <= j < i ==> cat[j].text != item
      invariant toggleItem == None
    {
      if cat[i].text == item {
        assert FirstWithText(cat, item) == Some(i);
        toggleItem := Some(IntToString(cat[i].id));
        break;
      }
      i := i + 1;
    }
    assert toggleItem == ToggleToken(cat, item);

    if LooselyAll(current) {
      var currentItems := GetLabelIdOptions(cat);
      if |currentItems| > 1 {
        currentItems := SpliceOne(currentItems, IndexOf(currentItems, toggleItem));
        items := Str(Join(currentItems, ','));
      } else {
        items := AllList;
      }
    } else {
      var labelSelections := GetLabelIdSelections(current.s, cat);
      var currentItems := if |labelSelections| > 0 then Split(labelSelections, ',') else [];
      if toggleItem.Some? && toggleItem.value in currentItems {
        if |currentItems| > 1 {
          currentItems := SpliceOne(currentItems, IndexOf(currentItems, toggleItem));
        }
        items := Str(Join(currentItems, ','));
      } else {
        var options := GetLabelIdOptions(cat);
        if |currentItems| + 1 == |options| {
          items := AllList;
        } else {
          currentItems := currentItems + [toggleItem.GetOr("")];
          items := Str(Join(currentItems, ','));
        }
      }
    }
  }

  /**
   * Writing both dates into search parameters that start with the `before`,
   * `after` and `label_ids` keys keeps the keys, their order and the label
   * selection.
   */
  lemma DatesKeepShape(p: Params, before: JsValue, after: JsValue)
    requires UniqueKeys(p) && |p| >= 3
    requires p[0].0 == "before" && p[1].0 == "after" && p[2].0 == "label_ids"
    ensures var r := With(With(p, "before", before), "after", after);
            && UniqueKeys(r) && |r| == |p|
            && r[0].0 == "before" && r[1].0 == "after" && r[2] == p[2]
  {
    WithUniqueKeys(p, "before", before);
    WithEntries(p, "before", before);
    var dated := With(p, "before", before);
    WithUniqueKeys(dated, "after", after);
    WithEntries(dated, "after", after);
  }

  class FacesPage {
    const path: string
    /** `searchParams`: `before`, `after` and `label_ids`, then any field `onFilter` added. */
    var searchParams: Params
    /** `selectFaceParams`: the label text last picked for a face. */
    var selectFaceParams: Params
    /** The pages loaded so far (`facePages`); `None` while the first is loading. */
    var pages: Option<seq<seq<Face>>>
    /** The number of pages requested (`size`). */
    var size: nat
    var observer: Option<Observer>

    /** The search parameters keep their first three fields in order, no key twice, and `label_ids` is a string or `['all']`. */
    ghost predicate Valid()
      reads this
    {
      && UniqueKeys(searchParams)
      && |searchParams| >= 3
      && searchParams[0].0 == "before"
      && searchParams[1].0 == "after"
      && searchParams[2].0 == "label_ids"
      && (searchParams[2].1.Str? || searchParams[2].1.AllList?)
    }

    /** `searchParams.label_ids`. */
    function LabelIds(): (v: JsValue)
      reads this
      requires Valid()
      ensures Get(searchParams, "label_ids") == Some(v)
      ensures v.Str? || v.AllList?
    {
      searchParams[2].1
    }

    /** The page opened with route properties `labels` and `label_ids` (absent is `None`). */
    constructor(path: string, labels: Option<string>, labelIds: Option<string>)
      ensures Valid()
      ensures this.path == path
      ensures searchParams == [("before", Null), ("after", Null), ("label_ids", Str(labelIds.GetOr("all")))]
      ensures selectFaceParams == [("labels", if labels.Some? then Str(labels.value) else Undefined)]
      ensures pages == None && size == 1 && observer == None
    {
      this.path := path;
      searchParams := [("before", Null), ("after", Null), ("label_ids", Str(labelIds.GetOr("all")))];
      selectFaceParams := [("labels", if labels.Some? then Str(labels.value) else Undefined)];
      pages := None;
      size := 1;
      observer := None;
    }

    /** `onFilter(name, value)`: store the field and return the route `path?query`. */
    method OnFilter(name: string, value: JsValue) returns (url: string)
      requires Valid()
      requires name == "label_ids" ==> value.Str? || value.AllList?
      modifies this
      ensures Valid()
      ensures searchParams == With(old(searchParams), name, value)
      ensures url == path + "?" + QueryString(searchParams)
      ensures SameHash(old(searchParams), searchParams) ==> size == old(size) && pages == old(pages)
      ensures !SameHash(old(searchParams), searchParams) ==> size == 1 && pages == None
      ensures selectFaceParams == old(selectFaceParams) && observer == old(observer)
    {
      WithUniqueKeys(searchParams, name, value);
      WithEntries(searchParams, name, value);
      SetSearchParams(With(searchParams, name, value));
      url := path + "?" + QueryString(searchParams);
    }

    /**
     * `setSearchParams(next)`. The first page's key is `['faces', searchParams]`;
     * when its hash changes, the infinite list starts over on the new key:
     * one page requested, none loaded.
     */
    method SetSearchParams(next: Params)
      modifies this
      ensures searchParams == next
      ensures SameHash(old(searchParams), next) ==> size == old(size) && pages == old(pages)
      ensures !SameHash(old(searchParams), next) ==> size == 1 && pages == None
      ensures selectFaceParams == old(selectFaceParams) && observer == old(observer)
    {
      if !SameHash(searchParams, next) {
        size := 1;
        pages := None;
      }
      searchParams := next;
    }

    /** The show-all button: `label_ids` becomes `['all']`, which drops out of the route. */
    method ShowAll() returns (url: string)
      requires Valid()
      modifies this
      ensures Valid()
      ensures LabelIds() == AllList
      ensures searchParams == With(old(searchParams), "label_ids", AllList)
      ensures url == path + "?" + QueryString(Remove(old(searchParams), "label_ids"))
      ensures old(LabelIds()) == AllList ==> size == old(size) && pages == old(pages)
      ensures old(LabelIds()) != AllList ==> size == 1 && pages == None
      ensures selectFaceParams == old(selectFaceParams) && observer == old(observer)
    {
      OmittedFieldDropsOut(searchParams, "label_ids", AllList);
      WithSameHash(searchParams, "label_ids", AllList);
      url := OnFilter("label_ids", AllList);
    }

    /**
     * `onToggleNamedFilter('label_ids', item)`: resolve the label text to an
     * id, then splice it out of or push it onto the current id list, and
     * store the result through `onFilter`.
     */
    method ToggleNamedFilter(cat: seq<Label>, item: string) returns (url: string)
      requires Valid()
      modifies this
      ensures Valid()
      ensures searchParams == With(old(searchParams), "label_ids", ToggleLabelIds(old(LabelIds()), cat, item))
      ensures url == path + "?" + QueryString(searchParams)
      ensures ToggleLabelIds(old(LabelIds()), cat, item) == old(LabelIds()) ==> size == old(size) && pages == old(pages)
      ensures ToggleLabelIds(old(LabelIds()), cat, item) != old(LabelIds()) ==> size == 1 && pages == None
      ensures selectFaceParams == old(selectFaceParams) && observer == old(observer)
    {
      var items := ToggledIds(LabelIds(), cat, item);
      WithSameHash(searchParams, "label_ids", items);
      url := OnFilter("label_ids", items);
    }

    /** `handleSelectDateRange`: set `before` and `after`; the route is not rewritten. */
    method SelectDateRange(before: JsValue, after: JsValue)
      requires Valid()
      modifies this
      ensures Valid()
      ensures searchParams == With(With(old(searchParams), "before", before), "after", after)
      ensures LabelIds() == old(LabelIds())
      ensures SameHash(old(searchParams), searchParams) ==> size == old(size) && pages == old(pages)
      ensures !SameHash(old(searchParams), searchParams) ==> size == 1 && pages == None
      ensures selectFaceParams == old(selectFaceParams) && observer == old(observer)
    {
      DatesKeepShape(searchParams, before, after);
      SetSearchParams(With(With(searchParams, "before", before), "after", after));
    }

    /** The data source delivered the pages loaded so far. */
    method PagesLoaded(loaded: seq<seq<Face>>)
      modifies this
      ensures pages == Some(loaded)
      ensures searchParams == old(searchParams) && selectFaceParams == old(selectFaceParams)
      ensures size == old(size) && observer == old(observer)
    {
      pages := Some(loaded);
    }

    /**
     * `lastEventRef(node)`: while revalidating nothing happens; otherwise the
     * old observer is replaced by one that captures the current `size` and
     * `isDone`, watching the node when there is one.
     */
    method AttachLastItem(nodePresent: bool, validating: bool)
      modifies this
      ensures validating ==> observer == old(observer)
      ensures !validating ==> observer == Some(Observer(old(size), IsDone(old(pages)), nodePresent))
      ensures searchParams == old(searchParams) && selectFaceParams == old(selectFaceParams)
      ensures size == old(size) && pages == old(pages)
    {
      if validating {
        return;
      }
      observer := Some(Observer(size, IsDone(pages), nodePresent));
    }

    /**
     * The observer's callback: when its node is visible and the list was not
     * done, request the captured size plus one; otherwise nothing changes.
     */
    method ObserverFired(intersecting: bool)
      modifies this
      ensures old(observer).Some? && old(observer).value.watching && intersecting && !old(observer).value.done ==>
                size == old(observer).value.size + 1
      ensures !(old(observer).Some? && old(observer).value.watching && intersecting && !old(observer).value.done) ==>
                size == old(size)
      ensures searchParams == old(searchParams) && selectFaceParams == old(selectFaceParams)
      ensures pages == old(pages) && observer == old(observer)
    {
      if observer.Some? && observer.value.watching && intersecting && !observer.value.done {
        size := observer.value.size + 1;
      }
    }

    /**
     * `onToggleNamedFaceLabelSelect('labels', face, item)`: the face takes the
     * id of the first entry labelled `item` (or -1), the picked text is
     * recorded, and a label PUT is issued only when the id changed.
     */
    method AssignFaceLabel(face: Face, cat: seq<Label>, item: string) returns (put: Option<LabelPut>)
      modifies this, face
      ensures face.labelId == Some(IdFromLabel(cat, item))
      ensures selectFaceParams == With(old(selectFaceParams), "labels", Str(item))
      ensures put.Some? <==> old(face.labelId) != Some(IdFromLabel(cat, item))
      ensures put.Some? ==> put.value == LabelPut(face.id, IdFromLabel(cat, item))
      ensures searchParams == old(searchParams) && pages == old(pages)
      ensures size == old(size) && observer == old(observer)
    {
      var selectedLabelId := IdFromLabel(cat, item);
      var oldSelectedLabelId := face.labelId;
      face.labelId := Some(selectedLabelId);
      selectFaceParams := With(selectFaceParams, "labels", Str(item));
      if Some(selectedLabelId) != oldSelectedLabelId {
        put := Some(LabelPut(face.id, selectedLabelId));
      } else {
        put := None;
      }
    }
  }
}
