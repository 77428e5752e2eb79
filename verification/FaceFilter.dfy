/**
 * The `label_ids` filter of the face history page: how an explicit selection
 * is re-checked against the catalog, and what one toggle of a label turns the
 * filter into. The filter is either the sentinel `'all'` (the string, or the
 * array `['all']`) or a comma-joined list of label ids.
 */
module FaceFilter {
  import opened Wrappers
  import opened JsText
  import opened Params
  import opened Catalog

  /** The fields of a filter string: `s.length > 0 ? s.split(',') : []`. */
  function Tokens(s: string): seq<string>
  {
    if |s| > 0 then Split(s, ',') else []
  }

  /** Position of the first entry whose id is loosely equal to `token` (`selections[i] == labels[j].id`). */
  function FirstIdMatch(cat: seq<Label>, token: string): (r: Option<nat>)
    ensures r.Some? ==> r.value < |cat| && LooseEquals(token, cat[r.value].id)
    ensures r.Some? ==> forall j :: 0 <= j < r.value ==> !LooseEquals(token, cat[j].id)
    ensures r.None? ==> forall j :: 0 <= j < |cat| ==> !LooseEquals(token, cat[j].id)
  {
    if cat == [] then None
    else if LooseEquals(token, cat[0].id) then Some(0)
    else match FirstIdMatch(cat[1..], token)
      case None => None
      case Some(k) => Some(k + 1)
  }

  /**
   * The catalog positions the selected tokens resolve to, in selection order;
   * a token that matches no entry any more is dropped.
   */
  function Resolved(tokens: seq<string>, cat: seq<Label>): (r: seq<nat>)
    ensures |r| <= |tokens|
    ensures forall k :: 0 <= k < |r| ==> r[k] < |cat|
  {
    if tokens == [] then []
    else
      var init := Resolved(tokens[..|tokens| - 1], cat);
      match FirstIdMatch(cat, tokens[|tokens| - 1])
      case Some(k) => init + [k]
      case None => init
  }

  /** The ids of the entries at `ps`, as strings. */
  function IdTokensAt(cat: seq<Label>, ps: seq<nat>): seq<string>
    requires forall k :: 0 <= k < |ps| ==> ps[k] < |cat|
  {
    seq(|ps|, i requires 0 <= i < |ps| => IntToString(cat[ps[i]].id))
  }

  /** The texts of the entries at `ps`. */
  function TextsAt(cat: seq<Label>, ps: seq<nat>): seq<string>
    requires forall k :: 0 <= k < |ps| ==> ps[k] < |cat|
  {
    seq(|ps|, i requires 0 <= i < |ps| => cat[ps[i]].text)
  }

  /** The explicit selection `s` re-checked against the catalog, as id strings. */
  function SelectedIdTokens(s: string, cat: seq<Label>): seq<string>
  {
    IdTokensAt(cat, Resolved(Tokens(s), cat))
  }

  /** The explicit selection `s` re-checked against the catalog, as label texts. */
  function SelectedTexts(s: string, cat: seq<Label>): seq<string>
  {
    TextsAt(cat, Resolved(Tokens(s), cat))
  }

  /** The id string a toggled label text maps to; `None` is `undefined` (no entry has that text). */
  function ToggleToken(cat: seq<Label>, item: string): Option<string>
  {
    match FirstWithText(cat, item)
    case Some(k) => Some(IntToString(cat[k].id))
    case None => None
  }

  /**
   * The new `label_ids` value after `onToggleNamedFilter('label_ids', item)`.
   * From `'all'`: every catalog id except the toggled one, unless the catalog
   * has fewer than two entries. From an explicit list: the list re-checked
   * against the catalog, then the id removed (but never the last one) or
   * added (collapsing to `['all']` when that would select every entry).
   */
  function ToggleLabelIds(current: JsValue, cat: seq<Label>, item: string): (r: JsValue)
    requires current.Str? || current.AllList?
    ensures r.Str? || r.AllList?
  {
    var t := ToggleToken(cat, item);
    if LooselyAll(current) then
      var opts := IdOptions(cat);
      if |opts| > 1 then Str(Join(SpliceOne(opts, IndexOf(opts, t)), ','))
      else AllList
    else
      var cur := Tokens(Join(SelectedIdTokens(current.s, cat), ','));
      if t.Some? && t.value in cur then
        Str(Join(if |cur| > 1 then SpliceOne(cur, IndexOf(cur, t)) else cur, ','))
      else if |cur| + 1 == |IdOptions(cat)| then AllList
      else Str(Join(cur + [t.GetOr("")], ','))
  }

  /** `GetLabelIdSelections`: the explicit selection re-checked against the catalog, joined. */
  method GetLabelIdSelections(labelIds: string, cat: seq<Label>) returns (items: string)
    ensures items == Join(SelectedIdTokens(labelIds, cat), ',')
  {
    var selections := if |labelIds| > 0 then Split(labelIds, ',') else [];
    var current: seq<string> := [];
    var i := 0;
    while i < |selections|
      invariant 0 <= i <= |selections|
      invariant current == IdTokensAt(cat, Resolved(selections[..i], cat))
    {
      ghost var before := Resolved(selections[..i], cat);
      ResolvedStep(selections, i, cat);
      var j := 0;
      while j < |cat|
        invariant 0 <= j <= |cat|
        invariant forall m :: 0 <= m < j ==> !LooseEquals(selections[i], cat[m].id)
        invariant current == IdTokensAt(cat, before)
      {
        if LooseEquals(selections[i], cat[j].id) {
          assert FirstIdMatch(cat, selections[i]) == Some(j);
          IdTokensAtSnoc(cat, before, j);
          current := current + [IntToString(cat[j].id)];
          break;
        }
        j := j + 1;
      }
      i := i + 1;
    }
    assert selections[..|selections|] == selections;
    items := Join(current, ',');
  }

  /** `GetLabelSelections`: `'all'`, or the texts of the selected entries that still exist, joined. */
  method GetLabelSelections(labelIds: JsValue, cat: seq<Label>) returns (items: string)
    requires labelIds.Str? || labelIds.AllList?
    ensures LooselyAll(labelIds) ==> items == "all"
    ensures !LooselyAll(labelIds) ==> items == Join(SelectedTexts(labelIds.s, cat), ',')
  {
    var current: seq<string> := [];
    if LooselyAll(labelIds) {
      current := current + ["all"];
    } else {
      var s := labelIds.s;
      var selections := if |s| > 0 then Split(s, ',') else [];
      var i := 0;
      while i < |selections|
        invariant 0 <= i <= |selections|
        invariant current == TextsAt(cat, Resolved(selections[..i], cat))
      {
        ghost var before := Resolved(selections[..i], cat);
        ResolvedStep(selections, i, cat);
        var j := 0;
        while j < |cat|
          invariant 0 <= j <= |cat|
          invariant forall m :: 0 <= m < j ==> !LooseEquals(selections[i], cat[m].id)
          invariant current == TextsAt(cat, before)
        {
          if LooseEquals(selections[i], cat[j].id) {
            assert FirstIdMatch(cat, selections[i]) == Some(j);
            TextsAtSnoc(cat, before, j);
            current := current + [cat[j].text];
            break;
          }
          j := j + 1;
        }
        i := i + 1;
      }
      assert selections[..|selections|] == selections;
    }
    items := Join(current, ',');
  }

  /** Resolving one more token appends the entry it first matches, if any. */
  lemma ResolvedStep(selections: seq<string>, i: nat, cat: seq<Label>)
    requires i < |selections|
    ensures FirstIdMatch(cat, selections[i]).None? ==> Resolved(selections[..i + 1], cat) == Resolved(selections[..i], cat)
    ensures FirstIdMatch(cat, selections[i]).Some? ==>
              Resolved(selections[..i + 1], cat) == Resolved(selections[..i], cat) + [FirstIdMatch(cat, selections[i]).value]
  {
    assert selections[..i + 1][..i] == selections[..i];
  }

  lemma IdTokensAtSnoc(cat: seq<Label>, ps: seq<nat>, j: nat)
    requires forall k :: 0 <= k < |ps| ==> ps[k] < |cat|
    requires j < |cat|
    ensures IdTokensAt(cat, ps + [j]) == IdTokensAt(cat, ps) + [IntToString(cat[j].id)]
  {
  }

  lemma TextsAtSnoc(cat: seq<Label>, ps: seq<nat>, j: nat)
    requires forall k :: 0 <= k < |ps| ==> ps[k] < |cat|
    requires j < |cat|
    ensures TextsAt(cat, ps + [j]) == TextsAt(cat, ps) + [cat[j].text]
  {
  }

  // ---------------------------------------------------------------------------
  // Re-checking an explicit selection against the catalog

  /** Resolving keeps selection order: it distributes over concatenation. */
  lemma {:induction false} ResolvedAppend(ts1: seq<string>, ts2: seq<string>, cat: seq<Label>)
    ensures Resolved(ts1 + ts2, cat) == Resolved(ts1, cat) + Resolved(ts2, cat)
  {
    if ts2 == [] {
      assert ts1 + ts2 == ts1;
    } else {
      var init := ts2[..|ts2| - 1];
      ResolvedAppend(ts1, init, cat);
      assert (ts1 + ts2)[..|ts1 + ts2| - 1] == ts1 + init;
    }
  }

  /** A token survives exactly when some entry's id is loosely equal to it, and then stands for the first such entry. */
  lemma ResolvedSingle(t: string, cat: seq<Label>)
    ensures Resolved([t], cat) == [] <==> forall j :: 0 <= j < |cat| ==> !LooseEquals(t, cat[j].id)
    ensures Resolved([t], cat) != [] ==>
              exists k :: 0 <= k < |cat| && Resolved([t], cat) == [k] && LooseEquals(t, cat[k].id) &&
                          forall j :: 0 <= j < k ==> !LooseEquals(t, cat[j].id)
  {
    assert [t][..0] == [];
  }

  /** The id string of an entry loosely equals exactly the entries with that id. */
  lemma CanonicalTokenMatch(cat: seq<Label>, p: nat)
    requires UniqueIds(cat)
    requires p < |cat|
    ensures FirstIdMatch(cat, IntToString(cat[p].id)) == Some(p)
  {
    ParseIntToString(cat[p].id);
    FirstMatchUnique(cat, IntToString(cat[p].id), p);
  }

  /** With unique ids, a token matching the id of entry `p` first matches at `p`. */
  lemma FirstMatchUnique(cat: seq<Label>, t: string, p: nat)
    requires UniqueIds(cat)
    requires p < |cat| && LooseEquals(t, cat[p].id)
    ensures FirstIdMatch(cat, t) == Some(p)
  {
    var r := FirstIdMatch(cat, t);
    assert r.Some?;
    assert cat[r.value].id == cat[p].id;
  }

  /** A selection made only of current catalog ids survives the re-check unchanged. */
  lemma {:induction false} ResolvedCanonical(cat: seq<Label>, ps: seq<nat>)
    requires UniqueIds(cat)
    requires forall k :: 0 <= k < |ps| ==> ps[k] < |cat|
    ensures Resolved(IdTokensAt(cat, ps), cat) == ps
  {
    if ps != [] {
      var n := |ps| - 1;
      ResolvedCanonical(cat, ps[..n]);
      CanonicalTokenMatch(cat, ps[n]);
      CanonicalStep(cat, ps);
    }
  }

  /** The inductive step of `ResolvedCanonical`: the last entry's id resolves to that entry. */
  lemma CanonicalStep(cat: seq<Label>, ps: seq<nat>)
    requires ps != []
    requires forall k :: 0 <= k < |ps| ==> ps[k] < |cat|
    requires Resolved(IdTokensAt(cat, ps[..|ps| - 1]), cat) == ps[..|ps| - 1]
    requires FirstIdMatch(cat, IntToString(cat[ps[|ps| - 1]].id)) == Some(ps[|ps| - 1])
    ensures Resolved(IdTokensAt(cat, ps), cat) == ps
  {
    var n := |ps| - 1;
    IdTokensSnoc(cat, ps);
    ResolvedSnoc(IdTokensAt(cat, ps), IdTokensAt(cat, ps[..n]), cat, ps[n]);
    InitLast(ps);
  }

  /** A non-empty sequence is its initial part followed by its last element. */
  lemma InitLast<T>(s: seq<T>)
    requires s != []
    ensures s[..|s| - 1] + [s[|s| - 1]] == s
  {
  }

  /** The id strings of `ps` are those of all but its last position, then the last one's. */
  lemma IdTokensSnoc(cat: seq<Label>, ps: seq<nat>)
    requires ps != []
    requires forall k :: 0 <= k < |ps| ==> ps[k] < |cat|
    ensures IdTokensAt(cat, ps)[..|ps| - 1] == IdTokensAt(cat, ps[..|ps| - 1])
    ensures IdTokensAt(cat, ps)[|ps| - 1] == IntToString(cat[ps[|ps| - 1]].id)
  {
  }

  /** A last token matching entry `p` first adds `p` after the resolution of the others. */
  lemma ResolvedSnoc(ts: seq<string>, init: seq<string>, cat: seq<Label>, p: nat)
    requires ts != [] && ts[..|ts| - 1] == init
    requires FirstIdMatch(cat, ts[|ts| - 1]) == Some(p)
    ensures Resolved(ts, cat) == Resolved(init, cat) + [p]
  {
  }

  /** Id strings are non-empty and comma-free, so joining and splitting them is lossless. */
  lemma TokensOfJoin(xs: seq<string>)
    requires forall k :: 0 <= k < |xs| ==> |xs[k]| >= 1 && ',' !in xs[k]
    ensures Tokens(Join(xs, ',')) == xs
  {
    if xs != [] {
      JoinLength(xs, ',');
      SplitJoin(xs, ',');
    }
  }

  lemma IdTokensShape(cat: seq<Label>, ps: seq<nat>)
    requires forall k :: 0 <= k < |ps| ==> ps[k] < |cat|
    ensures forall k :: 0 <= k < |ps| ==> |IdTokensAt(cat, ps)[k]| >= 1 && ',' !in IdTokensAt(cat, ps)[k]
  {
    forall k | 0 <= k < |ps| {
      IntToStringShape(cat[ps[k]].id);
    }
  }

  /** The explicit branch works on the re-checked selection: splitting the joined re-check gives it back. */
  lemma CurrentItems(s: string, cat: seq<Label>)
    ensures Tokens(Join(SelectedIdTokens(s, cat), ',')) == SelectedIdTokens(s, cat)
  {
    IdTokensShape(cat, Resolved(Tokens(s), cat));
    TokensOfJoin(SelectedIdTokens(s, cat));
  }

  lemma AllIsNoId(x: int)
    ensures IntToString(x) != "all"
  {
    ParseIntToString(x);
    assert !IsDigit('a');
    assert JsNumber("all") == None;
  }

  // ---------------------------------------------------------------------------
  // Toggling while the filter is 'all'

  /** The catalog positions other than `k`, in order. */
  function AllBut(n: nat, k: nat): (ps: seq<nat>)
    requires k < n
    ensures |ps| == n - 1
    ensures forall m :: 0 <= m < |ps| ==> ps[m] < n && ps[m] != k
  {
    seq(n - 1, i requires 0 <= i < n - 1 => if i < k then i else i + 1)
  }

  lemma AllButTokens(cat: seq<Label>, k: nat)
    requires k < |cat|
    ensures IdTokensAt(cat, AllBut(|cat|, k)) == IdOptions(cat)[..k] + IdOptions(cat)[k + 1..]
  {
  }

  /** With unique ids, exactly the entries other than `k` have their id among the ids at `AllBut(|cat|, k)`. */
  lemma AllButMembers(cat: seq<Label>, k: nat)
    requires UniqueIds(cat)
    requires k < |cat|
    ensures forall j :: 0 <= j < |cat| ==> (IntToString(cat[j].id) in IdTokensAt(cat, AllBut(|cat|, k)) <==> j != k)
  {
    var ps := AllBut(|cat|, k);
    var rest := IdTokensAt(cat, ps);
    forall j | 0 <= j < |cat| ensures IntToString(cat[j].id) in rest <==> j != k {
      if j != k {
        assert rest[if j < k then j else j - 1] == IntToString(cat[j].id);
      }
      if IntToString(cat[j].id) in rest {
        var m :| 0 <= m < |rest| && rest[m] == IntToString(cat[j].id);
        IntToStringInjective(cat[ps[m]].id, cat[j].id);
      }
    }
  }

  /** From `'all'`, the toggled label's id is found at its own position and spliced out. */
  lemma SpliceFromAll(current: JsValue, cat: seq<Label>, item: string, k: nat)
    requires current.Str? || current.AllList?
    requires LooselyAll(current)
    requires UniqueIds(cat) && |cat| >= 2
    requires FirstWithText(cat, item) == Some(k)
    ensures ToggleLabelIds(current, cat, item) == Str(Join(IdTokensAt(cat, AllBut(|cat|, k)), ','))
  {
    var opts := IdOptions(cat);
    var t := ToggleToken(cat, item);
    assert t == Some(IntToString(cat[k].id));
    forall j | 0 <= j < k ensures opts[j] != t.value {
      IdOptionsPosition(cat, k, j);
    }
    assert opts[k] == t.value;
    assert IndexOf(opts, t) == k;
    AllButTokens(cat, k);
  }

  /**
   * With two or more entries and unique ids, toggling a known label from
   * `'all'` selects every catalog id except that label's, in catalog order.
   */
  lemma ToggleFromAllResolved(current: JsValue, cat: seq<Label>, item: string, k: nat)
    requires current.Str? || current.AllList?
    requires LooselyAll(current)
    requires UniqueIds(cat) && |cat| >= 2
    requires FirstWithText(cat, item) == Some(k)
    ensures ToggleLabelIds(current, cat, item).Str?
    ensures Tokens(ToggleLabelIds(current, cat, item).s) == IdOptions(cat)[..k] + IdOptions(cat)[k + 1..]
    ensures forall j :: 0 <= j < |cat| ==>
              (IntToString(cat[j].id) in Tokens(ToggleLabelIds(current, cat, item).s) <==> j != k)
  {
    var ps := AllBut(|cat|, k);
    SpliceFromAll(current, cat, item, k);
    AllButTokens(cat, k);
    IdTokensShape(cat, ps);
    TokensOfJoin(IdTokensAt(cat, ps));
    AllButMembers(cat, k);
  }

  /** Toggling a text no entry carries from `'all'` removes the last id instead (`splice(-1, 1)`). */
  lemma ToggleFromAllUnresolved(current: JsValue, cat: seq<Label>, item: string)
    requires current.Str? || current.AllList?
    requires LooselyAll(current)
    requires |cat| >= 2
    requires forall j :: 0 <= j < |cat| ==> cat[j].text != item
    ensures ToggleLabelIds(current, cat, item).Str?
    ensures Tokens(ToggleLabelIds(current, cat, item).s) == IdOptions(cat)[..|cat| - 1]
  {
    var opts := IdOptions(cat);
    assert ToggleToken(cat, item) == None;
    var rest := opts[..|cat| - 1];
    assert SpliceOne(opts, -1) == rest;
    assert forall j :: 0 <= j < |rest| ==> |rest[j]| >= 1 && ',' !in rest[j] by {
      forall j | 0 <= j < |rest| ensures |rest[j]| >= 1 && ',' !in rest[j] {
        IntToStringShape(cat[j].id);
      }
    }
    TokensOfJoin(rest);
  }

  /** With fewer than two entries, a toggle from `'all'` leaves the filter at `['all']`. */
  lemma ToggleFromAllFewLabels(current: JsValue, cat: seq<Label>, item: string)
    requires current.Str? || current.AllList?
    requires LooselyAll(current)
    requires |cat| <= 1
    ensures ToggleLabelIds(current, cat, item) == AllList
  {
  }

  // ---------------------------------------------------------------------------
  // Toggling an explicit selection

  /** Toggling an id present among two or more re-checked ids removes its first occurrence. */
  lemma ToggleExplicitRemoves(current: JsValue, cat: seq<Label>, item: string)
    requires current.Str? && !LooselyAll(current)
    requires ToggleToken(cat, item).Some?
    requires ToggleToken(cat, item).value in SelectedIdTokens(current.s, cat)
    requires |SelectedIdTokens(current.s, cat)| > 1
    ensures var sel := SelectedIdTokens(current.s, cat);
            var i := IndexOf(sel, ToggleToken(cat, item));
            && 0 <= i < |sel|
            && ToggleLabelIds(current, cat, item).Str?
            && Tokens(ToggleLabelIds(current, cat, item).s) == sel[..i] + sel[i + 1..]
  {
    var sel := SelectedIdTokens(current.s, cat);
    CurrentItems(current.s, cat);
    IdTokensShape(cat, Resolved(Tokens(current.s), cat));
    SpliceTokens(sel, IndexOf(sel, ToggleToken(cat, item)));
  }

  /** Splicing one id string out of a list of id strings survives the join and split. */
  lemma SpliceTokens(xs: seq<string>, i: nat)
    requires forall k :: 0 <= k < |xs| ==> |xs[k]| >= 1 && ',' !in xs[k]
    requires i < |xs|
    ensures SpliceOne(xs, i) == xs[..i] + xs[i + 1..]
    ensures Tokens(Join(xs[..i] + xs[i + 1..], ',')) == xs[..i] + xs[i + 1..]
  {
    var rest := xs[..i] + xs[i + 1..];
    assert forall j :: 0 <= j < i ==> rest[j] == xs[j];
    assert forall j :: i <= j < |rest| ==> rest[j] == xs[j + 1];
    TokensOfJoin(rest);
  }

  /** The last remaining id is never removed: toggling it leaves the re-checked selection as it is. */
  lemma ToggleExplicitKeepsLast(current: JsValue, cat: seq<Label>, item: string)
    requires current.Str? && !LooselyAll(current)
    requires SelectedIdTokens(current.s, cat) == [ToggleToken(cat, item).GetOr("")]
    requires ToggleToken(cat, item).Some?
    ensures ToggleLabelIds(current, cat, item) == Str(Join(SelectedIdTokens(current.s, cat), ','))
    ensures |Tokens(ToggleLabelIds(current, cat, item).s)| == 1
  {
    CurrentItems(current.s, cat);
  }

  /** Adding the one id still missing selects the whole catalog, which collapses to `['all']`. */
  lemma ToggleExplicitCollapses(current: JsValue, cat: seq<Label>, item: string)
    requires current.Str? && !LooselyAll(current)
    requires ToggleToken(cat, item).None? || ToggleToken(cat, item).value !in SelectedIdTokens(current.s, cat)
    requires |SelectedIdTokens(current.s, cat)| + 1 == |cat|
    ensures ToggleLabelIds(current, cat, item) == AllList
  {
    CurrentItems(current.s, cat);
  }

  /** Otherwise an absent id is appended after the re-checked selection. */
  lemma ToggleExplicitAppends(current: JsValue, cat: seq<Label>, item: string)
    requires current.Str? && !LooselyAll(current)
    requires ToggleToken(cat, item).Some?
    requires ToggleToken(cat, item).value !in SelectedIdTokens(current.s, cat)
    requires |SelectedIdTokens(current.s, cat)| + 1 != |cat|
    ensures ToggleLabelIds(current, cat, item).Str?
    ensures Tokens(ToggleLabelIds(current, cat, item).s) ==
              SelectedIdTokens(current.s, cat) + [ToggleToken(cat, item).value]
  {
    CurrentItems(current.s, cat);
    var sel := SelectedIdTokens(current.s, cat);
    var t := ToggleToken(cat, item).value;
    var k :| FirstWithText(cat, item) == Some(k);
    IntToStringShape(cat[k].id);
    IdTokensShape(cat, Resolved(Tokens(current.s), cat));
    TokensOfJoin(sel + [t]);
  }

  /**
   * A label text the catalog does not know pushes `undefined`, which joins
   * as an empty field: the filter gains a trailing comma, or stays empty.
   */
  lemma ToggleExplicitUnresolved(current: JsValue, cat: seq<Label>, item: string)
    requires current.Str? && !LooselyAll(current)
    requires ToggleToken(cat, item).None?
    requires |SelectedIdTokens(current.s, cat)| + 1 != |cat|
    ensures ToggleLabelIds(current, cat, item) == Str(Join(SelectedIdTokens(current.s, cat) + [""], ','))
    ensures SelectedIdTokens(current.s, cat) == [] ==> ToggleLabelIds(current, cat, item) == Str("")
    ensures SelectedIdTokens(current.s, cat) != [] ==>
              ToggleLabelIds(current, cat, item) == Str(Join(SelectedIdTokens(current.s, cat), ',') + ",")
  {
    CurrentItems(current.s, cat);
    var sel := SelectedIdTokens(current.s, cat);
    if sel != [] {
      JoinSnoc(sel, "", ',');
      assert Join(sel, ',') + [','] + "" == Join(sel, ',') + ",";
    }
  }

  /** An explicit selection holding the toggled id never becomes empty. */
  lemma ToggleExplicitNeverEmpty(current: JsValue, cat: seq<Label>, item: string)
    requires current.Str? && !LooselyAll(current)
    requires ToggleToken(cat, item).Some?
    requires ToggleToken(cat, item).value in SelectedIdTokens(current.s, cat)
    ensures ToggleLabelIds(current, cat, item).Str?
    ensures |Tokens(ToggleLabelIds(current, cat, item).s)| >= 1
  {
    var sel := SelectedIdTokens(current.s, cat);
    if |sel| > 1 {
      ToggleExplicitRemoves(current, cat, item);
    } else {
      CurrentItems(current.s, cat);
      IdTokensShape(cat, Resolved(Tokens(current.s), cat));
      TokensOfJoin(sel);
    }
  }

  /** A non-empty list of ids never joins to the string `'all'`. */
  lemma JoinedIdsNotAll(cat: seq<Label>, ps: seq<nat>)
    requires forall m :: 0 <= m < |ps| ==> ps[m] < |cat|
    requires |ps| >= 1
    ensures Join(IdTokensAt(cat, ps), ',') != "all"
  {
    var xs := IdTokensAt(cat, ps);
    IdTokensShape(cat, ps);
    TokensOfJoin(xs);
    if Join(xs, ',') == "all" {
      assert Tokens("all") == ["all"];
      AllIsNoId(cat[ps[0]].id);
    }
  }

  /**
   * Collapse law: with unique ids and two or more entries, toggling a label
   * off from `'all'` and toggling it on again gives `['all']` back.
   */
  lemma ToggleTwiceFromAll(current: JsValue, cat: seq<Label>, item: string, k: nat)
    requires current.Str? || current.AllList?
    requires LooselyAll(current)
    requires UniqueIds(cat) && |cat| >= 2
    requires FirstWithText(cat, item) == Some(k)
    ensures var once := ToggleLabelIds(current, cat, item);
            once.Str? && ToggleLabelIds(once, cat, item) == AllList
  {
    var once := ToggleLabelIds(current, cat, item);
    var ps := AllBut(|cat|, k);
    var rest := IdTokensAt(cat, ps);
    SpliceFromAll(current, cat, item, k);
    JoinedIdsNotAll(cat, ps);
    assert SelectedIdTokens(once.s, cat) == rest by {
      IdTokensShape(cat, ps);
      TokensOfJoin(rest);
      ResolvedCanonical(cat, ps);
    }
    AllButMembers(cat, k);
    assert ToggleToken(cat, item) == Some(IntToString(cat[k].id));
    ToggleExplicitCollapses(once, cat, item);
  }
}
