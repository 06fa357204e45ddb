/**
 * What the history screen's callbacks promise, stated over the functions
 * of module History.
 */
module HistoryProperties {
  import opened Sparse
  import opened History

  /** No effect of the list opens or reorders an item. */
  predicate NoActivation(effects: seq<Effect>)
  {
    forall i :: 0 <= i < |effects| ==> !effects[i].MoveUp? && !effects[i].OpenMedia?
  }

  /** Every effect of the list is a refresh of the action bar. */
  predicate OnlyMenuRefresh(effects: seq<Effect>)
  {
    forall i :: 0 <= i < |effects| ==> effects[i].SetActionMenu?
  }

  // ---------------------------------------------------------------- dispatch

  /**
   * A simple click goes to the tap handler and a long click to the
   * long-press handler; an image click behaves as a simple click while the
   * action mode is on and as a long click otherwise.
   */
  lemma ProcessRouting(s: State, kind: ClickKind, p: int, shift: bool, hasMedia: bool)
    requires Valid(s) && 0 <= p < |s.dataset|
    ensures kind == SimpleClick ==> Process(s, kind, p, shift, hasMedia) == OnClick(s, p, s.dataset[p], shift, hasMedia)
    ensures kind == LongClick ==> Process(s, kind, p, shift, hasMedia) == OnLongClick(s, p, hasMedia)
    ensures kind == ImageClick ==>
      Process(s, kind, p, shift, hasMedia) == Process(s, if s.actionMode then SimpleClick else LongClick, p, shift, hasMedia)
  {
  }

  // ------------------------------------------------------------------ clicks

  /**
   * A plain tap with no action mode opens the item, and first moves it to
   * the head of the history exactly when it is not there already.  Neither
   * the selection nor the mode changes.
   */
  lemma PlainTapWhileIdle(s: State, p: int, item: Media, hasMedia: bool)
    requires Valid(s) && !s.actionMode
    ensures OnClick(s, p, item, false, hasMedia).state == s
    ensures p != 0 ==> OnClick(s, p, item, false, hasMedia).effects == [MoveUp(item), OpenMedia(item)]
    ensures p == 0 ==> OnClick(s, p, item, false, hasMedia).effects == [OpenMedia(item)]
    ensures MoveUp(item) in OnClick(s, p, item, false, hasMedia).effects <==> p != 0
  {
  }

  /**
   * A tap while the action mode is on flips the tapped position and no
   * other, opens nothing, and leaves the mode on exactly when something is
   * still selected.
   */
  lemma TapWhileActive(s: State, p: int, item: Media, shift: bool, hasMedia: bool)
    requires Consistent(s) && s.actionMode
    ensures var r := OnClick(s, p, item, shift, hasMedia);
      && Selected(r.state, p) == !Selected(s, p)
      && (forall q :: q != p ==> Selected(r.state, q) == Selected(s, q))
      && Consistent(r.state)
      && r.state.dataset == s.dataset && r.state.savedSelection == s.savedSelection
      && OnlyMenuRefresh(r.effects) && NoActivation(r.effects)
  {
    var flipped := Put(s.selection, p, !Get(s.selection, p));
    var r := OnClick(s, p, item, shift, hasMedia);
    if Count(flipped) == 0 {
      CountPositive(flipped);
      assert r.state.selection == [];
      forall q ensures Selected(r.state, q) == Get(flipped, q) {
        assert !Get(flipped, q);
      }
    } else {
      assert r.state.selection == flipped;
    }
  }

  /** A tap with shift held and no action mode is exactly a long press. */
  lemma ShiftTapIsLongPress(s: State, p: int, item: Media, hasMedia: bool)
    requires Valid(s) && !s.actionMode
    ensures OnClick(s, p, item, true, hasMedia) == OnLongClick(s, p, hasMedia)
  {
  }

  /**
   * A long press leaves the position selected whatever it was before,
   * leaves every other position as it was, leaves the action mode on, and
   * neither opens nor moves the item.
   */
  lemma LongPressSelects(s: State, p: int, hasMedia: bool)
    requires Valid(s)
    ensures var r := OnLongClick(s, p, hasMedia);
      && Selected(r.state, p)
      && (forall q :: q != p ==> Selected(r.state, q) == Selected(s, q))
      && r.state.actionMode
      && r.state.dataset == s.dataset && r.state.savedSelection == s.savedSelection
      && OnlyMenuRefresh(r.effects) && NoActivation(r.effects)
  {
    var forced := Put(s.selection, p, true);
    CountPositive(forced);
    assert Get(forced, p);
    var on := s.(selection := forced, actionMode := true);
    var r := OnLongClick(s, p, hasMedia);
    assert r.state == on;
    assert r.effects == (if s.actionMode then [] else [SetActionMenu(Count(forced) == 1, hasMedia)])
      + [SetActionMenu(Count(forced) == 1, hasMedia)];
  }

  /** Every gesture keeps the mode on exactly when something is selected. */
  lemma ProcessConsistent(s: State, kind: ClickKind, p: int, shift: bool, hasMedia: bool)
    requires Consistent(s) && 0 <= p < |s.dataset|
    ensures Consistent(Process(s, kind, p, shift, hasMedia).state)
  {
    var item := s.dataset[p];
    if Route(kind, s.actionMode) == ToLongClick || (shift && !s.actionMode) {
      LongPressSelects(s, p, hasMedia);
      CountPositive(OnLongClick(s, p, hasMedia).state.selection);
    } else if s.actionMode {
      TapWhileActive(s, p, item, shift, hasMedia);
    }
  }

  // ------------------------------------------------------------- action bar

  /**
   * Preparing the action bar with nothing selected stops the mode, answers
   * false and leaves the selection empty; otherwise "info" is visible
   * exactly when one position is selected and "append" exactly when the
   * play queue has media, and the state is unchanged.
   */
  lemma PrepareRule(s: State, hasMedia: bool)
    requires Valid(s)
    ensures var a := Prepare(s, hasMedia);
      Count(s.selection) == 0 ==>
        !a.result && !a.step.state.actionMode && a.step.state.selection == [] && a.step.effects == []
    ensures var a := Prepare(s, hasMedia);
      Count(s.selection) > 0 ==>
        && a.result && a.step.state == s
        && a.step.effects == [SetActionMenu(Count(s.selection) == 1, hasMedia)]
  {
  }

  /** Preparing the action bar keeps the mode on exactly when something is selected. */
  lemma PrepareConsistent(s: State, hasMedia: bool)
    requires Consistent(s)
    ensures Consistent(Prepare(s, hasMedia).step.state)
  {
  }

  /**
   * Starting the mode leaves it on exactly when something is selected: with
   * nothing selected the preparation ends it again at once and issues no
   * menu update.  Nothing but the mode and the selection changes.
   */
  lemma StartRule(s: State, hasMedia: bool)
    requires Valid(s)
    ensures var r := Start(s, hasMedia); var n := Count(s.selection);
      && (r.state.actionMode <==> n > 0)
      && r.state.selection == (if n > 0 then s.selection else [])
      && r.state.savedSelection == s.savedSelection && r.state.dataset == s.dataset
      && r.state.cleanInflated == s.cleanInflated
      && r.effects == (if n > 0 then [SetActionMenu(n == 1, hasMedia)] else [])
  {
  }

  /**
   * Invalidating does nothing without a mode; with the mode on it refreshes
   * the menu, or ends the mode when nothing is selected any more.
   */
  lemma InvalidateRule(s: State, hasMedia: bool)
    requires Valid(s)
    ensures !s.actionMode ==> Invalidate(s, hasMedia) == Step(s, [])
    ensures var r := Invalidate(s, hasMedia); var n := Count(s.selection);
      s.actionMode ==>
        && (r.state.actionMode <==> n > 0)
        && r.state.selection == (if n > 0 then s.selection else [])
        && r.state.savedSelection == s.savedSelection && r.state.dataset == s.dataset
        && r.state.cleanInflated == s.cleanInflated
        && r.effects == (if n > 0 then [SetActionMenu(n == 1, hasMedia)] else [])
  {
  }

  /**
   * An action item does nothing before the screen is started.  Once it is,
   * the mode always ends with an empty selection; an unrecognised item with
   * something selected answers false; "info" shows the first selected item;
   * with nothing selected no effect is issued and the answer is true.
   */
  lemma ActionItemRule(s: State, started: bool, item: ActionItem)
    requires Valid(s)
    ensures !started ==> ActionItemClicked(s, started, item) == Answer(Step(s, []), false)
    ensures var a := ActionItemClicked(s, started, item);
      started ==>
        && !a.step.state.actionMode && a.step.state.selection == []
        && a.step.state.dataset == s.dataset && a.step.state.savedSelection == s.savedSelection
    ensures var a := ActionItemClicked(s, started, item);
      var sel := SelectedItems(s.selection, s.dataset);
      started && sel != [] ==>
        && (item.OtherItem? <==> !a.result)
        && (item.InfoItem? ==> a.step.effects == [ShowInfo(sel[0])])
        && (item.PlayItem? ==> a.step.effects == [OpenList(sel, 0)])
        && (item.AppendItem? ==> a.step.effects == [AppendMedia(sel)])
    ensures var a := ActionItemClicked(s, started, item);
      started && SelectedItems(s.selection, s.dataset) == [] ==> a.result && a.step.effects == []
  {
  }

  /** Ending the mode keeps it on exactly when something is selected. */
  lemma ActionItemConsistent(s: State, started: bool, item: ActionItem)
    requires Consistent(s)
    ensures Consistent(ActionItemClicked(s, started, item).step.state)
    ensures Consistent(Stop(s))
  {
  }

  /** With nothing selected, no item can be acted on. */
  lemma NothingSelectedNoItems(sel: seq<Entry>, dataset: seq<Media>)
    requires Count(sel) == 0
    ensures SelectedItems(sel, dataset) == []
  {
  }

  /** Position `k` is selected and lies inside the dataset, so its item is acted on. */
  predicate ActedOn(sel: seq<Entry>, dataset: seq<Media>, k: int)
  {
    Get(sel, k) && 0 <= k < |dataset|
  }

  /** An item is acted on exactly when it sits at a selected position inside the dataset. */
  lemma {:induction false} SelectedItemsMembers(sel: seq<Entry>, dataset: seq<Media>, m: Media)
    requires Sorted(sel)
    ensures m in SelectedItems(sel, dataset) <==> exists k :: ActedOn(sel, dataset, k) && dataset[k] == m
    decreases |sel|
  {
    if sel != [] {
      var k0 := sel[0].key;
      var rest := sel[1..];
      SelectedItemsMembers(rest, dataset, m);
      var head := if sel[0].value && 0 <= k0 < |dataset| then [dataset[k0]] else [];
      assert SelectedItems(sel, dataset) == head + SelectedItems(rest, dataset);
      if m in SelectedItems(sel, dataset) {
        if m in head {
          assert ActedOn(sel, dataset, k0) && dataset[k0] == m;
        } else {
          var k :| ActedOn(rest, dataset, k) && dataset[k] == m;
          RestAbove(sel, k);
          assert ActedOn(sel, dataset, k);
        }
      }
      if exists k :: ActedOn(sel, dataset, k) && dataset[k] == m {
        var k :| ActedOn(sel, dataset, k) && dataset[k] == m;
        if k != k0 {
          assert ActedOn(rest, dataset, k);
        }
      }
    }
  }

  /** Something selected, and every selected position inside the dataset: some item is acted on. */
  lemma SelectedItemsNonEmpty(sel: seq<Entry>, dataset: seq<Media>)
    requires Sorted(sel) && Count(sel) > 0
    requires forall k :: Get(sel, k) ==> 0 <= k < |dataset|
    ensures SelectedItems(sel, dataset) != []
  {
    CountPositive(sel);
    var k :| Get(sel, k);
    SelectedItemsMembers(sel, dataset, dataset[k]);
  }

  /** The first item acted on, the one "info" shows, is at the smallest such position. */
  lemma {:induction false} SelectedItemsFirst(sel: seq<Entry>, dataset: seq<Media>)
    requires Sorted(sel) && SelectedItems(sel, dataset) != []
    ensures exists k ::
      && ActedOn(sel, dataset, k) && SelectedItems(sel, dataset)[0] == dataset[k]
      && (forall j :: ActedOn(sel, dataset, j) ==> k <= j)
    decreases |sel|
  {
    var k0 := sel[0].key;
    var rest := sel[1..];
    if sel[0].value && 0 <= k0 < |dataset| {
      assert SelectedItems(sel, dataset)[0] == dataset[k0];
      forall j | ActedOn(sel, dataset, j) ensures k0 <= j {
        if j != k0 {
          RestAbove(sel, j);
        }
      }
      assert ActedOn(sel, dataset, k0);
    } else {
      assert SelectedItems(sel, dataset) == SelectedItems(rest, dataset);
      SelectedItemsFirst(rest, dataset);
      var k :| ActedOn(rest, dataset, k) && SelectedItems(rest, dataset)[0] == dataset[k]
        && forall j :: ActedOn(rest, dataset, j) ==> k <= j;
      RestAbove(sel, k);
      assert ActedOn(sel, dataset, k);
      forall j | ActedOn(sel, dataset, j) ensures k <= j {
        assert j != k0;
        assert ActedOn(rest, dataset, j);
      }
    }
  }

  // ------------------------------------------------------- save and restore

  /**
   * With a saved selection pending, restoring copies every saved flag over
   * the live selection (positions outside the dataset included), turns the
   * mode on when some saved flag is true, and consumes the saved selection;
   * with none pending, nothing changes.
   */
  lemma RestoreRule(s: State, hasMedia: bool)
    requires Valid(s)
    ensures s.savedSelection == [] ==> Restore(s, hasMedia) == Step(s, [])
    ensures var r := Restore(s, hasMedia).state;
      s.savedSelection != [] ==>
        && (forall p :: Selected(r, p) ==
              if p in Keys(s.savedSelection) then Get(s.savedSelection, p) else Selected(s, p))
        && r.actionMode == (s.actionMode || AnyTrue(s.savedSelection))
        && r.savedSelection == []
        && r.dataset == s.dataset
  {
    if s.savedSelection != [] {
      var saved := s.savedSelection;
      var copied := CopyAll(s.selection, saved);
      var r := Restore(s, hasMedia).state;
      if AnyTrue(saved) {
        var i :| 0 <= i < |saved| && saved[i].value;
        GetAt(saved, i);
        assert saved[i].key in Keys(saved);
        CopyAllGet(s.selection, saved, saved[i].key);
        CountPositive(copied);
        assert r == s.(selection := copied, actionMode := true, savedSelection := []);
      } else {
        assert r == s.(selection := copied, savedSelection := []);
      }
      forall p ensures Selected(r, p) == if p in Keys(saved) then Get(saved, p) else Get(s.selection, p)
      {
        CopyAllGet(s.selection, saved, p);
      }
    }
  }

  /** A second restore finds nothing pending and changes nothing. */
  lemma RestoreConsumedOnce(s: State, hasMedia: bool, hasMedia2: bool)
    requires Valid(s)
    ensures var r := Restore(s, hasMedia).state; Restore(r, hasMedia2) == Step(r, [])
  {
    RestoreRule(s, hasMedia);
  }

  /**
   * On a freshly re-created screen (no mode, nothing selected), restoring
   * leaves the mode on exactly when something is selected.
   */
  lemma RestoreConsistent(s: State, hasMedia: bool)
    requires Consistent(s)
    requires s.savedSelection != [] ==> !s.actionMode
    ensures Consistent(Restore(s, hasMedia).state)
  {
    var r := Restore(s, hasMedia).state;
    RestoreRule(s, hasMedia);
    if s.savedSelection != [] && !AnyTrue(s.savedSelection) {
      CountPositive(s.selection);
      CountAnyTrue(s.savedSelection);
      CountPositive(s.savedSelection);
      forall k ensures !Get(r.selection, k) {
        assert !Get(s.savedSelection, k) && !Get(s.selection, k);
      }
      CountPositive(r.selection);
    }
  }

  /**
   * Saving the selection, re-creating the screen with it and delivering the
   * unchanged dataset brings back the same selected positions and the same
   * mode, with nothing left pending.
   */
  lemma SaveRestoreRoundTrip(s: State, hasMedia: bool)
    requires Consistent(s)
    ensures var recreated := Create(Initial(), Some(Save(s)));
      var r := DatasetChanged(recreated, Some(s.dataset), hasMedia).state;
      && (forall p :: Selected(r, p) == Selected(s, p))
      && r.actionMode == s.actionMode
      && r.dataset == s.dataset
      && r.savedSelection == []
  {
    var recreated := Create(Initial(), Some(Save(s)));
    var t := recreated.(dataset := s.dataset);
    RestoreRule(t, hasMedia);
    CountAnyTrue(s.selection);
  }

  /**
   * A dataset update with nothing pending, an empty list included (as after
   * the history is cleaned), leaves the mode and the selection as they were.
   */
  lemma DatasetChangeKeepsSelection(s: State, list: Option<seq<Media>>, hasMedia: bool)
    requires Valid(s) && s.savedSelection == []
    ensures var r := DatasetChanged(s, list, hasMedia);
      && r.state.actionMode == s.actionMode
      && r.state.selection == s.selection
      && (list.Some? ==> r.state.dataset == list.value)
      && r.effects == (if list.Some? && s.cleanInflated then [SetCleanVisible(|list.value| > 0)] else [])
  {
  }

  /**
   * A dataset delivery keeps the mode on exactly when something is selected,
   * provided a pending saved selection meets a screen without a mode (as
   * after re-creation, where `onCreate` runs before any gesture).
   */
  lemma DatasetChangedConsistent(s: State, list: Option<seq<Media>>, hasMedia: bool)
    requires Consistent(s)
    requires s.savedSelection != [] ==> !s.actionMode
    ensures Consistent(DatasetChanged(s, list, hasMedia).state)
  {
    var s1 := if list.Some? then s.(dataset := list.value) else s;
    RestoreConsistent(s1, hasMedia);
  }

  /**
   * Re-creating a screen with whatever selection was saved and then
   * delivering a dataset keeps the mode on exactly when something is selected.
   */
  lemma RecreateConsistent(bundle: Option<seq<Entry>>, list: Option<seq<Media>>, hasMedia: bool)
    requires bundle.Some? ==> Sorted(bundle.value)
    ensures Consistent(DatasetChanged(Create(Initial(), bundle), list, hasMedia).state)
  {
    DatasetChangedConsistent(Create(Initial(), bundle), list, hasMedia);
  }

  /**
   * Restoring into a screen whose mode is on can leave the mode on with
   * nothing selected: the saved flags clear the only selected position and
   * nothing stops the mode.
   */
  lemma RestoreWhileActive(dataset: seq<Media>, hasMedia: bool)
    ensures var s := State(true, [Entry(1, true)], [Entry(1, false)], dataset, false);
      var r := Restore(s, hasMedia).state;
      && Consistent(s)
      && r.actionMode && Count(r.selection) == 0
  {
    var s := State(true, [Entry(1, true)], [Entry(1, false)], dataset, false);
    assert AnyTrue(s.selection) by { assert s.selection[0].value; }
    CountAnyTrue(s.selection);
    assert CopyAll(s.selection, s.savedSelection) == Put(CopyAll(s.selection, []), 1, false);
    assert Put([Entry(1, true)], 1, false) == [Entry(1, false)];
  }

  /**
   * Creating the options menu shows "clean history" iff the list is
   * non-empty and changes nothing else; from then on, every delivered list
   * sets that visibility by its own emptiness before anything else happens.
   */
  lemma CreateOptionsMenuRule(s: State, list: seq<Media>, hasMedia: bool)
    requires Valid(s)
    ensures CreateOptionsMenu(s) == Step(s.(cleanInflated := true), [SetCleanVisible(|s.dataset| > 0)])
    ensures var m := CreateOptionsMenu(s).state;
      var r := DatasetChanged(m, Some(list), hasMedia);
      r.effects != [] && r.effects[0] == SetCleanVisible(|list| > 0) && r.state.cleanInflated
    ensures Consistent(s) ==> Consistent(CreateOptionsMenu(s).state)
  {
  }

  // --------------------------------------------------------------- scenario

  /** Five items, no mode: a long press on 2 starts the mode with "info" shown. */
  lemma ScenarioLongPress(items: seq<Media>, hasMedia: bool)
    requires |items| == 5
    ensures OnLongClick(Initial().(dataset := items), 2, hasMedia)
      == Step(State(true, [Entry(2, true)], [], items, false),
              [SetActionMenu(true, hasMedia), SetActionMenu(true, hasMedia)])
  {
    assert Put([], 2, true) == [Entry(2, true)];
    assert Count([Entry(2, true)]) == 1;
  }

  /** Continuing: a tap on 4 selects it too, and "info" is hidden. */
  lemma ScenarioSecondTap(items: seq<Media>, hasMedia: bool)
    requires |items| == 5
    ensures OnClick(State(true, [Entry(2, true)], [], items, false), 4, items[4], false, hasMedia)
      == Step(State(true, [Entry(2, true), Entry(4, true)], [], items, false),
              [SetActionMenu(false, hasMedia)])
  {
    var sel := [Entry(2, true), Entry(4, true)];
    assert !Get([Entry(2, true)], 4);
    assert Put([Entry(2, true)], 4, true) == sel;
    assert Count(sel) == 2;
  }

  /** Continuing: taps on 2 and then 4 deselect both, and the mode ends. */
  lemma ScenarioDeselectAll(items: seq<Media>, hasMedia: bool)
    requires |items| == 5
    ensures var c := OnClick(State(true, [Entry(2, true), Entry(4, true)], [], items, false),
                             2, items[2], false, hasMedia);
      && c == Step(State(true, [Entry(2, false), Entry(4, true)], [], items, false),
                   [SetActionMenu(true, hasMedia)])
      && OnClick(c.state, 4, items[4], false, hasMedia) == Step(State(false, [], [], items, false), [])
  {
    var sel := [Entry(2, true), Entry(4, true)];
    var sel3 := [Entry(2, false), Entry(4, true)];
    assert Get(sel, 2);
    assert Put(sel, 2, false) == sel3;
    assert Count(sel3) == 1;
    var sel4 := [Entry(2, false), Entry(4, false)];
    assert Get(sel3, 4);
    assert Put(sel3, 4, false) == sel4;
    assert Count(sel4) == 0;
  }
}
