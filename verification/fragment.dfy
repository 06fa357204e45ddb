/**
 * The history screen as an object whose callbacks update its fields in
 * place.  Each callback is proved to leave the state, and to append to the
 * trace the effects, that the corresponding function of module History
 * gives; the properties of those functions are in module HistoryProperties.
 */
module HistoryFragment {
  import opened Sparse
  import opened History

  class MoreFragment {
    /** The contextual action mode is on (`actionMode != null`). */
    var actionMode: bool
    /** The selection helper's sparse map from position to selected flag. */
    var selectionMap: seq<Entry>
    /** The selection handed over from the previous instance, not yet restored. */
    var savedSelection: seq<Entry>
    /** The history list on show, most recently opened first. */
    var dataset: seq<Media>
    /** The options menu holding "clean history" has been created. */
    var cleanInflated: bool
    /** Effects issued to collaborators so far, oldest first. */
    ghost var trace: seq<Effect>

    /** The screen state as a value. */
    function Abs(): State
      reads this
    {
      State(actionMode, selectionMap, savedSelection, dataset, cleanInflated)
    }

    ghost predicate Valid()
      reads this
    {
      History.Valid(Abs())
    }

    constructor ()
      ensures Valid() && Abs() == Initial() && trace == []
    {
      actionMode := false;
      selectionMap := [];
      savedSelection := [];
      dataset := [];
      cleanInflated := false;
      trace := [];
    }

    /** `onCreate`: take over the selection saved by the previous instance, if any. */
    method OnCreate(bundle: Option<seq<Entry>>)
      requires Valid()
      requires bundle.Some? ==> Sorted(bundle.value)
      modifies this
      ensures Valid() && Abs() == Create(old(Abs()), bundle) && trace == old(trace)
    {
      if bundle.Some? {
        savedSelection := bundle.value;
      }
    }

    /** `onSaveInstanceState`: a copy of the selection for the next instance. */
    method OnSaveInstanceState() returns (bundle: seq<Entry>)
      requires Valid()
      ensures bundle == Save(Abs())
      ensures Sorted(bundle)
    {
      bundle := selectionMap;
    }

    /** `onDestroyActionMode`: the mode ends and the selection is cleared. */
    method OnDestroyActionMode()
      requires Valid()
      modifies this
      ensures Valid() && Abs() == Stop(old(Abs())) && trace == old(trace)
    {
      actionMode := false;
      selectionMap := [];
    }

    /** `stopActionMode`: the transition `onDestroyActionMode` implements. */
    method StopActionMode()
      requires Valid()
      modifies this
      ensures Valid() && Abs() == Stop(old(Abs())) && trace == old(trace)
    {
      OnDestroyActionMode();
    }

    /** `onPrepareActionMode`: stop on an empty selection, else show the right items. */
    method OnPrepareActionMode(hasMedia: bool) returns (shown: bool)
      requires Valid()
      modifies this
      ensures Valid()
      ensures Abs() == Prepare(old(Abs()), hasMedia).step.state
      ensures trace == old(trace) + Prepare(old(Abs()), hasMedia).step.effects
      ensures shown == Prepare(old(Abs()), hasMedia).result
    {
      var selectionCount := Count(selectionMap);
      if selectionCount == 0 {
        StopActionMode();
        return false;
      }
      trace := trace + [SetActionMenu(selectionCount == 1, hasMedia)];
      return true;
    }

    /** `startActionMode`: the mode comes on and its menu is prepared. */
    method StartActionMode(hasMedia: bool)
      requires Valid()
      modifies this
      ensures Valid()
      ensures Abs() == Start(old(Abs()), hasMedia).state
      ensures trace == old(trace) + Start(old(Abs()), hasMedia).effects
    {
      actionMode := true;
      var _ := OnPrepareActionMode(hasMedia);
    }

    /** `invalidateActionMode`: the menu is prepared again while the mode is on. */
    method InvalidateActionMode(hasMedia: bool)
      requires Valid()
      modifies this
      ensures Valid()
      ensures Abs() == Invalidate(old(Abs()), hasMedia).state
      ensures trace == old(trace) + Invalidate(old(Abs()), hasMedia).effects
    {
      if actionMode {
        var _ := OnPrepareActionMode(hasMedia);
      }
    }

    /** `onLongClick`: force the position selected and make sure the mode is on. */
    method OnLongClick(position: int, hasMedia: bool)
      requires Valid()
      modifies this
      ensures Valid()
      ensures Abs() == History.OnLongClick(old(Abs()), position, hasMedia).state
      ensures trace == old(trace) + History.OnLongClick(old(Abs()), position, hasMedia).effects
    {
      ghost var s0 := Abs();
      ghost var forced := s0.(selection := Put(s0.selection, position, true));
      selectionMap := Put(selectionMap, position, true);
      assert Abs() == forced;
      ghost var started := if forced.actionMode then Step(forced, []) else Start(forced, hasMedia);
      if !actionMode {
        StartActionMode(hasMedia);
        assert Abs() == started.state && trace == old(trace) + started.effects;
      } else {
        assert started == Step(forced, []);
      }
      ghost var refreshed := Invalidate(started.state, hasMedia);
      InvalidateActionMode(hasMedia);
      assert Abs() == refreshed.state;
      assert trace == old(trace) + (started.effects + refreshed.effects);
      assert History.OnLongClick(s0, position, hasMedia) == Step(refreshed.state, started.effects + refreshed.effects);
    }

    /** `onClick`: select with shift, toggle in the mode, otherwise open the item. */
    method OnClick(position: int, item: Media, shift: bool, hasMedia: bool)
      requires Valid()
      modifies this
      ensures Valid()
      ensures Abs() == History.OnClick(old(Abs()), position, item, shift, hasMedia).state
      ensures trace == old(trace) + History.OnClick(old(Abs()), position, item, shift, hasMedia).effects
    {
      if shift && !actionMode {
        OnLongClick(position, hasMedia);
        return;
      }
      if actionMode {
        selectionMap := Put(selectionMap, position, !Get(selectionMap, position));
        InvalidateActionMode(hasMedia);
        return;
      }
      if position != 0 {
        trace := trace + [MoveUp(item)];
      }
      trace := trace + [OpenMedia(item)];
    }

    /** `Click.process`: look the item up and hand the gesture to its handler. */
    method Process(kind: ClickKind, position: int, shift: bool, hasMedia: bool)
      requires Valid()
      requires 0 <= position < |dataset|
      modifies this
      ensures Valid()
      ensures Abs() == History.Process(old(Abs()), kind, position, shift, hasMedia).state
      ensures trace == old(trace) + History.Process(old(Abs()), kind, position, shift, hasMedia).effects
    {
      var item := dataset[position];
      match kind
      case SimpleClick => OnClick(position, item, shift, hasMedia);
      case LongClick => OnLongClick(position, hasMedia);
      case ImageClick =>
        if actionMode {
          OnClick(position, item, shift, hasMedia);
        } else {
          OnLongClick(position, hasMedia);
        }
    }

    /** `onActionItemClicked`: act on the selected items, then end the mode. */
    method OnActionItemClicked(started: bool, item: ActionItem) returns (handled: bool)
      requires Valid()
      modifies this
      ensures Valid()
      ensures Abs() == ActionItemClicked(old(Abs()), started, item).step.state
      ensures trace == old(trace) + ActionItemClicked(old(Abs()), started, item).step.effects
      ensures handled == ActionItemClicked(old(Abs()), started, item).result
    {
      if !started {
        return false;
      }
      var selection := SelectedItems(selectionMap, dataset);
      if selection != [] {
        match item
        case PlayItem => trace := trace + [OpenList(selection, 0)];
        case AppendItem => trace := trace + [AppendMedia(selection)];
        case InfoItem => trace := trace + [ShowInfo(selection[0])];
        case OtherItem(_) =>
          StopActionMode();
          return false;
      }
      StopActionMode();
      return true;
    }

    /**
     * `restoreMultiSelectHelper`: copy every saved entry into the selection,
     * start the mode if some saved flag was true, then drop the saved selection.
     */
    method RestoreMultiSelectHelper(hasMedia: bool)
      requires Valid()
      modifies this
      ensures Valid()
      ensures Abs() == Restore(old(Abs()), hasMedia).state
      ensures trace == old(trace) + Restore(old(Abs()), hasMedia).effects
    {
      if |savedSelection| > 0 {
        ghost var before := Abs();
        var hasOneSelected := AppendSaved();
        ghost var copied := before.(selection := CopyAll(before.selection, before.savedSelection));
        assert Abs() == copied;
        ghost var started := if hasOneSelected then Start(copied, hasMedia) else Step(copied, []);
        if hasOneSelected {
          StartActionMode(hasMedia);
        }
        assert Abs() == started.state && trace == old(trace) + started.effects;
        savedSelection := [];
        assert Restore(before, hasMedia) == Step(started.state.(savedSelection := []), started.effects);
      }
    }

    /**
     * The loop of `restoreMultiSelectHelper`: append every saved entry to
     * the selection map, in order, noting whether some saved flag is true.
     */
    method AppendSaved() returns (hasOneSelected: bool)
      requires Valid()
      modifies this`selectionMap
      ensures Valid()
      ensures selectionMap == CopyAll(old(selectionMap), savedSelection)
      ensures hasOneSelected == AnyTrue(savedSelection)
    {
      hasOneSelected := false;
      for i := 0 to |savedSelection|
        invariant selectionMap == CopyAll(old(selectionMap), savedSelection[..i])
        invariant hasOneSelected == AnyTrue(savedSelection[..i])
      {
        assert savedSelection[..i + 1][..i] == savedSelection[..i];
        AnyTrueExtend(savedSelection, i);
        selectionMap := Put(selectionMap, savedSelection[i].key, savedSelection[i].value);
        if savedSelection[i].value {
          hasOneSelected := true;
        }
      }
      assert savedSelection[..|savedSelection|] == savedSelection;
    }

    /** The dataset observer: show the new list, update "clean history", restore. */
    method OnDatasetChanged(list: Option<seq<Media>>, hasMedia: bool)
      requires Valid()
      modifies this
      ensures Valid()
      ensures Abs() == DatasetChanged(old(Abs()), list, hasMedia).state
      ensures trace == old(trace) + DatasetChanged(old(Abs()), list, hasMedia).effects
    {
      if list.Some? {
        dataset := list.value;
        if cleanInflated {
          trace := trace + [SetCleanVisible(|list.value| > 0)];
        }
      }
      RestoreMultiSelectHelper(hasMedia);
    }

    /** `onCreateOptionsMenu`: "clean history" is shown iff the list is non-empty. */
    method OnCreateOptionsMenu()
      requires Valid()
      modifies this
      ensures Valid()
      ensures Abs() == CreateOptionsMenu(old(Abs())).state
      ensures trace == old(trace) + CreateOptionsMenu(old(Abs())).effects
    {
      cleanInflated := true;
      trace := trace + [SetCleanVisible(|dataset| > 0)];
    }
  }
}
