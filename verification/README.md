# History screen selection and action mode, modelled in Dafny

VLC for Android's history screen (`MoreFragment`) shows the recently opened
media, most recent first. A tap on an entry plays it. Before playing, the
entry is moved to the head of the history unless it is already there.
Long-pressing an entry selects it and starts a contextual action mode. While
that mode is on, taps toggle entries in and out of the selection. The
action bar then offers "play", "append to queue" and "info" for the selected
entries. "Info" is offered only for exactly one entry, and "append" only
when the play queue has media. When the screen is torn down and re-created,
the selection survives: the old instance saves it, and the new one restores
it once the first dataset arrives.

The project models that state machine:

- `sparse.dfy`, module `Sparse`: the sparse boolean array that holds the
  selection. It is a list of (position, flag) entries in strictly ascending
  position order, with lookup, insertion (`Put`), a count of true flags, and
  the replay used by the restore loop (`CopyAll`).
- `history.dfy`, module `History`: the screen state as a value, with one
  function per callback. Each function gives the new state and the effects
  issued, in order. The effects are: move to head, open, open list, append,
  show info, action-bar visibility and "clean history" visibility.
- `properties.dfy`, module `HistoryProperties`: lemmas about those
  functions.
- `fragment.dfy`, module `HistoryFragment`: class `MoreFragment`. Its fields
  are the mode, the selection map, the saved selection, the dataset and
  whether the options menu exists; a ghost `trace` records the effects. Each
  callback is a method that updates the fields in place. Its `ensures`
  equates the new state and the extended trace with the function of
  `History`. The restore callback is a loop with invariants, as in the
  source.

Collaborators whose code is not part of this model are fixed as follows:

- The selection helper's `toggleSelection(p)` flips the flag at `p`.
- `toggleSelection(p, true)` forces the flag at `p` to true.
- The helper's selection count is the number of true flags.
- `getSelection()` lists the dataset items at true positions, in ascending
  order. It skips positions outside the dataset.
- `stopActionMode` is the transition `onDestroyActionMode` implements: the
  mode ends and the selection is cleared.
- `startActionMode` turns the mode on and prepares its menu.
- `invalidateActionMode` prepares the menu again when the mode is on.
- The shift key (`KeyHelper.isShiftPressed`), `PlaylistManager.hasMedia()`
  and `isStarted()` are Boolean inputs of the callbacks that read them.

Some behaviours of the code are easy to get wrong when reading it quickly.
The model states them as they are:

- Restoring does not check bounds (MoreFragment.kt:217-221). Saved
  positions beyond the current list are restored too, and any saved true
  flag starts the mode (`RestoreRule`).
- Cleaning the history (MoreFragment.kt:169-171) only forwards to the
  history view model. The model takes the cleaning to arrive as the
  delivery of an empty dataset. The screen itself does not end the mode
  or clear the selection then (`DatasetChangeKeepsSelection`).
- An unrecognised action item answers false only when something is
  selected (MoreFragment.kt:192-205). With nothing selected, every item
  answers true (`ActionItemRule`).
- `Click.process` indexes the dataset without checking the position
  (MoreFragment.kt:229). Dispatch therefore requires an in-range position
  (`History.Process`).
- Restoring while the mode is on can leave the mode on with nothing
  selected (MoreFragment.kt:215-223): a saved false flag can clear the only
  selected position, and nothing then ends the mode (`RestoreWhileActive`).
  This cannot happen after a re-creation, where `onCreate` hands the saved
  selection over before any gesture. Under that condition every dataset
  delivery keeps the mode on exactly when something is selected
  (`DatasetChangedConsistent`, `RecreateConsistent`).

## Model

| member | source | states |
|---|---|---|
| Sparse.CopyAll | application/vlc-android/src/org/videolan/vlc/gui/MoreFragment.kt:217-221 | replaying the saved entries into a sorted selection with `append` keeps it sorted |
| Sparse.CopyAllGet | application/vlc-android/src/org/videolan/vlc/gui/MoreFragment.kt:217-221 | after the replay, every saved position carries its saved flag, and every other position keeps its earlier flag |
| Sparse.CountPositive | application/vlc-android/src/org/videolan/vlc/gui/MoreFragment.kt:179-180 | the selection count is zero exactly when no position reads as selected |
| Sparse.Put | application/vlc-android/src/org/videolan/vlc/gui/MoreFragment.kt:219 | storing a flag keeps the array sorted, sets the flag at that position and leaves every other position as it was (`append` at :219, `toggleSelection` at :246 and :256) |
| History.SelectedItems | application/vlc-android/src/org/videolan/vlc/gui/MoreFragment.kt:191 | the items acted on are never more than the selected positions; their membership and first item in SelectedItemsMembers and SelectedItemsFirst |
| HistoryProperties.SelectedItemsMembers | application/vlc-android/src/org/videolan/vlc/gui/MoreFragment.kt:191 | an item is acted on exactly when it sits at a selected position inside the dataset |
| HistoryProperties.SelectedItemsNonEmpty | application/vlc-android/src/org/videolan/vlc/gui/MoreFragment.kt:191-192 | with something selected and every selected position inside the dataset, there are items to act on |
| HistoryProperties.SelectedItemsFirst | application/vlc-android/src/org/videolan/vlc/gui/MoreFragment.kt:196 | the item "info" shows is the one at the smallest selected position inside the dataset |
| History.Initial | application/vlc-android/src/org/videolan/vlc/gui/MoreFragment.kt:61-69 | a new screen has no mode, no selection and nothing saved, so the mode/selection agreement holds |
| History.OnClick | application/vlc-android/src/org/videolan/vlc/gui/MoreFragment.kt:240-253 | the selection stays well formed; behaviour in PlainTapWhileIdle, TapWhileActive and ShiftTapIsLongPress |
| History.OnLongClick | application/vlc-android/src/org/videolan/vlc/gui/MoreFragment.kt:255-260 | the selection stays well formed; behaviour in LongPressSelects |
| History.Process | application/vlc-android/src/org/videolan/vlc/gui/MoreFragment.kt:228-238 | the selection stays well formed; routing in ProcessRouting |
| History.Route | application/vlc-android/src/org/videolan/vlc/gui/MoreFragment.kt:230-237 | the tap handler is chosen exactly for a simple click and for an image click while the mode is on; the long-press handler exactly for a long click and for an image click with no mode |
| History.Prepare | application/vlc-android/src/org/videolan/vlc/gui/MoreFragment.kt:178-187 | the selection stays well formed; behaviour in PrepareRule |
| History.ActionItemClicked | application/vlc-android/src/org/videolan/vlc/gui/MoreFragment.kt:189-205 | the selection stays well formed; behaviour in ActionItemRule |
| History.Stop | application/vlc-android/src/org/videolan/vlc/gui/MoreFragment.kt:207-210 | clearing the selection keeps it well formed |
| History.Start | application/vlc-android/src/org/videolan/vlc/gui/MoreFragment.kt:258 | keeps the selection well formed; behaviour in StartRule |
| History.Invalidate | application/vlc-android/src/org/videolan/vlc/gui/MoreFragment.kt:259 | keeps the selection well formed; behaviour in InvalidateRule |
| History.Save | application/vlc-android/src/org/videolan/vlc/gui/MoreFragment.kt:135-140 | the handed-over selection is sorted and reads as the live selection at every position |
| History.Restore | application/vlc-android/src/org/videolan/vlc/gui/MoreFragment.kt:212-226 | the selection stays well formed; behaviour in RestoreRule |
| History.Create | application/vlc-android/src/org/videolan/vlc/gui/MoreFragment.kt:71-74 | a saved selection taken from the saved state becomes the pending one, and stays well formed |
| History.DatasetChanged | application/vlc-android/src/org/videolan/vlc/gui/MoreFragment.kt:85-94 | the selection stays well formed; behaviour in DatasetChangeKeepsSelection and SaveRestoreRoundTrip |
| History.CreateOptionsMenu | application/vlc-android/src/org/videolan/vlc/gui/MoreFragment.kt:142-147 | inflating the options menu keeps the state well formed |
| HistoryProperties.ProcessRouting | application/vlc-android/src/org/videolan/vlc/gui/MoreFragment.kt:228-238 | a simple click goes to `onClick` and a long click to `onLongClick`; an image click acts as a simple click while the mode is on and as a long click otherwise |
| HistoryProperties.PlainTapWhileIdle | application/vlc-android/src/org/videolan/vlc/gui/MoreFragment.kt:251-252 | a plain tap with no mode issues `moveUp(item)` and then `openMedia(item)` when position is not 0, and only `openMedia(item)` at 0; the state is unchanged |
| HistoryProperties.TapWhileActive | application/vlc-android/src/org/videolan/vlc/gui/MoreFragment.kt:245-249 | a tap in the mode flips the tapped position and no other; it opens and moves nothing; the mode stays on exactly when something is still selected |
| HistoryProperties.ShiftTapIsLongPress | application/vlc-android/src/org/videolan/vlc/gui/MoreFragment.kt:241-243 | a tap with shift and no mode has exactly the effect and outcome of a long press on the same position |
| HistoryProperties.LongPressSelects | application/vlc-android/src/org/videolan/vlc/gui/MoreFragment.kt:255-259 | a long press leaves the position selected whatever it was and every other position unchanged; the mode ends up on; nothing is opened or moved |
| HistoryProperties.ProcessConsistent | application/vlc-android/src/org/videolan/vlc/gui/MoreFragment.kt:228-260 | every gesture keeps "mode on iff some position selected" |
| HistoryProperties.PrepareRule | application/vlc-android/src/org/videolan/vlc/gui/MoreFragment.kt:178-187 | with zero selected: stops, answers false, ends idle with an empty selection; otherwise answers true, "info" visible iff count is 1, "append" visible iff the queue has media |
| HistoryProperties.PrepareConsistent | application/vlc-android/src/org/videolan/vlc/gui/MoreFragment.kt:178-187 | preparing keeps "mode on iff some position selected" |
| HistoryProperties.StartRule | application/vlc-android/src/org/videolan/vlc/gui/MoreFragment.kt:258 | starting leaves the mode on iff something is selected; with nothing selected the preparation ends it at once with no menu update; otherwise the menu shows "info" iff one is selected |
| HistoryProperties.InvalidateRule | application/vlc-android/src/org/videolan/vlc/gui/MoreFragment.kt:259 | with no mode nothing happens; with the mode on the menu is refreshed, or the mode ends with an empty selection when nothing is selected any more |
| HistoryProperties.ActionItemRule | application/vlc-android/src/org/videolan/vlc/gui/MoreFragment.kt:189-205 | not started: answers false and changes nothing. Started: the mode ends with an empty selection. With items selected: unrecognised answers false; info shows the first item; play opens the list from 0; append appends them. With none selected: answers true, no effect |
| HistoryProperties.ActionItemConsistent | application/vlc-android/src/org/videolan/vlc/gui/MoreFragment.kt:189-210 | an action item and the destroy callback keep "mode on iff some position selected" |
| HistoryProperties.NothingSelectedNoItems | application/vlc-android/src/org/videolan/vlc/gui/MoreFragment.kt:191-192 | with a zero count there is no item to act on |
| HistoryProperties.RestoreRule | application/vlc-android/src/org/videolan/vlc/gui/MoreFragment.kt:212-226 | with a pending saved selection: every saved flag is copied with no bounds check and other positions are kept; the mode is on iff it was on or some saved flag is true; nothing stays pending. With none pending: nothing changes |
| HistoryProperties.RestoreConsumedOnce | application/vlc-android/src/org/videolan/vlc/gui/MoreFragment.kt:215-223 | a second restore is a no-op |
| HistoryProperties.RestoreConsistent | application/vlc-android/src/org/videolan/vlc/gui/MoreFragment.kt:212-226 | restoring into a re-created screen (no mode) keeps "mode on iff some position selected" |
| HistoryProperties.SaveRestoreRoundTrip | application/vlc-android/src/org/videolan/vlc/gui/MoreFragment.kt:135-140 | saving, re-creating with the saved selection and delivering the same dataset give back the same selected positions and the same mode |
| HistoryProperties.DatasetChangeKeepsSelection | application/vlc-android/src/org/videolan/vlc/gui/MoreFragment.kt:85-94 | with nothing pending, a dataset update (an empty one included) replaces the list, keeps the mode and the selection, and sets "clean history" visible iff the list is non-empty once the menu exists |
| HistoryProperties.DatasetChangedConsistent | application/vlc-android/src/org/videolan/vlc/gui/MoreFragment.kt:85-94 | a delivery keeps "mode on iff some position selected" whenever a pending selection meets a screen with no mode |
| HistoryProperties.RecreateConsistent | application/vlc-android/src/org/videolan/vlc/gui/MoreFragment.kt:71-74 | re-creating with any saved selection and then delivering a dataset gives a screen where the mode is on iff some position is selected |
| HistoryProperties.RestoreWhileActive | application/vlc-android/src/org/videolan/vlc/gui/MoreFragment.kt:215-223 | a restore onto a screen whose mode is on can leave the mode on with nothing selected |
| HistoryProperties.CreateOptionsMenuRule | application/vlc-android/src/org/videolan/vlc/gui/MoreFragment.kt:142-147 | creating the menu sets "clean history" visible iff the list is non-empty and changes nothing else; each later delivery first sets it by the new list's emptiness |
| HistoryProperties.ScenarioLongPress | application/vlc-android/src/org/videolan/vlc/gui/MoreFragment.kt:255-260 | on five items with no mode, a long press on 2 selects exactly 2, turns the mode on and shows "info" |
| HistoryProperties.ScenarioSecondTap | application/vlc-android/src/org/videolan/vlc/gui/MoreFragment.kt:245-249 | continuing, a tap on 4 selects it as well and hides "info" |
| HistoryProperties.ScenarioDeselectAll | application/vlc-android/src/org/videolan/vlc/gui/MoreFragment.kt:178-187 | continuing, a tap on 2 deselects it and shows "info" again; a tap on 4 then leaves nothing selected, so the mode ends with an empty selection |
| HistoryFragment.MoreFragment.constructor | application/vlc-android/src/org/videolan/vlc/gui/MoreFragment.kt:61-69 | a new screen is in the initial state with an empty trace |
| HistoryFragment.MoreFragment.OnCreate | application/vlc-android/src/org/videolan/vlc/gui/MoreFragment.kt:71-74 | the saved selection, if present, becomes `savedSelection`; nothing else changes |
| HistoryFragment.MoreFragment.OnSaveInstanceState | application/vlc-android/src/org/videolan/vlc/gui/MoreFragment.kt:135-140 | hands over the selection map as it stands, sorted |
| HistoryFragment.MoreFragment.OnDestroyActionMode | application/vlc-android/src/org/videolan/vlc/gui/MoreFragment.kt:207-210 | the mode ends and the selection map is cleared |
| HistoryFragment.MoreFragment.StopActionMode | application/vlc-android/src/org/videolan/vlc/gui/MoreFragment.kt:198-203 | the mode ends and the selection map is cleared, as `onDestroyActionMode` does |
| HistoryFragment.MoreFragment.OnPrepareActionMode | application/vlc-android/src/org/videolan/vlc/gui/MoreFragment.kt:178-187 | new state, trace and answer are those of `History.Prepare` |
| HistoryFragment.MoreFragment.StartActionMode | application/vlc-android/src/org/videolan/vlc/gui/MoreFragment.kt:258 | new state and trace are those of `History.Start` |
| HistoryFragment.MoreFragment.InvalidateActionMode | application/vlc-android/src/org/videolan/vlc/gui/MoreFragment.kt:259 | new state and trace are those of `History.Invalidate` |
| HistoryFragment.MoreFragment.OnClick | application/vlc-android/src/org/videolan/vlc/gui/MoreFragment.kt:240-253 | new state and trace are those of `History.OnClick` |
| HistoryFragment.MoreFragment.OnLongClick | application/vlc-android/src/org/videolan/vlc/gui/MoreFragment.kt:255-260 | new state and trace are those of `History.OnLongClick` |
| HistoryFragment.MoreFragment.Process | application/vlc-android/src/org/videolan/vlc/gui/MoreFragment.kt:228-238 | new state and trace are those of `History.Process` |
| HistoryFragment.MoreFragment.OnActionItemClicked | application/vlc-android/src/org/videolan/vlc/gui/MoreFragment.kt:189-205 | new state, trace and answer are those of `History.ActionItemClicked` |
| HistoryFragment.MoreFragment.RestoreMultiSelectHelper | application/vlc-android/src/org/videolan/vlc/gui/MoreFragment.kt:212-226 | new state and trace are those of `History.Restore` |
| HistoryFragment.MoreFragment.AppendSaved | application/vlc-android/src/org/videolan/vlc/gui/MoreFragment.kt:217-221 | the loop replays every saved entry into the selection map in order, and reports whether one of them was true; its invariants say that the first i saved entries have been replayed and that the flag records whether one of them was true |
| HistoryFragment.MoreFragment.OnDatasetChanged | application/vlc-android/src/org/videolan/vlc/gui/MoreFragment.kt:85-94 | new state and trace are those of `History.DatasetChanged` |
| HistoryFragment.MoreFragment.OnCreateOptionsMenu | application/vlc-android/src/org/videolan/vlc/gui/MoreFragment.kt:142-147 | "clean history" is shown iff the list is non-empty, and the menu is marked as created |

## Left out

- View inflation, layout manager, focus and swipe-refresh wiring (MoreFragment.kt:76-78, 120-133): user-interface plumbing.
- Launching the settings and about screens (MoreFragment.kt:99-106): platform navigation with no logic.
- The loading observer, the adapter's update event and the coroutine event flow (MoreFragment.kt:95-97, 107-111): their point is asynchronous delivery. Each gesture is modelled as one `Process` call, and each dataset delivery as one `DatasetChanged` call.
- `onStart`, `refresh`, `onRefresh`, `clearHistory` and `onOptionsItemSelected` (MoreFragment.kt:114-118, 149-171): they only forward to the history view model or to the base class, whose code is not part of this model.
- `historyTitle` visibility, `notifyItemChanged` redraws and the action-mode menu inflation (MoreFragment.kt:91, 173-176, 247, 257): rendering only.
- Bundle and parcelable serialisation (MoreFragment.kt:73, 137): a platform format. Saving is a copy of the selection value, and `onCreate` takes an optional copy.
- `getMultiHelper()` returning null (MoreFragment.kt:136, 213): the cast is to an erased generic type, so the model treats the helper as always present.
- The internals of the selection helper, of the base fragment's action-mode plumbing, of the history view model, of the media utilities, of the playlist manager and of the key helper: these are not part of this model. They are fixed by the assumptions listed above, or appear as trace effects and Boolean inputs.
- History.Process: an out-of-range position makes the source throw from `dataset.get`; that exception path is not modelled, so the position is required to be in range.
- Positions are Kotlin `Int`s, modelled as unbounded integers: the core does no arithmetic on them, so no wrap-around arises.
- The effect trace of `MoreFragment` is ghost: it records the order of effects and does not perform them.
