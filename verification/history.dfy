/**
 * The selection and contextual-action-mode state machine of the history
 * screen, as values: one function per callback of the screen, each taking
 * the screen state before the event and giving the state after it together
 * with the external effects the callback issues, in order.
 *
 * Collaborators whose code is not part of this model are fixed as follows.
 *  - The selection helper's `toggleSelection(p)` flips the flag at `p`;
 *    `toggleSelection(p, true)` forces it to true; its selection count is
 *    the number of true flags; `getSelection()` lists the dataset items at
 *    the true positions in ascending order, skipping positions that are
 *    outside the dataset.
 *  - Stopping the action mode is the transition of `onDestroyActionMode`:
 *    the mode ends and the selection is cleared.
 *  - Starting the action mode turns the mode on and prepares its menu;
 *    invalidating it prepares the menu again when the mode is on.
 *  - Whether the shift key is held, whether the play queue has media and
 *    whether the screen is started are inputs of the callbacks that ask.
 */
module History {
  import opened Sparse

  datatype Option<T> = None | Some(value: T)

  /** A playable item of the history list; only its identity matters here. */
  datatype Media = Media(id: int)

  /** The three classified gestures the history adapter emits. */
  datatype ClickKind = SimpleClick | LongClick | ImageClick

  /** Which handler a gesture is routed to: `onClick` or `onLongClick`. */
  datatype Handler = ToClick | ToLongClick

  /** The items of the contextual action bar; anything else is `OtherItem`. */
  datatype ActionItem = PlayItem | AppendItem | InfoItem | OtherItem(id: int)

  /** Effects the screen issues to collaborators, in the order issued. */
  datatype Effect =
    | MoveUp(item: Media)                          // move the item to the head of the history
    | OpenMedia(item: Media)                       // play one item
    | OpenList(items: seq<Media>, start: int)      // play a list from an index
    | AppendMedia(items: seq<Media>)               // append to the play queue
    | ShowInfo(item: Media)                        // open the info dialog of an item
    | SetActionMenu(infoVisible: bool, appendVisible: bool)  // action bar item visibility
    | SetCleanVisible(visible: bool)               // "clean history" option visibility

  /**
   * The screen: whether the action mode is on, the live selection, the
   * selection saved across re-creation and not yet restored, the dataset on
   * show, and whether the options menu holding "clean history" exists.
   */
  datatype State = State(
    actionMode: bool,
    selection: seq<Entry>,
    savedSelection: seq<Entry>,
    dataset: seq<Media>,
    cleanInflated: bool)

  /** The state after an event and the effects issued, in order. */
  datatype Step = Step(state: State, effects: seq<Effect>)

  /** A step of a callback that also answers a Boolean to the framework. */
  datatype Answer = Answer(step: Step, result: bool)

  /** Both sparse arrays are well formed. */
  predicate Valid(s: State)
  {
    Sorted(s.selection) && Sorted(s.savedSelection)
  }

  /** The action mode is on exactly when some position is selected. */
  predicate Consistent(s: State)
  {
    Valid(s) && (s.actionMode <==> Count(s.selection) > 0)
  }

  /** A screen just constructed: no mode, nothing selected or saved, no data yet. */
  function Initial(): (s: State)
    ensures Consistent(s)
  {
    State(false, [], [], [], false)
  }

  /**
   * The flag of position `p` in the live selection: what the selection
   * helper's `isSelected(p)` answers.  Kept as a name of its own so that
   * properties read in terms of the screen rather than of its sparse array.
   */
  function Selected(s: State, p: int): (b: bool)
    ensures b ==> p in Keys(s.selection)
  {
    Get(s.selection, p)
  }

  /** The dataset items at the true positions, ascending; absent positions skipped. */
  function SelectedItems(sel: seq<Entry>, dataset: seq<Media>): (r: seq<Media>)
    ensures |r| <= Count(sel)
  {
    if sel == [] then []
    else
      var k := sel[0].key;
      var head := if sel[0].value && 0 <= k < |dataset| then [dataset[k]] else [];
      head + SelectedItems(sel[1..], dataset)
  }

  // ---------------------------------------------------------------- dispatch

  /**
   * Which handler a classified gesture goes to: a simple click to the tap
   * handler, a long click to the long-press handler, an image click to the
   * tap handler while the action mode is on and to the long-press handler
   * otherwise.
   */
  function Route(kind: ClickKind, active: bool): (h: Handler)
    ensures h == ToClick <==> kind == SimpleClick || (kind == ImageClick && active)
    ensures h == ToLongClick <==> kind == LongClick || (kind == ImageClick && !active)
  {
    match kind
    case SimpleClick => ToClick
    case LongClick => ToLongClick
    case ImageClick => if active then ToClick else ToLongClick
  }

  // ------------------------------------------------------------ action mode

  /** `onDestroyActionMode`: the mode ends and the selection is cleared. */
  function Stop(s: State): (r: State)
    requires Valid(s)
    ensures Valid(r)
  {
    s.(actionMode := false, selection := [])
  }

  /** `onPrepareActionMode`: stop on an empty selection, else set the menu. */
  function Prepare(s: State, hasMedia: bool): (a: Answer)
    requires Valid(s)
    ensures Valid(a.step.state)
  {
    var n := Count(s.selection);
    if n == 0 then Answer(Step(Stop(s), []), false)
    else Answer(Step(s, [SetActionMenu(n == 1, hasMedia)]), true)
  }

  /**
   * `startActionMode`: the mode is on and its menu is prepared.  With
   * nothing selected the preparation ends the mode again at once.
   */
  function Start(s: State, hasMedia: bool): (r: Step)
    requires Valid(s)
    ensures Valid(r.state)
  {
    Prepare(s.(actionMode := true), hasMedia).step
  }

  /**
   * `invalidateActionMode`: the menu is prepared again when the mode is on;
   * a mode left with nothing selected ends.  Without a mode nothing happens.
   */
  function Invalidate(s: State, hasMedia: bool): (r: Step)
    requires Valid(s)
    ensures Valid(r.state)
  {
    if s.actionMode then Prepare(s, hasMedia).step else Step(s, [])
  }

  // ------------------------------------------------------------------ clicks

  /** `onLongClick`: force-select, start the mode if off, refresh the bar. */
  function OnLongClick(s: State, p: int, hasMedia: bool): (r: Step)
    requires Valid(s)
    ensures Valid(r.state)
  {
    var s1 := s.(selection := Put(s.selection, p, true));
    var started := if s1.actionMode then Step(s1, []) else Start(s1, hasMedia);
    var refreshed := Invalidate(started.state, hasMedia);
    Step(refreshed.state, started.effects + refreshed.effects)
  }

  /**
   * `onClick`: with shift held and no mode, the long-press path; with the
   * mode on, flip the position and refresh the bar; otherwise move the
   * item to the head of the history unless it is there already, then open it.
   */
  function OnClick(s: State, p: int, item: Media, shift: bool, hasMedia: bool): (r: Step)
    requires Valid(s)
    ensures Valid(r.state)
  {
    if shift && !s.actionMode then OnLongClick(s, p, hasMedia)
    else if s.actionMode then
      Invalidate(s.(selection := Put(s.selection, p, !Get(s.selection, p))), hasMedia)
    else
      Step(s, (if p != 0 then [MoveUp(item)] else []) + [OpenMedia(item)])
  }

  /** `Click.process`: look the item up and hand the gesture to its handler. */
  function Process(s: State, kind: ClickKind, p: int, shift: bool, hasMedia: bool): (r: Step)
    requires Valid(s)
    requires 0 <= p < |s.dataset|
    ensures Valid(r.state)
  {
    var item := s.dataset[p];
    match Route(kind, s.actionMode)
    case ToClick => OnClick(s, p, item, shift, hasMedia)
    case ToLongClick => OnLongClick(s, p, hasMedia)
  }

  // ------------------------------------------------------------ action items

  /**
   * `onActionItemClicked`: nothing unless started; otherwise act on the
   * selected items (an unrecognised item ends the mode and answers false
   * when something is selected) and end the mode.
   */
  function ActionItemClicked(s: State, started: bool, item: ActionItem): (a: Answer)
    requires Valid(s)
    ensures Valid(a.step.state)
  {
    if !started then Answer(Step(s, []), false)
    else
      var selection := SelectedItems(s.selection, s.dataset);
      if selection != [] && item.OtherItem? then Answer(Step(Stop(s), []), false)
      else
        var effects :=
          if selection == [] then []
          else match item
            case PlayItem => [OpenList(selection, 0)]
            case AppendItem => [AppendMedia(selection)]
            case InfoItem => [ShowInfo(selection[0])];
        Answer(Step(Stop(s), effects), true)
  }

  // ------------------------------------------------------- save and restore

  /** `onSaveInstanceState`: the selection handed over to the next instance. */
  function Save(s: State): (r: seq<Entry>)
    requires Valid(s)
    ensures Sorted(r)
    ensures forall p :: Get(r, p) == Selected(s, p)
  {
    s.selection
  }

  /** `onCreate`: a selection found in the saved instance state becomes pending. */
  function Create(s: State, bundle: Option<seq<Entry>>): (r: State)
    requires Valid(s)
    requires bundle.Some? ==> Sorted(bundle.value)
    ensures Valid(r)
  {
    if bundle.Some? then s.(savedSelection := bundle.value) else s
  }

  /**
   * `restoreMultiSelectHelper`: when a saved selection is pending, copy
   * every saved entry into the selection, start the mode when some saved
   * flag is true, and drop the saved selection.
   */
  function Restore(s: State, hasMedia: bool): (r: Step)
    requires Valid(s)
    ensures Valid(r.state)
  {
    if |s.savedSelection| == 0 then Step(s, [])
    else
      var s1 := s.(selection := CopyAll(s.selection, s.savedSelection));
      var started := if AnyTrue(s.savedSelection) then Start(s1, hasMedia) else Step(s1, []);
      Step(started.state.(savedSelection := []), started.effects)
  }

  // -------------------------------------------------------------- dataset

  /**
   * The dataset observer: a delivered list replaces the dataset and, once the
   * options menu exists, shows "clean history" iff the list is non-empty;
   * the pending selection is restored in every case.
   */
  function DatasetChanged(s: State, list: Option<seq<Media>>, hasMedia: bool): (r: Step)
    requires Valid(s)
    ensures Valid(r.state)
  {
    var s1 := if list.Some? then s.(dataset := list.value) else s;
    var shown := if list.Some? && s.cleanInflated then [SetCleanVisible(|list.value| > 0)] else [];
    var restored := Restore(s1, hasMedia);
    Step(restored.state, shown + restored.effects)
  }

  /** `onCreateOptionsMenu`: "clean history" is shown iff the dataset is non-empty. */
  function CreateOptionsMenu(s: State): (r: Step)
    requires Valid(s)
    ensures Valid(r.state)
  {
    Step(s.(cleanInflated := true), [SetCleanVisible(|s.dataset| > 0)])
  }
}
