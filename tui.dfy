/** The interactive terminal UI of src/tui.rs: the `App` state, its methods
    and the key table of `run_app`, taken one key at a time. Drawing and
    reading the terminal are not modelled.

    The state machine is specified by functions on `AppState` values; the
    class `App` holds the same state in fields, and each of its methods is
    proved to change the fields as the matching function says. */
module Tui {
  import opened Options
  import opened Tasks
  import Commands

  datatype Mode = Normal | Adding | Editing(id: U32) | SetDueDate(id: U32)

  /** The status line, by the event that set it (its wording is rendering). */
  datatype Message =
    | TaskCompleted(id: U32)   // "Task {} completed!" (also when reopened)
    | TaskDeleted(id: U32)
    | TaskAdded(id: U32)
    | TaskUpdated(id: U32)
    | DueDateSet(date: string)
    | AddPrompt
    | EditPrompt
    | DueDatePrompt

  datatype Key = Char(c: char) | Enter | Esc | Backspace | Up | Down | OtherKey

  /** A key event; only presses are acted on (`KeyEventKind::Press`). */
  datatype KeyEvent = KeyEvent(code: Key, press: bool)

  datatype AppState = AppState(
    tasks: seq<Task>,
    selected: Option<nat>,   // `list_state.selected()`
    mode: Mode,
    input: string,
    message: Option<Message>)

  /** The selections the UI can reach: an index into a non-empty list; on an
      empty list nothing, or index 0, which `next`/`previous` select on an
      empty list. */
  predicate SelectionValid(sel: Option<nat>, n: nat) {
    if n == 0 then sel == None || sel == Some(0) else sel.Some? && sel.value < n
  }

  predicate Valid(s: AppState) {
    SelectionValid(s.selected, |s.tasks|)
  }

  /** The selection refers to a task. */
  predicate HasCurrent(s: AppState) {
    s.selected.Some? && s.selected.value < |s.tasks|
  }

  // ---------------------------------------------------------------------
  // Selection

  /** `App::new`: the loaded list, index 0 selected exactly when there is a
      task, normal mode, no input and no message. */
  function Initial(tasks: seq<Task>): (s: AppState)
    ensures s.tasks == tasks && s.mode == Normal && s.input == [] && s.message == None
    ensures s.selected == Some(0) <==> tasks != []
    ensures s.selected == None <==> tasks == []
    ensures Valid(s)
  {
    AppState(tasks, if tasks != [] then Some(0) else None, Normal, "", None)
  }

  /** The index `next` selects. On a list of `n` tasks it moves forward with
      wrap-around; nothing selected becomes 0. `len() - 1` needs `n > 0`
      when something is selected. */
  function NextIndex(sel: Option<nat>, n: nat): (r: nat)
    requires sel.Some? ==> n > 0
    ensures sel.None? ==> r == 0
    ensures sel.Some? && sel.value < n ==> r == (sel.value + 1) % n
    ensures n > 0 ==> r < n
  {
    match sel
    case None => 0
    case Some(i) => if i >= n - 1 then 0 else i + 1
  }

  /** The index `previous` selects: backward with wrap-around. Only index 0
      evaluates `len() - 1`, so only there does it need `n > 0`. */
  function PrevIndex(sel: Option<nat>, n: nat): (r: nat)
    requires sel == Some(0) ==> n > 0
    ensures sel.None? ==> r == 0
    ensures sel.Some? && sel.value < n ==> r == (sel.value + n - 1) % n
    ensures n > 0 && (sel.None? || sel.value < n) ==> r < n
  {
    match sel
    case None => 0
    case Some(i) => if i == 0 then n - 1 else i - 1
  }

  /** `previous` undoes `next`, and `next` undoes `previous`. */
  lemma NextPrevInverse(i: nat, n: nat)
    requires i < n
    ensures PrevIndex(Some(NextIndex(Some(i), n)), n) == i
    ensures NextIndex(Some(PrevIndex(Some(i), n)), n) == i
  {
  }

  /** The selection after the task at `i` is removed from a list that then
      has `n` tasks: nothing exactly when the list is empty, the last index
      when `i` is now past the end, and `i` otherwise. */
  function SelectionAfterRemove(i: nat, n: nat): (r: Option<nat>)
    ensures r.None? <==> n == 0
    ensures r.Some? ==> r.value < n
    ensures i < n ==> r == Some(i)
    ensures 0 < n <= i ==> r == Some(n - 1)
  {
    if n == 0 then None else if i >= n then Some(n - 1) else Some(i)
  }

  function NextState(s: AppState): AppState
    requires s.selected.Some? ==> |s.tasks| > 0
  {
    s.(selected := Some(NextIndex(s.selected, |s.tasks|)))
  }

  function PrevState(s: AppState): AppState
    requires s.selected == Some(0) ==> |s.tasks| > 0
  {
    s.(selected := Some(PrevIndex(s.selected, |s.tasks|)))
  }

  // ---------------------------------------------------------------------
  // Operations that may save

  /** The state an operation leads to, and whether it calls `save_tasks`
      with the new task list. */
  datatype Effect = Effect(state: AppState, save: bool)

  /** `toggle_current`: flips `done` on the selected task only, when the
      selection is in range. */
  function ToggleCurrentEffect(s: AppState): (e: Effect)
    ensures !HasCurrent(s) ==> e == Effect(s, false)
    ensures HasCurrent(s) ==>
      var i := s.selected.value;
      && e.save
      && |e.state.tasks| == |s.tasks|
      && e.state.tasks[i] == s.tasks[i].(done := !s.tasks[i].done)
      && (forall j :: 0 <= j < |s.tasks| && j != i ==> e.state.tasks[j] == s.tasks[j])
      && e.state == s.(tasks := e.state.tasks, message := Some(TaskCompleted(s.tasks[i].id)))
  {
    if HasCurrent(s) then
      var i := s.selected.value;
      var ts := s.tasks[i := Commands.Flip(s.tasks[i])];
      Effect(s.(tasks := ts, message := Some(TaskCompleted(ts[i].id))), true)
    else Effect(s, false)
  }

  /** `delete_current`: removes exactly the selected task, when the
      selection is in range, and repairs the selection. */
  function DeleteCurrentEffect(s: AppState): (e: Effect)
    ensures !HasCurrent(s) ==> e == Effect(s, false)
    ensures HasCurrent(s) ==>
      var i := s.selected.value;
      && e.save
      && e.state.tasks == s.tasks[..i] + s.tasks[i + 1..]
      && multiset(e.state.tasks) + multiset{s.tasks[i]} == multiset(s.tasks)
      && e.state.selected == SelectionAfterRemove(i, |s.tasks| - 1)
      && (e.state.selected.None? <==> e.state.tasks == [])
      && e.state == s.(tasks := e.state.tasks, selected := e.state.selected,
                       message := Some(TaskDeleted(s.tasks[i].id)))
  {
    if HasCurrent(s) then
      var i := s.selected.value;
      var ts := s.tasks[..i] + s.tasks[i + 1..];
      assert s.tasks == s.tasks[..i] + [s.tasks[i]] + s.tasks[i + 1..];
      var sel := if ts == [] then None else if i >= |ts| then Some(|ts| - 1) else s.selected;
      Effect(s.(tasks := ts, selected := sel, message := Some(TaskDeleted(s.tasks[i].id))), true)
    else Effect(s, false)
  }

  /** `App::add_task`: with some input, appends a pending task without a due
      date whose id is above every id in use, selects it, clears the input
      and returns to normal mode; with no input, nothing changes. */
  function AddEffect(s: AppState): (e: Effect)
    requires s.input != [] ==> Commands.MaxId(s.tasks) < MaxU32
    ensures s.input == [] ==> e == Effect(s, false)
    ensures s.input != [] ==>
      && e.save
      && |e.state.tasks| == |s.tasks| + 1
      && e.state.tasks[..|s.tasks|] == s.tasks
      && var t := e.state.tasks[|s.tasks|];
      && t == Task(t.id, s.input, false, None)
      && t.id == Commands.MaxId(s.tasks) + 1
      && (forall j :: 0 <= j < |s.tasks| ==> s.tasks[j].id < t.id)
      && (s.tasks == [] ==> t.id == 1)
      && e.state == AppState(e.state.tasks, Some(|s.tasks|), Normal, "", Some(TaskAdded(t.id)))
  {
    if s.input != [] then
      var id := Commands.NextId(s.tasks);
      var ts := s.tasks + [Task(id, s.input, false, None)];
      assert ts[..|s.tasks|] == s.tasks;
      Effect(s.(tasks := ts, message := Some(TaskAdded(id)), input := "", mode := Normal,
                selected := Some(|ts| - 1)), true)
    else Effect(s, false)
  }

  /** `App::edit_task`: with some input, sets it as the text of the first task
      with `id` (saving only if there is one), then clears the input and
      returns to normal mode either way; with no input, nothing changes. */
  function EditEffect(s: AppState, id: U32): (e: Effect)
    ensures s.input == [] ==> e == Effect(s, false)
    ensures s.input != [] ==>
      var found := Commands.FirstIndex(s.tasks, id).Some?;
      && e.save == found
      && e.state.tasks == Commands.UpdateFirst(s.tasks, id, Commands.WithText(s.input))
      && e.state.mode == Normal && e.state.input == []
      && e.state.selected == s.selected
      && e.state.message == (if found then Some(TaskUpdated(id)) else s.message)
  {
    if s.input != [] then
      var found := Commands.FirstIndex(s.tasks, id).Some?;
      var ts := Commands.UpdateFirst(s.tasks, id, Commands.WithText(s.input));
      Effect(s.(tasks := ts, message := if found then Some(TaskUpdated(id)) else s.message,
                input := "", mode := Normal), found)
    else Effect(s, false)
  }

  /** `App::set_due_date`: as `EditEffect`, storing the input, unchecked, as
      the due date. */
  function SetDueEffect(s: AppState, id: U32): (e: Effect)
    ensures s.input == [] ==> e == Effect(s, false)
    ensures s.input != [] ==>
      var found := Commands.FirstIndex(s.tasks, id).Some?;
      && e.save == found
      && e.state.tasks == Commands.UpdateFirst(s.tasks, id, Commands.WithDueDate(s.input))
      && e.state.mode == Normal && e.state.input == []
      && e.state.selected == s.selected
      && e.state.message == (if found then Some(DueDateSet(s.input)) else s.message)
  {
    if s.input != [] then
      var found := Commands.FirstIndex(s.tasks, id).Some?;
      var ts := Commands.UpdateFirst(s.tasks, id, Commands.WithDueDate(s.input));
      Effect(s.(tasks := ts, message := if found then Some(DueDateSet(s.input)) else s.message,
                input := "", mode := Normal), found)
    else Effect(s, false)
  }

  // ---------------------------------------------------------------------
  // The key table

  /** What one key event does: continue with an effect, quit, or stop on an
      arithmetic overflow (a `usize` underflow in `next`/`previous` on an
      empty list with index 0 selected, or a `u32` overflow of the new id). */
  datatype StepResult = Go(effect: Effect) | Quit | Overflow

  /** Esc: back to normal mode with no input and no message. */
  function Cancelled(s: AppState): AppState {
    s.(mode := Normal, input := "", message := None)
  }

  /** `String::pop`: drops the last character, if any. */
  function DropLast(s: string): string {
    if s == [] then s else s[..|s| - 1]
  }

  /** Go on to state `s` without saving. */
  function NoSave(s: AppState): StepResult {
    Go(Effect(s, false))
  }

  /** The `AppMode::Normal` arm of `run_app`. */
  function NormalStep(s: AppState, k: Key): StepResult
    requires s.mode == Normal
  {
    if k == Char('q') then Quit
    else if k == Char('j') || k == Down then
      if s.selected.Some? && s.tasks == [] then Overflow else NoSave(NextState(s))
    else if k == Char('k') || k == Up then
      if s.selected == Some(0) && s.tasks == [] then Overflow else NoSave(PrevState(s))
    else if k == Char(' ') || k == Enter then Go(ToggleCurrentEffect(s))
    else if k == Char('d') then Go(DeleteCurrentEffect(s))
    else if k == Char('a') then NoSave(s.(mode := Adding, input := "", message := Some(AddPrompt)))
    else if k == Char('e') then
      if HasCurrent(s) then
        var t := s.tasks[s.selected.value];
        NoSave(s.(input := t.text, mode := Editing(t.id), message := Some(EditPrompt)))
      else NoSave(s)
    else if k == Char('t') then
      if HasCurrent(s) then
        var t := s.tasks[s.selected.value];
        NoSave(s.(input := "", mode := SetDueDate(t.id), message := Some(DueDatePrompt)))
      else NoSave(s)
    else if k == Esc then NoSave(Cancelled(s))
    else NoSave(s)
  }

  /** The `Adding`, `Editing` and `SetDueDate` arms of `run_app`. */
  function TextStep(s: AppState, k: Key): StepResult
    requires s.mode != Normal
  {
    if k == Enter then
      match s.mode
      case Adding =>
        if s.input != [] && Commands.MaxId(s.tasks) == MaxU32 then Overflow else Go(AddEffect(s))
      case Editing(id) => Go(EditEffect(s, id))
      case SetDueDate(id) => Go(SetDueEffect(s, id))
    else if k == Esc then NoSave(Cancelled(s))
    else if k.Char? then NoSave(s.(input := s.input + [k.c]))
    else if k == Backspace then NoSave(s.(input := DropLast(s.input)))
    else NoSave(s)
  }

  /** One iteration of the `run_app` loop, after the event is read. */
  function Step(s: AppState, ev: KeyEvent): StepResult {
    if !ev.press then NoSave(s)
    else if s.mode == Normal then NormalStep(s, ev.code)
    else TextStep(s, ev.code)
  }

  // ---------------------------------------------------------------------
  // Properties of the key table

  /** Every key keeps the selection among the reachable ones. */
  lemma StepKeepsSelectionValid(s: AppState, ev: KeyEvent)
    requires Valid(s)
    ensures Step(s, ev).Go? ==> Valid(Step(s, ev).effect.state)
  {
    if ev.press && s.mode != Normal && ev.code == Enter {
      match s.mode
      case Adding =>
      case Editing(id) =>
      case SetDueDate(id) =>
    }
  }

  /** Esc, in any mode, returns to normal mode with no input and no message,
      and touches neither the tasks nor the selection. */
  lemma EscCancels(s: AppState)
    ensures Step(s, KeyEvent(Esc, true)) == Go(Effect(s.(mode := Normal, input := [], message := None), false))
  {
  }

  /** While typing, every character, 'q', 'j' and 'd' included, goes into the
      input, and Backspace drops the last character. */
  lemma TypingEditsInput(s: AppState, c: char)
    requires s.mode != Normal
    ensures Step(s, KeyEvent(Char(c), true)) == Go(Effect(s.(input := s.input + [c]), false))
    ensures Step(s, KeyEvent(Backspace, true)) ==
      Go(Effect(s.(input := if s.input == [] then [] else s.input[..|s.input| - 1]), false))
  {
  }

  /** Only 'q' in normal mode quits. */
  lemma QuitOnlyFromNormal(s: AppState, ev: KeyEvent)
    ensures Step(s, ev).Quit? <==> ev.press && s.mode == Normal && ev.code == Char('q')
  {
  }

  /** Key releases and repeats change nothing. */
  lemma NonPressIgnored(s: AppState, k: Key)
    ensures Step(s, KeyEvent(k, false)) == Go(Effect(s, false))
  {
  }

  /** In normal mode, 'e' opens the selected task for editing with its text as
      the input, and 't' opens it for a due date with an empty input; without
      a task under the selection both do nothing. */
  lemma EditAndDueDateKeys(s: AppState)
    requires s.mode == Normal
    ensures HasCurrent(s) ==>
      var t := s.tasks[s.selected.value];
      && Step(s, KeyEvent(Char('e'), true)) ==
           Go(Effect(s.(input := t.text, mode := Editing(t.id), message := Some(EditPrompt)), false))
      && Step(s, KeyEvent(Char('t'), true)) ==
           Go(Effect(s.(input := [], mode := SetDueDate(t.id), message := Some(DueDatePrompt)), false))
    ensures !HasCurrent(s) ==>
      Step(s, KeyEvent(Char('e'), true)) == Go(Effect(s, false)) &&
      Step(s, KeyEvent(Char('t'), true)) == Go(Effect(s, false))
  {
  }

  /** In normal mode, pressing space twice leaves the task list as it was. */
  lemma SpaceTwiceRestoresTasks(s: AppState)
    requires s.mode == Normal
    ensures Step(s, KeyEvent(Char(' '), true)).Go?
    ensures var s1 := Step(s, KeyEvent(Char(' '), true)).effect.state;
      Step(s1, KeyEvent(Char(' '), true)).Go? &&
      Step(s1, KeyEvent(Char(' '), true)).effect.state.tasks == s.tasks
  {
    var s1 := Step(s, KeyEvent(Char(' '), true)).effect.state;
    if HasCurrent(s) {
      var i := s.selected.value;
      assert s1.tasks[i := Commands.Flip(s1.tasks[i])] == s.tasks;
    }
  }

  /** Only the keys that change the task list save it. */
  lemma OnlyListChangesSave(s: AppState, ev: KeyEvent)
    requires Step(s, ev).Go? && Step(s, ev).effect.save
    ensures ev.press && (ev.code == Enter || ev.code == Char(' ') || ev.code == Char('d'))
  {
  }

  // ---------------------------------------------------------------------
  // The App object

  /** The file contents after an effect, given whether writes succeed. */
  function FileAfter(e: Effect, before: FileState, writable: bool): FileState {
    if e.save then AfterSave(before, writable, e.state.tasks) else before
  }

  /** The state after an effect. When `save_tasks` panics, the list has been
      changed in memory and nothing after the save happens. */
  function StateAfter(e: Effect, before: AppState, panicked: bool): AppState {
    if panicked then before.(tasks := e.state.tasks) else e.state
  }

  datatype KeyOutcome = Continue | Quitting | Overflowed | Panicked

  class App {
    var tasks: seq<Task>
    var selected: Option<nat>
    var mode: Mode
    var input: string
    var message: Option<Message>
    const store: TodoFile

    function View(): AppState
      reads this
    {
      AppState(tasks, selected, mode, input, message)
    }

    ghost predicate Ready()
      reads this
    {
      Valid(View())
    }

    /** `App::new`. */
    constructor (store: TodoFile)
      ensures this.store == store
      ensures View() == Initial(Loaded(store.state))
      ensures Ready()
    {
      var loaded := store.Load();
      this.store := store;
      tasks := loaded;
      selected := if loaded != [] then Some(0) else None;
      mode := Normal;
      input := "";
      message := None;
    }

    /** `next`. */
    method Next()
      requires selected.Some? ==> |tasks| > 0
      modifies this
      ensures View() == NextState(old(View()))
    {
      var i := match selected
        case Some(i) => if i >= |tasks| - 1 then 0 else i + 1
        case None => 0;
      selected := Some(i);
    }

    /** `previous`. */
    method Previous()
      requires selected == Some(0) ==> |tasks| > 0
      modifies this
      ensures View() == PrevState(old(View()))
    {
      var i := match selected
        case Some(i) => if i == 0 then |tasks| - 1 else i - 1
        case None => 0;
      selected := Some(i);
    }

    /** `toggle_current`. */
    method ToggleCurrent() returns (panicked: bool)
      modifies this, store
      ensures var e := ToggleCurrentEffect(old(View()));
        && panicked == (e.save && !store.writable)
        && store.state == FileAfter(e, old(store.state), store.writable)
        && View() == StateAfter(e, old(View()), panicked)
    {
      panicked := false;
      if selected.Some? {
        var i := selected.value;
        if i < |tasks| {
          tasks := tasks[i := tasks[i].(done := !tasks[i].done)];
          var ok := store.Save(tasks);
          if !ok {
            return true;
          }
          message := Some(TaskCompleted(tasks[i].id));
        }
      }
    }

    /** `delete_current`. */
    method DeleteCurrent() returns (panicked: bool)
      modifies this, store
      ensures var e := DeleteCurrentEffect(old(View()));
        && panicked == (e.save && !store.writable)
        && store.state == FileAfter(e, old(store.state), store.writable)
        && View() == StateAfter(e, old(View()), panicked)
    {
      panicked := false;
      if selected.Some? {
        var i := selected.value;
        if i < |tasks| {
          var id := tasks[i].id;
          tasks := tasks[..i] + tasks[i + 1..];
          var ok := store.Save(tasks);
          if !ok {
            return true;
          }
          message := Some(TaskDeleted(id));
          if tasks == [] {
            selected := None;
          } else if i >= |tasks| {
            selected := Some(|tasks| - 1);
          }
        }
      }
    }

    /** `App::add_task`. */
    method AddTask() returns (panicked: bool)
      requires input != [] ==> Commands.MaxId(tasks) < MaxU32
      modifies this, store
      ensures var e := AddEffect(old(View()));
        && panicked == (e.save && !store.writable)
        && store.state == FileAfter(e, old(store.state), store.writable)
        && View() == StateAfter(e, old(View()), panicked)
    {
      panicked := false;
      if input != [] {
        var id := Commands.NextId(tasks);
        tasks := tasks + [Task(id, input, false, None)];
        var ok := store.Save(tasks);
        if !ok {
          return true;
        }
        message := Some(TaskAdded(id));
        input := "";
        mode := Normal;
        selected := Some(|tasks| - 1);
      }
    }

    /** `App::edit_task`. */
    method EditTask(id: U32) returns (panicked: bool)
      modifies this, store
      ensures var e := EditEffect(old(View()), id);
        && panicked == (e.save && !store.writable)
        && store.state == FileAfter(e, old(store.state), store.writable)
        && View() == StateAfter(e, old(View()), panicked)
    {
      panicked := false;
      if input != [] {
        var found;
        tasks, found := Commands.Edit(tasks, id, input);
        if found {
          var ok := store.Save(tasks);
          if !ok {
            return true;
          }
          message := Some(TaskUpdated(id));
        }
        input := "";
        mode := Normal;
      }
    }

    /** `App::set_due_date`. */
    method SetDueDate(id: U32) returns (panicked: bool)
      modifies this, store
      ensures var e := SetDueEffect(old(View()), id);
        && panicked == (e.save && !store.writable)
        && store.state == FileAfter(e, old(store.state), store.writable)
        && View() == StateAfter(e, old(View()), panicked)
    {
      panicked := false;
      if input != [] {
        var found;
        tasks, found := Commands.SetDue(tasks, id, input);
        if found {
          var ok := store.Save(tasks);
          if !ok {
            return true;
          }
          message := Some(DueDateSet(input));
        }
        input := "";
        mode := Normal;
      }
    }

    /** One key of the `run_app` loop. */
    method HandleKey(ev: KeyEvent) returns (outcome: KeyOutcome)
      requires Ready()
      modifies this, store
      ensures outcome != Panicked ==> Ready()
      ensures match Step(old(View()), ev)
        case Go(e) =>
          && outcome == (if e.save && !store.writable then Panicked else Continue)
          && store.state == FileAfter(e, old(store.state), store.writable)
          && View() == StateAfter(e, old(View()), outcome == Panicked)
        case Quit =>
          outcome == Quitting && View() == old(View()) && store.state == old(store.state)
        case Overflow =>
          outcome == Overflowed && View() == old(View()) && store.state == old(store.state)
    {
      StepKeepsSelectionValid(View(), ev);
      if !ev.press {
        return Continue;
      }
      if mode == Normal {
        outcome := HandleNormalKey(ev.code);
      } else {
        outcome := HandleTextKey(ev.code);
      }
    }

    method HandleNormalKey(k: Key) returns (outcome: KeyOutcome)
      requires mode == Normal
      modifies this, store
      ensures match NormalStep(old(View()), k)
        case Go(e) =>
          && outcome == (if e.save && !store.writable then Panicked else Continue)
          && store.state == FileAfter(e, old(store.state), store.writable)
          && View() == StateAfter(e, old(View()), outcome == Panicked)
        case Quit =>
          outcome == Quitting && View() == old(View()) && store.state == old(store.state)
        case Overflow =>
          outcome == Overflowed && View() == old(View()) && store.state == old(store.state)
    {
      outcome := Continue;
      var panicked := false;
      if k == Char('q') {
        outcome := Quitting;
      } else if k == Char('j') || k == Down {
        if selected.Some? && tasks == [] {
          outcome := Overflowed;
        } else {
          Next();
        }
      } else if k == Char('k') || k == Up {
        if selected == Some(0) && tasks == [] {
          outcome := Overflowed;
        } else {
          Previous();
        }
      } else if k == Char(' ') || k == Enter {
        panicked := ToggleCurrent();
      } else if k == Char('d') {
        panicked := DeleteCurrent();
      } else if k == Char('a') {
        mode := Adding;
        input := "";
        message := Some(AddPrompt);
      } else if k == Char('e') {
        if selected.Some? && selected.value < |tasks| {
          var i := selected.value;
          input := tasks[i].text;
          mode := Editing(tasks[i].id);
          message := Some(EditPrompt);
        }
      } else if k == Char('t') {
        if selected.Some? && selected.value < |tasks| {
          var i := selected.value;
          input := "";
          mode := Mode.SetDueDate(tasks[i].id);
          message := Some(DueDatePrompt);
        }
      } else if k == Esc {
        mode := Normal;
        input := "";
        message := None;
      }
      if panicked {
        outcome := Panicked;
      }
    }

    method HandleTextKey(k: Key) returns (outcome: KeyOutcome)
      requires mode != Normal
      modifies this, store
      ensures match TextStep(old(View()), k)
        case Go(e) =>
          && outcome == (if e.save && !store.writable then Panicked else Continue)
          && store.state == FileAfter(e, old(store.state), store.writable)
          && View() == StateAfter(e, old(View()), outcome == Panicked)
        case Quit =>
          outcome == Quitting && View() == old(View()) && store.state == old(store.state)
        case Overflow =>
          outcome == Overflowed && View() == old(View()) && store.state == old(store.state)
    {
      outcome := Continue;
      var panicked := false;
      if k == Enter {
        match mode
        case Adding =>
          if input != [] && Commands.MaxId(tasks) == MaxU32 {
            outcome := Overflowed;
          } else {
            panicked := AddTask();
          }
        case Editing(id) =>
          panicked := EditTask(id);
        case SetDueDate(id) =>
          panicked := SetDueDate(id);
      } else if k == Esc {
        mode := Normal;
        input := "";
        message := None;
      } else if k.Char? {
        input := input + [k.c];
      } else if k == Backspace {
        if input != [] {
          input := input[..|input| - 1];
        }
      }
      if panicked {
        outcome := Panicked;
      }
    }
  }
}
