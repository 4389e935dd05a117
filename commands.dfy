/** The command operations of src/commands.rs with their printing removed.
    Each command is a list operation (methods over a local task vector, or
    functions where the source only filters), plus a driver that loads the
    list from `todos.json`, applies it and saves when the source does. */
module Commands {
  import opened Options
  import opened Seqs
  import opened Text
  import opened Tasks

  const MinI32: int := -0x8000_0000
  const MaxI32: int := 0x7FFF_FFFF

  // ---------------------------------------------------------------------
  // Ids

  /** `tasks.iter().map(|t| t.id).max().unwrap_or(0)`. */
  function MaxId(ts: seq<Task>): (m: nat)
    ensures m <= MaxU32
    ensures forall i :: 0 <= i < |ts| ==> ts[i].id <= m
    ensures ts == [] ==> m == 0
    ensures ts != [] ==> exists i :: 0 <= i < |ts| && ts[i].id == m
  {
    if ts == [] then 0
    else
      var rest := MaxId(ts[1..]);
      if ts[0].id >= rest then ts[0].id else rest
  }

  /** The id a new task gets: one more than the largest id in use, or 1 for
      an empty list. It is larger than every id in the list. Computing it
      overflows `u32` when some task already has id `u32::MAX`. */
  function NextId(ts: seq<Task>): (id: U32)
    requires MaxId(ts) < MaxU32
    ensures forall i :: 0 <= i < |ts| ==> ts[i].id < id
    ensures ts == [] ==> id == 1
    ensures ts != [] ==> exists i :: 0 <= i < |ts| && ts[i].id == id - 1
  {
    MaxId(ts) + 1
  }

  // ---------------------------------------------------------------------
  // Updating the first task with an id

  /** The position of the first task with id `id`, if there is one. */
  function FirstIndex(ts: seq<Task>, id: U32): (r: Option<nat>)
    ensures r.None? <==> forall i :: 0 <= i < |ts| ==> ts[i].id != id
    ensures r.Some? ==> r.value < |ts| && ts[r.value].id == id
                        && forall i :: 0 <= i < r.value ==> ts[i].id != id
  {
    if ts == [] then None
    else if ts[0].id == id then Some(0)
    else match FirstIndex(ts[1..], id)
      case None => None
      case Some(k) => Some(k + 1)
  }

  /** `ts` with `f` applied to the first task whose id is `id`, and every
      other task as it was; `ts` itself when no task has that id. */
  function UpdateFirst(ts: seq<Task>, id: U32, f: Task -> Task): (r: seq<Task>)
    ensures |r| == |ts|
    ensures FirstIndex(ts, id).None? ==> r == ts
    ensures FirstIndex(ts, id).Some? ==>
      var k := FirstIndex(ts, id).value;
      r[k] == f(ts[k]) && forall j :: 0 <= j < |ts| && j != k ==> r[j] == ts[j]
  {
    match FirstIndex(ts, id)
    case None => ts
    case Some(k) => ts[k := f(ts[k])]
  }

  function Flip(t: Task): Task { t.(done := !t.done) }
  function WithText(text: string): Task -> Task { (t: Task) => t.(text := text) }
  function WithDueDate(date: string): Task -> Task { (t: Task) => t.(dueDate := Some(date)) }

  // ---------------------------------------------------------------------
  // Filters

  predicate IsDone(t: Task) { t.done }
  predicate IsPending(t: Task) { !t.done }
  function NotId(id: U32): Task -> bool { (t: Task) => t.id != id }
  function DueOn(day: string): Task -> bool { (t: Task) => t.dueDate == Some(day) }
  function MatchesQuery(query: string): Task -> bool {
    (t: Task) => Contains(Lower(t.text), Lower(query))
  }

  /** The archive filter: the task has a due date strictly before `cutoff`. */
  function OlderThan(cutoff: string): Task -> bool {
    (t: Task) => if t.dueDate.Some? then LexLess(t.dueDate.value, cutoff) else false
  }

  /** The retain filter: no due date, or a due date not before `cutoff`. */
  function KeptAt(cutoff: string): Task -> bool {
    (t: Task) => if t.dueDate.Some? then LexGe(t.dueDate.value, cutoff) else true
  }

  /** For due dates and cutoffs written `YYYY-MM-DD`, a task is archived
      exactly when it is due on a calendar day before the cutoff. */
  lemma OlderThanIsEarlierDay(cutoff: string, t: Task)
    requires IsDate(cutoff) && t.dueDate.Some? && IsDate(t.dueDate.value)
    ensures OlderThan(cutoff)(t) <==> EarlierDate(t.dueDate.value, cutoff)
  {
    DateOrderIsChronological(t.dueDate.value, cutoff);
  }

  /** The two archive filters are complementary. */
  lemma KeptIsNotOlder(cutoff: string)
    ensures forall t :: KeptAt(cutoff)(t) == !OlderThan(cutoff)(t)
  {
    forall t: Task ensures KeptAt(cutoff)(t) == !OlderThan(cutoff)(t) {
      if t.dueDate.Some? {
        LexGeIsNotLess(t.dueDate.value, cutoff);
      }
    }
  }

  /** `Vec::retain`: keeps, in place and in order, the tasks that pass `p`. */
  method Retain(tasks: seq<Task>, p: Task -> bool) returns (r: seq<Task>)
    ensures r == Filter(tasks, p)
  {
    r := [];
    var i := 0;
    while i < |tasks|
      invariant 0 <= i <= |tasks|
      invariant r == Filter(tasks[..i], p)
    {
      FilterConcat(tasks[..i], [tasks[i]], p);
      assert tasks[..i + 1] == tasks[..i] + [tasks[i]];
      if p(tasks[i]) {
        r := r + [tasks[i]];
      }
      i := i + 1;
    }
    assert tasks[..i] == tasks;
  }

  // ---------------------------------------------------------------------
  // add_task

  /** The list part of `add_task`: push a new pending task due on `dueDate`. */
  method AddTo(tasks: seq<Task>, text: string, dueDate: string) returns (r: seq<Task>, id: U32)
    requires MaxId(tasks) < MaxU32
    ensures forall i :: 0 <= i < |tasks| ==> tasks[i].id < id
    ensures tasks == [] ==> id == 1
    ensures tasks != [] ==> exists i :: 0 <= i < |tasks| && tasks[i].id == id - 1
    ensures r == tasks + [Task(id, text, false, Some(dueDate))]
  {
    id := NextId(tasks);
    r := tasks + [Task(id, text, false, Some(dueDate))];
  }

  // ---------------------------------------------------------------------
  // toggle_task, edit_task, set_due_date

  /** The loop of `toggle_task`: flips `done` on the first task with `id`. */
  method Toggle(tasks: seq<Task>, id: U32) returns (r: seq<Task>, found: bool, newDone: bool)
    ensures found <==> exists i :: 0 <= i < |tasks| && tasks[i].id == id
    ensures found ==> newDone == !tasks[FirstIndex(tasks, id).value].done
    ensures r == UpdateFirst(tasks, id, Flip)
  {
    r, found, newDone := tasks, false, false;
    var i := 0;
    while i < |r|
      invariant 0 <= i <= |r|
      invariant r == tasks
      invariant forall j :: 0 <= j < i ==> tasks[j].id != id
    {
      if r[i].id == id {
        r := r[i := r[i].(done := !r[i].done)];
        newDone := r[i].done;
        found := true;
        break;
      }
      i := i + 1;
    }
  }

  /** The loop of `edit_task`: replaces the text of the first task with `id`. */
  method Edit(tasks: seq<Task>, id: U32, newText: string) returns (r: seq<Task>, found: bool)
    ensures found <==> exists i :: 0 <= i < |tasks| && tasks[i].id == id
    ensures r == UpdateFirst(tasks, id, WithText(newText))
  {
    r, found := tasks, false;
    var i := 0;
    while i < |r|
      invariant 0 <= i <= |r|
      invariant r == tasks
      invariant forall j :: 0 <= j < i ==> tasks[j].id != id
    {
      if r[i].id == id {
        r := r[i := r[i].(text := newText)];
        found := true;
        break;
      }
      i := i + 1;
    }
  }

  /** The loop of `set_due_date`: stores `date`, as given, as the due date of
      the first task with `id`. */
  method SetDue(tasks: seq<Task>, id: U32, date: string) returns (r: seq<Task>, found: bool)
    ensures found <==> exists i :: 0 <= i < |tasks| && tasks[i].id == id
    ensures r == UpdateFirst(tasks, id, WithDueDate(date))
  {
    r, found := tasks, false;
    var i := 0;
    while i < |r|
      invariant 0 <= i <= |r|
      invariant r == tasks
      invariant forall j :: 0 <= j < i ==> tasks[j].id != id
    {
      if r[i].id == id {
        r := r[i := r[i].(dueDate := Some(date))];
        found := true;
        break;
      }
      i := i + 1;
    }
  }

  /** Only the matched task changes, and only in the field the operation sets:
      its id and the other fields stay. */
  lemma UpdateFirstChangesOnlyMatch(ts: seq<Task>, id: U32, text: string, date: string)
    requires FirstIndex(ts, id).Some?
    ensures var k := FirstIndex(ts, id).value;
      && UpdateFirst(ts, id, Flip)[k] == Task(id, ts[k].text, !ts[k].done, ts[k].dueDate)
      && UpdateFirst(ts, id, WithText(text))[k] == Task(id, text, ts[k].done, ts[k].dueDate)
      && UpdateFirst(ts, id, WithDueDate(date))[k] == Task(id, ts[k].text, ts[k].done, Some(date))
  {
  }

  /** Toggling the same id twice gives back the original list. */
  lemma ToggleTwiceRestores(ts: seq<Task>, id: U32)
    ensures UpdateFirst(UpdateFirst(ts, id, Flip), id, Flip) == ts
  {
    var once := UpdateFirst(ts, id, Flip);
    match FirstIndex(ts, id)
    case None =>
    case Some(k) =>
      SameIdsSameFirstIndex(ts, once, id);
      assert once[k := Flip(once[k])] == ts;
  }

  /** The first index of an id depends only on the ids in the list. */
  lemma {:induction false} SameIdsSameFirstIndex(a: seq<Task>, b: seq<Task>, id: U32)
    requires |a| == |b| && forall i :: 0 <= i < |a| ==> a[i].id == b[i].id
    ensures FirstIndex(a, id) == FirstIndex(b, id)
  {
    if a != [] && a[0].id != id {
      SameIdsSameFirstIndex(a[1..], b[1..], id);
    }
  }

  // ---------------------------------------------------------------------
  // delete_task

  /** The list part of `delete_task`: removes every task with `id`. */
  method Delete(tasks: seq<Task>, id: U32) returns (r: seq<Task>, removed: bool)
    ensures r == Filter(tasks, NotId(id))
    ensures forall t :: t in r <==> t in tasks && t.id != id
    ensures IsSubsequence(r, tasks)
    ensures removed <==> |r| < |tasks|
    ensures removed <==> exists i :: 0 <= i < |tasks| && tasks[i].id == id
    ensures !removed ==> r == tasks
  {
    var oldLen := |tasks|;
    r := Retain(tasks, NotId(id));
    FilterIsSubsequence(tasks, NotId(id));
    removed := |r| < oldLen;
    if forall i :: 0 <= i < |tasks| ==> tasks[i].id != id {
      FilterAll(tasks, NotId(id));
    }
    if !removed {
      FilterCount(tasks, NotId(id));
      CountAll(tasks, NotId(id));
      FilterAll(tasks, NotId(id));
    }
  }

  /** Deleting the id that `add_task` just assigned gives back the list as it
      was before the add: the new id is fresh. */
  lemma AddThenDeleteRestores(ts: seq<Task>, text: string, dueDate: string)
    requires MaxId(ts) < MaxU32
    ensures var id := NextId(ts);
      Filter(ts + [Task(id, text, false, Some(dueDate))], NotId(id)) == ts
  {
    var id := NextId(ts);
    FilterConcat(ts, [Task(id, text, false, Some(dueDate))], NotId(id));
    FilterAll(ts, NotId(id));
  }

  // ---------------------------------------------------------------------
  // remove_tasks_by_date

  /** The cutoff date: `days_ago + 1` days before today, as resolved by the
      calendar (`get_date_with_offset`), which is a parameter here. */
  function Cutoff(daysAgo: int, offsetDate: int -> string): string
    requires MinI32 <= daysAgo < MaxI32
  {
    offsetDate(-(daysAgo + 1))
  }

  datatype ArchiveOutcome = NoMatch | Cancelled | Archived

  /** The list part of `remove_tasks_by_date`. `answer` is the line read from
      standard input; `archived` is what is handed to `add_to_removed`. */
  method RemoveByDate(tasks: seq<Task>, daysAgo: int, offsetDate: int -> string, answer: string)
    returns (r: seq<Task>, archived: seq<Task>, removedCount: nat, outcome: ArchiveOutcome)
    requires MinI32 <= daysAgo < MaxI32
    ensures var cutoff := Cutoff(daysAgo, offsetDate);
      && (outcome == NoMatch <==> forall i :: 0 <= i < |tasks| ==> !OlderThan(cutoff)(tasks[i]))
      && (outcome == Archived <==> outcome != NoMatch && Confirmed(answer))
      && (outcome != Archived ==> r == tasks && archived == [] && removedCount == 0)
      && (outcome == Archived ==>
            && archived == Filter(tasks, OlderThan(cutoff))
            && r == Filter(tasks, KeptAt(cutoff))
            && removedCount == |archived|)
  {
    var cutoff := Cutoff(daysAgo, offsetDate);
    var matching := Filter(tasks, OlderThan(cutoff));
    if matching == [] {
      FilterNonEmpty(tasks, OlderThan(cutoff));
      return tasks, [], 0, NoMatch;
    }
    FilterNonEmpty(tasks, OlderThan(cutoff));
    if !Confirmed(answer) {
      return tasks, [], 0, Cancelled;
    }
    archived := Filter(tasks, OlderThan(cutoff));
    var originalCount := |tasks|;
    r := Retain(tasks, KeptAt(cutoff));
    KeptIsNotOlder(cutoff);
    FilterPartition(tasks, OlderThan(cutoff), KeptAt(cutoff));
    removedCount := originalCount - |r|;
    outcome := Archived;
  }

  /** What archiving does to the list: the archived and retained tasks
      together are the original list, each part keeps the original order,
      and tasks without a due date are always retained. */
  lemma ArchivePartition(tasks: seq<Task>, cutoff: string)
    ensures var archived, kept := Filter(tasks, OlderThan(cutoff)), Filter(tasks, KeptAt(cutoff));
      && |archived| + |kept| == |tasks|
      && multiset(archived) + multiset(kept) == multiset(tasks)
      && IsSubsequence(archived, tasks) && IsSubsequence(kept, tasks)
      && (forall t :: t in archived ==> t.dueDate.Some? && LexLess(t.dueDate.value, cutoff))
      && (forall t :: t in tasks && t.dueDate.None? ==> t in kept)
  {
    KeptIsNotOlder(cutoff);
    FilterPartition(tasks, OlderThan(cutoff), KeptAt(cutoff));
    FilterIsSubsequence(tasks, OlderThan(cutoff));
    FilterIsSubsequence(tasks, KeptAt(cutoff));
  }

  /** Archiving again with the same cutoff finds nothing more to archive. */
  lemma ArchiveIsIdempotent(tasks: seq<Task>, cutoff: string)
    ensures Filter(Filter(tasks, KeptAt(cutoff)), OlderThan(cutoff)) == []
    ensures Filter(Filter(tasks, KeptAt(cutoff)), KeptAt(cutoff)) == Filter(tasks, KeptAt(cutoff))
  {
    var kept := Filter(tasks, KeptAt(cutoff));
    KeptIsNotOlder(cutoff);
    FilterNone(kept, OlderThan(cutoff));
    FilterAll(kept, KeptAt(cutoff));
  }

  /** A task due exactly on the cutoff date is never archived. */
  lemma CutoffDayIsKept(t: Task, cutoff: string)
    requires t.dueDate == Some(cutoff)
    ensures !OlderThan(cutoff)(t) && KeptAt(cutoff)(t)
  {
    LexLessTotal(cutoff, cutoff);
  }

  /** With `days_ago = 0` and the day before today being 2025-11-09, the cutoff
      is 2025-11-09: a task due yesterday is kept, and only one due the day
      before is archived. */
  lemma DaysAgoZeroKeepsYesterday(offsetDate: int -> string, a: Task, b: Task)
    requires offsetDate(-1) == "2025-11-09"
    requires a.dueDate == Some("2025-11-09") && b.dueDate == Some("2025-11-08")
    ensures var cutoff := Cutoff(0, offsetDate);
      !OlderThan(cutoff)(a) && OlderThan(cutoff)(b)
  {
    CutoffDayIsKept(a, "2025-11-09");
    var x, y := "2025-11-08", "2025-11-09";
    assert x[..9] == y[..9] && x[9] < y[9];
    PrefixThenLess(x, y, 9);
  }

  /** Two strings that agree up to position `k` and differ there are ordered
      by the character at `k`. */
  lemma {:induction false} PrefixThenLess(a: string, b: string, k: nat)
    requires k < |a| && k < |b| && a[..k] == b[..k] && a[k] < b[k]
    ensures LexLess(a, b)
  {
    if k > 0 {
      assert a[0] == a[..k][0] == b[..k][0] == b[0];
      assert a[1..][..k - 1] == a[..k][1..] == b[..k][1..] == b[1..][..k - 1];
      PrefixThenLess(a[1..], b[1..], k - 1);
    }
  }

  // ---------------------------------------------------------------------
  // search, list_tasks, show_info

  /** `search`: in their original order, exactly the tasks whose lower-cased
      text contains the lower-cased query. */
  function SearchResults(tasks: seq<Task>, query: string): (r: seq<Task>)
    ensures forall t :: t in r <==> t in tasks && Contains(Lower(t.text), Lower(query))
    ensures IsSubsequence(r, tasks)
    ensures |r| == Count(tasks, MatchesQuery(query))
  {
    FilterIsSubsequence(tasks, MatchesQuery(query));
    FilterCount(tasks, MatchesQuery(query));
    Filter(tasks, MatchesQuery(query))
  }

  /** Every text contains the empty query, so it finds every task. */
  lemma SearchEmptyQuery(tasks: seq<Task>)
    ensures SearchResults(tasks, "") == tasks
  {
    forall i | 0 <= i < |tasks| ensures MatchesQuery("")(tasks[i]) {
      assert IsPrefix("", Lower(tasks[i].text));
    }
    FilterAll(tasks, MatchesQuery(""));
  }

  /** Search ignores the letter case of the query. */
  lemma SearchIgnoresQueryCase(tasks: seq<Task>, q1: string, q2: string)
    requires Lower(q1) == Lower(q2)
    ensures SearchResults(tasks, q1) == SearchResults(tasks, q2)
  {
    FilterSameOn(tasks, MatchesQuery(q1), MatchesQuery(q2));
  }

  /** Undone tasks first, done tasks after, each group in its original order:
      the result of the stable `sort_by_key(|task| task.done)`. */
  function UndoneFirst(s: seq<Task>): seq<Task> {
    Filter(s, IsPending) + Filter(s, IsDone)
  }

  predicate SortedByDone(s: seq<Task>) {
    forall i, j :: 0 <= i < j < |s| && s[i].done ==> s[j].done
  }

  /** `UndoneFirst` is a stable sort by `done`: sorted, a permutation, and
      within each group the original order. */
  lemma UndoneFirstIsStableSort(s: seq<Task>)
    ensures SortedByDone(UndoneFirst(s))
    ensures multiset(UndoneFirst(s)) == multiset(s)
    ensures Filter(UndoneFirst(s), IsPending) == Filter(s, IsPending)
    ensures Filter(UndoneFirst(s), IsDone) == Filter(s, IsDone)
  {
    var a, b := Filter(s, IsPending), Filter(s, IsDone);
    FilterPartition(s, IsPending, IsDone);
    FilterConcat(a, b, IsPending);
    FilterConcat(a, b, IsDone);
    FilterAll(a, IsPending);
    FilterNone(b, IsPending);
    FilterNone(a, IsDone);
    FilterAll(b, IsDone);
  }

  datatype Listing =
    | NoTasks                  // "No tasks! Add some tasks."
    | NoneSelected             // the filter left nothing
    | Shown(tasks: seq<Task>)  // the tasks printed, in order

  /** The tasks `list_tasks` selects: `today_only` wins over `show_all`, and
      with neither only pending tasks are listed. */
  function Selection(tasks: seq<Task>, showAll: bool, todayOnly: bool, today: string): (r: seq<Task>)
    ensures todayOnly || !showAll ==> IsSubsequence(r, tasks)
    ensures todayOnly ==> forall t :: t in r <==> t in tasks && t.dueDate == Some(today)
    ensures !todayOnly && showAll ==> r == tasks
    ensures !todayOnly && !showAll ==> forall t :: t in r <==> t in tasks && !t.done
    ensures todayOnly ==> |r| == Count(tasks, DueOn(today))
    ensures !todayOnly && !showAll ==> |r| == Count(tasks, IsPending)
  {
    FilterIsSubsequence(tasks, DueOn(today));
    FilterIsSubsequence(tasks, IsPending);
    FilterCount(tasks, DueOn(today));
    FilterCount(tasks, IsPending);
    if todayOnly then Filter(tasks, DueOn(today))
    else if showAll then tasks
    else Filter(tasks, IsPending)
  }

  /** `list_tasks` without printing. */
  function Listed(tasks: seq<Task>, showAll: bool, todayOnly: bool, today: string): (r: Listing)
    ensures r == NoTasks <==> tasks == []
    ensures r == NoneSelected <==> tasks != [] && Selection(tasks, showAll, todayOnly, today) == []
    ensures r.Shown? ==> r.tasks != []
    ensures todayOnly && r.Shown? ==>
      (forall t :: t in r.tasks <==> t in tasks && t.dueDate == Some(today))
    ensures !todayOnly && showAll && tasks != [] ==>
      r.Shown? && multiset(r.tasks) == multiset(tasks)
    ensures !todayOnly && !showAll && r.Shown? ==>
      (forall t :: t in r.tasks <==> t in tasks && !t.done) && IsSubsequence(r.tasks, tasks)
    ensures (showAll || todayOnly) && r.Shown? ==> SortedByDone(r.tasks)
    ensures (showAll || todayOnly) && r.Shown? ==>
      var sel := Selection(tasks, showAll, todayOnly, today);
      Filter(r.tasks, IsPending) == Filter(sel, IsPending) && Filter(r.tasks, IsDone) == Filter(sel, IsDone)
    ensures r.Shown? ==> multiset(r.tasks) == multiset(Selection(tasks, showAll, todayOnly, today))
  {
    if tasks == [] then NoTasks
    else
      var selected := Selection(tasks, showAll, todayOnly, today);
      if selected == [] then NoneSelected
      else if showAll || todayOnly then
        UndoneFirstIsStableSort(selected);
        Shown(UndoneFirst(selected))
      else
        FilterIsSubsequence(tasks, IsPending);
        Shown(selected)
  }

  datatype Counts = Counts(total: nat, completed: nat, pending: nat)

  /** The counts `show_info` prints. */
  function Info(tasks: seq<Task>): (r: Counts)
    ensures r.total == |tasks|
    ensures r.completed + r.pending == r.total
    ensures r.completed == |Filter(tasks, IsDone)| && r.pending == |Filter(tasks, IsPending)|
  {
    FilterCount(tasks, IsDone);
    FilterCount(tasks, IsPending);
    FilterPartition(tasks, IsDone, IsPending);
    Counts(|tasks|, Count(tasks, IsDone), Count(tasks, IsPending))
  }

  // ---------------------------------------------------------------------
  // The commands: load `todos.json`, apply the list operation, save when the
  // source saves. A `false` `ok` stands for the panic of a failed write.

  /** `add_task`; the due date is `get_date_with_offset(days_offset)`. */
  method AddTask(file: TodoFile, text: string, daysOffset: int, offsetDate: int -> string)
    returns (id: U32, ok: bool)
    requires MinI32 <= daysOffset <= MaxI32
    requires MaxId(Loaded(file.state)) < MaxU32
    modifies file
    ensures var before := Loaded(old(file.state));
      && id == MaxId(before) + 1
      && (forall i :: 0 <= i < |before| ==> before[i].id < id)
      && (before == [] ==> id == 1)
      && ok == file.writable
      && file.state == AfterSave(old(file.state), file.writable,
                                 before + [Task(id, text, false, Some(offsetDate(daysOffset)))])
  {
    var tasks := file.Load();
    var dueDate := offsetDate(daysOffset);
    tasks, id := AddTo(tasks, text, dueDate);
    ok := file.Save(tasks);
  }

  /** `toggle_task`: saves only when a task has the id. */
  method ToggleTask(file: TodoFile, id: U32) returns (found: bool, ok: bool)
    modifies file
    ensures var before := Loaded(old(file.state));
      && (found <==> exists i :: 0 <= i < |before| && before[i].id == id)
      && ok == (!found || file.writable)
      && file.state == if found then AfterSave(old(file.state), file.writable, UpdateFirst(before, id, Flip))
                       else old(file.state)
  {
    var tasks := file.Load();
    var newDone;
    tasks, found, newDone := Toggle(tasks, id);
    ok := true;
    if found {
      ok := file.Save(tasks);
    }
  }

  /** `delete_task`: saves only when the list became shorter. */
  method DeleteTask(file: TodoFile, id: U32) returns (found: bool, ok: bool)
    modifies file
    ensures var before := Loaded(old(file.state));
      && (found <==> exists i :: 0 <= i < |before| && before[i].id == id)
      && ok == (!found || file.writable)
      && file.state == if found then AfterSave(old(file.state), file.writable, Filter(before, NotId(id)))
                       else old(file.state)
  {
    var tasks := file.Load();
    tasks, found := Delete(tasks, id);
    ok := true;
    if found {
      ok := file.Save(tasks);
    }
  }

  /** `edit_task`: no check on the new text. */
  method EditTask(file: TodoFile, id: U32, newText: string) returns (found: bool, ok: bool)
    modifies file
    ensures var before := Loaded(old(file.state));
      && (found <==> exists i :: 0 <= i < |before| && before[i].id == id)
      && ok == (!found || file.writable)
      && file.state == if found then AfterSave(old(file.state), file.writable, UpdateFirst(before, id, WithText(newText)))
                       else old(file.state)
  {
    var tasks := file.Load();
    tasks, found := Edit(tasks, id, newText);
    ok := true;
    if found {
      ok := file.Save(tasks);
    }
  }

  /** `set_due_date`: the date is stored as given, without validation. */
  method SetDueDate(file: TodoFile, id: U32, date: string) returns (found: bool, ok: bool)
    modifies file
    ensures var before := Loaded(old(file.state));
      && (found <==> exists i :: 0 <= i < |before| && before[i].id == id)
      && ok == (!found || file.writable)
      && file.state == if found then AfterSave(old(file.state), file.writable, UpdateFirst(before, id, WithDueDate(date)))
                       else old(file.state)
  {
    var tasks := file.Load();
    tasks, found := SetDue(tasks, id, date);
    ok := true;
    if found {
      ok := file.Save(tasks);
    }
  }

  /** `remove_tasks_by_date`: archives (hands to `add_to_removed`) and saves
      only on a confirmed answer with at least one matching task. */
  method RemoveTasksByDate(file: TodoFile, daysAgo: int, offsetDate: int -> string, answer: string)
    returns (archived: seq<Task>, removedCount: nat, outcome: ArchiveOutcome, ok: bool)
    requires MinI32 <= daysAgo < MaxI32
    modifies file
    ensures var before, cutoff := Loaded(old(file.state)), Cutoff(daysAgo, offsetDate);
      && (outcome == Archived <==> Filter(before, OlderThan(cutoff)) != [] && Confirmed(answer))
      && ok == (outcome != Archived || file.writable)
      && (outcome == Archived ==>
            && archived == Filter(before, OlderThan(cutoff))
            && removedCount == |archived|
            && file.state == AfterSave(old(file.state), file.writable, Filter(before, KeptAt(cutoff))))
      && (outcome != Archived ==> archived == [] && removedCount == 0 && file.state == old(file.state))
  {
    var tasks := file.Load();
    var updated;
    updated, archived, removedCount, outcome := RemoveByDate(tasks, daysAgo, offsetDate, answer);
    FilterNonEmpty(tasks, OlderThan(Cutoff(daysAgo, offsetDate)));
    ok := true;
    if outcome == Archived {
      ok := file.Save(updated);
    }
  }

  /** `search`: reads the file, changes nothing. */
  method Search(file: TodoFile, query: string) returns (results: seq<Task>)
    ensures results == SearchResults(Loaded(file.state), query)
  {
    var tasks := file.Load();
    results := SearchResults(tasks, query);
  }

  /** `list_tasks`; `today` is `get_today()`. */
  method ListTasks(file: TodoFile, showAll: bool, todayOnly: bool, today: string) returns (listing: Listing)
    ensures listing == Listed(Loaded(file.state), showAll, todayOnly, today)
  {
    var tasks := file.Load();
    listing := Listed(tasks, showAll, todayOnly, today);
  }

  /** `show_info`, without the data location. */
  method ShowInfo(file: TodoFile) returns (counts: Counts)
    ensures counts == Info(Loaded(file.state))
  {
    var tasks := file.Load();
    counts := Info(tasks);
  }
}
