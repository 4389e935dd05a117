/** The task record and its storage file `todos.json` (src/task.rs).

    The file is abstract: it is missing, exists but cannot be read, or holds
    some text; the text either is not JSON at all or is a JSON document,
    represented by its value tree. Producing and parsing the characters of
    JSON are not modelled; what a task becomes as a JSON value, and back, is. */
module Tasks {
  import opened Options

  const MaxU32: int := 0xFFFF_FFFF

  /** Rust's `u32`. */
  type U32 = x: int | 0 <= x <= MaxU32

  datatype Task = Task(id: U32, text: string, done: bool, dueDate: Option<string>)

  /** A JSON value. Only integral numbers are represented. */
  datatype Value =
    | Null
    | Bool(b: bool)
    | Num(n: int)
    | Str(s: string)
    | Arr(items: seq<Value>)
    | Obj(fields: map<string, Value>)

  /** The JSON object a task serializes to. The `due_date` key is present only
      when the task has a due date (`skip_serializing_if = "Option::is_none"`). */
  function EncodeTask(t: Task): (v: Value)
    ensures v.Obj?
    ensures v.fields.Keys == {"id", "text", "done"} + (if t.dueDate.Some? then {"due_date"} else {})
    ensures "due_date" in v.fields <==> t.dueDate.Some?
  {
    var base := map["id" := Num(t.id), "text" := Str(t.text), "done" := Bool(t.done)];
    match t.dueDate
    case None => Obj(base)
    case Some(d) => Obj(base["due_date" := Str(d)])
  }

  /** The optional due date as found in a JSON object: a missing key or `null`
      is `None`, a string is `Some`, anything else is a type error. */
  function DecodeDueDate(fields: map<string, Value>): (r: Option<Option<string>>)
    ensures "due_date" !in fields ==> r == Some(None)
  {
    if "due_date" !in fields then Some(None)
    else match fields["due_date"]
      case Null => Some(None)
      case Str(d) => Some(Some(d))
      case _ => None
  }

  /** Deserializing one task from a JSON value: an object with an `id` that
      fits in `u32`, a string `text` and a boolean `done`; keys it does not
      know are ignored. */
  function DecodeTask(v: Value): (r: Option<Task>)
    ensures !v.Obj? ==> r == None
    ensures r.Some? <==>
      && v.Obj?
      && "id" in v.fields && v.fields["id"].Num? && 0 <= v.fields["id"].n <= MaxU32
      && "text" in v.fields && v.fields["text"].Str?
      && "done" in v.fields && v.fields["done"].Bool?
      && ("due_date" in v.fields ==> v.fields["due_date"].Null? || v.fields["due_date"].Str?)
    ensures r.Some? ==>
      var f, t := v.fields, r.value;
      && "id" in f && f["id"] == Num(t.id)
      && "text" in f && f["text"] == Str(t.text)
      && "done" in f && f["done"] == Bool(t.done)
      && (t.dueDate.None? <==> "due_date" !in f || f["due_date"] == Null)
      && (t.dueDate.Some? ==> f["due_date"] == Str(t.dueDate.value))
  {
    match v
    case Obj(f) =>
      if "id" in f && f["id"].Num? && 0 <= f["id"].n <= MaxU32
         && "text" in f && f["text"].Str? && "done" in f && f["done"].Bool?
      then
        match DecodeDueDate(f)
        case Some(due) => Some(Task(f["id"].n, f["text"].s, f["done"].b, due))
        case None => None
      else None
    case _ => None
  }

  /** Decoding gives back exactly the task that was encoded, with or without
      a due date. */
  lemma DecodeEncodeTask(t: Task)
    ensures DecodeTask(EncodeTask(t)) == Some(t)
  {
    var f := EncodeTask(t).fields;
    assert f["id"] == Num(t.id) && f["text"] == Str(t.text) && f["done"] == Bool(t.done);
  }

  function EncodeAll(ts: seq<Task>): (vs: seq<Value>)
    ensures |vs| == |ts|
    ensures forall i :: 0 <= i < |ts| ==> vs[i] == EncodeTask(ts[i])
  {
    if ts == [] then [] else [EncodeTask(ts[0])] + EncodeAll(ts[1..])
  }

  /** Deserializing a list of tasks: all items must decode, or the whole list
      fails. */
  function DecodeAll(vs: seq<Value>): (r: Option<seq<Task>>)
    ensures r.Some? ==> |r.value| == |vs| && forall i :: 0 <= i < |vs| ==> DecodeTask(vs[i]) == Some(r.value[i])
    ensures r.None? <==> exists i :: 0 <= i < |vs| && DecodeTask(vs[i]).None?
  {
    if vs == [] then Some([])
    else match (DecodeTask(vs[0]), DecodeAll(vs[1..]))
      case (Some(t), Some(rest)) => Some([t] + rest)
      case (_, _) => None
  }

  /** `serde_json::to_string_pretty(tasks)`, up to the characters: a JSON array
      of the tasks' objects, in order. */
  function EncodeTasks(ts: seq<Task>): (v: Value)
    ensures v.Arr? && |v.items| == |ts|
    ensures forall i :: 0 <= i < |ts| ==> v.items[i] == EncodeTask(ts[i])
  {
    Arr(EncodeAll(ts))
  }

  /** `serde_json::from_str::<Vec<Task>>`, on a parsed document. */
  function DecodeTasks(v: Value): (r: Option<seq<Task>>)
    ensures r.Some? ==> v.Arr? && |r.value| == |v.items|
    ensures r.Some? ==> forall i :: 0 <= i < |v.items| ==> DecodeTask(v.items[i]) == Some(r.value[i])
    ensures r.None? <==> !v.Arr? || exists i :: 0 <= i < |v.items| && DecodeTask(v.items[i]).None?
  {
    match v
    case Arr(items) => DecodeAll(items)
    case _ => None
  }

  lemma {:induction false} DecodeEncodeAll(ts: seq<Task>)
    ensures DecodeAll(EncodeAll(ts)) == Some(ts)
  {
    if ts != [] {
      DecodeEncodeTask(ts[0]);
      DecodeEncodeAll(ts[1..]);
      assert EncodeAll(ts)[1..] == EncodeAll(ts[1..]);
      assert ts == [ts[0]] + ts[1..];
    }
  }

  /** Serialization round trip: every task keeps its id, text, done flag and
      due date, and the list keeps its order. */
  lemma DecodeEncodeTasks(ts: seq<Task>)
    ensures DecodeTasks(EncodeTasks(ts)) == Some(ts)
  {
    DecodeEncodeAll(ts);
  }

  /** The text in a file: either not JSON at all (including the empty text),
      or a JSON document. */
  datatype Text = NotJson | JsonText(doc: Value)

  datatype FileState =
    | Missing          // `open` fails
    | Unreadable       // `open` succeeds, `read_to_string` fails
    | Present(text: Text)

  /** What `load_tasks` returns for a given file: the decoded tasks, or the
      empty list whenever the file is missing, unreadable or malformed. */
  function Loaded(f: FileState): (r: seq<Task>)
    ensures !(f.Present? && f.text.JsonText?) ==> r == []
    ensures f.Present? && f.text.JsonText? && DecodeTasks(f.text.doc).None? ==> r == []
    ensures f.Present? && f.text.JsonText? && DecodeTasks(f.text.doc).Some? ==> r == DecodeTasks(f.text.doc).value
    ensures r != [] ==> f.Present? && f.text.JsonText? && DecodeTasks(f.text.doc) == Some(r)
  {
    match f
    case Present(JsonText(v)) => DecodeTasks(v).UnwrapOr([])
    case _ => []
  }

  /** The file after `save_tasks(ts)`: overwritten with the tasks when the
      write succeeds, and left as it was when it does not. */
  function AfterSave(before: FileState, writable: bool, ts: seq<Task>): (f: FileState)
    ensures writable ==> f.Present? && f.text.JsonText? && DecodeTasks(f.text.doc) == Some(ts)
    ensures !writable ==> f == before
  {
    DecodeEncodeTasks(ts);
    if writable then Present(JsonText(EncodeTasks(ts))) else before
  }

  /** A missing, unreadable or non-JSON file loads as the empty list. */
  lemma LoadFallsBack(f: FileState)
    requires f.Missing? || f.Unreadable? || f == Present(NotJson)
    ensures Loaded(f) == []
  {
  }

  /** A JSON document that is not a list of tasks loads as the empty list too. */
  lemma LoadIgnoresBadDocument(v: Value)
    requires DecodeTasks(v).None?
    ensures Loaded(Present(JsonText(v))) == []
  {
  }

  /** Saving and then loading gives back the saved list. */
  lemma SaveThenLoad(before: FileState, ts: seq<Task>)
    ensures Loaded(AfterSave(before, true, ts)) == ts
  {
    DecodeEncodeTasks(ts);
  }

  /** The file `todos.json` in the working directory. `writable` stands for
      whether the file system accepts a write. */
  class TodoFile {
    var state: FileState
    const writable: bool

    constructor (state: FileState, writable: bool)
      ensures this.state == state && this.writable == writable
    {
      this.state := state;
      this.writable := writable;
    }

    /** `load_tasks`. */
    method Load() returns (tasks: seq<Task>)
      ensures tasks == Loaded(state)
    {
      if state.Missing? {
        return [];
      }
      // `read_to_string` leaves the buffer empty when it fails, and the empty
      // text is not JSON
      var contents := NotJson;
      if state.Present? {
        contents := state.text;
      }
      var parsed := None;
      if contents.JsonText? {
        parsed := DecodeTasks(contents.doc);
      }
      tasks := parsed.UnwrapOr([]);
    }

    /** `save_tasks`: overwrites the file. A failed write panics, reported
        here as `ok == false`; the caller does not continue after it. */
    method Save(tasks: seq<Task>) returns (ok: bool)
      modifies this`state
      ensures ok == writable
      ensures state == AfterSave(old(state), writable, tasks)
    {
      ok := writable;
      if ok {
        state := Present(JsonText(EncodeTasks(tasks)));
      }
    }
  }
}
