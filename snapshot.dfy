/**
 * The persisted record: the JSON object `{"tareas": [...], "completadas": [...]}`
 * that `guardar_tareas` writes (ex2.py:43-53) and `cargar_tareas` reads back
 * (ex2.py:20-29), as values rather than text. A key that may be absent from the
 * object is an `Option`; a `null` date is `Some(None)`.
 */
module Snapshot {

  import opened Options
  import opened Dates
  import opened Tasks

  /** One element of `"tareas"`: the keys `prioridad`, `nombre`, `dependencias`, `fecha_vencimiento`. */
  datatype Entry = Entry(
    priority: Option<int>,
    name: Option<string>,
    dependencies: Option<seq<string>>,
    dueDate: Option<Option<string>>)

  /** The top-level object: the keys `tareas` and `completadas`. */
  datatype Document = Document(tasks: Option<seq<Entry>>, completed: Option<seq<string>>)

  /** The content of the task file: no file, text that is not JSON, or a parsed document. */
  datatype Stored = Missing | Unparseable | Json(doc: Document)

  /** The exceptions a task entry can raise while it is read: KeyError and ValueError. */
  datatype Failure = MissingKey | BadDate

  datatype Decoded<T> = Ok(value: T) | Err(failure: Failure)

  /** `datos.get("tareas", [])`. */
  function TaskEntries(doc: Document): (es: seq<Entry>)
    ensures doc.tasks.None? ==> es == []
    ensures doc.tasks.Some? ==> es == doc.tasks.value
  {
    if doc.tasks.Some? then doc.tasks.value else []
  }

  /** `datos.get("completadas", [])`. */
  function CompletedNames(doc: Document): (names: seq<string>)
    ensures doc.completed.None? ==> names == []
    ensures doc.completed.Some? ==> names == doc.completed.value
  {
    if doc.completed.Some? then doc.completed.value else []
  }

  /** `set(names)`. */
  function NameSet(names: seq<string>): (s: set<string>)
    ensures forall n :: n in s <==> n in names
  {
    set n | n in names
  }

  /** The entry lacks one of the four keys, so looking it up raises KeyError. */
  predicate LacksKey(e: Entry) {
    e.priority.None? || e.name.None? || e.dependencies.None? || e.dueDate.None?
  }

  /**
   * One task read back: all four keys must be present (the lookups raise KeyError
   * before the date is parsed); an empty or null date is no date; any other date
   * text must parse.
   */
  function DecodeEntry(e: Entry): (r: Decoded<Task>)
    ensures r == Err(MissingKey) <==> LacksKey(e)
    ensures r.Ok? ==> r.value.priority == e.priority.value && r.value.name == e.name.value
                      && r.value.dependencies == e.dependencies.value
    ensures r == Err(BadDate) <==> !LacksKey(e) && ReadDueDate(e.dueDate.value).None?
    ensures r.Ok? ==> ReadDueDate(e.dueDate.value) == Some(r.value.due)
    ensures r.Ok? ==> DatesValid([r.value])
  {
    if LacksKey(e) then Err(MissingKey)
    else match ReadDueDate(e.dueDate.value)
      case None => Err(BadDate)
      case Some(due) => Ok(Task(e.priority.value, e.name.value, e.dependencies.value, due))
  }

  /** The entries read in order: all of them, or the first exception raised. */
  function DecodeEntries(es: seq<Entry>): (r: Decoded<seq<Task>>)
    ensures r.Ok? ==> |r.value| == |es| && DatesValid(r.value)
    ensures r.Ok? <==> forall i | 0 <= i < |es| :: DecodeEntry(es[i]).Ok?
    ensures r.Ok? ==> forall i | 0 <= i < |es| :: r.value[i] == DecodeEntry(es[i]).value
    ensures r.Err? ==> exists i | 0 <= i < |es| ::
              DecodeEntry(es[i]) == Err(r.failure) && forall j | 0 <= j < i :: DecodeEntry(es[j]).Ok?
  {
    if es == [] then Ok([])
    else match DecodeEntry(es[0])
      case Err(f) => Err(f)
      case Ok(t) =>
        match DecodeEntries(es[1..])
        case Err(f) => Err(f)
        case Ok(ts) => Ok([t] + ts)
  }

  /** Reading the rest of the entries after `done` has been read from the first ones. */
  function Continue(done: seq<Task>, rest: Decoded<seq<Task>>): (r: Decoded<seq<Task>>)
    ensures r.Ok? <==> rest.Ok?
    ensures r.Ok? ==> |r.value| == |done| + |rest.value|
    ensures r.Err? ==> r.failure == rest.failure
  {
    match rest
    case Ok(ts) => Ok(done + ts)
    case Err(f) => Err(f)
  }

  /** Reading from entry `i` on: entry `i` first, then the rest, stopping at the first exception. */
  lemma DecodeStep(es: seq<Entry>, i: nat, done: seq<Task>)
    requires i < |es|
    ensures DecodeEntry(es[i]).Err? ==> Continue(done, DecodeEntries(es[i..])) == Err(DecodeEntry(es[i]).failure)
    ensures DecodeEntry(es[i]).Ok? ==>
              Continue(done, DecodeEntries(es[i..])) == Continue(done + [DecodeEntry(es[i]).value], DecodeEntries(es[i + 1..]))
  {
    assert es[i..][0] == es[i] && es[i..][1..] == es[i + 1..];
    if DecodeEntry(es[i]).Ok? && DecodeEntries(es[i + 1..]).Ok? {
      var t, ts := DecodeEntry(es[i]).value, DecodeEntries(es[i + 1..]).value;
      assert done + ([t] + ts) == (done + [t]) + ts;
    }
  }

  /** Loading this file raises the ValueError that `cargar_tareas` does not catch (ex2.py:27, ex2.py:30). */
  predicate CrashesOnLoad(file: Stored) {
    file.Json? && DecodeEntries(TaskEntries(file.doc)) == Err(BadDate)
  }

  /** Loading stops on a bad date exactly when the first entry that fails, fails on its date. */
  lemma CrashIsFirstFailure(doc: Document)
    ensures CrashesOnLoad(Json(doc)) <==>
              exists i | 0 <= i < |TaskEntries(doc)| ::
                DecodeEntry(TaskEntries(doc)[i]) == Err(BadDate)
                && forall j | 0 <= j < i :: DecodeEntry(TaskEntries(doc)[j]).Ok?
  {
  }

  /** The status `cargar_tareas` reports: tasks loaded, no file, or a malformed file reset to empty. */
  datatype LoadStatus = Loaded | NotFound | Malformed

  /** Which of the three outcomes loading `file` has (ex2.py:15-38). */
  function LoadStatusOf(file: Stored): (status: LoadStatus)
    requires !CrashesOnLoad(file)
    ensures status == NotFound <==> file.Missing?
    ensures status == Loaded <==> file.Json? && DecodeEntries(TaskEntries(file.doc)).Ok?
    ensures status == Malformed <==>
              file.Unparseable? || (file.Json? && DecodeEntries(TaskEntries(file.doc)) == Err(MissingKey))
  {
    match file
    case Missing => NotFound
    case Unparseable => Malformed
    case Json(doc) => if DecodeEntries(TaskEntries(doc)).Ok? then Loaded else Malformed
  }

  /** An entry without one of its keys makes the whole file malformed, however many entries are fine. */
  lemma MissingKeyRejectsFile(doc: Document, i: nat)
    requires !CrashesOnLoad(Json(doc))
    requires i < |TaskEntries(doc)| && LacksKey(TaskEntries(doc)[i])
    ensures LoadStatusOf(Json(doc)) == Malformed
  {
  }

  /** An object without `tareas` or without `completadas` reads as if that list were empty. */
  lemma MissingTopLevelKeys(doc: Document)
    ensures doc.tasks.None? ==> LoadStatusOf(Json(doc)) == Loaded && DecodeEntries(TaskEntries(doc)) == Ok([])
    ensures doc.completed.None? ==> NameSet(CompletedNames(doc)) == {}
  {
  }

  /** `list(completed)`: every name once, in an order the set does not fix (ex2.py:53). */
  method ListNames(completed: set<string>) returns (names: seq<string>)
    ensures NameSet(names) == completed
    ensures |names| == |completed|
  {
    names := [];
    var rest := completed;
    ghost var listed: set<string> := {};
    while rest != {}
      invariant listed == completed - rest && rest <= completed
      invariant NameSet(names) == listed && |names| == |listed|
      decreases |rest|
    {
      var n :| n in rest;
      assert n !in listed;
      names, listed := names + [n], listed + {n};
      rest := rest - {n};
    }
  }

  /** One task as written: the date as `YYYY-MM-DD` text or `null`. */
  function EncodeTask(t: Task): (e: Entry)
    requires t.due.Some? ==> ValidDate(t.due.value)
    ensures !LacksKey(e)
    ensures e.priority.value == t.priority && e.name.value == t.name && e.dependencies.value == t.dependencies
    ensures t.due.None? <==> e.dueDate.value.None?
  {
    Entry(Some(t.priority), Some(t.name), Some(t.dependencies),
          Some(if t.due.Some? then Some(FormatDate(t.due.value)) else None))
  }

  /** A present due date is written as its `YYYY-MM-DD` text (ex2.py:49). */
  lemma EncodeTaskWritesDate(t: Task)
    requires t.due.Some? ==> ValidDate(t.due.value)
    ensures t.due.Some? ==> EncodeTask(t).dueDate.value == Some(FormatDate(t.due.value))
  {
  }

  /** The list comprehension over the heap, in heap order. */
  function EncodeTasks(ts: seq<Task>): (es: seq<Entry>)
    requires DatesValid(ts)
    ensures |es| == |ts|
    ensures forall i | 0 <= i < |ts| :: es[i] == EncodeTask(ts[i])
  {
    seq(|ts|, i requires 0 <= i < |ts| => EncodeTask(ts[i]))
  }

  /** `doc` is what saving a store with these pending tasks and completed names writes. */
  predicate IsSnapshot(doc: Document, pending: seq<Task>, completed: set<string>) {
    && DatesValid(pending)
    && doc.tasks == Some(EncodeTasks(pending))
    && doc.completed.Some?
    && NameSet(doc.completed.value) == completed
    && |doc.completed.value| == |completed|
  }

  /** Reading a written task gives back the same task. */
  lemma EntryRoundTrip(t: Task)
    requires t.due.Some? ==> ValidDate(t.due.value)
    ensures DecodeEntry(EncodeTask(t)) == Ok(t)
  {
    if t.due.Some? {
      DateRoundTrip(t.due.value);
    }
  }

  /** Reading written tasks gives back the same tasks, in the same order. */
  lemma {:induction false} EntriesRoundTrip(ts: seq<Task>)
    requires DatesValid(ts)
    ensures DecodeEntries(EncodeTasks(ts)) == Ok(ts)
  {
    if ts != [] {
      var es := EncodeTasks(ts);
      assert ts[0] in ts && es[0] == EncodeTask(ts[0]);
      EntryRoundTrip(ts[0]);
      assert DatesValid(ts[1..]) by {
        forall t | t in ts[1..] ensures t.due.Some? ==> ValidDate(t.due.value) {
          assert t in ts;
        }
      }
      EntriesRoundTrip(ts[1..]);
      assert es[1..] == EncodeTasks(ts[1..]);
      assert DecodeEntries(es) == Ok([ts[0]] + ts[1..]);
      assert [ts[0]] + ts[1..] == ts;
    }
  }

  /** A written snapshot reads back without an error, with the same tasks and the same completed names. */
  lemma SnapshotRoundTrip(doc: Document, pending: seq<Task>, completed: set<string>)
    requires IsSnapshot(doc, pending, completed)
    ensures !CrashesOnLoad(Json(doc))
    ensures DecodeEntries(TaskEntries(doc)) == Ok(pending)
    ensures NameSet(CompletedNames(doc)) == completed
  {
    EntriesRoundTrip(pending);
  }
}
