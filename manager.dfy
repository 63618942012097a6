/**
 * The task store `GestorTareas` (ex2.py:6-122): a heap of pending tasks, the set
 * of completed names, and the task file it loads at start and rewrites after
 * every change. The file is held as a field standing for the content of
 * `tareas.json`.
 */
module Manager {

  import opened Options
  import opened Dates
  import opened Tasks
  import opened Heaps
  import opened Snapshot

  /** Why `agregar_tarea` refused a task; the missing dependencies are the set it reports. */
  datatype AddError = EmptyName | BadDueDate | UnmetDependencies(missing: set<string>)

  datatype AddOutcome = Added | Rejected(error: AddError)

  /** The tasks `completar_tarea` keeps: those with another name, in their order. */
  function WithoutName(s: seq<Task>, name: string): (r: seq<Task>)
    ensures forall t | t in r :: t in s && t.name != name
  {
    if s == [] then []
    else
      var last := s[|s| - 1];
      WithoutName(s[..|s| - 1], name) + (if last.name == name then [] else [last])
  }

  /** Completion drops every copy of every task with that name and keeps every other task as often as it was there. */
  lemma {:induction false} WithoutNameCount(s: seq<Task>, name: string, t: Task)
    ensures multiset(WithoutName(s, name))[t] == if t.name == name then 0 else multiset(s)[t]
  {
    if s != [] {
      var init := s[..|s| - 1];
      WithoutNameCount(init, name, t);
      assert s == init + [s[|s| - 1]];
    }
  }

  class TaskManager {
    /** `self.heap`: the pending tasks, kept as a binary heap. */
    var heap: seq<Task>
    /** `self.tareas_completadas`. */
    var completed: set<string>
    /** The content of the task file `self.archivo`. */
    var file: Stored

    ghost predicate Valid()
      reads this
    {
      IsHeap(heap) && DatesValid(heap)
    }

    /** `__init__`: an empty store that then loads the task file. */
    constructor (file: Stored)
      requires !CrashesOnLoad(file)
      ensures Valid() && this.file == file
      ensures LoadStatusOf(file) == Loaded ==>
                multiset(heap) == multiset(DecodeEntries(TaskEntries(file.doc)).value)
                && completed == NameSet(CompletedNames(file.doc))
      ensures LoadStatusOf(file) != Loaded ==> heap == [] && completed == {}
    {
      heap := [];
      completed := {};
      this.file := file;
      new;
      var status := Load();
    }

    /**
     * `cargar_tareas`: push every task of the file onto the heap and take its completed
     * names; a missing file, text that is not JSON, or an entry without one of the four
     * keys leaves both collections empty, whatever was pushed before.
     */
    method Load() returns (status: LoadStatus)
      requires Valid() && !CrashesOnLoad(file)
      modifies this`heap, this`completed
      ensures Valid()
      ensures status == LoadStatusOf(file)
      ensures status == Loaded ==>
                multiset(heap) == old(multiset(heap)) + multiset(DecodeEntries(TaskEntries(file.doc)).value)
                && completed == NameSet(CompletedNames(file.doc))
      ensures status != Loaded ==> heap == [] && completed == {}
    {
      match file
      case Missing =>
        heap, completed := [], {};
        status := NotFound;
      case Unparseable =>
        heap, completed := [], {};
        status := Malformed;
      case Json(doc) =>
        var entries := TaskEntries(doc);
        ghost var loaded: seq<Task> := [];
        assert entries[0..] == entries;
        if DecodeEntries(entries).Ok? {
          assert [] + DecodeEntries(entries).value == DecodeEntries(entries).value;
        }
        for i := 0 to |entries|
          invariant IsHeap(heap) && DatesValid(heap) && completed == old(completed)
          invariant multiset(heap) == old(multiset(heap)) + multiset(loaded)
          invariant DecodeEntries(entries) == Continue(loaded, DecodeEntries(entries[i..]))
        {
          DecodeStep(entries, i, loaded);
          match DecodeEntry(entries[i])
          case Err(MissingKey) =>
            heap, completed := [], {};
            return Malformed;
          case Err(BadDate) =>
            assert false;
          case Ok(t) =>
            ghost var before := heap;
            heap := HeapPush(heap, t);
            DatesValidSubMultiset(heap, before + [t]);
            loaded := loaded + [t];
        }
        assert entries[|entries|..] == [] && loaded + [] == loaded;
        assert DecodeEntries(entries) == Ok(loaded);
        completed := NameSet(CompletedNames(doc));
        status := Loaded;
    }

    /** `guardar_tareas`: overwrite the file with a snapshot of the whole store. */
    method Save()
      requires Valid()
      modifies this`file
      ensures file.Json? && IsSnapshot(file.doc, heap, completed)
    {
      var names := ListNames(completed);
      file := Json(Document(Some(EncodeTasks(heap)), Some(names)));
    }

    /**
     * `agregar_tarea`: refuse an empty name, a due date that does not parse, or a
     * dependency not yet completed, changing nothing; otherwise push the task and save.
     */
    method Add(name: string, priority: int, dependencies: seq<string> := [], dueDate: Option<string> := None)
      returns (outcome: AddOutcome)
      requires Valid()
      modifies this`heap, this`file
      ensures Valid() && completed == old(completed)
      ensures outcome == Added <==>
                name != "" && ReadDueDate(dueDate).Some? && NameSet(dependencies) <= completed
      ensures name == "" ==> outcome == Rejected(EmptyName)
      ensures name != "" && ReadDueDate(dueDate).None? ==> outcome == Rejected(BadDueDate)
      ensures name != "" && ReadDueDate(dueDate).Some? && !(NameSet(dependencies) <= completed) ==>
                outcome == Rejected(UnmetDependencies(NameSet(dependencies) - completed))
      ensures outcome == Added ==>
                multiset(heap) == old(multiset(heap)) + multiset{Task(priority, name, dependencies, ReadDueDate(dueDate).value)}
                && file.Json? && IsSnapshot(file.doc, heap, completed)
      ensures outcome != Added ==> heap == old(heap) && file == old(file)
    {
      if name == "" {
        return Rejected(EmptyName);
      }
      var due := ReadDueDate(dueDate);
      if due.None? {
        return Rejected(BadDueDate);
      }
      var wanted := NameSet(dependencies);
      if !(wanted <= completed) {
        return Rejected(UnmetDependencies(wanted - completed));
      }
      var task := Task(priority, name, dependencies, due.value);
      ghost var before := heap;
      heap := HeapPush(heap, task);
      DatesValidSubMultiset(heap, before + [task]);
      Save();
      outcome := Added;
    }

    /** `mostrar_tareas`: the pending tasks in ascending order; empty means "no pending tasks". */
    method List() returns (sorted: seq<Task>)
      ensures Sorted(sorted)
      ensures multiset(sorted) == multiset(heap)
    {
      sorted := SortTasks(heap);
    }

    /**
     * `completar_tarea`: if some pending task has this name, drop all of them, record
     * the name as completed, restore the heap and save; otherwise change nothing.
     */
    method Complete(name: string) returns (found: bool)
      requires Valid()
      modifies this`heap, this`completed, this`file
      ensures Valid()
      ensures found <==> exists i | 0 <= i < |old(heap)| :: old(heap)[i].name == name
      ensures found ==>
                multiset(heap) == multiset(WithoutName(old(heap), name))
                && completed == old(completed) + {name}
                && file.Json? && IsSnapshot(file.doc, heap, completed)
      ensures !found ==> heap == old(heap) && completed == old(completed) && file == old(file)
    {
      var pending := heap;
      var kept: seq<Task> := [];
      found := false;
      for i := 0 to |pending|
        invariant kept == WithoutName(pending[..i], name)
        invariant found <==> exists j | 0 <= j < i :: pending[j].name == name
        invariant completed == if found then old(completed) + {name} else old(completed)
        invariant heap == pending && file == old(file)
      {
        assert pending[..i + 1][..i] == pending[..i];
        if pending[i].name == name {
          found := true;
          completed := completed + {name};
        } else {
          kept := kept + [pending[i]];
        }
      }
      assert pending[..|pending|] == pending;
      if found {
        heap := Heapify(kept);
        assert DatesValid(kept);
        DatesValidSubMultiset(heap, kept);
        Save();
      }
    }

    /** `obtener_tarea_prioritaria`: the root of the heap, which no pending task precedes. */
    method Peek() returns (top: Option<Task>)
      requires Valid()
      ensures top.None? <==> heap == []
      ensures top.Some? ==> top.value == heap[0] && forall t | t in heap :: Le(top.value, t)
    {
      if heap == [] {
        return None;
      }
      forall t | t in heap
        ensures Le(heap[0], t)
      {
        var i :| 0 <= i < |heap| && heap[i] == t;
        HeapRootIsMin(heap, i);
      }
      top := Some(heap[0]);
    }
  }
}
