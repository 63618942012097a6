/** Clients of the store: the save-then-reload round trip and three walkthroughs of adding, completing and reloading tasks. */
module Scenarios {

  import opened Options
  import opened Dates
  import opened Tasks
  import opened Snapshot
  import opened Manager

  /** Saving a store and starting a new one from the written file gives the same tasks and completed names. */
  method SaveAndReload(m: TaskManager) returns (copy: TaskManager)
    requires m.Valid()
    modifies m`file
    ensures copy.Valid() && copy.file == m.file
    ensures multiset(copy.heap) == multiset(m.heap) && copy.completed == m.completed
  {
    m.Save();
    SnapshotRoundTrip(m.file.doc, m.heap, m.completed);
    copy := new TaskManager(m.file);
  }

  /** A task waits for its dependency to be completed, then comes first by priority. */
  method DependencyWalkthrough() {
    var m := new TaskManager(Missing);
    assert LoadStatusOf(Missing) == NotFound;
    var a := Task(5, "A", [], None);
    var b := Task(1, "B", ["A"], None);
    assert m.heap == [] && m.completed == {};
    assert ReadDueDate(None) == Some(None) && NameSet([]) == {};
    var r := m.Add("A", 5);
    assert r == Added;
    assert multiset(m.heap) == multiset{a};
    assert |multiset(m.heap)| == 1 && m.heap[0] in multiset{a};
    assert NameSet(["A"]) - m.completed == {"A"};
    r := m.Add("B", 1, ["A"]);
    assert r == Rejected(UnmetDependencies({"A"}));
    ghost var pending := m.heap;
    assert pending == [a];
    var found := m.Complete("A");
    assert found by {
      assert pending[0].name == "A";
    }
    assert WithoutName([a], "A") == [];
    assert m.heap == [] && m.completed == {"A"};
    assert NameSet(["A"]) <= m.completed;
    r := m.Add("B", 1, ["A"]);
    assert r == Added;
    var top := m.Peek();
    assert top == Some(b) by {
      assert |multiset(m.heap)| == 1 && m.heap[0] in multiset{b};
    }
  }

  /** A task whose due date does not parse is refused and the store stays empty. */
  method MalformedDateWalkthrough() {
    var m := new TaskManager(Missing);
    assert LoadStatusOf(Missing) == NotFound;
    var r := m.Add("Y", 2, [], Some("not-a-date"));
    assert r == Rejected(BadDueDate);
    assert m.heap == [];
  }

  lemma ZeroPaddedDateRead()
    ensures ReadDueDate(Some("2025-01-15")) == Some(Some(Date(2025, 1, 15)))
  {
    assert "2025-01-15" == FormatDate(Date(2025, 1, 15));
    DateRoundTrip(Date(2025, 1, 15));
  }

  /** A task with a due date survives a save and a reload. */
  method DueDateWalkthrough() {
    var m := new TaskManager(Missing);
    assert LoadStatusOf(Missing) == NotFound;
    var x := Task(3, "X", [], Some(Date(2025, 1, 15)));
    var text := "2025-01-15";
    ZeroPaddedDateRead();
    assert m.heap == [];
    var r := m.Add("X", 3, [], Some(text));
    assert r == Added;
    assert multiset(m.heap) == multiset{x};
    var copy := SaveAndReload(m);
    var listed := copy.List();
    assert multiset(listed) == multiset{x};
    assert listed == [x] by {
      assert |listed| == 1 && listed[0] in multiset{x};
    }
  }
}
