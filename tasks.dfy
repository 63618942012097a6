/**
 * A pending task, the tuple `(prioridad, nombre, dependencias, fecha_vencimiento)`
 * the store keeps in its heap (ex2.py:82), and the order the heap and the
 * listing use: priority first (lower is more urgent), then the name.
 */
module Tasks {

  import opened Options
  import opened Dates

  datatype Task = Task(priority: int, name: string, dependencies: seq<string>, due: Option<Date>)

  /** Python's `<=` on `str`: lexicographic by code point, a proper prefix first. */
  predicate NameLe(a: string, b: string) {
    if a == [] then true
    else if b == [] then false
    else if a[0] != b[0] then a[0] < b[0]
    else NameLe(a[1..], b[1..])
  }

  lemma {:induction false} NameLeTotal(a: string, b: string)
    ensures NameLe(a, b) || NameLe(b, a)
  {
    if a != [] && b != [] && a[0] == b[0] {
      NameLeTotal(a[1..], b[1..]);
    }
  }

  lemma {:induction false} NameLeTrans(a: string, b: string, c: string)
    requires NameLe(a, b) && NameLe(b, c)
    ensures NameLe(a, c)
  {
    if a != [] && b != [] && c != [] && a[0] == b[0] && b[0] == c[0] {
      NameLeTrans(a[1..], b[1..], c[1..]);
    }
  }

  /**
   * The heap's and the listing's order: the first two components of the tuple.
   * Python goes on to compare dependencies and dates when both agree; this order
   * leaves such ties unordered.
   */
  predicate Le(a: Task, b: Task) {
    a.priority < b.priority || (a.priority == b.priority && NameLe(a.name, b.name))
  }

  lemma LeRefl(a: Task)
    ensures Le(a, a)
  {
    NameLeTotal(a.name, a.name);
  }

  lemma LeTotal(a: Task, b: Task)
    ensures Le(a, b) || Le(b, a)
  {
    NameLeTotal(a.name, b.name);
  }

  lemma LeTrans(a: Task, b: Task, c: Task)
    requires Le(a, b) && Le(b, c)
    ensures Le(a, c)
  {
    if a.priority == b.priority == c.priority {
      NameLeTrans(a.name, b.name, c.name);
    }
  }

  /** Every date held by a task is one `datetime` can represent. */
  predicate DatesValid(ts: seq<Task>) {
    forall t | t in ts :: t.due.Some? ==> ValidDate(t.due.value)
  }

  /** Rearranging or dropping tasks keeps their dates valid. */
  lemma DatesValidSubMultiset(a: seq<Task>, b: seq<Task>)
    requires DatesValid(b) && multiset(a) <= multiset(b)
    ensures DatesValid(a)
  {
    forall t | t in a
      ensures t.due.Some? ==> ValidDate(t.due.value)
    {
      assert t in multiset(a);
    }
  }

  /** Ascending in the task order, as `sorted(self.heap)` yields them. */
  predicate Sorted(s: seq<Task>) {
    forall i, j | 0 <= i < j < |s| :: Le(s[i], s[j])
  }
}
