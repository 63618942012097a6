/**
 * The binary min-heap that `heapq` keeps in a Python list: every element is at
 * least its parent in the task order, so the root is a minimum. `HeapPush`
 * is `heapq.heappush` (ex2.py:23, ex2.py:82), `Heapify` is `heapq.heapify`
 * (ex2.py:110) and `SortTasks` is `sorted` (ex2.py:92).
 */
module Heaps {

  import opened Tasks

  /** The heap invariant for the parents from position `lo` on: each is at most its children. */
  predicate HeapFrom(h: seq<Task>, lo: nat) {
    forall p, c {:trigger Le(h[p], h[c])} | lo <= p < c < |h| && p == (c - 1) / 2 :: Le(h[p], h[c])
  }

  /** The heap invariant: every element is at least its parent, the one at `(c - 1) / 2`. */
  predicate IsHeap(h: seq<Task>) {
    HeapFrom(h, 0)
  }

  /**
   * The invariant while an element climbs from position `k`: it holds everywhere
   * except between `k` and its parent, and `k`'s parent is already at most `k`'s children.
   */
  predicate HeapExcept(h: seq<Task>, k: nat) {
    && (forall p, c {:trigger Le(h[p], h[c])} | 0 <= p < c < |h| && p == (c - 1) / 2 && c != k :: Le(h[p], h[c]))
    && (0 < k < |h| ==> forall c | k < c < |h| && (c - 1) / 2 == k :: Le(h[(k - 1) / 2], h[c]))
  }

  /** The root of a heap is at most every element. */
  lemma {:induction false} HeapRootIsMin(h: seq<Task>, i: nat)
    requires IsHeap(h) && i < |h|
    ensures Le(h[0], h[i])
    decreases i
  {
    if i == 0 {
      LeRefl(h[0]);
    } else {
      var p := (i - 1) / 2;
      HeapRootIsMin(h, p);
      assert Le(h[p], h[i]);
      LeTrans(h[0], h[p], h[i]);
    }
  }

  /** Swapping a too-small element with its parent moves the gap one level up. */
  lemma SwapWithParent(h: seq<Task>, k: nat)
    requires 0 < k < |h| && HeapExcept(h, k) && !Le(h[(k - 1) / 2], h[k])
    ensures HeapExcept(h[(k - 1) / 2 := h[k]][k := h[(k - 1) / 2]], (k - 1) / 2)
  {
    var p := (k - 1) / 2;
    var h' := h[p := h[k]][k := h[p]];
    LeTotal(h[p], h[k]);
    forall q, c | 0 <= q < c < |h'| && q == (c - 1) / 2 && c != p
      ensures Le(h'[q], h'[c])
    {
      if c == k {
      } else if q == k {
        assert Le(h[p], h[c]);
      } else if q == p {
        assert Le(h[p], h[c]);
        LeTrans(h[k], h[p], h[c]);
      } else {
        assert Le(h[q], h[c]);
      }
    }
    if 0 < p {
      var g := (p - 1) / 2;
      assert Le(h[g], h[p]);
      forall c | p < c < |h'| && (c - 1) / 2 == p
        ensures Le(h'[g], h'[c])
      {
        if c != k {
          assert Le(h[p], h[c]);
          LeTrans(h[g], h[p], h[c]);
        }
      }
    }
  }

  /** `heapq.heappush`: append, then let the new element climb while it is smaller than its parent. */
  method HeapPush(h: seq<Task>, t: Task) returns (r: seq<Task>)
    requires IsHeap(h)
    ensures IsHeap(r)
    ensures multiset(r) == multiset(h) + multiset{t}
  {
    r := h + [t];
    var k: nat := |h|;
    while 0 < k && !Le(r[(k - 1) / 2], r[k])
      invariant k < |r|
      invariant multiset(r) == multiset(h) + multiset{t}
      invariant HeapExcept(r, k)
      decreases k
    {
      var p := (k - 1) / 2;
      SwapWithParent(r, k);
      r := r[p := r[k]][k := r[p]];
      k := p;
    }
  }

  /**
   * The invariant while an element sinks from position `k` in the part of the heap
   * from `lo` on: it holds for every parent but `k`, and `k`'s parent (when it is in
   * that part) is already at most `k`'s children.
   */
  predicate SinkingAt(h: seq<Task>, lo: nat, k: nat) {
    && (forall p, c {:trigger Le(h[p], h[c])} | lo <= p < c < |h| && p == (c - 1) / 2 && p != k :: Le(h[p], h[c]))
    && (lo < k < |h| ==> forall c | k < c < |h| && (c - 1) / 2 == k :: Le(h[(k - 1) / 2], h[c]))
  }

  /** Swapping a too-large element with its smaller child moves the gap one level down. */
  lemma SwapWithChild(h: seq<Task>, lo: nat, k: nat, m: nat)
    requires lo <= k < m < |h| && (m - 1) / 2 == k && SinkingAt(h, lo, k)
    requires forall c | k < c < |h| && (c - 1) / 2 == k :: Le(h[m], h[c])
    requires !Le(h[k], h[m])
    ensures SinkingAt(h[k := h[m]][m := h[k]], lo, m)
  {
    var h' := h[k := h[m]][m := h[k]];
    LeTotal(h[k], h[m]);
    forall p, c | lo <= p < c < |h'| && p == (c - 1) / 2 && p != m
      ensures Le(h'[p], h'[c])
    {
      if p == k {
        if c != m {
          assert Le(h[m], h[c]);
        }
      } else if c == k {
        assert Le(h[(k - 1) / 2], h[m]);
      } else {
        assert Le(h[p], h[c]);
      }
    }
    forall c | m < c < |h'| && (c - 1) / 2 == m
      ensures Le(h'[k], h'[c])
    {
      assert Le(h[m], h[c]);
    }
  }

  /** The child heapq descends to: the right one when it is at most the left one, else the left one. */
  function SmallerChild(h: seq<Task>, k: nat): (m: nat)
    requires 2 * k + 1 < |h|
    ensures k < m < |h| && (m - 1) / 2 == k
    ensures forall c | k < c < |h| && (c - 1) / 2 == k :: Le(h[m], h[c])
  {
    var left, right := 2 * k + 1, 2 * k + 2;
    LeRefl(h[left]);
    if right < |h| then
      LeRefl(h[right]);
      if Le(h[right], h[left]) then right else LeTotal(h[left], h[right]); left
    else left
  }

  /** Once the sinking element is at most its children, the invariant holds from `lo` on. */
  lemma SinkDone(h: seq<Task>, lo: nat, k: nat)
    requires lo <= k < |h| && SinkingAt(h, lo, k)
    requires forall c | k < c < |h| && (c - 1) / 2 == k :: Le(h[k], h[c])
    ensures HeapFrom(h, lo)
  {
    forall p, c | lo <= p < c < |h| && p == (c - 1) / 2
      ensures Le(h[p], h[c])
    {
      if p != k {
        assert Le(h[p], h[c]);
      }
    }
  }

  /** heapq's `_siftup` as the textbook sift-down: the element at `lo` sinks below every smaller child. */
  method SiftDown(h: seq<Task>, lo: nat) returns (r: seq<Task>)
    requires lo < |h| && HeapFrom(h, lo + 1)
    ensures HeapFrom(r, lo)
    ensures multiset(r) == multiset(h) && |r| == |h|
  {
    r := h;
    var k := lo;
    while 2 * k + 1 < |r|
      invariant lo <= k < |r| && |r| == |h|
      invariant multiset(r) == multiset(h)
      invariant SinkingAt(r, lo, k)
      decreases |r| - k
    {
      var m := SmallerChild(r, k);
      if Le(r[k], r[m]) {
        forall c | k < c < |r| && (c - 1) / 2 == k
          ensures Le(r[k], r[c])
        {
          LeTrans(r[k], r[m], r[c]);
        }
        SinkDone(r, lo, k);
        return;
      }
      SwapWithChild(r, lo, k, m);
      r := r[k := r[m]][m := r[k]];
      k := m;
    }
    SinkDone(r, lo, k);
  }

  /** `heapq.heapify`: sift down every parent, the last one first, until the whole list is a heap. */
  method Heapify(s: seq<Task>) returns (r: seq<Task>)
    ensures IsHeap(r)
    ensures multiset(r) == multiset(s)
  {
    r := s;
    var i: nat := |s| / 2;
    while 0 < i
      invariant i <= |s| / 2 && |r| == |s|
      invariant HeapFrom(r, i)
      invariant multiset(r) == multiset(s)
    {
      i := i - 1;
      r := SiftDown(r, i);
    }
  }

  /** Put `x` after every element not above it, keeping the sequence sorted. */
  method InsertSorted(s: seq<Task>, x: Task) returns (r: seq<Task>)
    requires Sorted(s)
    ensures Sorted(r)
    ensures multiset(r) == multiset(s) + multiset{x}
  {
    var j := 0;
    while j < |s| && Le(s[j], x)
      invariant j <= |s|
      invariant forall k | 0 <= k < j :: Le(s[k], x)
    {
      j := j + 1;
    }
    r := s[..j] + [x] + s[j..];
    assert s == s[..j] + s[j..];
    if j < |s| {
      LeTotal(s[j], x);
    }
    forall a, b | 0 <= a < b < |r|
      ensures Le(r[a], r[b])
    {
      if b < j || a > j {
      } else if a < j && b == j {
      } else if a < j {
        assert r[b] == s[b - 1];
      } else if b - 1 > j {
        LeTrans(x, s[j], s[b - 1]);
      }
    }
  }

  /** `sorted`: the same elements in ascending task order. */
  method SortTasks(s: seq<Task>) returns (r: seq<Task>)
    ensures Sorted(r)
    ensures multiset(r) == multiset(s)
  {
    r := [];
    for i := 0 to |s|
      invariant Sorted(r)
      invariant multiset(r) == multiset(s[..i])
    {
      assert s[..i + 1] == s[..i] + [s[i]];
      r := InsertSorted(r, s[i]);
    }
    assert s[..|s|] == s;
  }
}
