/** The merge's priority queue: container/heap over recordHeap, smallest key first and, within a key, the newest table
    first. */
module RecordHeaps {
  import opened ByteStrings
  import opened Codec
  import opened SSTables

  datatype HeapItem = HeapItem(rec: Record, tableID: nat, iter: Iterator)

  /** recordHeap.Less on items. */
  predicate Before(a: HeapItem, b: HeapItem)
  {
    if a.rec.key != b.rec.key then Less(a.rec.key, b.rec.key) else a.tableID > b.tableID
  }

  /** b does not come before a. */
  predicate AtMost(a: HeapItem, b: HeapItem)
  {
    !Before(b, a)
  }

  lemma AtMostTransitive(a: HeapItem, b: HeapItem, c: HeapItem)
    requires AtMost(a, b) && AtMost(b, c)
    ensures AtMost(a, c)
  {
    hide Less;
    LessTotal(a.rec.key, b.rec.key);
    LessTotal(b.rec.key, c.rec.key);
    if Before(c, a) {
      if c.rec.key == a.rec.key {
        if a.rec.key != b.rec.key {
          LessAsymmetric(a.rec.key, b.rec.key);
        }
      } else {
        LessAsymmetric(c.rec.key, a.rec.key);
        if a.rec.key != b.rec.key && b.rec.key != c.rec.key {
          LessTransitive(a.rec.key, b.rec.key, c.rec.key);
        }
      }
    }
  }

  lemma BeforeAtMost(a: HeapItem, b: HeapItem)
    requires Before(a, b)
    ensures AtMost(a, b)
  {
    hide Less;
    if a.rec.key != b.rec.key {
      LessAsymmetric(a.rec.key, b.rec.key);
    }
  }

  lemma AtMostReflexive(a: HeapItem)
    ensures AtMost(a, a)
  {
  }

  function Parent(k: nat): nat
    requires k > 0
  {
    (k - 1) / 2
  }

  /** Every item is at most its children. */
  ghost predicate IsHeap(s: seq<HeapItem>)
  {
    forall k :: 0 < k < |s| ==> AtMost(s[Parent(k)], s[k])
  }

  /** The root of a heap comes first. */
  lemma {:induction false} RootIsFirst(s: seq<HeapItem>, k: nat)
    requires IsHeap(s) && k < |s|
    ensures AtMost(s[0], s[k])
  {
    hide AtMost;
    if k == 0 {
      AtMostReflexive(s[0]);
    } else {
      RootIsFirst(s, Parent(k));
      AtMostTransitive(s[0], s[Parent(k)], s[k]);
    }
  }

  function Swapped(s: seq<HeapItem>, i: nat, j: nat): (r: seq<HeapItem>)
    requires i < |s| && j < |s|
    ensures |r| == |s| && multiset(r) == multiset(s)
    ensures r[i] == s[j] && r[j] == s[i] && forall k :: 0 <= k < |s| && k != i && k != j ==> r[k] == s[k]
  {
    s[i := s[j]][j := s[i]]
  }

  /** Heap order everywhere except between j and its parent; j's parent is at most j's children. */
  ghost predicate UpBroken(s: seq<HeapItem>, j: nat)
  {
    && (forall k :: 0 < k < |s| && k != j ==> AtMost(s[Parent(k)], s[k]))
    && (forall k :: 0 < k < |s| && Parent(k) == j && j > 0 ==> AtMost(s[Parent(j)], s[k]))
  }

  lemma UpStep(s: seq<HeapItem>, j: nat)
    requires 0 < j < |s| && UpBroken(s, j) && Before(s[j], s[Parent(j)])
    ensures UpBroken(Swapped(s, Parent(j), j), Parent(j))
  {
    hide AtMost, Before;
    var i := Parent(j);
    var t := Swapped(s, i, j);
    BeforeAtMost(s[j], s[i]);
    forall k | 0 < k < |t| && k != i ensures AtMost(t[Parent(k)], t[k]) {
      if Parent(k) == i && k != j {
        AtMostTransitive(s[j], s[i], s[k]);
      }
    }
    forall k | 0 < k < |t| && Parent(k) == i && i > 0 ensures AtMost(t[Parent(i)], t[k]) {
      if k != j {
        AtMostTransitive(s[Parent(i)], s[i], s[k]);
      }
    }
  }

  /** Heap order everywhere except below i; i's parent is at most i's children. */
  ghost predicate DownBroken(s: seq<HeapItem>, i: nat)
  {
    && (forall k :: 0 < k < |s| && Parent(k) != i ==> AtMost(s[Parent(k)], s[k]))
    && (forall k :: 0 < k < |s| && Parent(k) == i && i > 0 ==> AtMost(s[Parent(i)], s[k]))
  }

  /** c is i's child and at most its sibling. */
  ghost predicate SmallerChild(s: seq<HeapItem>, i: nat, c: nat)
  {
    0 < c < |s| && Parent(c) == i && forall k :: 0 < k < |s| && Parent(k) == i ==> AtMost(s[c], s[k])
  }

  lemma DownStep(s: seq<HeapItem>, i: nat, c: nat)
    requires i < |s| && DownBroken(s, i) && SmallerChild(s, i, c) && Before(s[c], s[i])
    ensures DownBroken(Swapped(s, i, c), c)
  {
    hide AtMost, Before;
    var t := Swapped(s, i, c);
    BeforeAtMost(s[c], s[i]);
  }

  lemma DownDone(s: seq<HeapItem>, i: nat, c: nat)
    requires i < |s| && DownBroken(s, i) && SmallerChild(s, i, c) && AtMost(s[i], s[c])
    ensures IsHeap(s)
  {
    hide AtMost;
    forall k | 0 < k < |s| && Parent(k) == i ensures AtMost(s[i], s[k]) {
      AtMostTransitive(s[i], s[c], s[k]);
    }
  }

  class RecordHeap {
    var items: seq<HeapItem>

    constructor ()
      ensures items == []
    {
      items := [];
    }

    predicate Less(i: nat, j: nat)
      requires i < |items| && j < |items|
      reads this
    {
      Before(items[i], items[j])
    }

    /** container/heap up. */
    method Up(start: nat)
      requires start < |items| && UpBroken(items, start)
      modifies this
      ensures IsHeap(items) && multiset(items) == multiset(old(items))
    {
      hide AtMost, Before;
      var j: nat := start;
      while true
        invariant j < |items| && UpBroken(items, j) && multiset(items) == multiset(old(items))
        decreases j
      {
        if j == 0 || !Less(j, Parent(j)) {
          UpDone(items, j);
          return;
        }
        UpStep(items, j);
        items := Swapped(items, Parent(j), j);
        j := Parent(j);
      }
    }

    /** container/heap down, over all items. */
    method Down()
      requires items != [] && DownBroken(items, 0)
      modifies this
      ensures IsHeap(items) && multiset(items) == multiset(old(items))
    {
      hide AtMost, Before;
      var i: nat := 0;
      while true
        invariant i < |items| && DownBroken(items, i) && multiset(items) == multiset(old(items))
        decreases |items| - i
      {
        var j1: nat := 2 * i + 1;
        if j1 >= |items| {
          return;
        }
        var j: nat := j1;
        var j2: nat := j1 + 1;
        if j2 < |items| && Less(j2, j1) {
          j := j2;
        }
        ChosenChild(items, i, j);
        if !Less(j, i) {
          NotBeforeAtMost(items[j], items[i]);
          DownDone(items, i, j);
          return;
        }
        DownStep(items, i, j);
        items := Swapped(items, i, j);
        i := j;
      }
    }

    /** heap.Push: append, then up. */
    method Push(x: HeapItem)
      requires IsHeap(items)
      modifies this
      ensures IsHeap(items) && multiset(items) == multiset(old(items)) + multiset{x}
    {
      hide AtMost, Before;
      items := items + [x];
      Up(|items| - 1);
    }

    /** heap.Pop: swap the root to the end, down, cut the end off. */
    method Pop() returns (x: HeapItem)
      requires IsHeap(items) && items != []
      modifies this
      ensures IsHeap(items) && multiset(items) == multiset(old(items)) - multiset{x}
      ensures x == old(items)[0]
    {
      hide AtMost, Before;
      var n := |items| - 1;
      ghost var s := items;
      items := Swapped(items, 0, n);
      x := items[n];
      assert items == items[..n] + [x];
      items := items[..n];
      if n > 0 {
        Down();
      }
    }
  }

  lemma UpDone(s: seq<HeapItem>, j: nat)
    requires j < |s| && UpBroken(s, j) && (j == 0 || !Before(s[j], s[Parent(j)]))
    ensures IsHeap(s)
  {
    hide Before;
  }

  lemma NotBeforeAtMost(a: HeapItem, b: HeapItem)
    requires !Before(a, b)
    ensures AtMost(b, a)
  {
  }

  /** The child down picks. */
  lemma ChosenChild(s: seq<HeapItem>, i: nat, j: nat)
    requires 2 * i + 1 < |s|
    requires j == if 2 * i + 2 < |s| && Before(s[2 * i + 2], s[2 * i + 1]) then 2 * i + 2 else 2 * i + 1
    ensures SmallerChild(s, i, j)
  {
    hide Before;
    forall k | 0 < k < |s| && Parent(k) == i ensures AtMost(s[j], s[k]) {
      AtMostReflexive(s[k]);
      if k != j && j == 2 * i + 2 {
        BeforeAtMost(s[j], s[k]);
      }
    }
  }
}
