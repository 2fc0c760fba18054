/** The binary min-heap of buckets, with the position kept inside each bucket. */
module ExpiryQueue {
  import opened LimiterSpec

  /** One bucket: `state` groups its limiter, policy and times; `index` is its place in the queue. */
  class ClientLimiter {
    const key: string
    var state: Entry
    var index: int

    constructor (key: string, policy: Policy)
      ensures this.key == key && state == NewEntry(policy) && index == -1
    {
      this.key := key;
      this.state := NewEntry(policy);
      this.index := -1;
    }
  }

  function Parent(j: int): int
    requires j > 0
    ensures 0 <= Parent(j) < j
  {
    (j - 1) / 2
  }

  /** Every deadline is at or after its parent's, except the pairs that touch `hole`. */
  ghost predicate Ordered(a: seq<int>, n: int, hole: int)
    requires n <= |a|
  {
    && (forall j {:trigger Parent(j)} :: 0 < j < n && j != hole && Parent(j) != hole ==> a[Parent(j)] <= a[j])
    && (hole > 0 ==> forall j {:trigger Parent(j)} :: 0 < j < n && Parent(j) == hole ==> a[Parent(hole)] <= a[j])
  }

  ghost predicate IsHeap(a: seq<int>, n: int)
    requires n <= |a|
  {
    forall j {:trigger Parent(j)} :: 0 < j < n ==> a[Parent(j)] <= a[j]
  }

  /** The root of a heap is its minimum. */
  lemma {:induction false} RootIsLeast(a: seq<int>, j: nat)
    requires IsHeap(a, |a|) && j < |a|
    ensures a[0] <= a[j]
  {
    if j > 0 {
      RootIsLeast(a, Parent(j));
    }
  }

  /** Swapping a hole with its later parent moves the hole up one level. */
  lemma RiseKeepsOrder(a: seq<int>, b: seq<int>, j: nat)
    requires 0 < j < |a| && b == a[j := a[Parent(j)]][Parent(j) := a[j]]
    requires Ordered(a, |a|, j) && a[j] < a[Parent(j)]
    requires NoEarlierChild(a, |a|, j)
    ensures Ordered(b, |b|, Parent(j))
    ensures NoEarlierChild(b, |b|, Parent(j))
  {}

  /** The earlier of the two children, as `down` picks it. */
  ghost predicate Earliest(a: seq<int>, n: nat, i: nat, child: nat)
    requires n <= |a| && child < n
  {
    && (child == 2 * i + 1 || (child == 2 * i + 2 && a[child] < a[2 * i + 1]))
    && (child == 2 * i + 1 && 2 * i + 2 < n ==> a[child] <= a[2 * i + 2])
  }

  /** Swapping a hole with its earliest child moves the hole down one level. */
  lemma SinkKeepsOrder(a: seq<int>, b: seq<int>, n: nat, i: nat, child: nat)
    requires i < child < n <= |a| && Earliest(a, n, i, child)
    requires b == a[i := a[child]][child := a[i]]
    requires Ordered(a, n, i) && a[child] < a[i]
    ensures Ordered(b, n, child)
    ensures b[i] <= b[child]
  {}

  ghost predicate NoEarlierChild(a: seq<int>, n: nat, i: nat)
    requires i < |a| && n <= |a|
  {
    forall c {:trigger Parent(c)} :: 0 < c < n && Parent(c) == i ==> a[i] <= a[c]
  }

  /** No child is earlier when there is none, or when the earliest is not. */
  lemma ChildrenAreLater(a: seq<int>, n: nat, i: nat, child: nat)
    requires i < |a| && n <= |a|
    requires 2 * i + 1 >= n || (child < n && Earliest(a, n, i, child) && a[i] <= a[child])
    ensures NoEarlierChild(a, n, i)
  {}

  lemma HoleFilled(a: seq<int>, n: nat, i: nat)
    requires i < |a| && n <= |a| && Ordered(a, n, i) && NoEarlierChild(a, n, i)
    requires 0 < i < n ==> a[Parent(i)] <= a[i]
    ensures IsHeap(a, n)
  {}

  /** A new deadline at slot `i` leaves the rest of the heap in order. */
  lemma RekeyKeepsOrder(a: seq<int>, b: seq<int>, i: nat)
    requires i < |a| && |b| == |a| && IsHeap(a, |a|)
    requires forall j :: 0 <= j < |a| && j != i ==> b[j] == a[j]
    ensures Ordered(b, |b|, i)
  {}

  lemma RootSwappedOut(a: seq<int>, b: seq<int>)
    requires 0 < |a| && IsHeap(a, |a|)
    requires b == a[0 := a[|a| - 1]][|a| - 1 := a[0]]
    ensures Ordered(b, |b| - 1, 0)
  {}

  lemma AppendKeepsOrder(a: seq<int>, x: int)
    requires IsHeap(a, |a|)
    ensures Ordered(a + [x], |a| + 1, |a|) && NoEarlierChild(a + [x], |a| + 1, |a|)
  {}

  lemma PrefixIsHeap(a: seq<int>, n: nat)
    requires n <= |a| && IsHeap(a, n)
    ensures IsHeap(a[..n], n)
  {}

  class Queue {
    var slots: seq<ClientLimiter>
    /** The buckets in the queue, by key, with their values, and the deadlines that order them. */
    ghost var members: set<ClientLimiter>
    ghost var byKey: map<string, ClientLimiter>
    ghost var table: Table
    ghost var deadlines: seq<int>

    /** Back-pointers: slot `i` holds the member whose index is `i`, and every member has its slot. */
    ghost predicate Indexed()
      reads this`slots, this`members, this`deadlines, members`index
    {
      && |deadlines| == |slots|
      && (forall i :: 0 <= i < |slots| ==> slots[i] in members && slots[i].index == i)
      && (forall e <- members :: 0 <= e.index < |slots| && slots[e.index] == e)
    }

    /** No two buckets in the queue share a key. */
    ghost predicate Keyed()
      reads this`members, this`byKey, this`table
    {
      && table.Keys == byKey.Keys
      && (forall k <- byKey :: byKey[k].key == k && byKey[k] in members)
      && (forall e <- members :: e.key in byKey && byKey[e.key] == e)
    }

    /** `table` is what the buckets say, except perhaps about those in `stale`. */
    ghost predicate Tabled(stale: set<ClientLimiter>)
      reads this`members, this`byKey, this`table, members`state
    {
      forall k <- byKey :: byKey[k] in stale || (byKey[k] in members && k in table && table[k] == byKey[k].state)
    }

    /** `deadlines` is what the buckets say, except perhaps at slot `hole`. */
    ghost predicate Dated(hole: int)
      reads this`slots, this`members, this`deadlines, members`state
    {
      && |deadlines| == |slots|
      && forall i :: 0 <= i < |slots| && i != hole ==> slots[i] in members && slots[i].state.expiresAt == deadlines[i]
    }

    ghost predicate Valid()
      reads this, members`index, members`state
    {
      Indexed() && Keyed() && Tabled({}) && Dated(-1) && IsHeap(deadlines, |deadlines|)
    }

    constructor ()
      ensures Valid() && slots == [] && byKey == map[] && table == map[]
    {
      slots := [];
      members := {};
      byKey := map[];
      table := map[];
      deadlines := [];
    }

    predicate Less(i: nat, j: nat)
      requires i < |slots| && j < |slots|
      reads this, slots
    {
      slots[i].state.expiresAt < slots[j].state.expiresAt
    }

    method Swap(i: nat, j: nat)
      requires Indexed() && Dated(-1) && i < |slots| && j < |slots|
      modifies this`slots, this`deadlines, members`index
      ensures Indexed() && Dated(-1)
      ensures slots == old(slots[i := slots[j]][j := slots[i]])
      ensures deadlines == old(deadlines[i := deadlines[j]][j := deadlines[i]])
    {
      slots := slots[i := slots[j]][j := slots[i]];
      deadlines := deadlines[i := deadlines[j]][j := deadlines[i]];
      slots[i].index := i;
      slots[j].index := j;
    }

    /** `container/heap` up: the hole rises until its parent is no later. */
    method Up(start: nat)
      requires Indexed() && Dated(-1) && start < |slots|
      requires Ordered(deadlines, |deadlines|, start) && NoEarlierChild(deadlines, |deadlines|, start)
      modifies this`slots, this`deadlines, members`index
      ensures Indexed() && Dated(-1) && IsHeap(deadlines, |deadlines|) && |slots| == old(|slots|)
    {
      hide Ordered;
      hide NoEarlierChild;
      hide IsHeap;
      var j := start;
      while j > 0 && Less(j, Parent(j))
        invariant 0 <= j < |slots| == old(|slots|)
        invariant Indexed() && Dated(-1)
        invariant Ordered(deadlines, |deadlines|, j) && NoEarlierChild(deadlines, |deadlines|, j)
      {
        ghost var a := deadlines;
        Swap(j, Parent(j));
        RiseKeepsOrder(a, deadlines, j);
        j := Parent(j);
      }
      HoleFilled(deadlines, |deadlines|, j);
    }

    /** `container/heap` down over the first `n` slots: the hole sinks until no child is earlier. */
    method Down(start: nat, n: nat) returns (moved: bool)
      requires Indexed() && Dated(-1) && start < |slots| && n <= |slots|
      requires Ordered(deadlines, n, start)
      modifies this`slots, this`deadlines, members`index
      ensures Indexed() && Dated(-1) && |slots| == old(|slots|)
      ensures forall k :: n <= k < |slots| ==> slots[k] == old(slots)[k]
      ensures moved ==> IsHeap(deadlines, n)
      ensures !moved ==> deadlines == old(deadlines) && NoEarlierChild(deadlines, n, start)
    {
      hide Ordered;
      hide IsHeap;
      hide Earliest;
      hide NoEarlierChild;
      var i, child := start, start;
      while 2 * i + 1 < n
        invariant start <= i < |slots| == old(|slots|)
        invariant i == start || i < n
        invariant Indexed() && Dated(-1)
        invariant forall k :: n <= k < |slots| ==> slots[k] == old(slots)[k]
        invariant Ordered(deadlines, n, i)
        invariant i == start ==> deadlines == old(deadlines)
        invariant i > start ==> deadlines[Parent(i)] <= deadlines[i]
        decreases |slots| - i
      {
        child := EarlierChild(i, n);
        if !Less(child, i) { break; }
        Sink(i, child, n);
        i := child;
      }
      ChildrenAreLater(deadlines, n, i, child);
      moved := i > start;
      if moved { HoleFilled(deadlines, n, i); }
    }

    /** One level of `down`: the hole trades places with its earlier child. */
    method Sink(i: nat, child: nat, ghost n: nat)
      requires Indexed() && Dated(-1) && i < child < n <= |slots| && Earliest(deadlines, n, i, child)
      requires Ordered(deadlines, n, i) && Less(child, i)
      modifies this`slots, this`deadlines, members`index
      ensures Indexed() && Dated(-1)
      ensures slots == old(slots[i := slots[child]][child := slots[i]])
      ensures Ordered(deadlines, n, child)
      ensures |deadlines| == |slots| && deadlines[i] <= deadlines[child]
    {
      ghost var a := deadlines;
      Swap(i, child);
      SinkKeepsOrder(a, deadlines, n, i, child);
    }

    method EarlierChild(i: nat, n: nat) returns (child: nat)
      requires Dated(-1) && 2 * i + 1 < n <= |slots|
      ensures i < child < n && Earliest(deadlines, n, i, child)
      ensures Parent(child) == i
    {
      child := 2 * i + 1;
      if child + 1 < n && Less(child + 1, child) { child := child + 1; }
    }

    method Push(entry: ClientLimiter)
      requires Valid() && entry.key !in byKey
      modifies this, entry`index, members`index
      ensures Valid()
      ensures byKey == old(byKey)[entry.key := entry]
      ensures table == old(table)[entry.key := entry.state]
      ensures members == old(members) + {entry}
    {
      hide IsHeap;
      hide Ordered;
      hide NoEarlierChild;
      hide Queue.Tabled;
      hide Queue.Keyed;
      hide Queue.Indexed;
      hide Queue.Dated;
      Register(entry);
      Append(entry);
      Up(|slots| - 1);
    }

    /** The queue's own `Push`: a last slot. */
    method Append(entry: ClientLimiter)
      requires entry in members && entry !in slots
      requires forall i :: 0 <= i < |slots| ==> slots[i] in members && slots[i].index == i
      requires forall e <- members :: e == entry || (0 <= e.index < |slots| && slots[e.index] == e)
      requires Dated(-1) && IsHeap(deadlines, |deadlines|)
      modifies this`slots, this`deadlines, entry`index
      ensures Indexed() && Dated(-1)
      ensures |slots| > 0 && Ordered(deadlines, |deadlines|, |slots| - 1)
      ensures NoEarlierChild(deadlines, |deadlines|, |slots| - 1)
    {
      AppendKeepsOrder(deadlines, entry.state.expiresAt);
      hide IsHeap;
      hide Ordered;
      hide NoEarlierChild;
      entry.index := |slots|;
      slots := slots + [entry];
      deadlines := deadlines + [entry.state.expiresAt as int];
    }

    ghost method Register(entry: ClientLimiter)
      requires Indexed() && Keyed() && Tabled({}) && Dated(-1) && entry.key !in byKey
      modifies this`members, this`byKey, this`table
      ensures Keyed() && Tabled({}) && Dated(-1) && entry !in slots
      ensures forall i :: 0 <= i < |slots| ==> slots[i] in members && slots[i].index == i
      ensures forall e <- members :: e == entry || (0 <= e.index < |slots| && slots[e.index] == e)
      ensures byKey == old(byKey)[entry.key := entry]
      ensures table == old(table)[entry.key := entry.state]
      ensures members == old(members) + {entry}
    {
      members := members + {entry};
      byKey := byKey[entry.key := entry];
      table := table[entry.key := entry.state];
    }

    ghost method Forget(entry: ClientLimiter)
      requires Keyed() && Tabled({}) && entry in members
      modifies this`members, this`byKey, this`table
      ensures Keyed() && Tabled({})
      ensures byKey == old(byKey) - {entry.key}
      ensures table == old(table) - {entry.key}
      ensures members == old(members) - {entry}
    {
      members := members - {entry};
      byKey := byKey - {entry.key};
      table := table - {entry.key};
    }

    /** Restores the order after the bucket at slot `i` has changed. */
    method Fix(i: nat)
      requires Indexed() && Keyed() && i < |slots| && Dated(i) && Tabled({slots[i]}) && IsHeap(deadlines, |deadlines|)
      modifies this`slots, this`deadlines, this`table, members`index
      ensures Valid()
      ensures table == old(table[slots[i].key := slots[i].state])
    {
      hide Ordered;
      hide NoEarlierChild;
      hide Queue.Keyed;
      hide Queue.Tabled;
      Retable(i);
      var moved := Down(i, |slots|);
      if !moved { Up(i); }
    }

    ghost method Retable(i: nat)
      requires Indexed() && Keyed() && i < |slots| && Dated(i) && Tabled({slots[i]}) && IsHeap(deadlines, |deadlines|)
      modifies this`deadlines, this`table
      ensures Indexed() && Keyed() && Dated(-1) && Tabled({}) && Ordered(deadlines, |deadlines|, i)
      ensures table == old(table[slots[i].key := slots[i].state])
    {
      hide Ordered;
      ghost var a := deadlines;
      deadlines := deadlines[i := slots[i].state.expiresAt];
      table := table[slots[i].key := slots[i].state];
      RekeyKeepsOrder(a, deadlines, i);
    }

    method Pop() returns (entry: ClientLimiter)
      requires Valid() && |slots| > 0
      modifies this, members`index
      ensures Valid()
      ensures entry == old(slots[0]) && entry.index == -1
      ensures entry.key in old(byKey) && byKey == old(byKey) - {entry.key}
      ensures table == old(table) - {entry.key}
      ensures members == old(members) - {entry}
    {
      hide Ordered;
      hide IsHeap;
      hide Queue.Keyed;
      hide Queue.Tabled;
      var last := |slots| - 1;
      ghost var a := deadlines;
      Swap(0, last);
      RootSwappedOut(a, deadlines);
      var moved := Down(0, last);
      if !moved { HoleFilled(deadlines, last, 0); }
      entry := DropLast();
    }

    /** The queue's own `Pop`: the last slot, and all that is known about it, goes. */
    method DropLast() returns (entry: ClientLimiter)
      requires Indexed() && Keyed() && Tabled({}) && Dated(-1) && |slots| > 0
      requires IsHeap(deadlines, |slots| - 1)
      modifies this, members`index
      ensures Valid()
      ensures entry == old(slots[|slots| - 1]) && entry.index == -1
      ensures entry.key in old(byKey) && byKey == old(byKey) - {entry.key}
      ensures table == old(table) - {entry.key}
      ensures members == old(members) - {entry}
    {
      hide IsHeap;
      var last := |slots| - 1;
      entry := slots[last];
      PrefixIsHeap(deadlines, last);
      Forget(entry);
      slots := slots[..last];
      deadlines := deadlines[..last];
      entry.index := -1;
    }

    lemma TableIsQueued()
      requires Valid()
      ensures table != map[] ==> |slots| > 0
      ensures |table| == |byKey|
    {
      assert |table| == |table.Keys| == |byKey.Keys| == |byKey|;
    }

    /** The root of the heap has the earliest deadline of all. */
    lemma HeadIsLeast()
      requires Valid() && |slots| > 0
      ensures slots[0] in members && IsHead(table, slots[0].key)
      ensures slots[0].key in byKey && byKey[slots[0].key] == slots[0] && table[slots[0].key] == slots[0].state
    {
      forall k | k in table ensures table[slots[0].key].expiresAt <= table[k].expiresAt {
        RootIsLeast(deadlines, byKey[k].index);
      }
    }
  }
}
