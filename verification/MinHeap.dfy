/** The order of a binary heap laid out in a sequence of priorities. */
module HeapOrder {
  function Parent(i: nat): nat
    requires i >= 1
  {
    (i - 1) / 2
  }

  ghost predicate Ordered(p: seq<nat>) {
    forall i :: 1 <= i < |p| ==> p[Parent(i)] <= p[i]
  }

  /** That is, no entry is larger than those at twice its place plus one and plus two. */
  lemma OrderedMeaning(p: seq<nat>)
    ensures Ordered(p) <==> forall i :: 0 <= i < |p| ==>
              (2 * i + 1 < |p| ==> p[i] <= p[2 * i + 1]) && (2 * i + 2 < |p| ==> p[i] <= p[2 * i + 2])
  {
    if Ordered(p) {
      forall i | 0 <= i < |p|
        ensures (2 * i + 1 < |p| ==> p[i] <= p[2 * i + 1]) && (2 * i + 2 < |p| ==> p[i] <= p[2 * i + 2])
      {
        assert Parent(2 * i + 1) == Parent(2 * i + 2) == i;
      }
    } else {
      var i :| 1 <= i < |p| && p[Parent(i)] > p[i];
      assert i == 2 * Parent(i) + 1 || i == 2 * Parent(i) + 2;
    }
  }

  /** Ordered except that `k` may be smaller than its parent. */
  ghost predicate UpTo(p: seq<nat>, k: nat) {
    && k < |p|
    && (forall i :: 1 <= i < |p| && i != k ==> p[Parent(i)] <= p[i])
    && (k >= 1 ==> forall i :: 1 <= i < |p| && Parent(i) == k ==> p[Parent(k)] <= p[i])
  }

  /** Ordered except that `k` may be larger than its children. */
  ghost predicate DownFrom(p: seq<nat>, k: nat) {
    && k < |p|
    && (forall i :: 1 <= i < |p| && Parent(i) != k ==> p[Parent(i)] <= p[i])
    && (k >= 1 ==> forall i :: 1 <= i < |p| && Parent(i) == k ==> p[Parent(k)] <= p[i])
  }

  function Swapped<T>(s: seq<T>, i: nat, j: nat): seq<T>
    requires i < |s| && j < |s|
  {
    s[i := s[j]][j := s[i]]
  }

  lemma UpSwap(p: seq<nat>, k: nat)
    requires UpTo(p, k) && k >= 1 && p[k] < p[Parent(k)]
    ensures UpTo(Swapped(p, k, Parent(k)), Parent(k))
  {
    var q, d := Swapped(p, k, Parent(k)), Parent(k);
    assert d >= 1 ==> p[Parent(d)] <= p[d];
    forall i | 1 <= i < |q| && i != d ensures q[Parent(i)] <= q[i] {
      assert i == k || Parent(i) == k || Parent(i) == d || (q[i] == p[i] && q[Parent(i)] == p[Parent(i)]);
      assert i != k ==> p[Parent(i)] <= p[i];
    }
    forall i | 1 <= i < |q| && Parent(i) == d && d >= 1 ensures q[Parent(d)] <= q[i] {
      assert i != k ==> p[Parent(i)] <= p[i];
    }
  }

  lemma UpDone(p: seq<nat>, k: nat)
    requires UpTo(p, k) && (k == 0 || p[Parent(k)] <= p[k])
    ensures Ordered(p)
  {
  }

  /** `c` is the smallest of `k` and its children. */
  ghost predicate Smallest(p: seq<nat>, k: nat, c: nat) {
    && k < |p| && c < |p| && (c == k || (c >= 1 && Parent(c) == k))
    && p[c] <= p[k] && forall i :: 1 <= i < |p| && Parent(i) == k ==> p[c] <= p[i]
  }

  lemma DownSwap(p: seq<nat>, k: nat, c: nat)
    requires DownFrom(p, k) && Smallest(p, k, c) && c != k
    ensures DownFrom(Swapped(p, k, c), c)
  {
    var q := Swapped(p, k, c);
    forall i | 1 <= i < |q| && Parent(i) != c ensures q[Parent(i)] <= q[i] {
      assert Parent(i) != k ==> p[Parent(i)] <= p[i];
      assert Parent(i) == k ==> p[c] <= p[i];
    }
    forall i | 1 <= i < |q| && Parent(i) == c ensures q[Parent(c)] <= q[i] {
      assert p[Parent(i)] <= p[i];
    }
  }

  lemma DownDone(p: seq<nat>, k: nat)
    requires DownFrom(p, k) && Smallest(p, k, k)
    ensures Ordered(p)
  {
  }

  lemma Appended(p: seq<nat>, v: nat)
    requires Ordered(p)
    ensures UpTo(p + [v], |p|)
  {
  }

  /** The children of `k` are at 2k+1 and 2k+2. */
  lemma Children(k: nat, i: nat)
    requires i >= 1
    ensures Parent(i) == k <==> i == 2 * k + 1 || i == 2 * k + 2
  {
  }

  /** The root of a heap is a minimum. */
  lemma {:induction false} RootIsMin(p: seq<nat>, i: nat)
    requires Ordered(p) && i < |p|
    ensures p[0] <= p[i]
  {
    if i > 0 {
      RootIsMin(p, Parent(i));
    }
  }

  /** Lowering one priority leaves only that entry to move up; raising it, only down. */
  lemma Lowered(p: seq<nat>, k: nat, v: nat)
    requires Ordered(p) && k < |p| && v <= p[k]
    ensures UpTo(p[k := v], k)
  {
    forall i | k >= 1 && 1 <= i < |p| && Parent(i) == k ensures p[Parent(k)] <= p[i] {
      assert p[Parent(k)] <= p[k] <= p[i];
    }
  }

  lemma Raised(p: seq<nat>, k: nat, v: nat)
    requires Ordered(p) && k < |p| && v >= p[k]
    ensures DownFrom(p[k := v], k)
  {
    forall i | k >= 1 && 1 <= i < |p| && Parent(i) == k ensures p[Parent(k)] <= p[i] {
      assert p[Parent(k)] <= p[k] <= p[i];
    }
  }

  /** Replacing the root by the last element, as extraction does. */
  lemma RootReplaced(p: seq<nat>)
    requires Ordered(p) && |p| >= 2
    ensures DownFrom(p[..|p| - 1][0 := p[|p| - 1]], 0)
  {
  }
}

/** The indexed min-heap: an array of entries, each knowing its own position. */
module MinHeap {
  import opened HeapOrder

  class Entry {
    const data: nat
    var priority: nat
    var index: nat

    constructor (data: nat, priority: nat, index: nat)
      ensures this.data == data && this.priority == priority && this.index == index
    {
      this.data, this.priority, this.index := data, priority, index;
    }
  }

  class Heap {
    var arr: array<Entry?>
    var size: nat
    ghost var all: set<Entry>      // every entry ever inserted
    ghost var stale: set<Entry>    // those extracted since

    /** The array and the entries agree on positions; extracted entries are out of it, at index 0. */
    ghost predicate Wired()
      reads this, arr, all
    {
      && size <= arr.Length && 1 <= arr.Length
      && (forall i :: 0 <= i < size ==> arr[i] != null && arr[i] in all && arr[i] !in stale && arr[i].index == i)
      && stale <= all
      && (forall e :: e in stale ==> e.index == 0)
      && (forall e :: e in all && e !in stale ==> e.index < size && arr[e.index] == e)
    }

    /** The priorities by position. */
    ghost function Pri(): (p: seq<nat>)
      requires Wired()
      reads this, arr, all
    {
      seq(size, i requires 0 <= i < size reads this, arr, all requires Wired() => arr[i].priority)
    }

    ghost predicate Valid()
      reads this, arr, all
    {
      Wired() && Ordered(Pri())
    }

    /** The entries in the heap. */
    ghost function Live(): set<Entry>
      reads this
    {
      all - stale
    }

    constructor (capacity: nat)
      requires 1 <= capacity
      ensures Valid() && all == {} && stale == {} && fresh(arr)
    {
      arr := new Entry?[capacity](_ => null);
      size, all, stale := 0, {}, {};
    }

    /** Exchanges two positions and the indices of their entries. */
    method Swap(i: nat, j: nat)
      requires Wired() && i < size && j < size && i != j
      modifies arr, all`index
      ensures Wired() && Pri() == Swapped(old(Pri()), i, j)
    {
      var a, b := arr[i], arr[j];
      arr[i], arr[j] := b, a;
      b.index := i;
      a.index := j;
      assert Pri() == Swapped(old(Pri()), i, j);
    }

    method BubbleUp(start: nat)
      requires Wired() && UpTo(Pri(), start)
      modifies arr, all`index
      ensures Valid()
      ensures start == 0 || old(Ordered(Pri())) ==> arr[..] == old(arr[..])
    {
      ghost var still := start == 0 || Ordered(Pri());
      var index := start;
      while index > 0
        invariant Wired() && UpTo(Pri(), index)
        invariant still ==> (index == 0 || Ordered(Pri())) && arr[..] == old(arr[..])
      {
        var parent := Parent(index);
        if arr[index].priority < arr[parent].priority {
          UpSwap(Pri(), index);
          Swap(index, parent);
          index := parent;
        } else {
          break;
        }
      }
      UpDone(Pri(), index);
    }

    /** The position of the smallest of an entry and its children, as `bubble_down` picks it. */
    method SmallestOf(index: nat) returns (smallest: nat)
      requires Wired() && index < size
      ensures Smallest(Pri(), index, smallest)
      ensures smallest != index ==> Pri()[smallest] < Pri()[index]
      ensures smallest in {index, 2 * index + 1, 2 * index + 2}
      ensures smallest == 2 * index + 2 ==> Pri()[smallest] < Pri()[2 * index + 1]
    {
      var left, right := 2 * index + 1, 2 * index + 2;
      smallest := index;
      if left < size && arr[left].priority < arr[smallest].priority {
        smallest := left;
      }
      if right < size && arr[right].priority < arr[smallest].priority {
        smallest := right;
      }
      Children(index, left);
      Children(index, right);
      forall i | 1 <= i < size && Parent(i) == index ensures Pri()[smallest] <= Pri()[i] {
        Children(index, i);
      }
    }

    /** One round of `bubble_down`: stays put, or changes places with the smallest child. */
    method StepDown(index: nat) returns (next: nat)
      requires Wired() && DownFrom(Pri(), index)
      modifies arr, all`index
      ensures Wired() && next < size
      ensures next == index ==> Ordered(Pri()) && arr[..] == old(arr[..])
      ensures next != index ==> next > index && DownFrom(Pri(), next) && !old(Ordered(Pri()))
      ensures next in {index, 2 * index + 1, 2 * index + 2}
      ensures next == 2 * index + 2 ==> old(Pri())[next] < old(Pri())[2 * index + 1]
    {
      next := SmallestOf(index);
      if next != index {
        SwapDown(index, next);
      } else {
        DownDone(Pri(), index);
      }
    }

    method SwapDown(index: nat, next: nat)
      requires Wired() && DownFrom(Pri(), index) && next < size && next != index
      requires Smallest(Pri(), index, next) && Pri()[next] < Pri()[index]
      modifies arr, all`index
      ensures Wired() && next < size
      ensures next > index && DownFrom(Pri(), next) && !old(Ordered(Pri()))
    {
      ghost var p := Pri();
      assert Parent(next) == index && p[Parent(next)] > p[next];
      DownSwap(p, index, next);
      Swap(index, next);
    }

    method BubbleDown(start: nat)
      requires Wired() && DownFrom(Pri(), start)
      modifies arr, all`index
      ensures Valid()
      ensures old(Ordered(Pri())) ==> arr[..] == old(arr[..])
    {
      ghost var ordered := Ordered(Pri());
      var index := start;
      while true
        invariant Wired() && DownFrom(Pri(), index)
        invariant ordered ==> Ordered(Pri()) && arr[..] == old(arr[..])
        decreases size - index
      {
        var next := StepDown(index);
        if next == index {
          return;
        }
        index := next;
      }
    }

    /** `minheap_realloc`: a doubled array with the same entries at the same positions. */
    method Grow()
      requires Wired()
      modifies this`arr
      ensures Wired() && Pri() == old(Pri()) && fresh(arr) && arr.Length == 2 * old(arr.Length)
      ensures arr[..size] == old(arr[..size])
    {
      var bigger := new Entry?[2 * arr.Length](_ => null);
      for i := 0 to size
        invariant arr == old(arr)
        invariant forall j :: 0 <= j < i ==> bigger[j] == arr[j]
      {
        bigger[i] := arr[i];
      }
      arr := bigger;
      assert Pri() == old(Pri());
    }

    method EnsureRoom()
      requires Wired()
      modifies this`arr
      ensures Wired() && Pri() == old(Pri()) && size < arr.Length
      ensures size < old(arr.Length) ==> arr == old(arr)
      ensures size == old(arr.Length) ==> fresh(arr) && arr.Length == 2 * old(arr.Length)
    {
      if size == arr.Length {
        Grow();
      }
    }

    /** Places a new entry after the last one. */
    method Append(e: Entry)
      requires Wired() && e !in all && size < arr.Length && e.index == size
      modifies this`size, this`all, arr
      ensures Wired() && Pri() == old(Pri()) + [e.priority] && size == old(size) + 1
      ensures all == old(all) + {e}
    {
      arr[size] := e;
      size := size + 1;
      all := all + {e};
      assert Pri() == old(Pri()) + [e.priority];
    }

    /**
     * `zn_minheap_insert`: adds exactly one entry, whose handle is returned; every other
     * handle stays valid and keeps its priority, also when the array grows.
     */
    method Insert(data: nat, priority: nat) returns (e: Entry)
      requires Valid()
      modifies this, arr, all`index
      ensures Valid() && fresh(e) && e.data == data && e.priority == priority
      ensures all == old(all) + {e} && stale == old(stale)
      ensures old(size) < old(arr.Length) ==> arr == old(arr)
      ensures old(size) == old(arr.Length) ==> fresh(arr) && arr.Length == 2 * old(arr.Length)
    {
      EnsureRoom();
      e := Place(data, priority);
    }

    /** The rest of the insertion, once there is room. */
    method Place(data: nat, priority: nat) returns (e: Entry)
      requires Valid() && size < arr.Length
      modifies this`size, this`all, arr, all`index
      ensures Valid() && fresh(e) && e.data == data && e.priority == priority
      ensures all == old(all) + {e}
    {
      e := new Entry(data, priority, size);
      Appended(Pri(), priority);
      Append(e);
      BubbleUp(e.index);
    }

    /** Drops the last position; the entry there must be the one being extracted, or moved to the root. */
    method RemoveRoot() returns (e: Entry)
      requires Wired() && size > 0
      modifies this`size, this`stale, arr, all`index
      ensures Wired() && size == old(size) - 1 && e == old(arr[0]) && e in old(Live())
      ensures stale == old(stale) + {e}
      ensures size > 0 ==> Pri() == old(Pri())[..size][0 := old(Pri())[size]]
    {
      e := arr[0];
      size := size - 1;
      stale := stale + {e};
      if size > 0 {
        arr[0] := arr[size];
        arr[0].index := 0;
      }
      assert size > 0 ==> Pri() == old(Pri())[..size][0 := old(Pri())[size]];
    }

    /**
     * `zn_minheap_extract_min`: null exactly when the heap is empty; otherwise an entry of
     * least priority, which leaves the heap while every other stays.
     */
    method ExtractMin() returns (e: Entry?)
      requires Valid()
      modifies this`size, this`stale, arr, all`index
      ensures Valid()
      ensures e == null <==> old(Live()) == {}
      ensures e == null ==> stale == old(stale)
      ensures e != null ==> e in old(Live()) && stale == old(stale) + {e}
      ensures e != null ==> forall x :: x in old(Live()) ==> e.priority <= x.priority
    {
      if size == 0 {
        return null;
      }
      ghost var p := Pri();
      assert arr[0] in Live();
      forall x | x in Live() ensures arr[0].priority <= x.priority {
        RootIsMin(p, x.index);
        assert p[x.index] == x.priority && p[0] == arr[0].priority;
      }
      e := RemoveRoot();
      if size > 0 {
        RootReplaced(p);
        BubbleDown(0);
      }
    }

    /** Overwrites a priority; the heap sees it only if the entry is in the heap. */
    method SetPriority(e: Entry, priority: nat)
      requires Wired() && e in all
      modifies e`priority
      ensures Wired() && e.priority == priority
      ensures Pri() == if e in stale then old(Pri()) else old(Pri())[e.index := priority]
    {
      e.priority := priority;
      assert Pri() == if e in stale then old(Pri()) else old(Pri())[e.index := priority];
    }

    /**
     * `zn_minheap_update_by_entry`: re-prioritises an entry in the heap, keeping the rest.
     * Given a handle already extracted it changes no position and no priority in the heap,
     * whatever happened since the extraction.
     */
    method UpdateByEntry(e: Entry?, priority: nat) returns (r: int)
      requires Valid() && (e != null ==> e in all)
      modifies arr, all`index, if e != null then {e} else {}
      ensures Valid()
      ensures r == 0 <==> e != null && size > 0
      ensures r in {0, -1}
      ensures r == 0 ==> e.priority == priority
      ensures r == -1 && e != null ==> e.priority == old(e.priority)
      ensures forall x :: x in all && x != e ==> x.priority == old(x.priority)
      ensures e == null || e in stale ==> arr[..] == old(arr[..])
    {
      if e == null || e.index >= size {
        return -1;
      }
      if priority < e.priority {
        Lower(e, priority);
      } else if priority > e.priority {
        Raise(e, priority);
      }
      return 0;
    }

    method Lower(e: Entry, priority: nat)
      requires Valid() && e in all && e.index < size && priority < e.priority
      modifies arr, all`index, e`priority
      ensures Valid() && e.priority == priority
      ensures e in stale ==> arr[..] == old(arr[..])
    {
      ghost var p := Pri();
      SetPriority(e, priority);
      if e !in stale {
        Lowered(p, e.index, priority);
      }
      BubbleUp(e.index);
    }

    method Raise(e: Entry, priority: nat)
      requires Valid() && e in all && e.index < size && priority > e.priority
      modifies arr, all`index, e`priority
      ensures Valid() && e.priority == priority
      ensures e in stale ==> arr[..] == old(arr[..])
    {
      ghost var p := Pri();
      SetPriority(e, priority);
      if e !in stale {
        Raised(p, e.index, priority);
      }
      BubbleDown(e.index);
    }
  }

  /** Draining the heap yields every entry exactly once, in order of priority. */
  method Drain(h: Heap) returns (es: seq<Entry>)
    requires h.Valid()
    modifies h, h.arr, h.all`index
    ensures h.Valid() && h.Live() == {}
    ensures forall e :: e in es <==> e in old(h.Live())
    ensures forall i, j :: 0 <= i < j < |es| ==> es[i] != es[j] && es[i].priority <= es[j].priority
  {
    es := [];
    while true
      invariant h.Valid() && h.arr == old(h.arr) && h.all == old(h.all)
      invariant h.Live() <= old(h.Live())
      invariant forall e :: e in es <==> e in old(h.Live()) && e !in h.Live()
      invariant forall i, j :: 0 <= i < j < |es| ==> es[i] != es[j] && es[i].priority <= es[j].priority
      invariant forall i, e :: 0 <= i < |es| && e in h.Live() ==> es[i].priority <= e.priority
      decreases h.Live()
    {
      var e := h.ExtractMin();
      if e == null {
        return;
      }
      assert forall x :: x in es + [e] <==> x in es || x == e;
      es := es + [e];
    }
  }
}
