/** Least-recently-used order as a sequence: the head is the oldest. */
module LruSpec {
  import opened Types

  /** The sequence with one element taken out, the rest in order. */
  function Without<K(==)>(q: seq<K>, k: K): seq<K> {
    if q == [] then []
    else if q[0] == k then q[1..]
    else [q[0]] + Without(q[1..], k)
  }

  /** A use of `k` moves it to the tail; a use of something not listed changes nothing. */
  function Touch<K(==)>(q: seq<K>, k: K): seq<K> {
    if k in q then Without(q, k) + [k] else q
  }

  lemma {:induction false} WithoutAt<K>(q: seq<K>, k: K, i: nat)
    requires NoDup(q) && i < |q| && q[i] == k
    ensures Without(q, k) == q[..i] + q[i + 1..]
  {
    if i > 0 {
      assert q[0] != k;
      assert NoDup(q[1..]) && q[1..][i - 1] == k;
      WithoutAt(q[1..], k, i - 1);
      assert q[..i] == [q[0]] + q[1..][..i - 1];
      assert q[1..][i - 1 + 1..] == q[i + 1..];
    } else {
      assert q[..0] + q[1..] == q[1..];
    }
  }

  lemma WithoutKeeps<K>(q: seq<K>, k: K)
    requires NoDup(q) && k in q
    ensures NoDup(Without(q, k)) && |Without(q, k)| == |q| - 1
    ensures forall x :: x in Without(q, k) <==> x in q && x != k
  {
    var i :| 0 <= i < |q| && q[i] == k;
    WithoutAt(q, k, i);
    var r := Without(q, k);
    assert forall j :: 0 <= j < |r| ==> r[j] == q[if j < i then j else j + 1];
    forall x | x in q && x != k ensures x in r {
      var j :| 0 <= j < |q| && q[j] == x;
      assert r[if j < i then j else j - 1] == x;
    }
  }

  lemma {:induction false} WithoutMultiset<K>(q: seq<K>, k: K)
    requires k in q
    ensures multiset(Without(q, k)) == multiset(q) - multiset{k}
  {
    assert q == [q[0]] + q[1..];
    if q[0] != k {
      WithoutMultiset(q[1..], k);
    }
  }

  lemma TouchMultiset<K>(q: seq<K>, k: K)
    ensures multiset(Touch(q, k)) == multiset(q)
  {
    if k in q {
      WithoutMultiset(q, k);
    }
  }

  lemma {:induction false} WithoutLength<K>(q: seq<K>, k: K)
    requires k in q
    ensures |Without(q, k)| == |q| - 1
  {
    if q[0] != k {
      WithoutLength(q[1..], k);
    }
  }

  /** A use keeps the list as long as it was. */
  lemma TouchLength<K>(q: seq<K>, k: K)
    ensures |Touch(q, k)| == |q|
  {
    if k in q {
      WithoutLength(q, k);
    }
  }

  /** A use keeps the list duplicate-free and its members the same. */
  lemma TouchKeeps<K>(q: seq<K>, k: K)
    requires NoDup(q)
    ensures NoDup(Touch(q, k)) && |Touch(q, k)| == |q|
    ensures forall x :: x in Touch(q, k) <==> x in q
  {
    if k in q {
      WithoutKeeps(q, k);
    }
  }
}

/**
 * The list both policies keep: a queue of links, with a hash index from each key to its
 * link so that a use can unlink it without a search.
 */
module LruList {
  import opened Types
  import opened LruSpec

  /** A list node; its identity is what the index stores. */
  class Link<K> {
    const key: K

    constructor (key: K)
      ensures this.key == key
    {
      this.key := key;
    }
  }

  ghost function KeysOf<K>(q: seq<Link<K>>): seq<K> {
    seq(|q|, i requires 0 <= i < |q| => q[i].key)
  }

  lemma LinksDiffer<K>(q: seq<Link<K>>)
    requires NoDup(KeysOf(q))
    ensures NoDup(q)
  {
    forall i, j | 0 <= i < j < |q| ensures q[i] != q[j] {
      assert KeysOf(q)[i] == q[i].key && KeysOf(q)[j] == q[j].key;
    }
  }

  lemma KeysAround<K>(q: seq<Link<K>>, i: nat)
    requires i < |q|
    ensures KeysOf(q[..i] + q[i + 1..]) == KeysOf(q)[..i] + KeysOf(q)[i + 1..]
  {
  }

  /** Unlinking a node takes its key out of the sequence of keys. */
  lemma UnlinkKeys<K>(q: seq<Link<K>>, n: Link<K>)
    requires n in q && NoDup(KeysOf(q))
    ensures KeysOf(Without(q, n)) == Without(KeysOf(q), n.key)
  {
    var i :| 0 <= i < |q| && q[i] == n;
    LinksDiffer(q);
    WithoutAt(q, n, i);
    assert KeysOf(q)[i] == n.key;
    WithoutAt(KeysOf(q), n.key, i);
    KeysAround(q, i);
  }

  class List<K(==)> {
    var queue: seq<Link<K>>
    var index: map<K, Link?<K>>

    /** Each key's index entry is its own link; a key not listed has none, or null. */
    ghost predicate Valid()
      reads this
    {
      && (forall i :: 0 <= i < |queue| ==> queue[i].key in index && index[queue[i].key] == queue[i])
      && (forall k :: k in index && index[k] != null ==> index[k] in queue && index[k].key == k)
      && NoDup(queue)
    }

    ghost function Keys(): seq<K>
      reads this
    {
      KeysOf(queue)
    }

    lemma KeysDiffer()
      requires Valid()
      ensures NoDup(Keys())
      ensures forall k :: k in Keys() <==> k in index && index[k] != null
    {
      assert forall i :: 0 <= i < |queue| ==> Keys()[i] == queue[i].key;
      forall k | k in index && index[k] != null ensures k in Keys() {
        var i :| 0 <= i < |queue| && queue[i] == index[k];
        assert Keys()[i] == k;
      }
    }

    constructor ()
      ensures Valid() && Keys() == []
    {
      queue, index := [], map[];
    }

    /** Pushes a key at the tail and indexes its link. */
    method PushTail(k: K)
      requires Valid() && k !in Keys()
      modifies this
      ensures Valid() && Keys() == old(Keys()) + [k]
    {
      KeysDiffer();
      assert forall i :: 0 <= i < |queue| ==> queue[i].key != k;
      var n := new Link(k);
      queue := queue + [n];
      index := index[k := n];
      assert Keys() == old(Keys()) + [k];
    }

    /** A use of a listed key unlinks its node and pushes a new one at the tail. */
    method Use(k: K)
      requires Valid()
      modifies this
      ensures Valid() && Keys() == Touch(old(Keys()), k)
    {
      KeysDiffer();
      if k in index && index[k] != null {
        var n := index[k];
        Unlink(n);
        PushTail(k);
      }
    }

    /** `g_queue_delete_link` with the index entry cleared. */
    method Unlink(n: Link<K>)
      requires Valid() && n in queue
      modifies this
      ensures Valid() && Keys() == Without(old(Keys()), n.key) && n.key !in Keys()
    {
      KeysDiffer();
      UnlinkKeys(queue, n);
      WithoutKeeps(queue, n);
      WithoutKeeps(Keys(), n.key);
      queue := Without(queue, n);
      index := index[n.key := null];
      assert forall i :: 0 <= i < |queue| ==> queue[i] in old(queue) && queue[i] != n;
    }

    /** Takes the least recently used key off the list; its index entry becomes null. */
    method PopHead() returns (k: K)
      requires Valid() && Keys() != []
      modifies this
      ensures Valid() && k == old(Keys())[0] && Keys() == old(Keys())[1..]
    {
      var n := queue[0];
      k := n.key;
      assert Without(queue, n) == queue[1..];
      Unlink(n);
    }
  }
}
