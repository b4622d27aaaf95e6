/** The client-visible behaviour of `LRU` that tests/test_lru.py checks on
    generated inputs, stated for every input. */
module LruScenarios {
  import opened Base
  import opened Lru

  /** One `evict()` on a non-empty container, with only the facts the
      drain loops below need. */
  method EvictFront<K(==)>(lru: LRU<K>) returns (e: K)
    requires lru.Valid() && lru.Contents() != []
    modifies lru
    ensures lru.Valid()
    ensures e == old(lru.Contents())[0]
    ensures lru.Contents() == old(lru.Contents())[1..]
  {
    var r := lru.Evict();
    e := r.value;
  }

  /** A new container after `batch_update(l)`. */
  method Filled<K(==)>(l: seq<K>) returns (lru: LRU<K>)
    ensures fresh(lru) && lru.Valid()
    ensures lru.Contents() == TouchAll([], l)
  {
    lru := new LRU<K>();
    lru.BatchUpdate(l);
  }

  /** `n` successive `evict()` calls, collecting the evicted elements. */
  method Drain<K(==)>(lru: LRU<K>, n: nat) returns (evicted: seq<K>)
    requires lru.Valid() && n <= |lru.Contents()|
    modifies lru
    ensures lru.Valid()
    ensures evicted == old(lru.Contents())[..n]
    ensures lru.Contents() == old(lru.Contents())[n..]
  {
    ghost var c0 := lru.Contents();
    evicted := [];
    for k := 0 to n
      invariant lru.Valid()
      invariant lru.Contents() == c0[k..]
      invariant evicted == c0[..k]
    {
      var e := EvictFront(lru);
      assert c0[k..][1..] == c0[k + 1..];
      assert c0[..k + 1] == c0[..k] + [c0[k]];
      evicted := evicted + [e];
    }
  }

  /** `n` rounds of `evict()` on two distinct containers in turn. */
  method DrainBoth<K(==)>(lru1: LRU<K>, lru2: LRU<K>, n: nat) returns (evicted1: seq<K>, evicted2: seq<K>)
    requires lru1 != lru2 && lru1.Valid() && lru2.Valid()
    requires n <= |lru1.Contents()| && n <= |lru2.Contents()|
    modifies lru1, lru2
    ensures lru1.Valid() && lru2.Valid()
    ensures evicted1 == old(lru1.Contents())[..n]
    ensures evicted2 == old(lru2.Contents())[..n]
    ensures lru1.Contents() == old(lru1.Contents())[n..]
    ensures lru2.Contents() == old(lru2.Contents())[n..]
  {
    ghost var c1, c2 := lru1.Contents(), lru2.Contents();
    evicted1, evicted2 := [], [];
    for k := 0 to n
      invariant lru1.Valid() && lru2.Valid()
      invariant lru1.Contents() == c1[k..] && lru2.Contents() == c2[k..]
      invariant evicted1 == c1[..k] && evicted2 == c2[..k]
    {
      var a := EvictFront(lru1);
      var b := EvictFront(lru2);
      assert c1[k..][1..] == c1[k + 1..] && c2[k..][1..] == c2[k + 1..];
      assert c1[..k + 1] == c1[..k] + [a] && c2[..k + 1] == c2[..k] + [b];
      evicted1, evicted2 := evicted1 + [a], evicted2 + [b];
    }
  }

  /** Each element wrapped as a successful result. */
  function Oks<K>(xs: seq<K>): (r: seq<Result<K>>)
    ensures |r| == |xs| && forall k :: 0 <= k < |xs| ==> r[k] == Ok(xs[k])
  {
    if xs == [] then [] else Oks(xs[..|xs| - 1]) + [Ok(xs[|xs| - 1])]
  }

  /** `test_size`: after `batch_update(l)` on a new container its size is
      the number of distinct elements of `l`. */
  method SizeAfterBatchUpdate<K(==)>(l: seq<K>) returns (n: int)
    ensures n == |set x | x in l|
  {
    var lru := Filled(l);
    TouchAllKeys(l);
    n := lru.Size();
  }

  /** `test_update_evict`: a new container given one element gives it back. */
  method UpdateThenEvict<K(==)>(i: K) returns (r: Result<K>)
    ensures r == Ok(i)
  {
    var lru := new LRU<K>();
    lru.Update(i);
    assert lru.Contents() == [i] by {
      assert Without([], i) == [];
    }
    r := lru.Evict();
  }

  /** `test_copy`: a copy is a distinct object of the same size, and
      draining the original and the copy side by side evicts the same
      element from each, every time successfully, until both are empty. */
  method CopyThenDrain<K(==)>(l: seq<K>) returns (evicted1: seq<Result<K>>, evicted2: seq<Result<K>>, size1: int, size2: int)
    ensures evicted1 == evicted2
    ensures |evicted1| == |set x | x in l|
    ensures forall k :: 0 <= k < |evicted1| ==> evicted1[k].Ok?
    ensures size1 == size2 == 0
  {
    var lru1 := Filled(l);
    var lru2 := lru1.Copy();
    TouchAllKeys(l);
    var n := lru1.Size();
    var e1, e2 := DrainBoth(lru1, lru2, n);
    evicted1, evicted2 := Oks(e1), Oks(e2);
    size1 := lru1.Size();
    size2 := lru2.Size();
  }

  /** `test_lru_order`: draining a container filled by `batch_update(l)`
      evicts only elements of `l`, each distinct element once, ordered by
      where each last occurs in `l` (the test's `rfind`), and leaves it
      empty. */
  method DrainOrder<K(==)>(l: seq<K>) returns (evicted: seq<K>, size: int)
    ensures forall k :: 0 <= k < |evicted| ==> evicted[k] in l
    ensures forall x :: x in l ==> x in evicted
    ensures |evicted| == |set x | x in l|
    ensures forall k :: 0 <= k < |evicted| - 1 ==> LastIndex(l, evicted[k]) < LastIndex(l, evicted[k + 1])
    ensures size == 0
  {
    var lru := Filled(l);
    TouchAllKeys(l);
    TouchAllOrder(l);
    var n := lru.Size();
    evicted := Drain(lru, n);
    assert evicted == TouchAll([], l);
    size := lru.Size();
  }
}
