/** The least-recently-used container of fetcher/lru.py.

    Slots live in an append-only sequence; each holds a key or a tombstone
    (`_DUMMY_CELL`). Promoting a key tombstones its old slot and appends a new
    one, so the live keys in slot order are the keys from least to most
    recently used. An indexer maps every live key to its slot, a counter
    tracks the tombstones, and a scan offset remembers that every slot below
    it is a tombstone. Once more than `LruMaxDummyCellNum` tombstones exist
    the slot sequence is compacted. */
module Lru {
  import opened Base

  /** `LRU_MAX_DUMMY_CELL_NUM`. */
  const LruMaxDummyCellNum: nat := 200

  /** A slot of `_storage`: a key, or the tombstone `_DUMMY_CELL`. */
  datatype Slot<K> = Live(key: K) | Dummy

  // ---------------------------------------------------------------------------
  // The abstract recency list: keys from least to most recently used

  predicate Distinct<K(==)>(xs: seq<K>) {
    forall i, j :: 0 <= i < j < |xs| ==> xs[i] != xs[j]
  }

  /** `xs` with every occurrence of `k` removed, the rest in order. */
  function Without<K(==)>(xs: seq<K>, k: K): (r: seq<K>)
    ensures |r| <= |xs|
  {
    if xs == [] then []
    else Without(xs[..|xs| - 1], k) + (if xs[|xs| - 1] == k then [] else [xs[|xs| - 1]])
  }

  /** The recency list after promoting `k`: `k` moves to (or joins at) the
      most recent end. */
  function Touch<K(==)>(xs: seq<K>, k: K): seq<K>
  {
    Without(xs, k) + [k]
  }

  /** The recency list after promoting each key of `l` in order. */
  function TouchAll<K(==)>(xs: seq<K>, l: seq<K>): seq<K>
  {
    if l == [] then xs else Touch(TouchAll(xs, l[..|l| - 1]), l[|l| - 1])
  }

  /** The index of the last occurrence of `x` in `l` (the source's test helper `rfind`). */
  function LastIndex<K(==)>(l: seq<K>, x: K): (i: nat)
    requires x in l
    ensures i < |l| && l[i] == x
    ensures forall j :: i < j < |l| ==> l[j] != x
  {
    if l[|l| - 1] == x then |l| - 1 else LastIndex(l[..|l| - 1], x)
  }

  /** Every element of `r` occurs in `l`, and `r` lists them by increasing
      last occurrence in `l`. */
  predicate InLastTouchOrder<K(==)>(r: seq<K>, l: seq<K>) {
    && (forall p :: 0 <= p < |r| ==> r[p] in l)
    && (forall p, q :: 0 <= p < q < |r| && r[p] in l && r[q] in l ==>
          LastIndex(l, r[p]) < LastIndex(l, r[q]))
  }

  lemma {:induction false} WithoutMember<K>(xs: seq<K>, k: K, x: K)
    ensures x in Without(xs, k) <==> x in xs && x != k
  {
    if xs != [] {
      WithoutMember(xs[..|xs| - 1], k, x);
      assert xs == xs[..|xs| - 1] + [xs[|xs| - 1]];
    }
  }

  lemma {:induction false} WithoutAppend<K>(a: seq<K>, b: seq<K>, k: K)
    ensures Without(a + b, k) == Without(a, k) + Without(b, k)
  {
    if b == [] {
      assert a + b == a;
    } else {
      var b' := b[..|b| - 1];
      assert (a + b)[..|a + b| - 1] == a + b';
      WithoutAppend(a, b', k);
    }
  }

  lemma {:induction false} WithoutAbsent<K>(xs: seq<K>, k: K)
    requires k !in xs
    ensures Without(xs, k) == xs
  {
    if xs != [] {
      WithoutAbsent(xs[..|xs| - 1], k);
    }
  }

  /** Removing the only occurrence of `k`, at index `j`, closes the gap. */
  lemma {:induction false} WithoutAt<K>(xs: seq<K>, j: nat)
    requires j < |xs| && Distinct(xs)
    ensures Without(xs, xs[j]) == xs[..j] + xs[j + 1..]
  {
    var n := |xs|;
    var xs' := xs[..n - 1];
    if j == n - 1 {
      assert xs[j] !in xs';
      WithoutAbsent(xs', xs[j]);
      assert xs[..j] + xs[j + 1..] == xs';
    } else {
      WithoutAt(xs', j);
      assert xs'[..j] == xs[..j];
      assert xs'[j + 1..] + [xs[n - 1]] == xs[j + 1..];
    }
  }

  lemma {:induction false} WithoutDistinct<K>(xs: seq<K>, k: K)
    requires Distinct(xs)
    ensures Distinct(Without(xs, k))
  {
    if xs != [] {
      var xs' := xs[..|xs| - 1];
      WithoutDistinct(xs', k);
      assert xs[|xs| - 1] !in xs';
      WithoutMember(xs', k, xs[|xs| - 1]);
    }
  }

  lemma TouchDistinct<K>(xs: seq<K>, k: K)
    requires Distinct(xs)
    ensures Distinct(Touch(xs, k))
  {
    WithoutDistinct(xs, k);
    WithoutMember(xs, k, k);
  }

  lemma SameElements<K>(a: seq<K>, b: seq<K>)
    requires forall x :: x in a <==> x in b
    ensures (set x | x in a) == (set x | x in b)
  {
  }

  lemma KeysAreElements<K>(a: seq<K>, m: map<K, nat>)
    requires forall x :: x in a <==> x in m
    ensures m.Keys == (set x | x in a)
  {
  }

  lemma {:induction false} DistinctCard<K>(xs: seq<K>)
    requires Distinct(xs)
    ensures |set x | x in xs| == |xs|
  {
    if xs != [] {
      var xs' := xs[..|xs| - 1];
      var x := xs[|xs| - 1];
      DistinctCard(xs');
      assert (set y | y in xs) == (set y | y in xs') + {x};
      assert x !in (set y | y in xs');
    }
  }

  lemma TouchMember<K>(xs: seq<K>, k: K, x: K)
    ensures x in Touch(xs, k) <==> x in xs || x == k
  {
    WithoutMember(xs, k, x);
  }

  lemma {:induction false} TouchAllMember<K>(l: seq<K>, x: K)
    ensures x in TouchAll([], l) <==> x in l
  {
    if l != [] {
      var l' := l[..|l| - 1];
      TouchAllMember(l', x);
      TouchMember(TouchAll([], l'), l[|l| - 1], x);
      assert l == l' + [l[|l| - 1]];
    }
  }

  /** Promoting every key of `l`, starting from nothing, leaves each distinct
      key of `l` exactly once. */
  lemma {:induction false} TouchAllKeys<K>(l: seq<K>)
    ensures Distinct(TouchAll([], l))
    ensures forall x :: x in TouchAll([], l) <==> x in l
    ensures |TouchAll([], l)| == |set x | x in l|
  {
    var r := TouchAll([], l);
    if l != [] {
      TouchAllKeys(l[..|l| - 1]);
      TouchDistinct(TouchAll([], l[..|l| - 1]), l[|l| - 1]);
    }
    forall x ensures x in r <==> x in l {
      TouchAllMember(l, x);
    }
    DistinctCard(r);
    SameElements(r, l);
  }

  lemma LastIndexPrefix<K>(l: seq<K>, e: K, x: K)
    requires x in l && x != e
    ensures x in l + [e] && LastIndex(l + [e], x) == LastIndex(l, x)
  {
    assert (l + [e])[..|l|] == l;
  }

  /** Where each element of `Without(r, e)` sits in `r`, for a distinct `r`:
      a strictly increasing position map. */
  lemma WithoutPositions<K>(r: seq<K>, e: K) returns (pos: nat -> nat)
    requires Distinct(r)
    ensures forall p :: 0 <= p < |Without(r, e)| ==>
              pos(p) < |r| && Without(r, e)[p] == r[pos(p)] && r[pos(p)] != e
    ensures forall p, q :: 0 <= p < q < |Without(r, e)| ==> pos(p) < pos(q)
  {
    if e in r {
      var j :| 0 <= j < |r| && r[j] == e;
      WithoutAt(r, j);
      pos := (p: nat) => if p < j then p else p + 1;
    } else {
      WithoutAbsent(r, e);
      pos := (p: nat) => p;
    }
  }

  /** Promoting every key of `l`, starting from nothing, orders the keys by
      their last promotion: the oldest last promotion comes first. */
  lemma {:induction false} TouchAllOrder<K>(l: seq<K>)
    ensures InLastTouchOrder(TouchAll([], l), l)
  {
    if l != [] {
      var l' := l[..|l| - 1];
      var e := l[|l| - 1];
      assert l == l' + [e];
      TouchAllOrder(l');
      TouchAllKeys(l');
      var r := TouchAll([], l');
      var w := Without(r, e);
      var r2 := TouchAll([], l);
      assert r2 == w + [e];
      var pos := WithoutPositions(r, e);
      forall p | 0 <= p < |r2| ensures r2[p] in l {
        if p < |w| {
          assert r2[p] == r[pos(p)];
        }
      }
      forall p, q | 0 <= p < q < |r2| && r2[p] in l && r2[q] in l
        ensures LastIndex(l, r2[p]) < LastIndex(l, r2[q])
      {
        assert r2[p] == r[pos(p)];
        LastIndexPrefix(l', e, r2[p]);
        if q < |w| {
          assert r2[q] == r[pos(q)];
          LastIndexPrefix(l', e, r2[q]);
        } else {
          assert r2[q] == e;
        }
      }
    }
  }

  // ---------------------------------------------------------------------------
  // Slot sequences

  function SlotKeys<K>(c: Slot<K>): seq<K> {
    if c.Live? then [c.key] else []
  }

  /** The keys of the live slots, in slot order. */
  function LiveKeys<K>(s: seq<Slot<K>>): seq<K>
  {
    if s == [] then [] else LiveKeys(s[..|s| - 1]) + SlotKeys(s[|s| - 1])
  }

  function CountDummies<K>(s: seq<Slot<K>>): nat
  {
    if s == [] then 0 else CountDummies(s[..|s| - 1]) + (if s[|s| - 1].Dummy? then 1 else 0)
  }

  /** `[elm for elm in storage if elm is not _DUMMY_CELL]`: the live slots in order. */
  function Compact<K>(s: seq<Slot<K>>): seq<Slot<K>>
  {
    if s == [] then []
    else Compact(s[..|s| - 1]) + (if s[|s| - 1].Live? then [s[|s| - 1]] else [])
  }

  /** The compacted slots are the live keys, one slot each, in order. */
  lemma {:induction false} CompactSlots<K>(s: seq<Slot<K>>)
    ensures |Compact(s)| == |LiveKeys(s)|
    ensures forall t :: 0 <= t < |Compact(s)| ==> Compact(s)[t] == Live(LiveKeys(s)[t])
  {
    if s != [] {
      CompactSlots(s[..|s| - 1]);
    }
  }

  lemma {:induction false} LiveKeysAppend<K>(s: seq<Slot<K>>, t: seq<Slot<K>>)
    ensures LiveKeys(s + t) == LiveKeys(s) + LiveKeys(t)
  {
    if t == [] {
      assert s + t == s;
    } else {
      var t' := t[..|t| - 1];
      assert (s + t)[..|s + t| - 1] == s + t';
      LiveKeysAppend(s, t');
    }
  }

  lemma {:induction false} LiveKeysCount<K>(s: seq<Slot<K>>)
    ensures |LiveKeys(s)| + CountDummies(s) == |s|
  {
    if s != [] {
      LiveKeysCount(s[..|s| - 1]);
    }
  }

  lemma {:induction false} LiveKeysMember<K>(s: seq<Slot<K>>, x: K)
    ensures x in LiveKeys(s) <==> Live(x) in s
  {
    if s != [] {
      LiveKeysMember(s[..|s| - 1], x);
      assert s == s[..|s| - 1] + [s[|s| - 1]];
    }
  }

  /** No two live slots hold the same key. */
  predicate SlotsDistinct<K(==)>(s: seq<Slot<K>>) {
    forall i, j :: 0 <= i < j < |s| && s[i].Live? && s[j].Live? ==> s[i].key != s[j].key
  }

  lemma {:induction false} LiveKeysDistinct<K>(s: seq<Slot<K>>)
    requires SlotsDistinct(s)
    ensures Distinct(LiveKeys(s))
  {
    if s != [] {
      var s' := s[..|s| - 1];
      LiveKeysDistinct(s');
      if s[|s| - 1].Live? {
        LiveKeysMember(s', s[|s| - 1].key);
      }
    }
  }

  /** Slots below `i` are all tombstones: only the slots from `i` on hold keys. */
  lemma {:induction false} LiveKeysDummyPrefix<K>(s: seq<Slot<K>>, i: nat)
    requires i <= |s|
    requires forall j :: 0 <= j < i ==> s[j] == Dummy
    ensures LiveKeys(s) == LiveKeys(s[i..])
  {
    if i > 0 {
      LiveKeysDummyPrefix(s[1..], i - 1);
      assert s == [s[0]] + s[1..];
      LiveKeysAppend([s[0]], s[1..]);
      assert LiveKeys([s[0]]) == [] by {
        assert [s[0]][..0] == [];
      }
      assert s[1..][i - 1..] == s[i..];
    }
  }

  lemma LiveKeysFront<K>(s: seq<Slot<K>>, i: nat)
    requires i < |s| && s[i].Live?
    ensures LiveKeys(s[i..]) == [s[i].key] + LiveKeys(s[i + 1..])
  {
    assert s[i..] == [s[i]] + s[i + 1..];
    LiveKeysAppend([s[i]], s[i + 1..]);
    assert [s[i]][..0] == [];
  }

  /** Tombstoning the only slot of a key removes that key from the live keys. */
  lemma {:induction false} LiveKeysTombstone<K>(s: seq<Slot<K>>, i: nat)
    requires i < |s| && s[i].Live?
    requires forall j :: 0 <= j < |s| && j != i ==> s[j] != s[i]
    ensures LiveKeys(s[i := Dummy]) == Without(LiveKeys(s), s[i].key)
    ensures CountDummies(s[i := Dummy]) == CountDummies(s) + 1
  {
    var n := |s|;
    var k := s[i].key;
    var s' := s[..n - 1];
    if i == n - 1 {
      assert s[i := Dummy][..n - 1] == s';
      LiveKeysMember(s', k);
      WithoutAbsent(LiveKeys(s'), k);
      WithoutAppend(LiveKeys(s'), [k], k);
      assert Without([k], k) == [] by {
        assert [k][..0] == [];
      }
    } else {
      assert s[i := Dummy][..n - 1] == s'[i := Dummy];
      LiveKeysTombstone(s', i);
      WithoutAppend(LiveKeys(s'), SlotKeys(s[n - 1]), k);
      if s[n - 1].Live? {
        assert Without([s[n - 1].key], k) == [s[n - 1].key] by {
          assert [s[n - 1].key][..0] == [];
        }
      }
    }
  }

  lemma {:induction false} CompactFacts<K>(s: seq<Slot<K>>)
    ensures LiveKeys(Compact(s)) == LiveKeys(s)
    ensures CountDummies(Compact(s)) == 0
  {
    if s != [] {
      var s' := s[..|s| - 1];
      CompactFacts(s');
      var tail := if s[|s| - 1].Live? then [s[|s| - 1]] else [];
      LiveKeysAppend(Compact(s'), tail);
      assert (Compact(s') + tail)[..|Compact(s') + tail|] == Compact(s') + tail;
      CountAppend(Compact(s'), tail);
    }
  }

  lemma CountAppend<K>(s: seq<Slot<K>>, t: seq<Slot<K>>)
    requires |t| <= 1 && (t != [] ==> t[0].Live?)
    ensures CountDummies(s + t) == CountDummies(s)
  {
    if t != [] {
      assert (s + t)[..|s|] == s;
    } else {
      assert s + t == s;
    }
  }

  // ---------------------------------------------------------------------------
  // The representation invariant, on values

  /** The indexer points every key at a live slot holding it, and every live
      slot is the one its key points at. */
  ghost predicate Indexed<K>(s: seq<Slot<K>>, ix: map<K, nat>) {
    && (forall k :: k in ix ==> ix[k] < |s| && s[ix[k]] == Live(k))
    && (forall i :: 0 <= i < |s| && s[i].Live? ==> s[i].key in ix && ix[s[i].key] == i)
  }

  /** Every slot below `n` is a tombstone. */
  ghost predicate DummyPrefix<K>(s: seq<Slot<K>>, n: nat) {
    n <= |s| && forall i :: 0 <= i < n ==> s[i] == Dummy
  }

  /** How the four fields of an `LRU` relate: the indexer is exact, the
      counter counts tombstones, and the scan offset has only tombstones
      below it. */
  ghost predicate Inv<K>(s: seq<Slot<K>>, ix: map<K, nat>, dummies: nat, offset: nat) {
    Indexed(s, ix) && dummies == CountDummies(s) && DummyPrefix(s, offset)
  }

  lemma IndexedKeys<K>(s: seq<Slot<K>>, ix: map<K, nat>)
    requires Indexed(s, ix)
    ensures SlotsDistinct(s)
    ensures forall k :: k in ix <==> k in LiveKeys(s)
  {
    forall k ensures k in ix <==> k in LiveKeys(s) {
      LiveKeysMember(s, k);
      if Live(k) in s {
        var i :| 0 <= i < |s| && s[i] == Live(k);
        assert s[i].key == k;
      }
    }
  }

  /** What the invariant gives: the live keys are distinct, they are exactly
      the indexer's keys, and the size computed as slots minus tombstones is
      their number. */
  lemma InvFacts<K>(s: seq<Slot<K>>, ix: map<K, nat>, dummies: nat, offset: nat)
    requires Inv(s, ix, dummies, offset)
    ensures Distinct(LiveKeys(s))
    ensures forall k :: k in ix <==> k in LiveKeys(s)
    ensures |s| - dummies == |LiveKeys(s)| == |ix|
  {
    IndexedKeys(s, ix);
    LiveKeysDistinct(s);
    LiveKeysCount(s);
    DistinctCard(LiveKeys(s));
    KeysAreElements(LiveKeys(s), ix);
  }

  lemma IndexedAppendNew<K>(s: seq<Slot<K>>, ix: map<K, nat>, e: K)
    requires Indexed(s, ix) && e !in ix
    ensures Indexed(s + [Live(e)], ix[e := |s|])
  {
  }

  lemma IndexedTombstoneAppend<K>(s: seq<Slot<K>>, ix: map<K, nat>, e: K)
    requires Indexed(s, ix) && e in ix
    ensures Indexed(s[ix[e] := Dummy] + [Live(e)], ix[e := |s|])
  {
    var i := ix[e];
    var s1 := s[i := Dummy] + [Live(e)];
    var ix1 := ix[e := |s|];
    forall k | k in ix1 ensures ix1[k] < |s1| && s1[ix1[k]] == Live(k) {
      if k != e {
        assert ix[k] != i;
      }
    }
  }

  lemma IndexedTombstone<K>(s: seq<Slot<K>>, ix: map<K, nat>, i: nat)
    requires Indexed(s, ix) && i < |s| && s[i].Live?
    ensures Indexed(s[i := Dummy], ix - {s[i].key})
    ensures forall j :: 0 <= j < |s| && j != i ==> s[j] != s[i]
  {
  }

  /** The slots after `update(e)` and before any compaction: the old slot
      of `e`, if any, tombstoned, and a new slot for `e` appended. */
  ghost function Promoted<K>(s: seq<Slot<K>>, ix: map<K, nat>, e: K): seq<Slot<K>>
    requires e in ix ==> ix[e] < |s|
  {
    (if e in ix then s[ix[e] := Dummy] else s) + [Live(e)]
  }

  lemma Promote<K>(s: seq<Slot<K>>, ix: map<K, nat>, dummies: nat, offset: nat, e: K)
    requires Inv(s, ix, dummies, offset)
    ensures e in ix ==> ix[e] < |s|
    ensures Inv(Promoted(s, ix, e), ix[e := |Promoted(s, ix, e)| - 1], dummies + (if e in ix then 1 else 0), offset)
    ensures LiveKeys(Promoted(s, ix, e)) == Touch(LiveKeys(s), e)
  {
    if e in ix {
      TombstoneAndAppend(s, ix, dummies, offset, e);
    } else {
      AppendNew(s, ix, dummies, offset, e);
    }
  }

  /** `update` of a key that is not tracked yet: append a slot. */
  lemma AppendNew<K>(s: seq<Slot<K>>, ix: map<K, nat>, dummies: nat, offset: nat, e: K)
    requires Inv(s, ix, dummies, offset) && e !in ix
    ensures Inv(s + [Live(e)], ix[e := |s + [Live(e)]| - 1], dummies, offset)
    ensures LiveKeys(s + [Live(e)]) == Touch(LiveKeys(s), e)
  {
    IndexedKeys(s, ix);
    IndexedAppendNew(s, ix, e);
    CountAppend(s, [Live(e)]);
    assert (s + [Live(e)])[..|s|] == s;
    WithoutAbsent(LiveKeys(s), e);
  }

  /** `update` of a tracked key: tombstone its slot, then append a slot. */
  lemma TombstoneAndAppend<K>(s: seq<Slot<K>>, ix: map<K, nat>, dummies: nat, offset: nat, e: K)
    requires Inv(s, ix, dummies, offset) && e in ix
    ensures Inv(s[ix[e] := Dummy] + [Live(e)], ix[e := |s[ix[e] := Dummy] + [Live(e)]| - 1], dummies + 1, offset)
    ensures LiveKeys(s[ix[e] := Dummy] + [Live(e)]) == Touch(LiveKeys(s), e)
  {
    var i := ix[e];
    var t := s[i := Dummy];
    assert s[i] == Live(e);
    IndexedTombstone(s, ix, i);
    LiveKeysTombstone(s, i);
    IndexedTombstoneAppend(s, ix, e);
    CountAppend(t, [Live(e)]);
    assert LiveKeys(t + [Live(e)]) == LiveKeys(t) + [e] by {
      assert (t + [Live(e)])[..|t|] == t;
    }
    assert DummyPrefix(t + [Live(e)], offset) by {
      assert offset <= i;
    }
  }

  /** The scan of `evict` over a non-empty container stops at a live slot. */
  lemma ScanStopsAtLive<K>(s: seq<Slot<K>>, ix: map<K, nat>, dummies: nat, offset: nat, i: nat)
    requires Inv(s, ix, dummies, offset) && LiveKeys(s) != []
    requires offset <= i <= |s| && (i < |s| ==> s[i].Live?)
    requires forall j :: offset <= j < i ==> s[j] == Dummy
    ensures i < |s| && s[i].Live?
  {
    assert DummyPrefix(s, i);
    LiveKeysDummyPrefix(s, i);
  }

  /** Where the scan of `evict` starting at `from` stops: the first live
      slot at or after `from`, or the end of the storage. */
  function FirstLive<K>(s: seq<Slot<K>>, from: nat): nat
    decreases |s| - from
  {
    if from >= |s| || s[from].Live? then from else FirstLive(s, from + 1)
  }

  /** `evict` after the scan stopped at the live slot `i`. */
  lemma EvictAt<K>(s: seq<Slot<K>>, ix: map<K, nat>, dummies: nat, offset: nat, i: nat)
    requires Inv(s, ix, dummies, offset)
    requires offset <= i < |s| && s[i].Live?
    requires forall j :: offset <= j < i ==> s[j] == Dummy
    ensures LiveKeys(s) != [] && LiveKeys(s)[0] == s[i].key
    ensures Inv(s[i := Dummy], ix - {s[i].key}, dummies + 1, i + 1)
    ensures LiveKeys(s[i := Dummy]) == LiveKeys(s)[1..]
  {
    var t := s[i := Dummy];
    assert DummyPrefix(s, i);
    LiveKeysDummyPrefix(s, i);
    LiveKeysFront(s, i);
    assert DummyPrefix(t, i + 1);
    LiveKeysDummyPrefix(t, i + 1);
    assert t[i + 1..] == s[i + 1..];
    IndexedTombstone(s, ix, i);
    LiveKeysTombstone(s, i);
  }

  /** Compaction: the live slots, re-indexed from 0. */
  lemma CompactInv<K>(s: seq<Slot<K>>, ix: map<K, nat>, dummies: nat, offset: nat, ix1: map<K, nat>)
    requires Inv(s, ix, dummies, offset)
    requires forall k :: k in ix1 <==> k in ix || Live(k) in Compact(s)
    requires forall t :: 0 <= t < |Compact(s)| ==>
               Compact(s)[t].Live? && Compact(s)[t].key in ix1 && ix1[Compact(s)[t].key] == t
    ensures Inv(Compact(s), ix1, 0, 0)
    ensures ix1.Keys == ix.Keys
  {
    var c := Compact(s);
    var keys := LiveKeys(s);
    IndexedKeys(s, ix);
    CompactFacts(s);
    CompactSlots(s);
    forall k ensures k in ix1 <==> k in ix {
      LiveKeysMember(c, k);
    }
    assert Indexed(c, ix1) by {
      forall k | k in ix1 ensures ix1[k] < |c| && c[ix1[k]] == Live(k) {
        var t :| 0 <= t < |keys| && keys[t] == k;
        assert c[t] == Live(k);
      }
    }
  }

  lemma CompactDistinct<K>(s: seq<Slot<K>>)
    requires Distinct(LiveKeys(s))
    ensures forall t :: 0 <= t < |Compact(s)| ==> Compact(s)[t].Live?
    ensures SlotsDistinct(Compact(s))
  {
    CompactSlots(s);
  }

  /** `indexer.update(switch(enumerate(slots)))` for slots that all hold
      distinct keys: each key of a slot is mapped to that slot's position,
      and every other entry is kept. */
  method Reindex<K(==)>(ix: map<K, nat>, c: seq<Slot<K>>) returns (r: map<K, nat>)
    requires forall t :: 0 <= t < |c| ==> c[t].Live?
    requires SlotsDistinct(c)
    ensures forall k :: k in r <==> k in ix || Live(k) in c
    ensures forall t :: 0 <= t < |c| ==> c[t].key in r && r[c[t].key] == t
    ensures forall k :: k in ix && Live(k) !in c ==> r[k] == ix[k]
  {
    r := ix;
    for j := 0 to |c|
      invariant forall k :: k in r <==> k in ix || Live(k) in c[..j]
      invariant forall t :: 0 <= t < j ==> c[t].key in r && r[c[t].key] == t
      invariant forall k :: k in ix && Live(k) !in c[..j] ==> r[k] == ix[k]
    {
      assert c[..j + 1] == c[..j] + [c[j]];
      r := r[c[j].key := j];
    }
    assert c[..|c|] == c;
  }

  /** The slots and indexer `_reconstruct` installs: the live slots in order,
      and the indexer updated with their new positions. */
  method Compacted<K(==)>(s: seq<Slot<K>>, ix: map<K, nat>, dummies: nat, offset: nat)
      returns (c: seq<Slot<K>>, ix1: map<K, nat>)
    requires Inv(s, ix, dummies, offset)
    ensures c == Compact(s) && Inv(c, ix1, 0, 0)
    ensures LiveKeys(c) == LiveKeys(s) && ix1.Keys == ix.Keys
  {
    InvFacts(s, ix, dummies, offset);
    c := Compact(s);
    CompactDistinct(s);
    ix1 := Reindex(ix, c);
    CompactInv(s, ix, dummies, offset, ix1);
    CompactFacts(s);
  }

  // ---------------------------------------------------------------------------
  // The container

  /** `LRU`: a least-recently-used container. */
  class LRU<K(==)> {
    var storage: seq<Slot<K>>
    var indexer: map<K, nat>
    var dummyCellCount: nat
    var offset: nat

    ghost predicate Valid()
      reads this
    {
      Inv(storage, indexer, dummyCellCount, offset) && dummyCellCount <= LruMaxDummyCellNum
    }

    /** The logical content: keys from least to most recently used. */
    ghost function Contents(): seq<K>
      reads this
    {
      LiveKeys(storage)
    }

    constructor ()
      ensures Valid() && Contents() == []
      ensures storage == [] && indexer == map[] && dummyCellCount == 0 && offset == 0
    {
      storage := [];
      indexer := map[];
      dummyCellCount := 0;
      offset := 0;
    }

    /** `size`: the number of keys, which is also the number of indexer entries. */
    function Size(): (n: int)
      reads this
      requires Valid()
      ensures n == |Contents()| && n == |indexer|
      ensures Distinct(Contents())
    {
      InvFacts(storage, indexer, dummyCellCount, offset);
      |storage| - dummyCellCount
    }

    /** `empty()`. */
    predicate Empty()
      reads this
      requires Valid()
      ensures Empty() <==> Contents() == []
    {
      Size() == 0
    }

    /** `copy()`: a new container with the same four fields. */
    method Copy() returns (c: LRU<K>)
      requires Valid()
      ensures fresh(c) && c.Valid()
      ensures c.storage == storage && c.indexer == indexer
      ensures c.dummyCellCount == dummyCellCount && c.offset == offset
      ensures c.Contents() == Contents() && c.Size() == Size()
    {
      c := new LRU();
      c.storage := storage;
      c.indexer := indexer;
      c.dummyCellCount := dummyCellCount;
      c.offset := offset;
    }

    /** `update(elem)`: promote `e` to most recently used. */
    method Update(e: K)
      requires Valid()
      modifies this
      ensures Valid()
      ensures Contents() == Touch(old(Contents()), e)
      ensures var tombstones := old(dummyCellCount) + (if e in old(indexer) then 1 else 0);
              var appended := Promoted(old(storage), old(indexer), e);
              if tombstones > LruMaxDummyCellNum then
                storage == Compact(appended) && dummyCellCount == 0 && offset == 0
              else
                storage == appended && dummyCellCount == tombstones && offset == old(offset)
    {
      Promote(storage, indexer, dummyCellCount, offset, e);
      if e in indexer {
        var index := indexer[e];
        storage := storage[index := Dummy] + [Live(e)];
        dummyCellCount := dummyCellCount + 1;
      } else {
        storage := storage + [Live(e)];
      }
      indexer := indexer[e := |storage| - 1];
      if dummyCellCount > LruMaxDummyCellNum {
        Reconstruct();
      }
    }

    /** `batch_update(elems)`: `update` each element in order. */
    method BatchUpdate(elems: seq<K>)
      requires Valid()
      modifies this
      ensures Valid()
      ensures Contents() == TouchAll(old(Contents()), elems)
    {
      ghost var c0 := Contents();
      for i := 0 to |elems|
        invariant Valid()
        invariant Contents() == TouchAll(c0, elems[..i])
      {
        Update(elems[i]);
        assert elems[..i + 1][..i] == elems[..i];
      }
      assert elems[..|elems|] == elems;
    }

    /** `evict()`: remove and return the least recently used key; an empty
        container raises `KeyError` and is left as it was. */
    method Evict() returns (r: Result<K>)
      requires Valid()
      modifies this
      ensures Valid()
      ensures old(Contents()) == [] ==> r == Err(KeyError) && unchanged(this)
      ensures old(Contents()) != [] ==>
                r == Ok(old(Contents())[0]) && Contents() == old(Contents())[1..]
                && r.value in old(indexer) && indexer.Keys == old(indexer).Keys - {r.value}
      ensures old(Contents()) != [] ==>
                var i := FirstLive(old(storage), old(offset));
                i < |old(storage)| && old(storage)[i] == Live(r.value)
                && var tombstoned := old(storage)[i := Dummy];
                if old(dummyCellCount) + 1 > LruMaxDummyCellNum then
                  storage == Compact(tombstoned) && dummyCellCount == 0 && offset == 0
                else
                  storage == tombstoned && dummyCellCount == old(dummyCellCount) + 1 && offset == i + 1
    {
      if Empty() {
        return Err(KeyError);
      }
      var s := storage;
      var i := offset;
      while i < |s| && s[i].Dummy?
        invariant offset <= i <= |s|
        invariant forall j :: offset <= j < i ==> s[j] == Dummy
        invariant FirstLive(s, i) == FirstLive(s, offset)
      {
        i := i + 1;
      }
      ScanStopsAtLive(s, indexer, dummyCellCount, offset, i);
      var elem := s[i].key;
      EvictAt(s, indexer, dummyCellCount, offset, i);
      storage := s[i := Dummy];
      dummyCellCount := dummyCellCount + 1;
      offset := i + 1;
      indexer := indexer - {elem};
      if dummyCellCount > LruMaxDummyCellNum {
        Reconstruct();
      }
      r := Ok(elem);
    }

    /** `_reconstruct()`: drop every tombstone, reset the counter and the
        offset, and point the indexer at the new slots. */
    method Reconstruct()
      requires Inv(storage, indexer, dummyCellCount, offset)
      modifies this
      ensures Valid() && dummyCellCount == 0 && offset == 0
      ensures storage == Compact(old(storage))
      ensures Contents() == old(Contents())
      ensures indexer.Keys == old(indexer).Keys
    {
      var c, ix1 := Compacted(storage, indexer, dummyCellCount, offset);
      dummyCellCount := 0;
      offset := 0;
      storage := c;
      indexer := ix1;
    }
  }
}
