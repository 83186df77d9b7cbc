/**
  The open-addressing hash table behind every map of the library: the watch-descriptor map, the
  path map and the on-disk inode map.

  The sequence-level part says what a table of flags, keys and values means (`Rep`) and when every
  key can be found from its hash (`Findable`).  The table itself, with `flags`,
  `keys` and `vals` updated in place, is `KhashTable.Table`.
 */
module Khash {
  import opened Probing

  /** The two flag bits of a bucket; the fourth combination is never written. */
  datatype Flag = Empty | Deleted | Live

  // ----- What a table means ---------------------------------------------------------------------

  ghost function Count(flags: seq<Flag>, f: Flag): (c: nat)
    ensures c <= |flags|
  {
    if flags == [] then 0
    else Count(flags[..|flags| - 1], f) + if flags[|flags| - 1] == f then 1 else 0
  }

  ghost predicate Holds<K>(flags: seq<Flag>, keys: seq<K>, k: K, x: nat) {
    x < |flags| <= |keys| && flags[x] == Live && keys[x] == k
  }

  ghost predicate Present<K>(flags: seq<Flag>, keys: seq<K>, k: K) {
    exists x :: Holds(flags, keys, k, x)
  }

  ghost predicate NoKeyTwice<K>(flags: seq<Flag>, keys: seq<K>) {
    && |flags| <= |keys|
    && forall x, y :: 0 <= x < y < |flags| && flags[x] == Live && flags[y] == Live ==> keys[x] != keys[y]
  }

  /** The live buckets hold exactly the entries of `m`, each once. */
  ghost predicate Rep<K, V>(flags: seq<Flag>, keys: seq<K>, vals: seq<V>, m: map<K, V>) {
    && |flags| <= |keys| && |flags| <= |vals|
    && (forall x :: 0 <= x < |flags| && flags[x] == Live ==> keys[x] in m && m[keys[x]] == vals[x])
    && (forall k :: k in m ==> Present(flags, keys, k))
    && NoKeyTwice(flags, keys)
  }

  ghost predicate NoEmptyBefore(flags: seq<Flag>, h: nat, t: nat)
    requires |flags| > 0
  {
    forall s :: 0 <= s < t ==> flags[Probe(h, s, |flags|)] != Empty
  }

  /** The probe sequence of `h` comes to bucket `x` before it comes to an empty bucket. */
  ghost predicate Reachable(flags: seq<Flag>, h: nat, x: nat)
    requires |flags| > 0
  {
    exists t :: 0 <= t < |flags| && Probe(h, t, |flags|) == x && NoEmptyBefore(flags, h, t)
  }

  ghost predicate Findable<K>(flags: seq<Flag>, keys: seq<K>, hash: K -> nat) {
    && |flags| <= |keys|
    && forall x :: 0 <= x < |flags| && flags[x] == Live ==> Reachable(flags, hash(keys[x]), x)
  }

  lemma {:induction false} CountUpdate(flags: seq<Flag>, i: nat, g: Flag, f: Flag)
    requires i < |flags|
    ensures Count(flags[i := g], f)
         == Count(flags, f) - (if flags[i] == f then 1 else 0) + (if g == f then 1 else 0)
  {
    var n := |flags| - 1;
    if i == n {
      assert flags[i := g][..n] == flags[..n];
    } else {
      assert flags[i := g][..n] == flags[..n][i := g];
      CountUpdate(flags[..n], i, g, f);
    }
  }

  lemma {:induction false} CountPositive(flags: seq<Flag>, i: nat)
    requires i < |flags|
    ensures Count(flags, flags[i]) > 0
  {
    if i < |flags| - 1 {
      CountPositive(flags[..|flags| - 1], i);
    }
  }

  lemma {:induction false} CountAll(flags: seq<Flag>, f: Flag)
    requires forall i :: 0 <= i < |flags| ==> flags[i] == f
    ensures forall g :: Count(flags, g) == if g == f then |flags| else 0
  {
    if flags != [] {
      CountAll(flags[..|flags| - 1], f);
    }
  }

  lemma {:induction false} SomeOther(flags: seq<Flag>, f: Flag) returns (i: nat)
    requires Count(flags, f) < |flags|
    ensures i < |flags| && flags[i] != f
  {
    var n := |flags| - 1;
    if flags[n] != f {
      i := n;
    } else {
      i := SomeOther(flags[..n], f);
    }
  }

  lemma {:induction false} CountSum(flags: seq<Flag>)
    ensures Count(flags, Live) + Count(flags, Deleted) + Count(flags, Empty) == |flags|
  {
    if flags != [] {
      CountSum(flags[..|flags| - 1]);
    }
  }

  /** The live buckets are as many as the entries, which is what `kh_size` reports. */
  lemma {:induction false} LiveCountIsCardinality<K, V>(flags: seq<Flag>, keys: seq<K>, vals: seq<V>, m: map<K, V>)
    requires Rep(flags, keys, vals, m)
    ensures |m| == Count(flags, Live)
    decreases |flags|
  {
    if flags == [] {
      NothingLive(flags, keys, vals, m);
    } else {
      var n := |flags| - 1;
      var front := flags[..n];
      if flags[n] == Live {
        var m' := m - {keys[n]};
        RepDropLast(flags, keys, vals, m);
        LiveCountIsCardinality(front, keys, vals, m');
        assert m.Keys == m'.Keys + {keys[n]};
      } else {
        RepDropLast(flags, keys, vals, m);
        LiveCountIsCardinality(front, keys, vals, m);
      }
    }
  }

  lemma RepDropLast<K, V>(flags: seq<Flag>, keys: seq<K>, vals: seq<V>, m: map<K, V>)
    requires Rep(flags, keys, vals, m) && flags != []
    ensures var n := |flags| - 1;
            Rep(flags[..n], keys, vals, if flags[n] == Live then m - {keys[n]} else m)
  {
    var n := |flags| - 1;
    var m' := if flags[n] == Live then m - {keys[n]} else m;
    forall k | k in m'
      ensures Present(flags[..n], keys, k)
    {
      var x :| Holds(flags, keys, k, x);
      assert Holds(flags[..n], keys, k, x);
    }
  }

  /** A table represents at most one map. */
  lemma RepUnique<K, V>(flags: seq<Flag>, keys: seq<K>, vals: seq<V>, m1: map<K, V>, m2: map<K, V>)
    requires Rep(flags, keys, vals, m1) && Rep(flags, keys, vals, m2)
    ensures m1 == m2
  {
    forall k | k in m1 ensures k in m2 && m1[k] == m2[k] {
      var x :| Holds(flags, keys, k, x);
    }
    forall k | k in m2 ensures k in m1 {
      var x :| Holds(flags, keys, k, x);
    }
  }

  // ----- Searching ------------------------------------------------------------------------------

  lemma ReachedBefore(flags: seq<Flag>, h: nat, x: nat, t: nat) returns (u: nat)
    requires |flags| > 0 && Reachable(flags, h, x)
    requires flags[Probe(h, t, |flags|)] == Empty
    ensures u <= t && Probe(h, u, |flags|) == x
  {
    u :| 0 <= u < |flags| && Probe(h, u, |flags|) == x && NoEmptyBefore(flags, h, u);
  }

  /** A search that comes to an empty bucket without having met the key can stop. */
  lemma MissAtEmpty<K>(flags: seq<Flag>, keys: seq<K>, hash: K -> nat, key: K, t: nat)
    requires Findable(flags, keys, hash) && |flags| > 0
    requires flags[Probe(hash(key), t, |flags|)] == Empty
    requires forall s :: 0 <= s < t ==> !Holds(flags, keys, key, Probe(hash(key), s, |flags|))
    ensures !Present(flags, keys, key)
  {
    forall x: nat ensures !Holds(flags, keys, key, x) {
      if Holds(flags, keys, key, x) {
        var u := ReachedBefore(flags, hash(key), x, t);
      }
    }
  }

  /** A search that has looked at `n` buckets without having met the key can stop. */
  lemma MissEverywhere<K>(flags: seq<Flag>, keys: seq<K>, key: K, h: nat, m: nat)
    requires |flags| == Pow2(m)
    requires forall s :: 0 <= s < |flags| ==> !Holds(flags, keys, key, Probe(h, s, |flags|))
    ensures !Present(flags, keys, key)
  {
    forall x: nat ensures !Holds(flags, keys, key, x) {
      if x < |flags| {
        var t := ProbeReaches(h, x, m);
      }
    }
  }

  // ----- Changing one bucket --------------------------------------------------------------------

  lemma ReachableKept(flags: seq<Flag>, flags': seq<Flag>, h: nat, x: nat)
    requires |flags| == |flags'| > 0
    requires forall i :: 0 <= i < |flags| && flags'[i] == Empty ==> flags[i] == Empty
    requires Reachable(flags, h, x)
    ensures Reachable(flags', h, x)
  {
    var t :| 0 <= t < |flags| && Probe(h, t, |flags|) == x && NoEmptyBefore(flags, h, t);
    assert NoEmptyBefore(flags', h, t);
  }

  /** Marking a live bucket deleted removes its entry and hides no other. */
  lemma RemoveAt<K, V>(flags: seq<Flag>, keys: seq<K>, vals: seq<V>, m: map<K, V>, x: nat)
    requires Rep(flags, keys, vals, m)
    requires x < |flags| && flags[x] == Live
    ensures Rep(flags[x := Deleted], keys, vals, m - {keys[x]})
  {
    var flags' := flags[x := Deleted];
    var m' := m - {keys[x]};
    forall k | k in m'
      ensures Present(flags', keys, k)
    {
      var y :| Holds(flags, keys, k, y);
      assert Holds(flags', keys, k, y);
    }
  }

  lemma RemoveKeepsFindable<K>(flags: seq<Flag>, keys: seq<K>, hash: K -> nat, x: nat)
    requires Findable(flags, keys, hash)
    requires x < |flags| && flags[x] == Live
    ensures Findable(flags[x := Deleted], keys, hash)
  {
    var flags' := flags[x := Deleted];
    forall y | 0 <= y < |flags'| && flags'[y] == Live
      ensures Reachable(flags', hash(keys[y]), y)
    {
      ReachableKept(flags, flags', hash(keys[y]), y);
    }
  }

  /** Writing a new key into a bucket that is not live adds that entry and disturbs no other. */
  lemma AddAt<K, V>(flags: seq<Flag>, keys: seq<K>, vals: seq<V>, m: map<K, V>, x: nat, key: K, val: V)
    requires Rep(flags, keys, vals, m)
    requires x < |flags| && flags[x] != Live && key !in m
    ensures Rep(flags[x := Live], keys[x := key], vals[x := val], m[key := val])
  {
    var flags', keys', m' := flags[x := Live], keys[x := key], m[key := val];
    forall k | k in m'
      ensures Present(flags', keys', k)
    {
      if k == key {
        assert Holds(flags', keys', k, x);
      } else {
        var y :| Holds(flags, keys, k, y);
        assert Holds(flags', keys', k, y);
      }
    }
  }

  lemma AddKeepsFindable<K>(flags: seq<Flag>, keys: seq<K>, hash: K -> nat, x: nat, key: K)
    requires Findable(flags, keys, hash)
    requires x < |flags| && flags[x] != Live && Reachable(flags, hash(key), x)
    ensures Findable(flags[x := Live], keys[x := key], hash)
  {
    var flags', keys' := flags[x := Live], keys[x := key];
    forall y | 0 <= y < |flags'| && flags'[y] == Live
      ensures Reachable(flags', hash(keys'[y]), y)
    {
      ReachableKept(flags, flags', hash(keys'[y]), y);
    }
  }

  lemma SetAt<K, V>(flags: seq<Flag>, keys: seq<K>, vals: seq<V>, m: map<K, V>, x: nat, val: V)
    requires Rep(flags, keys, vals, m)
    requires x < |flags| && flags[x] == Live
    ensures Rep(flags, keys, vals[x := val], m[keys[x] := val])
  {
    var m' := m[keys[x] := val];
    forall k | k in m'
      ensures Present(flags, keys, k)
    {
      if k == keys[x] {
        assert Holds(flags, keys, k, x);
      }
    }
  }

  // ----- The in-place rehash --------------------------------------------------------------------

  /**
    The state between two kick-outs: the buckets live in the old flags hold the entries still to be
    moved, the buckets live in the new flags hold the entries already placed, and no bucket is both.
   */
  ghost predicate Moving<K, V>(oldFlags: seq<Flag>, newFlags: seq<Flag>, keys: seq<K>, vals: seq<V>,
                               hash: K -> nat, pending: map<K, V>, placed: map<K, V>)
  {
    && Rep(oldFlags, keys, vals, pending)
    && Rep(newFlags, keys, vals, placed)
    && Findable(newFlags, keys, hash)
    && NoneDeleted(newFlags)
    && NotBothLive(oldFlags, newFlags)
  }

  ghost predicate NoneDeleted(flags: seq<Flag>) {
    forall i :: 0 <= i < |flags| ==> flags[i] != Deleted
  }

  ghost predicate NotBothLive(oldFlags: seq<Flag>, newFlags: seq<Flag>) {
    forall i :: 0 <= i < |newFlags| && i < |oldFlags| && newFlags[i] == Live ==> oldFlags[i] != Live
  }

  lemma PutDownFlags(oldFlags: seq<Flag>, newFlags: seq<Flag>, i: nat)
    requires NoneDeleted(newFlags) && NotBothLive(oldFlags, newFlags)
    requires i < |newFlags| && (i < |oldFlags| ==> oldFlags[i] != Live)
    ensures NoneDeleted(newFlags[i := Live]) && NotBothLive(oldFlags, newFlags[i := Live])
  {
  }

  lemma TakeOut<K, V>(oldFlags: seq<Flag>, newFlags: seq<Flag>, keys: seq<K>, vals: seq<V>,
                      hash: K -> nat, pending: map<K, V>, placed: map<K, V>, j: nat)
    requires Moving(oldFlags, newFlags, keys, vals, hash, pending, placed)
    requires j < |oldFlags| && oldFlags[j] == Live
    ensures Moving(oldFlags[j := Deleted], newFlags, keys, vals, hash, pending - {keys[j]}, placed)
  {
    RemoveAt(oldFlags, keys, vals, pending, j);
  }

  lemma RepElsewhere<K, V>(flags: seq<Flag>, keys: seq<K>, vals: seq<V>, m: map<K, V>, i: nat, key: K, val: V)
    requires Rep(flags, keys, vals, m)
    requires i < |keys| && i < |vals| && (i < |flags| ==> flags[i] != Live)
    ensures Rep(flags, keys[i := key], vals[i := val], m)
  {
    var keys', vals' := keys[i := key], vals[i := val];
    RepOnLive(flags, keys, vals, keys', vals', m);
  }

  /** Only the live buckets matter. */
  lemma RepOnLive<K, V>(flags: seq<Flag>, keys: seq<K>, vals: seq<V>, keys': seq<K>, vals': seq<V>, m: map<K, V>)
    requires Rep(flags, keys, vals, m)
    requires |keys'| >= |flags| && |vals'| >= |flags|
    requires forall x :: 0 <= x < |flags| && flags[x] == Live ==> keys'[x] == keys[x] && vals'[x] == vals[x]
    ensures Rep(flags, keys', vals', m)
  {
    forall k | k in m
      ensures Present(flags, keys', k)
    {
      assert Present(flags, keys, k);
      var y :| Holds(flags, keys, k, y);
      assert Holds(flags, keys', k, y);
    }
  }

  lemma PutDown<K, V>(oldFlags: seq<Flag>, newFlags: seq<Flag>, keys: seq<K>, vals: seq<V>,
                      hash: K -> nat, pending: map<K, V>, placed: map<K, V>, i: nat, key: K, val: V)
    requires Moving(oldFlags, newFlags, keys, vals, hash, pending, placed)
    requires i < |newFlags| && newFlags[i] == Empty && Reachable(newFlags, hash(key), i)
    requires i < |oldFlags| ==> oldFlags[i] != Live
    requires key !in placed
    ensures Moving(oldFlags, newFlags[i := Live], keys[i := key], vals[i := val], hash,
                   pending, placed[key := val])
  {
    AddAt(newFlags, keys, vals, placed, i, key, val);
    AddKeepsFindable(newFlags, keys, hash, i, key);
    RepElsewhere(oldFlags, keys, vals, pending, i, key, val);
    PutDownFlags(oldFlags, newFlags, i);
  }

  lemma NothingLive<K, V>(flags: seq<Flag>, keys: seq<K>, vals: seq<V>, m: map<K, V>)
    requires Rep(flags, keys, vals, m)
    requires forall i :: 0 <= i < |flags| ==> flags[i] != Live
    ensures m == map[]
  {
    forall k ensures k !in m {
      assert !Present(flags, keys, k);
    }
  }
}
