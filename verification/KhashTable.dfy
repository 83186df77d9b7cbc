/**
  `kh_get`, `kh_put`, `kh_del`, `kh_clear` and `kh_resize`, as loops over arrays changed in place.
  Every operation is proved against the mathematical map the table represents.
 */
module KhashTable {
  import opened Probing
  import opened Khash

  // ----- Sizes ----------------------------------------------------------------------------------

  /** `(khint_t)(n * 0.77 + 0.5)`. */
  function UpperBound(n: nat): (u: nat)
    ensures n >= 4 ==> n / 2 < u < n
  {
    (77 * n + 50) / 100
  }

  /** `kroundup32`: the least power of two that is not below `x`. */
  function RoundUp(x: nat): nat {
    if x == 0 then 0 else RoundUpFrom(1, x)
  }

  function RoundUpFrom(p: nat, x: nat): nat
    requires p > 0
    decreases x - p
  {
    if x <= p then p else RoundUpFrom(2 * p, x)
  }

  /** `kroundup32` followed by the minimum of four buckets. */
  function NewSize(x: nat): nat {
    if RoundUp(x) < 4 then 4 else RoundUp(x)
  }

  lemma {:induction false} RoundUpFromBetween(k: nat, x: nat, m: nat)
    requires k <= m && x <= Pow2(m) && (m > 0 ==> Pow2(m - 1) < x)
    ensures RoundUpFrom(Pow2(k), x) == Pow2(m)
    decreases m - k
  {
    if k < m {
      Pow2Mono(k, m - 1);
      RoundUpFromBetween(k + 1, x, m);
    }
  }

  lemma {:induction false} Pow2Mono(a: nat, b: nat)
    requires a <= b
    ensures Pow2(a) <= Pow2(b)
  {
    if a < b {
      Pow2Mono(a, b - 1);
    }
  }

  lemma {:induction false} RoundUpIsPower(k: nat, x: nat) returns (m: nat)
    requires Pow2(k) < 2 * x
    ensures RoundUpFrom(Pow2(k), x) == Pow2(m) && x <= Pow2(m) < 2 * x
    decreases x - Pow2(k)
  {
    if x <= Pow2(k) {
      m := k;
    } else {
      m := RoundUpIsPower(k + 1, x);
    }
  }

  /** Every table size is a power of two of at least four that is not below the request. */
  lemma NewSizeIsPower(x: nat) returns (m: nat)
    ensures m >= 2 && NewSize(x) == Pow2(m) >= x
  {
    assert Pow2(2) == 4 && Pow2(1) == 2 && Pow2(0) == 1;
    if RoundUp(x) < 4 {
      m := 2;
      if x > 0 {
        var _ := RoundUpIsPower(0, x);
      }
    } else {
      m := RoundUpIsPower(0, x);
      if m < 2 {
        Pow2Mono(m, 1);
      }
    }
  }

  /** What `kh_put` asks for: the same size to clear the tombstones, the double to grow. */
  lemma PutSizes(m: nat)
    requires m >= 2
    ensures NewSize(Pow2(m) - 1) == Pow2(m)
    ensures NewSize(Pow2(m) + 1) == 2 * Pow2(m)
  {
    Pow2Mono(2, m);
    assert Pow2(2) == 4;
    RoundUpFromBetween(0, Pow2(m) - 1, m);
    RoundUpFromBetween(0, Pow2(m) + 1, m + 1);
  }

  // ----- The in-place rehash --------------------------------------------------------------------

  method FirstEmpty(newFlags: array<Flag>, h: nat, ghost m: nat) returns (i: nat)
    requires newFlags.Length == Pow2(m)
    requires Count(newFlags[..], Live) < newFlags.Length && NoneDeleted(newFlags[..])
    ensures i < newFlags.Length && newFlags[i] == Empty
    ensures Reachable(newFlags[..], h, i)
  {
    ghost var e := SomeOther(newFlags[..], Live);
    assert newFlags[..][e] == Empty;
    ghost var t := ProbeReaches(h, e, m);
    var n := newFlags.Length;
    var step := 0;
    i := h % n;
    while newFlags[i] != Empty
      invariant step <= t && i == Probe(h, step, n)
      invariant NoEmptyBefore(newFlags[..], h, step)
      decreases t - step
    {
      ProbeStep(h, step, n);
      step := step + 1;
      i := (i + step) % n;
    }
  }

  /** `all` is what is pending, what is placed and the entry in hand, without overlap. */
  ghost predicate InHand<K, V>(all: map<K, V>, pending: map<K, V>, placed: map<K, V>, key: K, val: V) {
    && key !in pending && key !in placed && pending.Keys !! placed.Keys
    && all == (pending + placed)[key := val]
  }

  ghost predicate Split<K, V>(all: map<K, V>, pending: map<K, V>, placed: map<K, V>) {
    pending.Keys !! placed.Keys && all == pending + placed
  }

  lemma Taken<K, V>(all: map<K, V>, pending: map<K, V>, placed: map<K, V>, key: K)
    requires Split(all, pending, placed) && key in pending
    ensures InHand(all, pending - {key}, placed, key, pending[key])
  {
  }

  lemma Swapped<K, V>(all: map<K, V>, pending: map<K, V>, placed: map<K, V>, key: K, val: V)
    requires InHand(all, pending, placed, key, val)
    ensures key !in placed
    ensures Split(all, pending, placed[key := val])
  {
  }

  lemma MovingStart<K, V>(oldFlags: seq<Flag>, newFlags: seq<Flag>, keys: seq<K>, vals: seq<V>,
                          hash: K -> nat, all: map<K, V>)
    requires Rep(oldFlags, keys, vals, all)
    requires |newFlags| <= |keys| && |newFlags| <= |vals|
    requires forall i :: 0 <= i < |newFlags| ==> newFlags[i] == Empty
    ensures Moving(oldFlags, newFlags, keys, vals, hash, all, map[])
    ensures Split(all, all, map[])
    ensures Count(newFlags, Live) == 0
  {
    CountAll(newFlags, Empty);
  }

  lemma PendingEntry<K, V>(oldFlags: seq<Flag>, newFlags: seq<Flag>, keys: seq<K>, vals: seq<V>,
                           hash: K -> nat, pending: map<K, V>, placed: map<K, V>)
    requires Moving(oldFlags, newFlags, keys, vals, hash, pending, placed)
    ensures NoneDeleted(newFlags)
    ensures |oldFlags| <= |keys| && |oldFlags| <= |vals|
    ensures forall j :: 0 <= j < |oldFlags| && oldFlags[j] == Live
              ==> keys[j] in pending && pending[keys[j]] == vals[j]
  {
  }

  lemma MovingEnd<K, V>(oldFlags: seq<Flag>, newFlags: seq<Flag>, keys: seq<K>, vals: seq<V>,
                        hash: K -> nat, all: map<K, V>, pending: map<K, V>, placed: map<K, V>)
    requires Moving(oldFlags, newFlags, keys, vals, hash, pending, placed)
    requires Split(all, pending, placed)
    requires forall i :: 0 <= i < |oldFlags| ==> oldFlags[i] != Live
    ensures Rep(newFlags, keys, vals, all) && Findable(newFlags, keys, hash)
    ensures NoneDeleted(newFlags) && Count(oldFlags, Live) == 0
  {
    NothingLive(oldFlags, keys, vals, pending);
    NoneCounted(oldFlags, Live);
    assert all == placed;
  }

  /** The kick-out loop for one entry taken out of the old table. */
  method KickOut<K, V>(oldFlags: array<Flag>, newFlags: array<Flag>, keys: array<K>, vals: array<V>,
                       hash: K -> nat, key0: K, val0: V, ghost m: nat,
                       ghost all: map<K, V>, ghost pending0: map<K, V>, ghost placed0: map<K, V>)
    returns (ghost pending: map<K, V>, ghost placed: map<K, V>)
    requires newFlags.Length == Pow2(m) <= keys.Length && newFlags.Length <= vals.Length
    requires oldFlags != newFlags && oldFlags as object != keys && oldFlags as object != vals
    requires newFlags as object != keys && newFlags as object != vals && keys as object != vals
    requires Moving(oldFlags[..], newFlags[..], keys[..], vals[..], hash, pending0, placed0)
    requires InHand(all, pending0, placed0, key0, val0)
    requires Count(oldFlags[..], Live) + Count(newFlags[..], Live) + 1 < newFlags.Length
    modifies oldFlags, newFlags, keys, vals
    ensures Moving(oldFlags[..], newFlags[..], keys[..], vals[..], hash, pending, placed)
    ensures Split(all, pending, placed)
    ensures Count(oldFlags[..], Live) + Count(newFlags[..], Live)
         == old(Count(oldFlags[..], Live) + Count(newFlags[..], Live)) + 1
    ensures forall i :: 0 <= i < oldFlags.Length && old(oldFlags[i]) != Live ==> oldFlags[i] != Live
  {
    hide *;
    pending, placed := pending0, placed0;
    var key, val := key0, val0;
    var moving := true;
    while moving
      invariant Moving(oldFlags[..], newFlags[..], keys[..], vals[..], hash, pending, placed)
      invariant if moving then InHand(all, pending, placed, key, val) else Split(all, pending, placed)
      invariant Count(oldFlags[..], Live) + Count(newFlags[..], Live) + (if moving then 1 else 0)
             == old(Count(oldFlags[..], Live) + Count(newFlags[..], Live)) + 1
      invariant forall i :: 0 <= i < oldFlags.Length && old(oldFlags[i]) != Live ==> oldFlags[i] != Live
      decreases moving, Count(oldFlags[..], Live)
    {
      PendingEntry(oldFlags[..], newFlags[..], keys[..], vals[..], hash, pending, placed);
      var i := FirstEmpty(newFlags, hash(key), m);
      ghost var f, g, ks, vs := oldFlags[..], newFlags[..], keys[..], vals[..];
      ghost var key', val' := key, val;
      CountUpdate(g, i, Live, Live);
      Swapped(all, pending, placed, key, val);
      newFlags[i] := Live;
      if i < oldFlags.Length && oldFlags[i] == Live {
        TakeOut(f, g, ks, vs, hash, pending, placed, i);
        CountUpdate(f, i, Deleted, Live);
        PutDown(f[i := Deleted], g, ks, vs, hash, pending - {ks[i]}, placed, i, key, val);
        Taken(all, pending, placed[key := val], ks[i]);
        pending, placed := pending - {ks[i]}, placed[key := val];
        key, val, keys[i], vals[i] := keys[i], vals[i], key, val;
        oldFlags[i] := Deleted;
        assert oldFlags[..] == f[i := Deleted];
      } else {
        PutDown(f, g, ks, vs, hash, pending, placed, i, key, val);
        placed := placed[key := val];
        keys[i] := key;
        vals[i] := val;
        moving := false;
        assert oldFlags[..] == f;
      }
      assert newFlags[..] == g[i := Live] && keys[..] == ks[i := key'] && vals[..] == vs[i := val'];
    }
  }

  /**
    The whole rehash: the old and the new flags are live at once over the same key and value arrays.
    It ends, the represented map is unchanged, every key is found from its hash in the new flags,
    and the new flags hold no tombstone.
   */
  method Rehash<K, V>(oldFlags: array<Flag>, newFlags: array<Flag>, keys: array<K>, vals: array<V>,
                      hash: K -> nat, ghost m: nat, ghost all: map<K, V>)
    requires newFlags.Length == Pow2(m) <= keys.Length && newFlags.Length <= vals.Length
    requires oldFlags != newFlags && oldFlags as object != keys && oldFlags as object != vals
    requires newFlags as object != keys && newFlags as object != vals && keys as object != vals
    requires Rep(oldFlags[..], keys[..], vals[..], all)
    requires forall i :: 0 <= i < newFlags.Length ==> newFlags[i] == Empty
    requires Count(oldFlags[..], Live) < newFlags.Length
    modifies oldFlags, newFlags, keys, vals
    ensures Rep(newFlags[..], keys[..], vals[..], all)
    ensures Findable(newFlags[..], keys[..], hash)
    ensures NoneDeleted(newFlags[..])
    ensures Count(newFlags[..], Live) == old(Count(oldFlags[..], Live))
  {
    hide *;
    ghost var pending: map<K, V>, placed: map<K, V> := all, map[];
    ghost var size := Count(oldFlags[..], Live);
    MovingStart(oldFlags[..], newFlags[..], keys[..], vals[..], hash, all);
    var j := 0;
    while j < oldFlags.Length
      invariant j <= oldFlags.Length
      invariant Moving(oldFlags[..], newFlags[..], keys[..], vals[..], hash, pending, placed)
      invariant Split(all, pending, placed)
      invariant Count(oldFlags[..], Live) + Count(newFlags[..], Live) == size
      invariant forall i :: 0 <= i < j ==> oldFlags[i] != Live
    {
      if oldFlags[j] == Live {
        ghost var f := oldFlags[..];
        PendingEntry(f, newFlags[..], keys[..], vals[..], hash, pending, placed);
        var key, val := keys[j], vals[j];
        TakeOut(f, newFlags[..], keys[..], vals[..], hash, pending, placed, j);
        CountUpdate(f, j, Deleted, Live);
        Taken(all, pending, placed, key);
        oldFlags[j] := Deleted;
        assert oldFlags[..] == f[j := Deleted];
        pending, placed := KickOut(oldFlags, newFlags, keys, vals, hash, key, val, m, all,
                                   pending - {key}, placed);
      }
      j := j + 1;
    }
    MovingEnd(oldFlags[..], newFlags[..], keys[..], vals[..], hash, all, pending, placed);
  }

  lemma {:induction false} NoneCounted(flags: seq<Flag>, f: Flag)
    requires forall i :: 0 <= i < |flags| ==> flags[i] != f
    ensures Count(flags, f) == 0
  {
    if flags != [] {
      NoneCounted(flags[..|flags| - 1], f);
    }
  }

  // ----- The table ------------------------------------------------------------------------------

  /** Which of the allocations a resize may ask for succeed. */
  datatype Alloc = Alloc(flags: bool, keys: bool, vals: bool)

  method Realloc<T(0)>(a: array<T>, n: nat) returns (b: array<T>)
    ensures fresh(b) && b.Length == n
    ensures forall i :: 0 <= i < a.Length && i < n ==> b[i] == a[i]
  {
    b := new T[n];
    for i := 0 to if a.Length < n then a.Length else n
      invariant forall j :: 0 <= j < i ==> b[j] == a[j]
    {
      b[i] := a[i];
    }
  }

  /** `kh_get`: ends at the latest when the probe sequence is back at its first bucket. */
  method Lookup<K(==)>(flags: array<Flag>, keys: array<K>, hash: K -> nat, key: K, ghost m: nat) returns (x: nat)
    requires flags.Length == 0 || flags.Length == Pow2(m)
    requires Findable(flags[..], keys[..], hash)
    ensures x <= flags.Length
    ensures x < flags.Length ==> Holds(flags[..], keys[..], key, x)
    ensures x == flags.Length ==> !Present(flags[..], keys[..], key)
  {
    var n := flags.Length;
    if n == 0 {
      return 0;
    }
    var h := hash(key);
    var i, step := h % n, 0;
    var last := i;
    while flags[i] != Empty && (flags[i] == Deleted || keys[i] != key)
      invariant step < 2 * n - 1 && i == Probe(h, step, n) && last == Probe(h, 0, n)
      invariant forall s :: 0 <= s < step ==> !Holds(flags[..], keys[..], key, Probe(h, s, n))
      decreases 2 * n - step
    {
      ProbeStep(h, step, n);
      FirstReturn(h, step + 1, m);
      step := step + 1;
      i := (i + step) % n;
      if i == last {
        MissEverywhere(flags[..], keys[..], key, h, m);
        return n;
      }
    }
    if flags[i] == Live {
      return i;
    }
    MissAtEmpty(flags[..], keys[..], hash, key, step);
    return n;
  }

  /**
    The search of `kh_put`: the bucket of the key when it is there, otherwise the last tombstone
    passed, otherwise the empty bucket that ended the search.
   */
  method FindSlot<K(==)>(flags: array<Flag>, keys: array<K>, hash: K -> nat, key: K, ghost m: nat) returns (x: nat)
    requires flags.Length == Pow2(m)
    requires Findable(flags[..], keys[..], hash)
    requires Count(flags[..], Live) < flags.Length <= keys.Length
    ensures x < flags.Length
    ensures flags[x] == Live ==> keys[x] == key
    ensures flags[x] != Live ==> !Present(flags[..], keys[..], key) && Reachable(flags[..], hash(key), x)
  {
    hide Count, Findable, Reachable, Present;
    var n := flags.Length;
    var h := hash(key);
    var i, step: nat, site: nat := h % n, 0, n;
    var last := i;
    ghost var siteStep := 0;
    x := n;
    if flags[i] == Empty {
      FirstBucketReachable(flags[..], h);
      MissAtEmpty(flags[..], keys[..], hash, key, 0);
      return i;
    }
    while flags[i] != Empty && (flags[i] == Deleted || keys[i] != key)
      invariant step < 2 * n - 1 && i == Probe(h, step, n) && last == Probe(h, 0, n) && x == n
      invariant NoEmptyBefore(flags[..], h, step)
      invariant forall s :: 0 <= s < step ==> !Holds(flags[..], keys[..], key, Probe(h, s, n))
      invariant site == n || (site < n && flags[site] == Deleted && siteStep < step && site == Probe(h, siteStep, n))
      invariant site == n ==> forall s :: 0 <= s < step ==> flags[Probe(h, s, n)] == Live
      decreases 2 * n - step
    {
      if flags[i] == Deleted {
        site, siteStep := i, step;
      }
      ProbeStep(h, step, n);
      FirstReturn(h, step + 1, m);
      step := step + 1;
      i := (i + step) % n;
      if i == last {
        MissEverywhere(flags[..], keys[..], key, h, m);
        SiteExists(flags[..], h, m, site);
        x := site;
        ReachableAt(flags[..], h, siteStep, m);
        return x;
      }
    }
    if flags[i] == Empty && site != n {
      x := site;
      MissAtEmpty(flags[..], keys[..], hash, key, step);
      ReachableAt(flags[..], h, siteStep, m);
    } else {
      x := i;
      if flags[i] == Empty {
        MissAtEmpty(flags[..], keys[..], hash, key, step);
        ReachableAt(flags[..], h, step, m);
      }
    }
  }

  lemma FirstBucketReachable(flags: seq<Flag>, h: nat)
    requires |flags| > 0
    ensures Reachable(flags, h, Probe(h, 0, |flags|))
  {
    assert NoEmptyBefore(flags, h, 0);
  }

  /** A bucket met before any empty one is reachable, however many steps that took. */
  lemma ReachableAt(flags: seq<Flag>, h: nat, t: nat, m: nat)
    requires |flags| == Pow2(m)
    requires NoEmptyBefore(flags, h, t)
    ensures Reachable(flags, h, Probe(h, t, |flags|))
  {
    var u := ProbeReaches(h, Probe(h, t, |flags|), m);
    if u <= t {
      assert NoEmptyBefore(flags, h, u);
    } else {
      assert t < |flags|;
    }
  }

  lemma SiteExists(flags: seq<Flag>, h: nat, m: nat, site: nat)
    requires |flags| == Pow2(m) && Count(flags, Live) < |flags|
    requires site == |flags| ==> forall s :: 0 <= s < |flags| ==> flags[Probe(h, s, |flags|)] == Live
    ensures site != |flags|
  {
    var e := SomeOther(flags, Live);
    var t := ProbeReaches(h, e, m);
  }

  class Table<K(==, 0), V(0)> {
    const hash: K -> nat
    var nBuckets: nat
    var size: nat
    var nOccupied: nat
    var upperBound: nat
    var flags: array<Flag>
    var keys: array<K>
    var vals: array<V>
    /** The represented map. */
    ghost var contents: map<K, V>
    ghost var log: nat
    ghost var Repr: set<object>

    ghost predicate Separate()
      reads this
    {
      && this in Repr && flags in Repr && keys in Repr && vals in Repr
      && flags as object != keys && flags as object != vals && keys as object != vals
    }

    ghost predicate Sized()
      reads this, flags
    {
      && flags.Length == nBuckets
      && Count(flags[..], Live) == size
      && Count(flags[..], Empty) + nOccupied == nBuckets
      && nOccupied <= upperBound == UpperBound(nBuckets)
      && (nBuckets == 0 || (log >= 2 && nBuckets == Pow2(log)))
    }

    ghost predicate Valid()
      reads this, Repr
      ensures Valid() ==> this in Repr
    {
      && Separate()
      && Sized()
      && Rep(flags[..], keys[..], vals[..], contents)
      && Findable(flags[..], keys[..], hash)
    }

    /** `kh_init` */
    constructor (hash: K -> nat)
      ensures Valid() && fresh(Repr)
      ensures contents == map[] && this.hash == hash && nBuckets == 0
    {
      this.hash := hash;
      nBuckets, size, nOccupied, upperBound := 0, 0, 0, 0;
      var f, k, v := new Flag[0], new K[0], new V[0];
      flags, keys, vals := f, k, v;
      contents, log := map[], 0;
      Repr := {this, f, k, v};
    }

    /** `kh_size` */
    method Size() returns (s: nat)
      requires Valid()
      ensures s == |contents|
    {
      LiveCountIsCardinality(flags[..], keys[..], vals[..], contents);
      s := size;
    }

    /** `kh_get` */
    method Get(key: K) returns (x: nat)
      requires Valid()
      ensures x <= nBuckets
      ensures key in contents <==> x < nBuckets
      ensures x < nBuckets ==> flags[x] == Live && keys[x] == key && vals[x] == contents[key]
    {
      x := Lookup(flags, keys, hash, key, log);
      if x < nBuckets {
        assert flags[..][x] == Live && keys[..][x] == key && vals[..][x] == contents[key];
      }
    }

    /** `kh_clear` */
    method Clear()
      requires Valid()
      modifies Repr
      ensures Valid() && Repr == old(Repr)
      ensures contents == map[] && nBuckets == old(nBuckets)
    {
      for i := 0 to flags.Length
        modifies flags
        invariant forall j :: 0 <= j < i ==> flags[j] == Empty
      {
        flags[i] := Empty;
      }
      size, nOccupied, contents := 0, 0, map[];
      CountAll(flags[..], Empty);
    }

    /** `kh_del`: a bucket that is not live, or the end iterator, is left alone. */
    method Delete(x: nat)
      requires Valid() && x <= nBuckets
      modifies Repr
      ensures Valid() && Repr == old(Repr)
      ensures contents == if x < old(nBuckets) && old(flags[x]) == Live then old(contents) - {old(keys[x])} else old(contents)
      ensures nBuckets == old(nBuckets)
    {
      if x != nBuckets && flags[x] == Live {
        ghost var f := flags[..];
        RemoveAt(f, keys[..], vals[..], contents, x);
        RemoveKeepsFindable(f, keys[..], hash, x);
        CountUpdate(f, x, Deleted, Live);
        CountUpdate(f, x, Deleted, Empty);
        CountPositive(f, x);
        contents := contents - {keys[x]};
        flags[x] := Deleted;
        size := size - 1;
        assert flags[..] == f[x := Deleted];
      }
    }

    /** A shrinking resize whose reallocation of the keys or the values is refused. */
    predicate Loses(request: nat, alloc: Alloc)
      reads this
    {
      && nBuckets > NewSize(request) && size < UpperBound(NewSize(request))
      && alloc.flags && !(alloc.keys && alloc.vals)
    }

    /**
      `kh_resize`: refuses a size that is too small by doing nothing, fails when memory does, and
      otherwise rehashes in place.  The represented map is unchanged, except that the results of the
      two shrinking reallocations are stored unchecked: exactly then the table is lost.
     */
    method Resize(request: nat, alloc: Alloc) returns (err: int)
      requires Valid()
      modifies Repr
      ensures fresh(Repr - old(Repr))
      ensures Valid() <==> !old(Loses(request, alloc))
      ensures old(Loses(request, alloc)) ==>
                && err == 0 && nBuckets == NewSize(request)
                && (!alloc.keys ==> keys.Length == 0) && (!alloc.vals ==> vals.Length == 0)
      ensures contents == old(contents) && size == old(size)
      ensures err == 0 || (err == -1 && nBuckets == old(nBuckets))
      ensures alloc == Alloc(true, true, true) ==> err == 0
      ensures err == 0 && size < UpperBound(NewSize(request))
              ==> nBuckets == NewSize(request) && nOccupied == size
      ensures size >= UpperBound(NewSize(request)) ==> nBuckets == old(nBuckets) && nOccupied == old(nOccupied)
    {
      hide Rep, Findable, Count;
      KeysLongEnough(flags[..], keys[..], vals[..], contents);
      ghost var m := NewSizeIsPower(request);
      var n := NewSize(request);
      if size >= UpperBound(n) {
        return 0;
      }
      if !alloc.flags {
        return -1;
      }
      var newFlags := new Flag[n](_ => Empty);
      if nBuckets < n {
        var grown := Expand(n, alloc);
        if !grown {
          return -1;
        }
      }
      Rehash(flags, newFlags, keys, vals, hash, m, contents);
      Install(newFlags, alloc, m);
      return 0;
    }

    /** The two reallocations of an expanding resize. */
    method Expand(n: nat, alloc: Alloc) returns (ok: bool)
      requires Valid() && nBuckets < n
      modifies this`keys, this`vals, this`Repr
      ensures Valid() && fresh(Repr - old(Repr))
      ensures ok == (alloc.keys && alloc.vals)
      ensures ok ==> keys.Length == n && vals.Length == n
    {
      hide Rep, Findable, Count;
      if !alloc.keys {
        return false;
      }
      KeysLongEnough(flags[..], keys[..], vals[..], contents);
      var newKeys := Realloc(keys, n);
      SameLiveBuckets(flags[..], keys[..], vals[..], newKeys[..], vals[..], contents, hash);
      keys := newKeys;
      Repr := Repr + {newKeys};
      if !alloc.vals {
        return false;
      }
      var newVals := Realloc(vals, n);
      SameLiveBuckets(flags[..], keys[..], vals[..], keys[..], newVals[..], contents, hash);
      vals := newVals;
      Repr := Repr + {newVals};
      return true;
    }

    /** The two reallocations of a shrinking resize; a refused one leaves no array at all. */
    method Shrink(newFlags: array<Flag>, alloc: Alloc)
      requires Separate() && newFlags as object != keys && newFlags as object != vals
      requires Rep(newFlags[..], keys[..], vals[..], contents) && Findable(newFlags[..], keys[..], hash)
      modifies this`keys, this`vals, this`Repr
      ensures Separate() && newFlags as object != keys && newFlags as object != vals
      ensures fresh(Repr - old(Repr))
      ensures alloc.keys && alloc.vals ==> Rep(newFlags[..], keys[..], vals[..], contents) && Findable(newFlags[..], keys[..], hash)
      ensures !alloc.keys ==> keys.Length == 0
      ensures !alloc.vals ==> vals.Length == 0
    {
      hide Rep, Findable;
      var n := newFlags.Length;
      KeysLongEnough(newFlags[..], keys[..], vals[..], contents);
      var newKeys, newVals;
      if alloc.keys {
        newKeys := Realloc(keys, n);
      } else {
        newKeys := new K[0];
      }
      if alloc.vals {
        newVals := Realloc(vals, n);
      } else {
        newVals := new V[0];
      }
      if alloc.keys && alloc.vals {
        SameLiveBuckets(newFlags[..], keys[..], vals[..], newKeys[..], newVals[..], contents, hash);
      }
      keys, vals := newKeys, newVals;
      Repr := Repr + {newKeys, newVals};
    }

    /** The end of a resize: the arrays are cut down when the table shrinks. */
    method Install(newFlags: array<Flag>, alloc: Alloc, ghost m: nat)
      requires Separate() && m >= 2 && newFlags.Length == Pow2(m)
      requires newFlags as object != keys && newFlags as object != vals
      requires Rep(newFlags[..], keys[..], vals[..], contents) && Findable(newFlags[..], keys[..], hash)
      requires NoneDeleted(newFlags[..]) && Count(newFlags[..], Live) == size < UpperBound(newFlags.Length)
      modifies this
      ensures fresh(Repr - old(Repr) - {newFlags})
      ensures Valid() <==> old(nBuckets) <= newFlags.Length || (alloc.keys && alloc.vals)
      ensures !Valid() ==> (!alloc.keys ==> keys.Length == 0) && (!alloc.vals ==> vals.Length == 0)
      ensures contents == old(contents) && size == old(size)
      ensures nBuckets == newFlags.Length && nOccupied == size
    {
      hide Rep, Findable, Count, Pow2, UpperBound;
      if nBuckets > newFlags.Length {
        Shrink(newFlags, alloc);
      }
      flags := newFlags;
      nBuckets, nOccupied, upperBound := newFlags.Length, size, UpperBound(newFlags.Length);
      log, Repr := m, Repr + {newFlags};
      LiveOrEmpty(flags[..]);
      ArraysTooShort(flags[..], keys[..], vals[..], contents);
    }

    /** The first half of `kh_put`: below the load bound afterwards, or out of memory. */
    method MakeRoom(alloc: Alloc) returns (ok: bool)
      requires Valid()
      modifies Repr
      ensures Valid() && fresh(Repr - old(Repr))
      ensures contents == old(contents)
      ensures ok ==> nOccupied < upperBound
      ensures alloc == Alloc(true, true, true) ==> ok
    {
      hide Rep, Findable, Count;
      if nOccupied >= upperBound {
        var err;
        GrowSize(nBuckets, log, size, flags[..], nOccupied);
        if nBuckets > 2 * size {
          PutSizes(log);
          err := Resize(nBuckets - 1, alloc);
        } else {
          err := Resize(nBuckets + 1, alloc);
        }
        return err == 0;
      }
      return true;
    }

    /**
      `kh_put`: finds or makes the bucket of a key.  The value of a new entry is whatever the
      bucket held, until the caller stores one.
     */
    method Put(key: K, alloc: Alloc) returns (x: nat, ret: int)
      requires Valid()
      modifies Repr
      ensures Valid() && fresh(Repr - old(Repr))
      ensures -1 <= ret <= 2
      ensures alloc == Alloc(true, true, true) ==> ret >= 0
      ensures ret == -1 ==> x == nBuckets && contents == old(contents)
      ensures ret >= 0 ==> x < nBuckets && flags[x] == Live && keys[x] == key
      ensures ret == 0 ==> key in old(contents) && contents == old(contents)
      ensures ret > 0 ==> key !in old(contents) && contents == old(contents)[key := vals[x]]
    {
      hide Rep, Findable, Count;
      var ok := MakeRoom(alloc);
      if !ok {
        return nBuckets, -1;
      }
      RoomLeft(flags[..], nOccupied, upperBound, log);
      KeysLongEnough(flags[..], keys[..], vals[..], contents);
      x := FindSlot(flags, keys, hash, key, log);
      if flags[x] != Live {
        AbsentKey(flags[..], keys[..], vals[..], contents, key);
        ret := Fill(key, x);
      } else {
        PresentKey(flags[..], keys[..], vals[..], contents, x);
        ret := 0;
      }
    }

    /** The end of `kh_put` for a key that is not there: an empty bucket or a tombstone is taken. */
    method Fill(key: K, x: nat) returns (ret: int)
      requires Valid() && nOccupied < upperBound && key !in contents
      requires x < nBuckets && flags[x] != Live && Reachable(flags[..], hash(key), x)
      modifies Repr
      ensures Valid() && Repr == old(Repr) && nBuckets == old(nBuckets)
      ensures ret == if old(flags[x]) == Empty then 1 else 2
      ensures x < nBuckets && flags[x] == Live && keys[x] == key
      ensures contents == old(contents)[key := vals[x]]
    {
      hide Rep, Findable, Count, Reachable, UpperBound, Pow2;
      ghost var f, ks, vs := flags[..], keys[..], vals[..];
      KeysLongEnough(f, ks, vs, contents);
      AddAt(f, ks, vs, contents, x, key, vs[x]);
      AddKeepsFindable(f, ks, hash, x, key);
      CountUpdate(f, x, Live, Live);
      CountUpdate(f, x, Live, Empty);
      assert vs[x := vs[x]] == vs;
      if flags[x] == Empty {
        nOccupied := nOccupied + 1;
        ret := 1;
      } else {
        ret := 2;
      }
      keys[x] := key;
      flags[x] := Live;
      size := size + 1;
      contents := contents[key := vals[x]];
      assert flags[..] == f[x := Live] && keys[..] == ks[x := key] && vals[..] == vs;
    }

    /** `kh_value(h, x) = v` */
    method SetValue(x: nat, v: V)
      requires Valid() && x < nBuckets && flags[x] == Live
      modifies Repr
      ensures Valid() && Repr == old(Repr)
      ensures contents == old(contents)[old(keys[x]) := v]
      ensures nBuckets == old(nBuckets)
    {
      SetAt(flags[..], keys[..], vals[..], contents, x, v);
      ghost var vs := vals[..];
      contents := contents[keys[x] := v];
      vals[x] := v;
      assert vals[..] == vs[x := v];
    }

    /** The put-then-store idiom of `path_map_insert` and of every other user of the table. */
    method Insert(key: K, v: V, alloc: Alloc) returns (ok: bool)
      requires Valid()
      modifies Repr
      ensures Valid() && fresh(Repr - old(Repr))
      ensures contents == if ok then old(contents)[key := v] else old(contents)
      ensures alloc == Alloc(true, true, true) ==> ok
    {
      var x, ret := Put(key, alloc);
      if ret < 0 {
        return false;
      }
      SetValue(x, v);
      return true;
    }
  }

  // ----- Helpers of the class -------------------------------------------------------------------

  lemma SameLiveBuckets<K, V>(flags: seq<Flag>, keys: seq<K>, vals: seq<V>, keys': seq<K>, vals': seq<V>,
                              m: map<K, V>, hash: K -> nat)
    requires Rep(flags, keys, vals, m) && Findable(flags, keys, hash)
    requires |keys'| >= |flags| && |vals'| >= |flags|
    requires forall x :: 0 <= x < |flags| ==> keys'[x] == keys[x] && vals'[x] == vals[x]
    ensures Rep(flags, keys', vals', m) && Findable(flags, keys', hash)
    ensures |flags| <= |keys| && |flags| <= |vals|
  {
    RepOnLive(flags, keys, vals, keys', vals', m);
  }

  lemma LiveOrEmpty(flags: seq<Flag>)
    requires NoneDeleted(flags)
    ensures Count(flags, Live) + Count(flags, Empty) == |flags|
  {
    CountSum(flags);
    NoneCounted(flags, Deleted);
  }

  /** The load bound leaves room, so growing to the double is never refused as too small. */
  lemma GrowSize(n: nat, log: nat, size: nat, flags: seq<Flag>, nOccupied: nat)
    requires |flags| == n && Count(flags, Live) == size
    requires Count(flags, Empty) + nOccupied == n
    requires nOccupied <= UpperBound(n)
    requires n == 0 || (log >= 2 && n == Pow2(log))
    ensures size < UpperBound(NewSize(n + 1))
    ensures n == 0 ==> NewSize(n + 1) == 4
    ensures n < NewSize(n + 1)
  {
    CountSum(flags);
    if n == 0 {
      assert RoundUp(1) == 1;
    } else {
      Pow2Mono(2, log);
      assert Pow2(2) == 4;
      PutSizes(log);
    }
  }

  lemma RoomLeft(flags: seq<Flag>, nOccupied: nat, upperBound: nat, log: nat)
    requires Count(flags, Empty) + nOccupied == |flags| && nOccupied < upperBound
    requires upperBound == UpperBound(|flags|)
    requires |flags| == 0 || (log >= 2 && |flags| == Pow2(log))
    ensures Count(flags, Live) < |flags|
    ensures |flags| == Pow2(log)
  {
    CountSum(flags);
    if |flags| > 0 {
      Pow2Mono(2, log);
      assert Pow2(2) == 4;
    }
  }

  /** Without its keys or its values a table represents nothing. */
  lemma ArraysTooShort<K, V>(flags: seq<Flag>, keys: seq<K>, vals: seq<V>, m: map<K, V>)
    requires |flags| > 0
    ensures |keys| == 0 || |vals| == 0 ==> !Rep(flags, keys, vals, m)
  {
  }

  lemma KeysLongEnough<K, V>(flags: seq<Flag>, keys: seq<K>, vals: seq<V>, m: map<K, V>)
    requires Rep(flags, keys, vals, m)
    ensures |flags| <= |keys| && |flags| <= |vals|
  {
  }

  lemma AbsentKey<K, V>(flags: seq<Flag>, keys: seq<K>, vals: seq<V>, m: map<K, V>, key: K)
    requires Rep(flags, keys, vals, m) && !Present(flags, keys, key)
    ensures key !in m
  {
  }

  lemma PresentKey<K, V>(flags: seq<Flag>, keys: seq<K>, vals: seq<V>, m: map<K, V>, x: nat)
    requires Rep(flags, keys, vals, m) && x < |flags| && flags[x] == Live
    ensures keys[x] in m
  {
  }

  // ----- Every sequence of calls ----------------------------------------------------------------

  datatype Op<K, V> = PutOp(key: K, val: V, alloc: Alloc) | GetOp(key: K) | DelOp(key: K) | ClearOp
  datatype Out<V> = Stored(ok: bool) | Missing | Value(val: V) | Done

  /** What a mathematical map answers to one call. */
  ghost predicate Answers<K, V>(m: map<K, V>, op: Op<K, V>, out: Out<V>) {
    match op
    case PutOp(_, _, alloc) => out.Stored? && (alloc == Alloc(true, true, true) ==> out.ok)
    case GetOp(key) => out == if key in m then Value(m[key]) else Missing
    case DelOp(key) => out == if key in m then Done else Missing
    case ClearOp => out == Done
  }

  /** What a mathematical map is after one call. */
  ghost function Apply<K, V>(m: map<K, V>, op: Op<K, V>, out: Out<V>): map<K, V> {
    match op
    case PutOp(key, val, _) => if out == Stored(true) then m[key := val] else m
    case GetOp(_) => m
    case DelOp(key) => m - {key}
    case ClearOp => map[]
  }

  ghost function MapAfter<K, V>(ops: seq<Op<K, V>>, outs: seq<Out<V>>): map<K, V>
    requires |ops| == |outs|
  {
    if ops == [] then map[]
    else Apply(MapAfter(ops[..|ops| - 1], outs[..|outs| - 1]), ops[|ops| - 1], outs[|outs| - 1])
  }

  /** Every answer is the one a mathematical map, driven by the same calls, gives. */
  ghost predicate Behaves<K, V>(ops: seq<Op<K, V>>, outs: seq<Out<V>>) {
    && |outs| == |ops|
    && forall i :: 0 <= i < |ops| ==> Answers(MapAfter(ops[..i], outs[..i]), ops[i], outs[i])
  }

  method Perform<K(==, 0), V(0)>(t: Table<K, V>, op: Op<K, V>) returns (out: Out<V>)
    requires t.Valid()
    modifies t.Repr
    ensures t.Valid() && fresh(t.Repr - old(t.Repr))
    ensures Answers(old(t.contents), op, out)
    ensures t.contents == Apply(old(t.contents), op, out)
  {
    match op
    case PutOp(key, val, alloc) =>
      var ok := t.Insert(key, val, alloc);
      out := Stored(ok);
    case GetOp(key) =>
      var x := t.Get(key);
      out := if x == t.nBuckets then Missing else Value(t.vals[x]);
    case DelOp(key) =>
      var x := t.Get(key);
      out := if x == t.nBuckets then Missing else Done;
      t.Delete(x);
    case ClearOp =>
      t.Clear();
      out := Done;
  }

  lemma MapAfterStep<K, V>(ops: seq<Op<K, V>>, outs: seq<Out<V>>, op: Op<K, V>, out: Out<V>)
    requires |ops| == |outs|
    ensures MapAfter(ops + [op], outs + [out]) == Apply(MapAfter(ops, outs), op, out)
  {
    hide Apply;
    assert (ops + [op])[..|ops|] == ops && (outs + [out])[..|outs|] == outs;
  }

  /** A table of 16 buckets and no entry, cut down to 4 while the new keys are refused: no error, and no table. */
  method ShrinkLosesTable(hash: nat -> nat) returns (t: Table<nat, nat>, err: int)
    ensures err == 0 && !t.Valid() && t.nBuckets == 4 && t.keys.Length == 0
  {
    t := new Table<nat, nat>(hash);
    SizesOfDemo();
    err := t.Resize(16, Alloc(true, true, true));
    err := t.Resize(4, Alloc(true, false, true));
  }

  lemma SizesOfDemo()
    ensures NewSize(16) == 16 && NewSize(4) == 4
  {
    assert Pow2(4) == 16 && Pow2(2) == 4;
  }

  lemma OneMoreCall<K, V>(ops: seq<Op<K, V>>, outs: seq<Out<V>>, op: Op<K, V>, out: Out<V>)
    requires Behaves(ops, outs) && Answers(MapAfter(ops, outs), op, out)
    ensures Behaves(ops + [op], outs + [out])
    ensures MapAfter(ops + [op], outs + [out]) == Apply(MapAfter(ops, outs), op, out)
  {
    MapAfterStep(ops, outs, op, out);
    hide Answers, Apply, MapAfter;
    var ops', outs' := ops + [op], outs + [out];
    assert ops'[..|ops|] == ops && outs'[..|outs|] == outs;
    forall i | 0 <= i < |ops'| ensures Answers(MapAfter(ops'[..i], outs'[..i]), ops'[i], outs'[i]) {
      if i < |ops| {
        assert ops'[..i] == ops[..i] && outs'[..i] == outs[..i];
      }
    }
  }

  /** A table driven by any sequence of calls answers like a mathematical map. */
  method Run<K(==, 0), V(0)>(hash: K -> nat, ops: seq<Op<K, V>>) returns (outs: seq<Out<V>>)
    ensures Behaves(ops, outs)
  {
    var t := new Table<K, V>(hash);
    outs := [];
    for i := 0 to |ops|
      invariant t.Valid() && fresh(t.Repr) && |outs| == i
      invariant t.contents == MapAfter(ops[..i], outs) && Behaves(ops[..i], outs)
    {
      hide MapAfter, Answers, Apply;
      var out := Perform(t, ops[i]);
      OneMoreCall(ops[..i], outs, ops[i], out);
      assert ops[..i + 1] == ops[..i] + [ops[i]];
      outs := outs + [out];
    }
    assert ops[..|ops|] == ops;
  }
}
