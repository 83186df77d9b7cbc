/**
  A pool of fixed-size elements: one contiguous region, reserved at once, made accessible in
  steps, handed out from the front and zeroed when cleared.
 */
module PoolMemory {

  const UINT32_MAX: nat := 0xFFFF_FFFF
  const ENOMEM: int := 12
  const EOVERFLOW: int := 75

  datatype Span = Span(idx: nat, count: nat)

  /** The spans cover [0, free) one after the other. */
  ghost predicate Tiles(spans: seq<Span>, free: nat) {
    if spans == [] then free == 0
    else
      var last := spans[|spans| - 1];
      last.idx + last.count == free && Tiles(spans[..|spans| - 1], last.idx)
  }

  lemma TilesAppend(spans: seq<Span>, free: nat, count: nat)
    requires Tiles(spans, free)
    ensures Tiles(spans + [Span(free, count)], free + count)
  {
    assert (spans + [Span(free, count)])[..|spans|] == spans;
  }

  ghost predicate InSpan(s: Span, k: nat) {
    s.idx <= k < s.idx + s.count
  }

  ghost predicate Covered(spans: seq<Span>, k: nat) {
    exists i :: 0 <= i < |spans| && InSpan(spans[i], k)
  }

  /** Tiling means no element is in two spans, and every element below `free` is in one. */
  lemma {:induction false} TilesPartition(spans: seq<Span>, free: nat)
    requires Tiles(spans, free)
    ensures forall i, j :: 0 <= i < j < |spans| ==> spans[i].idx + spans[i].count <= spans[j].idx
    ensures forall i :: 0 <= i < |spans| ==> spans[i].idx + spans[i].count <= free
    ensures forall k :: 0 <= k < free ==> Covered(spans, k)
  {
    if spans != [] {
      var n := |spans| - 1;
      var front := spans[..n];
      TilesPartition(front, spans[n].idx);
      forall k | 0 <= k < free
        ensures Covered(spans, k)
      {
        if k < spans[n].idx {
          assert Covered(front, k);
          var i :| 0 <= i < |front| && InSpan(front[i], k);
          assert InSpan(spans[i], k);
        } else {
          assert InSpan(spans[n], k);
        }
      }
      forall i, j | 0 <= i < j < |spans|
        ensures spans[i].idx + spans[i].count <= spans[j].idx
      {
        assert spans[i] == front[i];
        if j < n {
          assert spans[j] == front[j];
        }
      }
      forall i | 0 <= i < |spans|
        ensures spans[i].idx + spans[i].count <= free
      {
        if i < n {
          assert spans[i] == front[i];
        }
      }
    }
  }

  class Pool<T> {
    const reserved: nat
    const growby: nat
    const zero: T
    /** The kernel's answer to each request for access to more of the reserved range. */
    const grants: nat -> bool
    const memory: array<T>
    /** Requests so far. */
    var grown: nat
    var accessible: nat
    var free: nat
    /** Every claim since the last clear. */
    ghost var spans: seq<Span>

    ghost predicate Valid()
      reads this, memory
    {
      && memory.Length == reserved
      && free <= accessible <= reserved && free <= UINT32_MAX
      && Tiles(spans, free)
      && forall k :: free <= k < reserved ==> memory[k] == zero
    }

    /** `xal_pool_map`, private memory; shared memory is the case `accessible == reserved`. */
    constructor (reserved: nat, accessible: nat, growby: nat, zero: T, grants: nat -> bool)
      requires accessible <= reserved
      ensures Valid() && fresh(memory)
      ensures free == 0 && this.accessible == accessible && this.reserved == reserved && grown == 0 && spans == []
      ensures this.zero == zero && this.grants == grants
    {
      this.reserved, this.growby, this.zero, this.grants := reserved, growby, zero, grants;
      this.accessible := accessible;
      this.free, this.grown := 0, 0;
      this.memory := new T[reserved](_ => zero);
      this.spans := [];
    }

    /** Whether a claim of `count` elements is granted now. */
    predicate Grants(count: nat)
      reads this
    {
      free + count <= reserved && free + count <= UINT32_MAX && (free + count <= accessible || grants(grown))
    }

    /** Whether the pool can come to hand out its first `total` elements, whatever is claimed in between. */
    ghost predicate Reaches(total: nat)
      reads this
    {
      total <= reserved && total <= UINT32_MAX && (total <= accessible || forall k :: k >= grown ==> grants(k))
    }

    /** `xal_pool_grow` */
    method Grow(more: nat) returns (err: int)
      requires Valid() && accessible + more <= reserved
      modifies this`accessible, this`grown
      ensures Valid() && grown == old(grown) + 1
      ensures err == if grants(old(grown)) then 0 else -ENOMEM
      ensures accessible == old(accessible) + if err == 0 then more else 0
    {
      grown := grown + 1;
      if !grants(grown - 1) {
        return -ENOMEM;
      }
      accessible := accessible + more;
      return 0;
    }

    /**
      `xal_pool_claim_inodes` and `xal_pool_claim_extents`: growth is clamped to the reservation
      and still satisfies the claim; what is handed out is the next `count` elements, all zero.
     */
    method Claim(count: nat) returns (err: int, idx: nat)
      requires Valid()
      modifies this
      ensures Valid()
      ensures err <= 0 && (err == 0 <==> old(Grants(count)))
      ensures err == 0 ==> idx == old(free) && free == old(free) + count <= accessible
      ensures err == 0 ==> spans == old(spans) + [Span(idx, count)]
      ensures err == 0 ==> forall k :: idx <= k < idx + count ==> memory[k] == zero
      ensures accessible >= old(accessible) && grown >= old(grown)
      ensures err != 0 ==> free == old(free) && spans == old(spans) && accessible == old(accessible)
      ensures old(free) + count > reserved ==> err == -ENOMEM
    {
      hide Tiles;
      TilesAppend(spans, free, count);
      idx := 0;
      if free + count > reserved {
        return -ENOMEM, idx;
      }
      if free + count > UINT32_MAX {
        return -EOVERFLOW, idx;
      }
      if free + count > accessible {
        var need := free + count - accessible;
        var more := if need > growby then need else growby;
        if accessible + more > reserved {
          more := reserved - accessible;
        }
        err := Grow(more);
        if err != 0 {
          return;
        }
      }
      idx := free;
      spans := spans + [Span(free, count)];
      free := free + count;
      return 0, idx;
    }

    /** A write inside what was handed out. */
    method Write(k: nat, v: T)
      requires Valid() && k < free
      modifies memory
      ensures Valid() && memory[..] == old(memory[..])[k := v]
    {
      memory[k] := v;
    }

    /** `xal_pool_clear`: only what was handed out needs zeroing, and all of it is. */
    method Clear()
      requires Valid()
      modifies this`free, this`spans, memory
      ensures Valid()
      ensures free == 0 && spans == [] && memory[..] == seq(reserved, _ => zero)
    {
      for i := 0 to free
        modifies memory
        invariant forall k :: 0 <= k < i ==> memory[k] == zero
        invariant forall k :: free <= k < reserved ==> memory[k] == zero
      {
        memory[i] := zero;
      }
      free := 0;
      spans := [];
    }
  }
}
