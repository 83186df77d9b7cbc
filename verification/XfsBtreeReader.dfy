/** The reader of a file's B+tree, with the one buffer that all its reads share. */
module XfsBtreeReader {
  import opened Inodes
  import opened PoolMemory
  import opened XfsFormat
  import opened XfsGeometry
  import opened XfsFileBtree

  lemma HeaderCopy(b: seq<Byte>)
    requires |b| >= HEADER
    ensures var head := b[..HEADER]; Magic(head) == Magic(b) && Level(head) == Level(b) && NumRecs(head) == NumRecs(b)
  {
    var head := b[..HEADER];
    assert head[..4] == b[..4] && head[4..6] == b[4..6] && head[6..8] == b[6..8];
  }

  function ErrOf(out: Outcome): int {
    match out
    case Ok(_) => 0
    case Fail(err) => err
    case Outside => OUTSIDE
    case Deep => DEEP
  }

  lemma PointersCopy(b: seq<Byte>, copy: seq<Byte>, n: nat)
    requires |b| >= HEADER && n <= MAX_POINTERS
    requires copy == Padded(b, PointersOfz(|b|), 8 * MAX_POINTERS)
    ensures 8 * n <= |copy|
    ensures forall i :: 0 <= i < n ==> Pointers(b, n)[i] == Be64(copy[0 + 8 * i..0 + 8 * i + 8])
  {
    hide Be64;
    var ofz := PointersOfz(|b|);
    forall i | 0 <= i < n ensures copy[0 + 8 * i..0 + 8 * i + 8] == Padded(b, ofz + 8 * i, 8) {
    }
  }

  lemma RootPointersInside(dinode: seq<Byte>)
    requires |dinode| >= CORE + 16 && RootPointers(dinode) != []
    ensures var ofz, n := RootOfz(|dinode|, Forkoff(dinode)), |RootPointers(dinode)|;
            && ofz + 8 * n <= |dinode|
            && forall i :: 0 <= i < n ==> RootPointers(dinode)[i] == Be64(dinode[ofz + 8 * i..ofz + 8 * i + 8])
  {
    hide RootNumRecs, Be64, RootOfz;
  }

  class Reader {
    const g: Geometry
    const device: Device
    const buf: array<Byte>
    const extents: Pool<Extent>
    /** The span of the inode being filled. */
    var first: nat
    var count: nat

    ghost predicate Valid()
      reads this, buf, extents, extents.memory
    {
      Sized(device, g.blocksize) && buf.Length >= g.blocksize && extents.Valid()
    }

    constructor (g: Geometry, device: Device, buf: array<Byte>, extents: Pool<Extent>)
      requires Sized(device, g.blocksize) && buf.Length >= g.blocksize && extents.Valid()
      ensures Valid() && this.g == g && this.device == device && this.buf == buf && this.extents == extents && count == 0
    {
      this.g, this.device, this.buf, this.extents := g, device, buf, extents;
      first, count := 0, 0;
    }

    /** Every extent handed out so far. */
    ghost function Contents(): seq<Extent>
      requires Valid()
      reads this, buf, extents, extents.memory
    {
      extents.memory[..extents.free]
    }

    /**
      What a read did, from the state before it: if it succeeded the records follow what was there,
      and otherwise it stopped as the bytes made it, or because the pool refused.
     */
    ghost predicate Took(err: int, out: Outcome, before: seq<Extent>, taken: nat)
      requires Valid()
      reads this, buf, extents, extents.memory
    {
      && before <= Contents()
      && (err == 0 ==> out.Ok? && Contents() == before + out.recs && count == taken + |out.recs|)
      && (err == ErrOf(out) || err < 0)
    }

    /** Nothing that the pool could reach before is out of reach now. */
    twostate predicate Later()
      reads this, extents
    {
      extents.accessible >= old(extents.accessible) && extents.grown >= old(extents.grown)
    }

    /** `dev_read` of one block into the shared buffer. */
    method DevRead(ofz: nat) returns (err: int)
      requires Valid()
      modifies buf
      ensures Valid()
      ensures err == if ofz in device then 0 else ReadErr(g, ofz, g.blocksize)
      ensures ofz in device ==> buf[..g.blocksize] == device[ofz]
    {
      if ofz !in device {
        return ReadErr(g, ofz, g.blocksize);
      }
      var block := device[ofz];
      for i := 0 to g.blocksize
        invariant buf[..i] == block[..i]
      {
        buf[i] := block[i];
        assert block[..i + 1] == block[..i] + [block[i]];
      }
      assert block[..g.blocksize] == block;
      return 0;
    }

    /** `process_file_btree_leaf` */
    method ProcessLeaf(fsbno: nat) returns (err: int)
      requires Valid()
      modifies this`count, buf, extents, extents.memory
      ensures Valid() && Later()
      ensures Took(err, LeafOutcome(device, g, fsbno), old(Contents()), old(count))
      ensures var out := LeafOutcome(device, g, fsbno);
              && (out.Ok? && old(extents.Reaches(extents.free + |out.recs|)) ==> err == 0)
              && (out.Fail? ==> err == out.err && Contents() == old(Contents()) && count == old(count))
    {
      hide FsbnoOffset, Magic, Level, NumRecs;
      var ofz := FsbnoOffset(g, fsbno);
      err := DevRead(ofz);
      if err != 0 {
        return;
      }
      ghost var b := device[ofz];
      var leaf := buf[..HEADER];
      assert leaf == b[..HEADER];
      HeaderCopy(b);
      if Magic(leaf) != BMAP_MAGIC {
        return -EINVAL;
      }
      if Level(leaf) != 0 {
        return -EINVAL;
      }
      err := TakeRecords(b, NumRecs(leaf));
    }

    /** The records of the leaf in the buffer. */
    method TakeRecords(ghost b: seq<Byte>, n: nat) returns (err: int)
      requires Valid() && |b| == g.blocksize && buf[..g.blocksize] == b
      modifies this`count, extents, extents.memory
      ensures Valid() && Later() && old(Contents()) <= Contents()
      ensures n <= MaxRecs(|b|) ==>
                && (err == 0 <==> old(extents.Grants(n))) && err <= 0
                && (err == 0 ==> Contents() == old(Contents()) + Records(b, n) && count == old(count) + n)
      ensures n > MaxRecs(|b|) ==> err == OUTSIDE || err < 0
    {
      hide ReadRecord, Records, Tiles;
      var start: nat;
      ghost var before := Contents();
      err, start := extents.Claim(n);
      assert extents.memory[..extents.free][..|before|] == before;
      if err != 0 {
        return;
      }
      count := count + n;
      if n > MaxRecs(g.blocksize) {
        return OUTSIDE;
      }
      CopyRecords(b, n, start);
      assert extents.memory[..extents.free] == extents.memory[..start] + extents.memory[start..start + n];
    }

    method CopyRecords(ghost b: seq<Byte>, n: nat, start: nat)
      requires Valid() && |b| == g.blocksize && buf[..g.blocksize] == b && n <= MaxRecs(|b|) && start + n == extents.free
      modifies extents.memory
      ensures Valid() && extents.memory[start..start + n] == Records(b, n)
      ensures extents.memory[..start] == old(extents.memory[..start])
    {
      hide ReadRecord, Records, Tiles;
      NoRecords(b);
      for rec := 0 to n
        invariant extents.memory[..start] == old(extents.memory[..start])
        invariant extents.memory[start..start + rec] == Records(b, rec)
        invariant forall k :: extents.free <= k < extents.reserved ==> extents.memory[k] == extents.zero
      {
        assert buf[HEADER + 16 * rec..HEADER + 16 * rec + 16] == b[HEADER + 16 * rec..HEADER + 16 * rec + 16];
        RecordsStep(b, rec);
        extents.memory[start + rec] := ReadRecord(buf[HEADER + 16 * rec..HEADER + 16 * rec + 16]);
      }
    }

    /** `process_file_btree_node`: the pointers are copied out before the recursion reuses the buffer. */
    method ProcessNode(fsbno: nat, frames: nat) returns (err: int)
      requires Valid()
      modifies this`count, buf, extents, extents.memory
      ensures Valid() && Later()
      ensures Took(err, NodeOutcome(device, g, fsbno, frames), old(Contents()), old(count))
      ensures var out := NodeOutcome(device, g, fsbno, frames);
              out.Ok? && old(extents.Reaches(extents.free + |out.recs|)) ==> err == 0
      decreases frames, 2, 0
    {
      hide FsbnoOffset, Magic, Level, NumRecs, ListOutcome, Tiles;
      if frames == 0 {
        return DEEP;
      }
      if g.blocksize > BLOCK_MAX {
        return -EINVAL;
      }
      var ofz := FsbnoOffset(g, fsbno);
      err := DevRead(ofz);
      if err != 0 {
        return;
      }
      ghost var b := device[ofz];
      var node := buf[..HEADER];
      assert node == b[..HEADER];
      var pointers := Padded(buf[..g.blocksize], PointersOfz(g.blocksize), 8 * MAX_POINTERS);
      HeaderCopy(b);
      if Magic(node) != BMAP_MAGIC {
        return -EINVAL;
      }
      if Level(node) == 0 {
        return -EINVAL;
      }
      ghost var ptrs := Pointers(b, Min(NumRecs(b), MAX_POINTERS));
      PointersCopy(b, pointers, |ptrs|);
      err := ProcessPointers(pointers, 0, Level(node), |pointers| / 8, NumRecs(node), ptrs, frames - 1);
    }

    /**
      Pointer after pointer, from bytes that the reads do not touch: `n` of them, of which `room`
      at most are there.
     */
    method ProcessPointers(bytes: seq<Byte>, ofz: nat, level: nat, room: nat, n: nat, ghost ptrs: seq<nat>, frames: nat)
      returns (err: int)
      requires Valid() && level > 0 && |ptrs| == Min(n, room) && (ptrs != [] ==> ofz + 8 * |ptrs| <= |bytes|)
      requires forall i :: 0 <= i < |ptrs| ==> ptrs[i] == Be64(bytes[ofz + 8 * i..ofz + 8 * i + 8])
      modifies this`count, buf, extents, extents.memory
      ensures Valid() && Later()
      ensures Took(err, ListOutcome(device, g, ptrs, n, level, frames), old(Contents()), old(count))
      ensures var out := ListOutcome(device, g, ptrs, n, level, frames);
              out.Ok? && old(extents.Reaches(extents.free + |out.recs|)) ==> err == 0
      decreases frames, 4, 1
    {
      hide KidsOutcome, PrefixOutcome, Be64, Tiles, Sized;
      PrefixEnds(device, g, ptrs, level, frames);
      err := 0;
      for rec := 0 to Min(n, room)
        invariant err == 0 && Valid() && Later()
        invariant Took(0, PrefixOutcome(device, g, ptrs, rec, level, frames), old(Contents()), old(count))
      {
        var pointer := Be64(bytes[ofz + 8 * rec..ofz + 8 * rec + 8]);
        KidsPrefix(device, g, ptrs, level, frames, rec + 1);
        err := ProcessNext(pointer, level, ptrs, rec, frames, old(Contents()), old(count));
        if err != 0 {
          return;
        }
      }
      if n > room {
        return OUTSIDE;
      }
    }

    /** One more pointer, after a prefix of them was read. */
    method ProcessNext(pointer: nat, level: nat, ghost ptrs: seq<nat>, ghost rec: nat, frames: nat,
                       ghost before: seq<Extent>, ghost taken: nat) returns (err: int)
      requires Valid() && level > 0 && rec < |ptrs| && ptrs[rec] == pointer
      requires Took(0, PrefixOutcome(device, g, ptrs, rec, level, frames), before, taken)
      modifies this`count, buf, extents, extents.memory
      ensures Valid() && Later()
      ensures Took(err, PrefixOutcome(device, g, ptrs, rec + 1, level, frames), before, taken)
      ensures var out := PrefixOutcome(device, g, ptrs, rec + 1, level, frames);
              out.Ok? && old(extents.Reaches(|before| + |out.recs|)) ==> err == 0
      decreases frames, 4, 0
    {
      PrefixNext(device, g, ptrs, rec, level, frames);
      hide PrefixOutcome, ChildOutcome, Tiles, Sized;
      assert |Contents()| == extents.free;
      err := ProcessChild(pointer, level, frames);
    }

    method ProcessChild(pointer: nat, level: nat, frames: nat) returns (err: int)
      requires Valid() && level > 0
      modifies this`count, buf, extents, extents.memory
      ensures Valid() && Later()
      ensures Took(err, ChildOutcome(device, g, pointer, level, frames), old(Contents()), old(count))
      ensures var out := ChildOutcome(device, g, pointer, level, frames);
              out.Ok? && old(extents.Reaches(extents.free + |out.recs|)) ==> err == 0
      decreases frames, 3, 0
    {
      hide LeafOutcome, NodeOutcome, Tiles;
      if level == 1 {
        err := ProcessLeaf(pointer);
      } else {
        err := ProcessNode(pointer, frames);
      }
    }

    /**
      `process_dinode_file_btree_root`: on success the inode's span is one contiguous run of
      extents, those below the root's pointers in order.
     */
    method ProcessRoot(dinode: seq<Byte>, frames: nat) returns (err: int)
      requires Valid() && |dinode| >= CORE + 16
      modifies this, buf, extents, extents.memory
      ensures Valid() && old(Contents()) <= Contents()
      ensures RootLevel(dinode) == 0 || old(count) != 0 ==> err == -EINVAL && Contents() == old(Contents())
      ensures RootLevel(dinode) > 0 && old(count) == 0 ==>
                var out := RootOutcome(device, g, dinode, frames);
                && Took(err, out, old(Contents()), 0)
                && (out.Ok? && old(extents.Reaches(extents.free + |out.recs|)) ==> err == 0)
                && (err == 0 ==> first == old(extents.free) && extents.memory[first..first + count] == out.recs)
    {
      hide ListOutcome, RootPointers, Be64, RootOfz, Tiles;
      var level, numrecs := RootLevel(dinode), RootNumRecs(dinode);
      if level < 1 {
        return -EINVAL;
      }
      var ofz := RootOfz(|dinode|, Forkoff(dinode));
      if count != 0 {
        return -EINVAL;
      }
      first := extents.free;
      ghost var ptrs := RootPointers(dinode);
      if ptrs != [] {
        RootPointersInside(dinode);
      }
      RootCount(dinode);
      err := ProcessPointers(dinode, ofz, level, Room(|dinode|, ofz), numrecs, ptrs, frames);
      assert err == 0 ==> extents.memory[first..first + count] == Contents()[first..];
    }
  }

  lemma RootCount(dinode: seq<Byte>)
    requires |dinode| >= CORE + 16
    ensures |RootPointers(dinode)| == Min(RootNumRecs(dinode), Room(|dinode|, RootOfz(|dinode|, Forkoff(dinode))))
  {
    hide RootNumRecs, RootOfz;
  }

  lemma NoRecords(b: seq<Byte>)
    requires |b| >= HEADER
    ensures Records(b, 0) == []
  {
  }
}
