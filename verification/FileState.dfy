/**
  The block structure of the file system as a value: which blocks are free, what the used
  ones hold, and the block pointers of every file.
 */
module FileState {
  import opened Base

  const BLKSIZE: nat := 4096
  const NDIRECT: nat := 10
  const NINDIRECT: nat := 1024

  /** A block of file bytes, or a block of block numbers. */
  datatype Block = Bytes(data: seq<Byte>) | Index(ptr: seq<nat>)

  datatype File = File(size: nat, direct: seq<nat>, indirect: nat)

  /** free[b]: the bitmap marks block b free. Block number 0 stands for no block. */
  datatype Disk = Disk(free: seq<bool>, blocks: seq<Block>, files: seq<File>)

  /** The places that hold a block number. */
  datatype Ref = Direct(k: nat, n: nat) | Indirect(k: nat) | Entry(k: nat, n: nat)

  function ZeroBytes(): Block {
    Bytes(seq(BLKSIZE, _ => 0))
  }

  function ZeroIndex(): Block {
    Index(seq(NINDIRECT, _ => 0))
  }

  function NBlocks(size: nat): nat {
    (size + BLKSIZE - 1) / BLKSIZE
  }

  /** As few blocks as hold size bytes. */
  lemma {:induction false} NBlocksHold(size: nat)
    ensures size <= NBlocks(size) * BLKSIZE && (NBlocks(size) > 0 ==> (NBlocks(size) - 1) * BLKSIZE < size)
  {
  }

  predicate HasIndex(d: Disk, k: nat) {
    k < |d.files| && 0 < d.files[k].indirect < |d.blocks| && d.blocks[d.files[k].indirect].Index?
  }

  /** The block number a place holds; 0 also for places that do not exist. */
  function Target(d: Disk, r: Ref): nat {
    match r
    case Direct(k, n) => if k < |d.files| && n < |d.files[k].direct| then d.files[k].direct[n] else 0
    case Indirect(k) => if k < |d.files| then d.files[k].indirect else 0
    case Entry(k, n) =>
      if HasIndex(d, k) && n < |d.blocks[d.files[k].indirect].ptr| then d.blocks[d.files[k].indirect].ptr[n] else 0
  }

  /** The place for block n of file k. */
  function Slot(k: nat, n: nat): Ref {
    if n < NDIRECT then Direct(k, n) else Entry(k, n - NDIRECT)
  }

  /** How many blocks the file must have for this place to be in use. */
  function Needs(r: Ref): nat {
    match r
    case Direct(_, n) => n + 1
    case Indirect(_) => NDIRECT + 1
    case Entry(_, n) => NDIRECT + n + 1
  }

  predicate Fits(r: Ref, x: Block) {
    if r.Indirect? then x.Index? && |x.ptr| == NINDIRECT else x.Bytes? && |x.data| == BLKSIZE
  }

  /** A block number in use is in range, marked in use, of the right kind and below the file's size. */
  predicate RefOk(d: Disk, r: Ref) {
    var b := Target(d, r);
    && b < |d.blocks| == |d.free| && !d.free[b] && Fits(r, d.blocks[b])
    && r.k < |d.files| && Needs(r) <= NBlocks(d.files[r.k].size)
  }

  ghost predicate Inv(d: Disk) {
    && |d.blocks| == |d.free|
    && (forall k :: 0 <= k < |d.files| ==> |d.files[k].direct| == NDIRECT)
    && (forall r :: Target(d, r) != 0 ==> RefOk(d, r))
    && (forall r, q :: Target(d, r) != 0 && Target(d, r) == Target(d, q) ==> r == q)
  }

  // ---------------------------------------------------------------- what files contain

  function BlockOf(d: Disk, k: nat, n: nat): nat {
    Target(d, Slot(k, n))
  }

  /** Byte i of file k; blocks that were never allocated read as zero. */
  function ByteOf(d: Disk, k: nat, i: nat): Byte {
    var b := BlockOf(d, k, i / BLKSIZE);
    if 0 < b < |d.blocks| && d.blocks[b].Bytes? && i % BLKSIZE < |d.blocks[b].data| then d.blocks[b].data[i % BLKSIZE]
        else 0
  }

  ghost predicate SameBytes(d: Disk, c: Disk) {
    forall k: nat, i: nat :: ByteOf(c, k, i) == ByteOf(d, k, i)
  }

  ghost function FreeSet(d: Disk): set<nat> {
    set b | 0 <= b < |d.free| && d.free[b]
  }

  ghost function RefSet(d: Disk): set<Ref> {
    (set k, n | 0 <= k < |d.files| && 0 <= n < NDIRECT :: Direct(k, n))
    + (set k | 0 <= k < |d.files| :: Indirect(k))
    + (set k, n | 0 <= k < |d.files| && 0 <= n < NINDIRECT :: Entry(k, n))
  }

  /** The blocks that belong to files. */
  ghost function Owned(d: Disk): set<nat> {
    set r | r in RefSet(d) && Target(d, r) != 0 :: Target(d, r)
  }

  lemma {:induction false} OwnedIs(d: Disk, b: nat)
    requires Inv(d)
    ensures b in Owned(d) <==> b != 0 && exists r :: Target(d, r) == b
  {
    if b != 0 && exists r :: Target(d, r) == b {
      var r :| Target(d, r) == b;
      assert RefOk(d, r);
      if r.Entry? { assert RefOk(d, Indirect(r.k)); }
      assert r in RefSet(d);
    }
  }

  /** Free and owned blocks are disjoint. */
  lemma {:induction false} OwnedNotFree(d: Disk)
    requires Inv(d)
    ensures Owned(d) !! FreeSet(d)
  {
    forall b | b in Owned(d) ensures b !in FreeSet(d) {
      OwnedIs(d, b);
      var r :| Target(d, r) == b;
      assert RefOk(d, r);
    }
  }

  // ---------------------------------------------------------------- primitive steps

  /** Store block number b in place r. */
  function Point(d: Disk, r: Ref, b: nat): Disk {
    match r
    case Direct(k, n) =>
      if k < |d.files| && n < |d.files[k].direct|
      then d.(files := d.files[k := d.files[k].(direct := d.files[k].direct[n := b])]) else d
    case Indirect(k) =>
      if k < |d.files| then d.(files := d.files[k := d.files[k].(indirect := b)]) else d
    case Entry(k, n) =>
      if HasIndex(d, k) && n < |d.blocks[d.files[k].indirect].ptr|
      then var x := d.files[k].indirect; d.(blocks := d.blocks[x := Index(d.blocks[x].ptr[n := b])]) else d
  }

  /** Take free block b, clear it, and store its number in place r. */
  function Attach(d: Disk, r: Ref, b: nat): Disk
    requires b < |d.free| == |d.blocks|
  {
    Point(d.(free := d.free[b := false], blocks := d.blocks[b := if r.Indirect? then ZeroIndex() else ZeroBytes()]), r,
        b)
  }

  /** Give back the block that place r holds. */
  function Detach(d: Disk, r: Ref): Disk
    requires Target(d, r) < |d.free|
  {
    Point(d.(free := d.free[Target(d, r) := true]), r, 0)
  }

  /** The place exists, so that a block number can be stored there. */
  predicate Exists(d: Disk, r: Ref) {
    match r
    case Direct(k, n) => k < |d.files| && n < NDIRECT
    case Indirect(k) => k < |d.files|
    case Entry(k, n) => HasIndex(d, k) && n < NINDIRECT
  }

  lemma {:induction false} IndexIs(d: Disk, k: nat)
    requires Inv(d) && HasIndex(d, k)
    ensures |d.blocks[d.files[k].indirect].ptr| == NINDIRECT && !d.free[d.files[k].indirect]
  {
    assert RefOk(d, Indirect(k));
  }

  /** Two files never share an index block. */
  lemma {:induction false} SameIndex(d: Disk, k: nat, j: nat)
    requires Inv(d) && HasIndex(d, k) && HasIndex(d, j)
    ensures d.files[k].indirect == d.files[j].indirect ==> k == j
  {
    assert Target(d, Indirect(k)) == Target(d, Indirect(j)) ==> Indirect(k) == Indirect(j);
  }

  /** Only place r changes; a new index block is empty. */
  lemma {:induction false} AttachToFile(d: Disk, r: Ref, b: nat, q: Ref)
    requires Inv(d) && Exists(d, r) && Target(d, r) == 0 && 0 < b < |d.free| && d.free[b] && !r.Entry?
    ensures Target(Attach(d, r, b), q) == if q == r then b else Target(d, q)
  {
    if HasIndex(d, q.k) { IndexIs(d, q.k); }
  }

  lemma {:induction false} AttachToIndex(d: Disk, r: Ref, b: nat, q: Ref)
    requires Inv(d) && Exists(d, r) && Target(d, r) == 0 && 0 < b < |d.free| && d.free[b] && r.Entry?
    ensures Target(Attach(d, r, b), q) == if q == r then b else Target(d, q)
  {
    IndexIs(d, r.k);
    if HasIndex(d, q.k) {
      IndexIs(d, q.k);
      SameIndex(d, r.k, q.k);
    }
  }

  lemma {:induction false} AttachTarget(d: Disk, r: Ref, b: nat, q: Ref)
    requires Inv(d) && Exists(d, r) && Target(d, r) == 0 && 0 < b < |d.free| && d.free[b]
    ensures Target(Attach(d, r, b), q) == if q == r then b else Target(d, q)
  {
    if r.Entry? {
      AttachToIndex(d, r, b, q);
    } else {
      AttachToFile(d, r, b, q);
    }
  }

  lemma {:induction false} DetachFromIndex(d: Disk, r: Ref, q: Ref)
    requires Inv(d) && Target(d, r) != 0 && Target(d, r) < |d.free| && r.Entry?
    ensures Target(Detach(d, r), q) == if q == r then 0 else Target(d, q)
  {
    IndexIs(d, r.k);
    if HasIndex(d, q.k) {
      IndexIs(d, q.k);
      SameIndex(d, r.k, q.k);
    }
  }

  lemma {:induction false} DetachTarget(d: Disk, r: Ref, q: Ref)
    requires Inv(d) && Target(d, r) != 0 && Target(d, r) < |d.free|
    requires r.Indirect? ==> forall n: nat :: Target(d, Entry(r.k, n)) == 0
    ensures Target(Detach(d, r), q) == if q == r then 0 else Target(d, q)
  {
    if r.Entry? {
      DetachFromIndex(d, r, q);
    } else {
      assert RefOk(d, r);
      if HasIndex(d, q.k) { IndexIs(d, q.k); }
    }
  }

  lemma {:induction false} AttachKeeps(d: Disk, r: Ref, b: nat)
    requires Inv(d) && Exists(d, r) && Target(d, r) == 0 && 0 < b < |d.free| && d.free[b]
    requires Needs(r) <= NBlocks(d.files[r.k].size)
    ensures Inv(Attach(d, r, b))
  {
    var c := Attach(d, r, b);
    forall q ensures Target(c, q) == if q == r then b else Target(d, q) {
      AttachTarget(d, r, b, q);
    }
    forall q | Target(c, q) != 0 ensures RefOk(c, q) {
      if q != r {
        assert RefOk(d, q);
        if r.Entry? { IndexIs(d, r.k); KindsApart(d, Indirect(r.k), q); }
      } else if r.Entry? {
        IndexIs(d, r.k);
      }
    }
    forall q, p | Target(c, q) != 0 && Target(c, q) == Target(c, p) ensures q == p {
      assert q != r ==> RefOk(d, q);
      assert p != r ==> RefOk(d, p);
    }
  }

  /** Different places hold different blocks. */
  lemma {:induction false} KindsApart(d: Disk, r: Ref, q: Ref)
    requires Inv(d) && Target(d, r) != 0 && Target(d, q) != 0
    ensures Target(d, r) == Target(d, q) ==> r == q
  {
  }

  lemma {:induction false} DetachKeeps(d: Disk, r: Ref)
    requires Inv(d) && Target(d, r) != 0 && Target(d, r) < |d.free|
    requires r.Indirect? ==> forall n: nat :: Target(d, Entry(r.k, n)) == 0
    ensures Inv(Detach(d, r))
  {
    var c := Detach(d, r);
    assert RefOk(d, r);
    forall q ensures Target(c, q) == if q == r then 0 else Target(d, q) {
      DetachTarget(d, r, q);
    }
    forall q | Target(c, q) != 0 ensures RefOk(c, q) {
      assert RefOk(d, q);
      KindsApart(d, r, q);
      if r.Entry? { IndexIs(d, r.k); KindsApart(d, Indirect(r.k), q); }
    }
    forall q, p | Target(c, q) != 0 && Target(c, q) == Target(c, p) ensures q == p {
      KindsApart(d, q, p);
    }
  }

  // ---------------------------------------------------------------- bytes and conservation

  /** A freshly attached block reads as zeros, as the missing one did. */
  lemma {:induction false} AttachBytes(d: Disk, r: Ref, b: nat)
    requires Inv(d) && Exists(d, r) && Target(d, r) == 0 && 0 < b < |d.free| && d.free[b]
    ensures SameBytes(d, Attach(d, r, b))
  {
    var c := Attach(d, r, b);
    forall k: nat, i: nat ensures ByteOf(c, k, i) == ByteOf(d, k, i) {
      var q := Slot(k, i / BLKSIZE);
      AttachTarget(d, r, b, q);
      if Target(d, q) != 0 {
        assert RefOk(d, q);
        if r.Entry? { IndexIs(d, r.k); KindsApart(d, Indirect(r.k), q); }
      }
    }
  }

  /** Detaching block n of file k turns it into zeros and leaves all other bytes alone. */
  lemma {:induction false} DetachBytes(d: Disk, r: Ref)
    requires Inv(d) && Target(d, r) != 0 && Target(d, r) < |d.free|
    requires r.Indirect? ==> forall n: nat :: Target(d, Entry(r.k, n)) == 0
    ensures forall k: nat, i: nat :: ByteOf(Detach(d, r), k, i) == if Slot(k, i / BLKSIZE) == r then 0
            else ByteOf(d, k, i)
  {
    var c := Detach(d, r);
    forall k: nat, i: nat ensures ByteOf(c, k, i) == if Slot(k, i / BLKSIZE) == r then 0 else ByteOf(d, k, i) {
      var q := Slot(k, i / BLKSIZE);
      DetachTarget(d, r, q);
      if Target(d, q) != 0 {
        assert RefOk(d, q);
        if r.Entry? { IndexIs(d, r.k); KindsApart(d, Indirect(r.k), q); }
      }
    }
  }

  /** Free and owned blocks together stay the same set. */
  ghost predicate Conserved(d: Disk, c: Disk) {
    |c.free| == |d.free| && FreeSet(c) + Owned(c) == FreeSet(d) + Owned(d)
  }

  lemma {:induction false} AttachConserves(d: Disk, r: Ref, b: nat)
    requires Inv(d) && Exists(d, r) && Target(d, r) == 0 && 0 < b < |d.free| && d.free[b]
    requires Inv(Attach(d, r, b))
    ensures Conserved(d, Attach(d, r, b))
    ensures Owned(Attach(d, r, b)) == Owned(d) + {b} && FreeSet(Attach(d, r, b)) == FreeSet(d) - {b}
  {
    var c := Attach(d, r, b);
    forall x ensures x in Owned(c) <==> x == b || x in Owned(d) {
      OwnedIs(c, x);
      OwnedIs(d, x);
      forall q ensures Target(c, q) == if q == r then b else Target(d, q) {
        AttachTarget(d, r, b, q);
      }
    }
  }

  lemma {:induction false} DetachConserves(d: Disk, r: Ref)
    requires Inv(d) && Target(d, r) != 0 && Target(d, r) < |d.free| && Inv(Detach(d, r))
    requires r.Indirect? ==> forall n: nat :: Target(d, Entry(r.k, n)) == 0
    ensures Conserved(d, Detach(d, r))
  {
    var c, b := Detach(d, r), Target(d, r);
    forall x ensures x in Owned(d) <==> x == b || x in Owned(c) {
      OwnedIs(c, x);
      OwnedIs(d, x);
      forall q ensures Target(c, q) == if q == r then 0 else Target(d, q) {
        DetachTarget(d, r, q);
      }
      if x != b && x in Owned(d) {
        var q :| Target(d, q) == x;
        assert Target(c, q) == x;
      }
    }
  }

  // ---------------------------------------------------------------- writing and resizing

  /** Overwrite bytes of block b, from offset off on. */
  function Patch(d: Disk, b: nat, off: nat, src: seq<Byte>): Disk
    requires b < |d.blocks| && d.blocks[b].Bytes? && off + |src| <= |d.blocks[b].data|
  {
    var x := d.blocks[b].data;
    d.(blocks := d.blocks[b := Bytes(x[..off] + src + x[off + |src|..])])
  }

  /** Positions inside one block. */
  lemma {:induction false} InBlock(pos: nat, j: nat)
    requires pos % BLKSIZE + j < BLKSIZE
    ensures (pos + j) / BLKSIZE == pos / BLKSIZE && (pos + j) % BLKSIZE == pos % BLKSIZE + j
  {
  }

  lemma {:induction false} PatchTarget(d: Disk, b: nat, off: nat, src: seq<Byte>, q: Ref)
    requires b < |d.blocks| && d.blocks[b].Bytes? && off + |src| <= |d.blocks[b].data|
    ensures Target(Patch(d, b, off, src), q) == Target(d, q)
  {
  }

  /** Writing src at position pos of file k, within one block, changes just those bytes of k. */
  lemma {:induction false} PatchKeeps(d: Disk, k: nat, pos: nat, src: seq<Byte>)
    requires Inv(d) && BlockOf(d, k, pos / BLKSIZE) != 0 && pos % BLKSIZE + |src| <= BLKSIZE
    ensures var b := BlockOf(d, k, pos / BLKSIZE);
            b < |d.blocks| && d.blocks[b].Bytes? && |d.blocks[b].data| == BLKSIZE
    ensures var c := Patch(d, BlockOf(d, k, pos / BLKSIZE), pos % BLKSIZE, src);
            && Inv(c) && c.free == d.free && c.files == d.files && Conserved(d, c)
            && forall j: nat, i: nat :: ByteOf(c, j, i) == if j == k && pos <= i < pos + |src| then src[i - pos]
               else ByteOf(d, j, i)
  {
    var r := Slot(k, pos / BLKSIZE);
    var b := Target(d, r);
    assert RefOk(d, r);
    var c := Patch(d, b, pos % BLKSIZE, src);
    forall q ensures Target(c, q) == Target(d, q) {
      PatchTarget(d, b, pos % BLKSIZE, src, q);
    }
    forall q | Target(c, q) != 0 ensures RefOk(c, q) {
      assert RefOk(d, q);
    }
    assert forall r, q :: Target(c, r) != 0 && Target(c, r) == Target(c, q) ==> r == q;
    assert RefSet(c) == RefSet(d) && Owned(c) == Owned(d) && FreeSet(c) == FreeSet(d);
    forall j: nat, i: nat ensures ByteOf(c, j, i) == if j == k && pos <= i < pos + |src| then src[i - pos]
        else ByteOf(d, j, i) {
      PatchByte(d, k, pos, src, j, i);
    }
  }

  lemma {:induction false} PatchByte(d: Disk, k: nat, pos: nat, src: seq<Byte>, j: nat, i: nat)
    requires Inv(d) && BlockOf(d, k, pos / BLKSIZE) != 0 && pos % BLKSIZE + |src| <= BLKSIZE
    requires var b := BlockOf(d, k, pos / BLKSIZE);
             b < |d.blocks| && d.blocks[b].Bytes? && |d.blocks[b].data| == BLKSIZE
    ensures var c := Patch(d, BlockOf(d, k, pos / BLKSIZE), pos % BLKSIZE, src);
            ByteOf(c, j, i) == if j == k && pos <= i < pos + |src| then src[i - pos] else ByteOf(d, j, i)
  {
    var r, q := Slot(k, pos / BLKSIZE), Slot(j, i / BLKSIZE);
    var b := Target(d, r);
    PatchTarget(d, b, pos % BLKSIZE, src, q);
    if pos <= i < pos + |src| {
      InBlock(pos, i - pos);
    }
    if Target(d, q) == b {
      KindsApart(d, r, q);
      assert j == k && i / BLKSIZE == pos / BLKSIZE;
      assert i - pos == i % BLKSIZE - pos % BLKSIZE;
    }
  }

  function Resize(d: Disk, k: nat, size: nat): Disk
    requires k < |d.files|
  {
    d.(files := d.files[k := d.files[k].(size := size)])
  }

  /** Changing the size alone is safe when no block lies beyond the new end. */
  lemma {:induction false} ResizeKeeps(d: Disk, k: nat, size: nat)
    requires Inv(d) && k < |d.files|
    requires forall r :: Target(d, r) != 0 && r.k == k ==> Needs(r) <= NBlocks(size)
    ensures Inv(Resize(d, k, size)) && SameBytes(d, Resize(d, k, size)) && Conserved(d, Resize(d, k, size))
  {
    var c := Resize(d, k, size);
    forall q ensures Target(c, q) == Target(d, q) {
    }
    forall q | Target(c, q) != 0 ensures RefOk(c, q) {
      assert RefOk(d, q);
    }
    assert forall r, q :: Target(c, r) != 0 && Target(c, r) == Target(c, q) ==> r == q;
    assert RefSet(c) == RefSet(d) && Owned(c) == Owned(d);
    forall j: nat, i: nat ensures ByteOf(c, j, i) == ByteOf(d, j, i) {
      assert Target(c, Slot(j, i / BLKSIZE)) == Target(d, Slot(j, i / BLKSIZE));
    }
  }
}
