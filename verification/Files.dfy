/** fs/fs.c: block allocation, file blocks, reading, writing and resizing files. */
module Files {
  import opened Base
  import opened FileState
  import Bitmap

  datatype Status = Ok | NoDisk | Inval | NotFound

  class FileSystem {
    const nblocks: nat                  // super->s_nblocks
    var bitmap: seq<Bitmap.Word>
    var blocks: seq<Block>
    var files: seq<File>

    function S(): Disk
      reads this
    {
      Disk(Bitmap.Bits(bitmap, nblocks), blocks, files)
    }

    ghost predicate Valid()
      reads this
    {
      |bitmap| * 32 >= nblocks && Inv(S())
    }

    /** A disk without files: what is not reserved may be free. */
    constructor (n: nat, free: seq<Bitmap.Word>, contents: seq<Block>, count: nat)
      requires |free| * 32 >= n && |contents| == n
      ensures Valid() && nblocks == n && bitmap == free && blocks == contents && |files| == count
      ensures forall k: nat, i: nat :: ByteOf(S(), k, i) == 0
    {
      nblocks, bitmap, blocks := n, free, contents;
      files := seq(count, _ => File(0, seq(NDIRECT, _ => 0), 0));
    }

    predicate BlockIsFree(b: nat)
      reads this
    {
      b < nblocks && Bitmap.Bit(bitmap, b)
    }

    method FreeBlock(b: nat)
      requires 0 < b < nblocks <= |bitmap| * 32
      modifies this`bitmap
      ensures |bitmap| == |old(bitmap)| && S() == old(S()).(free := old(S()).free[b := true])
    {
      Bitmap.BitsAfterSet(bitmap, nblocks, b);
      bitmap := Bitmap.SetBit(bitmap, b);
    }

    method OccupyBlock(b: nat)
      requires BlockIsFree(b) && nblocks <= |bitmap| * 32
      modifies this`bitmap
      ensures |bitmap| == |old(bitmap)| && S() == old(S()).(free := old(S()).free[b := false])
    {
      Bitmap.BitsAfterFlip(bitmap, nblocks, b);
      bitmap := Bitmap.FlipBit(bitmap, b);
    }

    /** The lowest free block, marked in use; None exactly when there is none. */
    method AllocBlock() returns (r: Option<nat>)
      requires nblocks <= |bitmap| * 32
      modifies this`bitmap
      ensures |bitmap| == |old(bitmap)|
      ensures r.None? ==> S() == old(S()) && forall b :: 0 < b < nblocks ==> !S().free[b]
      ensures r.Some? ==>
              0 < r.value < nblocks && old(S()).free[r.value]
              && S() == old(S()).(free := old(S()).free[r.value := false])
      ensures r.Some? ==> forall b :: 0 < b < r.value ==> !old(S()).free[b]
    {
      var b := 1;
      while b < nblocks
        invariant 1 <= b && (forall x :: 0 < x < b && x < nblocks ==> !S().free[x])
      {
        if BlockIsFree(b) {
          OccupyBlock(b);
          return Some(b);
        }
        b := b + 1;
      }
      return None;
    }

    /** file_block_walk: makes sure the place for block n of file k exists. */
    method FileBlockWalk(k: nat, n: nat, alloc: bool) returns (r: Status)
      requires Valid() && k < |files| && (alloc ==> n < NBlocks(files[k].size))
      modifies this`bitmap, this`blocks, this`files
      ensures Valid() && SameBytes(old(S()), S()) && Conserved(old(S()), S())
      ensures SameSizes(old(S()), S())
      ensures n >= NDIRECT + NINDIRECT <==> r == Inval
      ensures r == Ok ==> Exists(S(), Slot(k, n)) && (Exists(old(S()), Slot(k, n)) ==> S() == old(S()))
      ensures r == NotFound <==> !alloc && NDIRECT <= n < NDIRECT + NINDIRECT && old(files)[k].indirect == 0
      ensures r == NoDisk ==> alloc && forall b :: 0 < b < nblocks ==> !S().free[b]
      ensures r != Ok || !alloc ==> S() == old(S())
      ensures BlockOf(S(), k, n) == BlockOf(old(S()), k, n) && (r != Ok ==> BlockOf(S(), k, n) == 0)
    {
      ghost var d := S();
      if HasIndex(d, k) { IndexIs(d, k); }
      if n >= NDIRECT + NINDIRECT {
        return Inval;
      }
      if n < NDIRECT {
        return Ok;
      }
      if files[k].indirect == 0 {
        if !alloc {
          return NotFound;
        }
        var b := AllocBlock();
        if b.None? {
          return NoDisk;
        }
        AttachKeeps(d, Indirect(k), b.value);
        AttachBytes(d, Indirect(k), b.value);
        AttachConserves(d, Indirect(k), b.value);
        AttachTarget(d, Indirect(k), b.value, Slot(k, n));
        blocks := blocks[b.value := ZeroIndex()];
        files := files[k := files[k].(indirect := b.value)];
        assert S() == Attach(d, Indirect(k), b.value);
      } else {
        assert RefOk(d, Indirect(k));
        assert !BlockIsFree(files[k].indirect);       // the assertion of file_block_walk
      }
      return Ok;
    }

    /** file_get_block: block n of file k, allocated and cleared if it did not exist. */
    method FileGetBlock(k: nat, n: nat) returns (r: Status, b: nat)
      requires Valid() && k < |files| && n < NBlocks(files[k].size)
      modifies this`bitmap, this`blocks, this`files
      ensures Valid() && SameBytes(old(S()), S()) && Conserved(old(S()), S())
      ensures SameSizes(old(S()), S())
      ensures r == Ok ==> b == BlockOf(S(), k, n) && b != 0 && PointsTo(S(), k, n, b)
      ensures r == Inval <==> n >= NDIRECT + NINDIRECT
      ensures r == Ok || r == NoDisk || r == Inval
      ensures r == NoDisk ==> Full(S())
      ensures r != Ok ==> BlockOf(old(S()), k, n) == BlockOf(S(), k, n) == 0
      ensures r == Ok && BlockOf(old(S()), k, n) != 0 ==> S() == old(S())
    {
      b := 0;
      if n >= NDIRECT + NINDIRECT {
        NoPlace(S(), k, n);
        return Inval, 0;
      }
      r := FileBlockWalk(k, n, true);
      if r == Ok {
        r, b := Materialise(k, n);
        if b != 0 { Pointed(S(), k, n); }
      }
    }

    /** The block in a place that exists, allocated and cleared if there is none. */
    method Materialise(k: nat, n: nat) returns (r: Status, b: nat)
      requires Valid() && k < |files| && n < NBlocks(files[k].size) && n < NDIRECT + NINDIRECT
      requires Exists(S(), Slot(k, n))
      modifies this`bitmap, this`blocks, this`files
      ensures Valid() && SameBytes(old(S()), S()) && Conserved(old(S()), S()) && SameSizes(old(S()), S())
      ensures r == Ok ==> b == BlockOf(S(), k, n) && b != 0
      ensures r == Ok || (r == NoDisk && b == 0 && Full(S()) && BlockOf(S(), k, n) == 0)
      ensures r != Ok || BlockOf(old(S()), k, n) != 0 ==> S() == old(S())
    {
      ghost var d := S();
      var slot := Slot(k, n);
      b := Target(S(), slot);
      if b == 0 {
        var a := AllocBlock();
        if a.None? {
          return NoDisk, 0;
        }
        b := a.value;
        StoreNew(d, slot, b);
      } else {
        assert RefOk(d, slot);
        assert !BlockIsFree(b);                       // the assertion of file_get_block
      }
      return Ok, b;
    }

    /** Clear the new block b and store its number in the slot. */
    method StoreNew(ghost d: Disk, slot: Ref, b: nat)
      requires Inv(d) && Exists(d, slot) && !slot.Indirect? && Target(d, slot) == 0 && 0 < b < |d.free| && d.free[b]
      requires Needs(slot) <= NBlocks(d.files[slot.k].size)
      requires S() == d.(free := d.free[b := false]) && |bitmap| * 32 >= nblocks
      modifies this`blocks, this`files
      ensures S() == Attach(d, slot, b) && Valid() && SameBytes(d, S()) && Conserved(d, S())
      ensures BlockOf(S(), slot.k, Needs(slot) - 1) == b && |files| == |d.files|
              && forall j :: 0 <= j < |files| ==> files[j].size == d.files[j].size
    {
      AttachKeeps(d, slot, b);
      AttachBytes(d, slot, b);
      AttachConserves(d, slot, b);
      AttachTarget(d, slot, b, slot);
      blocks := blocks[b := ZeroBytes()];
      match slot
      case Direct(k, n) =>
        files := files[k := files[k].(direct := files[k].direct[n := b])];
      case Entry(k, n) =>
        IndexIs(d, k);
        var x := files[k].indirect;
        blocks := blocks[x := Index(blocks[x].ptr[n := b])];
    }

    /** file_free_block: block n of file k is given back if it exists. */
    method FileFreeBlock(k: nat, n: nat) returns (r: Status)
      requires Valid() && k < |files|
      modifies this`bitmap, this`blocks, this`files
      ensures Valid() && Without(old(S()), S(), Slot(k, n))
      ensures r == if n >= NDIRECT + NINDIRECT then Inval
                   else if n >= NDIRECT && old(files)[k].indirect == 0 then NotFound else Ok
    {
      r := FileBlockWalk(k, n, false);
      ghost var d := S();
      if r != Ok {
        WithoutNothing(d, Slot(k, n));
        return;
      }
      var slot := Slot(k, n);
      var b := Target(S(), slot);
      if b != 0 {
        DetachWithout(d, slot);
        FreeBlock(b);
        ClearSlot(slot);
        assert S() == Detach(d, slot);
      } else {
        WithoutNothing(d, slot);
      }
    }

    method ClearSlot(slot: Ref)
      requires !slot.Indirect? && Exists(S(), slot)
      requires slot.Direct? ==> slot.n < |files[slot.k].direct|
      requires slot.Entry? ==> slot.n < |blocks[files[slot.k].indirect].ptr|
      modifies this`blocks, this`files
      ensures S() == Point(old(S()), slot, 0)
    {
      match slot
      case Direct(k, n) =>
        files := files[k := files[k].(direct := files[k].direct[n := 0])];
      case Entry(k, n) =>
        var x := files[k].indirect;
        blocks := blocks[x := Index(blocks[x].ptr[n := 0])];
    }

    /** file_truncate_blocks: nothing of file k remains beyond newsize, and no block is lost. */
    method FileTruncateBlocks(k: nat, newsize: nat)
      requires Valid() && k < |files|
      modifies this`bitmap, this`blocks, this`files
      ensures Valid() && Truncated(old(S()), S(), k, NBlocks(newsize))
    {
      ghost var d := S();
      var oldN, newN := NBlocks(files[k].size), NBlocks(newsize);
      var bno := newN;
      CuttingStarts(d, k, newN);
      while bno < oldN
        invariant newN <= bno && Valid() && Cutting(d, S(), k, newN, bno) && k < |files|
        decreases oldN - bno
      {
        ghost var e := S();
        var r := FileFreeBlock(k, bno);
        CuttingStep(d, e, S(), k, newN, bno);
        bno := bno + 1;
      }
      ghost var e := S();
      if newN <= NDIRECT && files[k].indirect != 0 {
        NoEntries(d, e, k, newN, bno);
        DetachWithout(e, Indirect(k));
        FreeBlock(files[k].indirect);
        files := files[k := files[k].(indirect := 0)];
        assert S() == Detach(e, Indirect(k));
      }
      CuttingEnds(d, e, S(), k, newN, bno);
    }

    /** file_set_size: extending changes no byte; shrinking drops whole blocks only. */
    method FileSetSize(k: nat, newsize: nat)
      requires Valid() && k < |files|
      modifies this`bitmap, this`blocks, this`files
      ensures Valid() && Conserved(old(S()), S())
      ensures Sized(old(S()), S(), k, newsize)
    {
      if files[k].size > newsize {
        FileTruncateBlocks(k, newsize);
      }
      ghost var d := S();
      forall r | Target(d, r) != 0 && r.k == k ensures Needs(r) <= NBlocks(newsize) {
        assert RefOk(d, r);
      }
      ResizeKeeps(d, k, newsize);
      files := files[k := files[k].(size := newsize)];
      assert S() == Resize(d, k, newsize);
    }

    /** file_read: at most count bytes from offset on; like pread. */
    method FileRead(k: nat, count: nat, offset: nat) returns (r: Status, buf: seq<Byte>)
      requires Valid() && k < |files|
      modifies this`bitmap, this`blocks, this`files
      ensures Valid() && Conserved(old(S()), S()) && Fetched(old(S()), S(), k, count, offset, r, buf)
    {
      buf := [];
      if offset >= files[k].size {
        return Ok, [];
      }
      var len := Min(count, files[k].size - offset);
      var pos := offset;
      while pos < offset + len
        invariant Valid() && SameBytes(old(S()), S()) && Conserved(old(S()), S())
        invariant SameSizes(old(S()), S())
        invariant offset <= pos <= offset + len && |buf| == pos - offset
        invariant Copied(old(S()), k, offset, buf)
      {
        var g, b := FileGetBlock(k, pos / BLKSIZE);
        if g != Ok {
          return g, buf;
        }
        var bn := Min(BLKSIZE - pos % BLKSIZE, offset + len - pos);
        var chunk := Chunk(k, pos, bn, b);
        CopiedMore(old(S()), S(), k, offset, buf, pos, chunk);
        buf := buf + chunk;
        pos := pos + bn;
      }
      return Ok, buf;
    }

    /** memmove out of block b, which holds position pos of file k. */
    method Chunk(k: nat, pos: nat, bn: nat, b: nat) returns (chunk: seq<Byte>)
      requires Valid() && b == BlockOf(S(), k, pos / BLKSIZE) != 0 && pos % BLKSIZE + bn <= BLKSIZE
      ensures |chunk| == bn && Copied(S(), k, pos, chunk)
    {
      assert RefOk(S(), Slot(k, pos / BLKSIZE));
      chunk := blocks[b].data[pos % BLKSIZE..pos % BLKSIZE + bn];
      forall j | 0 <= j < bn ensures chunk[j] == ByteOf(S(), k, pos + j) {
        InBlock(pos, j);
      }
    }

    /** One round of file_write: src goes to position pos, within one block of file k. */
    method WriteChunk(k: nat, pos: nat, src: seq<Byte>) returns (g: Status)
      requires Valid() && k < |files| && |src| > 0 && pos % BLKSIZE + |src| <= BLKSIZE && pos + |src| <= files[k].size
      modifies this`bitmap, this`blocks, this`files
      ensures Valid() && Conserved(old(S()), S()) && SameSizes(old(S()), S())
      ensures g == Ok ==> Written(old(S()), S(), k, pos, src)
      ensures g != Ok ==> SameBytes(old(S()), S())
      ensures g != Ok ==> Stopped(S(), g, k, pos)
    {
      ghost var d := S();
      var b;
      g, b := FileGetBlock(k, pos / BLKSIZE);
      if g == Ok {
        ghost var e := S();
        PatchKeeps(e, k, pos, src);
        var x := blocks[b].data;
        blocks := blocks[b := Bytes(x[..pos % BLKSIZE] + src + x[pos % BLKSIZE + |src|..])];
        assert S() == Patch(e, b, pos % BLKSIZE, src);
      }
    }

    /** The loop of file_write, over a range within the file. */
    method WriteAll(k: nat, buf: seq<Byte>, offset: nat) returns (r: Status, done: nat)
      requires Valid() && k < |files| && offset + |buf| <= files[k].size
      modifies this`bitmap, this`blocks, this`files
      ensures Valid() && Conserved(old(S()), S()) && SameSizes(old(S()), S())
      ensures done <= |buf| && (r == Ok <==> done == |buf|)
      ensures r != Ok ==> Stopped(S(), r, k, offset + done)
      ensures Written(old(S()), S(), k, offset, buf[..done])
    {
      ghost var d := S();
      done, r := 0, Ok;
      while r == Ok && done < |buf|
        invariant Valid() && Conserved(d, S()) && SameSizes(d, S()) && done <= |buf|
        invariant Written(d, S(), k, offset, buf[..done])
        invariant r != Ok ==> done < |buf| && Stopped(S(), r, k, offset + done)
        decreases r == Ok, |buf| - done
      {
        r, done := WriteRound(d, k, buf, offset, done);
      }
    }

    method WriteRound(ghost d: Disk, k: nat, buf: seq<Byte>, offset: nat, done: nat) returns (g: Status, more: nat)
      requires Valid() && k < |files| && offset + |buf| <= files[k].size && done < |buf|
      requires Conserved(d, S()) && SameSizes(d, S()) && Written(d, S(), k, offset, buf[..done])
      modifies this`bitmap, this`blocks, this`files
      ensures Valid() && Conserved(d, S()) && SameSizes(d, S())
      ensures more <= |buf| && Written(d, S(), k, offset, buf[..more])
      ensures if g == Ok then done < more else more == done && Stopped(S(), g, k, offset + done)
    {
      ghost var e := S();
      var pos := offset + done;
      var src := buf[done..done + Min(BLKSIZE - pos % BLKSIZE, |buf| - done)];
      g := WriteChunk(k, pos, src);
      more := done;
      assert SameSizes(d, S()) && Conserved(d, S());
      if g == Ok {
        WrittenMore(d, e, S(), k, offset, buf[..done], pos, src);
        more := done + |src|;
        assert buf[..more] == buf[..done] + src;
      } else {
        WrittenStill(d, e, S(), k, offset, buf[..done]);
      }
    }

    /** file_write: like pwrite; the file grows first if it has to. */
    method FileWrite(k: nat, buf: seq<Byte>, offset: nat) returns (r: Status, done: nat)
      requires Valid() && k < |files|
      modifies this`bitmap, this`blocks, this`files
      ensures Valid() && Conserved(old(S()), S()) && Stored(old(S()), S(), k, buf, offset, r, done)
    {
      if offset + |buf| > files[k].size {
        FileSetSize(k, offset + |buf|);
      }
      r, done := WriteAll(k, buf, offset);
    }

    method Answer(q: Request) returns (a: Reply)
      requires Valid()
      modifies this`bitmap, this`blocks, this`files
      ensures Valid() && Did(old(S()), q, a, S())
    {
      a := Reply(Ok, [], 0);
      match q {
        case Read(k, count, offset) =>
          if k < |files| {
            var r, got := FileRead(k, count, offset);
            a := Reply(r, got, 0);
          }
        case Write(k, buf, offset) =>
          if k < |files| {
            var r, done := FileWrite(k, buf, offset);
            a := Reply(r, [], done);
          }
        case SetSize(k, size) =>
          if k < |files| { FileSetSize(k, size); }
      }
    }

    /** Any requests against any files are answered, keep the disk consistent and lose no block. */
    method Serve(requests: seq<Request>) returns (replies: seq<Reply>, ghost ds: seq<Disk>)
      requires Valid()
      modifies this`bitmap, this`blocks, this`files
      ensures Valid() && Conserved(old(S()), S()) && Owned(S()) !! FreeSet(S()) && |files| == |old(files)|
      ensures IsRun(ds, requests, replies) && ds[0] == old(S()) && ds[|requests|] == S()
    {
      ghost var d := S();
      replies, ds := [], [d];
      for i := 0 to |requests|
        invariant Valid() && Conserved(d, S()) && |files| == |d.files|
        invariant IsRun(ds, requests[..i], replies) && ds[0] == d && ds[i] == S()
      {
        var a := Answer(requests[i]);
        RunOn(ds, requests, replies, i, a, S());
        replies, ds := replies + [a], ds + [S()];
      }
      assert requests[..|requests|] == requests;
      OwnedNotFree(S());
    }
  }

  /** What the server does to open files on behalf of its clients. */
  datatype Request = Read(k: nat, count: nat, offset: nat) | Write(k: nat, buf: seq<Byte>, offset: nat)
      | SetSize(k: nat, size: nat)

  /** What was written is what is read back, and what was there before elsewhere. */
  lemma {:induction false} ReadBack(d: Disk, c: Disk, k: nat, offset: nat, src: seq<Byte>, j: nat, from: nat,
      buf: seq<Byte>)
    requires Written(d, c, k, offset, src) && Copied(c, j, from, buf)
    ensures j == k && from == offset && |buf| == |src| ==> buf == src
    ensures j != k || from + |buf| <= offset || offset + |src| <= from ==> Copied(d, j, from, buf)
  {
    forall i | 0 <= i < |buf|
      ensures buf[i] == if j == k && offset <= from + i < offset + |src| then src[from + i - offset]
              else ByteOf(d, j, from + i)
    {
      assert buf[i] == ByteOf(c, j, from + i);
    }
  }

  /** f_direct[n], or entry n - NDIRECT of the index block, is b. */
  predicate PointsTo(d: Disk, k: nat, n: nat, b: nat) {
    && k < |d.files|
    && var f := d.files[k];
    if n < NDIRECT then n < |f.direct| && f.direct[n] == b
    else
      && 0 < f.indirect < |d.blocks| && d.blocks[f.indirect].Index?
      && n - NDIRECT < |d.blocks[f.indirect].ptr| && d.blocks[f.indirect].ptr[n - NDIRECT] == b
  }

  lemma {:induction false} Pointed(d: Disk, k: nat, n: nat)
    requires BlockOf(d, k, n) != 0
    ensures PointsTo(d, k, n, BlockOf(d, k, n))
  {
  }

  /** Files have no blocks beyond what inode and index block have room for. */
  lemma {:induction false} NoPlace(d: Disk, k: nat, n: nat)
    requires Inv(d) && n >= NDIRECT + NINDIRECT
    ensures BlockOf(d, k, n) == 0
  {
    if HasIndex(d, k) { IndexIs(d, k); }
  }

  /** The disk has no free block. */
  ghost predicate Full(d: Disk) {
    forall x :: 0 < x < |d.free| ==> !d.free[x]
  }

  /** Why a transfer stopped at position pos of file k: the block there is missing, and cannot be had. */
  ghost predicate Stopped(d: Disk, r: Status, k: nat, pos: nat) {
    && BlockOf(d, k, pos / BLKSIZE) == 0
    && if pos / BLKSIZE >= NDIRECT + NINDIRECT then r == Inval else r == NoDisk && Full(d)
  }

  /** What a request did. */
  ghost predicate Did(d: Disk, q: Request, a: Reply, c: Disk) {
    && Conserved(d, c) && |c.files| == |d.files|
    && match q
       case Read(k, count, offset) => if k >= |d.files| then c == d else Fetched(d, c, k, count, offset, a.st, a.data)
       case Write(k, buf, offset) => if k >= |d.files| then c == d else Stored(d, c, k, buf, offset, a.st, a.done)
       case SetSize(k, size) => if k >= |d.files| then c == d else Sized(d, c, k, size)
  }

  /** file_read, like pread: what there is from offset on, at most count bytes. */
  ghost predicate Fetched(d: Disk, c: Disk, k: nat, count: nat, offset: nat, r: Status, buf: seq<Byte>)
    requires k < |d.files|
  {
    var size := d.files[k].size;
    var len := if offset >= size then 0 else Min(count, size - offset);
    && SameBytes(d, c) && SameSizes(d, c) && |buf| <= len && (r == Ok <==> |buf| == len)
    && Copied(d, k, offset, buf) && (r != Ok ==> Stopped(c, r, k, offset + |buf|))
  }

  /** file_write, like pwrite: the file has grown if it had to, and the first done bytes are in it. */
  ghost predicate Stored(d: Disk, c: Disk, k: nat, buf: seq<Byte>, offset: nat, r: Status, done: nat)
    requires k < |d.files|
  {
    && Grown(d, c, k, offset + |buf|) && done <= |buf| && (r == Ok <==> done == |buf|)
    && Written(d, c, k, offset, buf[..done]) && (r != Ok ==> Stopped(c, r, k, offset + done))
  }

  /** File k has another size; whole blocks beyond it are gone, and no other byte has changed. */
  ghost predicate Sized(d: Disk, c: Disk, k: nat, size: nat)
    requires k < |d.files|
  {
    && |c.files| == |d.files|
    && (forall j :: 0 <= j < |d.files| ==> c.files[j].size == if j == k then size else d.files[j].size)
    && forall j: nat, i: nat :: ByteOf(c, j, i) ==
         if j == k && size < d.files[k].size && i / BLKSIZE >= NBlocks(size) then 0 else ByteOf(d, j, i)
  }

  /** The status of a request, with what was read or how much was written. */
  datatype Reply = Reply(st: Status, data: seq<Byte>, done: nat)

  ghost predicate IsRun(ds: seq<Disk>, requests: seq<Request>, replies: seq<Reply>) {
    && |ds| == |requests| + 1 && |replies| == |requests|
    && forall i :: 0 <= i < |requests| ==> Did(ds[i], requests[i], replies[i], ds[i + 1])
  }

  lemma {:induction false} RunOn(ds: seq<Disk>, requests: seq<Request>, replies: seq<Reply>, i: nat, a: Reply, c: Disk)
    requires i < |requests| && IsRun(ds, requests[..i], replies) && Did(ds[i], requests[i], a, c)
    ensures IsRun(ds + [c], requests[..i + 1], replies + [a])
  {
    var cs, qs, rs := ds + [c], requests[..i + 1], replies + [a];
    forall j | 0 <= j < |qs| ensures Did(cs[j], qs[j], rs[j], cs[j + 1]) {
      if j < i { assert Did(ds[j], requests[..i][j], replies[j], ds[j + 1]); }
    }
  }

  /** File k is at least size bytes long; no other size has changed. */
  ghost predicate Grown(d: Disk, c: Disk, k: nat, size: nat) {
    && |c.files| == |d.files|
    && forall j :: 0 <= j < |d.files| ==>
       c.files[j].size == if j == k && size > d.files[j].size then size else d.files[j].size
  }

  /** The sizes of all files are the same. */
  ghost predicate SameSizes(d: Disk, c: Disk) {
    |c.files| == |d.files| && forall j :: 0 <= j < |d.files| ==> c.files[j].size == d.files[j].size
  }

  /** c is d with place r emptied and its block, if any, given back. */
  ghost predicate Without(d: Disk, c: Disk, r: Ref) {
    && Inv(c) && Conserved(d, c) && SameSizes(d, c)
    && (forall q :: Target(c, q) == if q == r then 0 else Target(d, q))
    && (forall j: nat, i: nat :: ByteOf(c, j, i) == if Slot(j, i / BLKSIZE) == r then 0 else ByteOf(d, j, i))
  }

  lemma {:induction false} DetachWithout(d: Disk, r: Ref)
    requires Inv(d) && Target(d, r) != 0 && (r.Indirect? ==> forall n: nat :: Target(d, Entry(r.k, n)) == 0)
    ensures Target(d, r) < |d.free| && Without(d, Detach(d, r), r) && RefOk(d, r)
    ensures r.Entry? ==> HasIndex(d, r.k) && r.n < |d.blocks[d.files[r.k].indirect].ptr|
  {
    assert RefOk(d, r);
    DetachKeeps(d, r);
    DetachBytes(d, r);
    DetachConserves(d, r);
    forall q ensures Target(Detach(d, r), q) == if q == r then 0 else Target(d, q) {
      DetachTarget(d, r, q);
    }
  }

  lemma {:induction false} WithoutNothing(d: Disk, r: Ref)
    requires Inv(d) && Target(d, r) == 0
    ensures Without(d, d, r)
  {
  }

  /** q is the place of one of the blocks [lo, hi) of file k. */
  predicate Dropped(q: Ref, k: nat, lo: nat, hi: nat) {
    !q.Indirect? && q.k == k && lo < Needs(q) <= hi
  }

  /** file_truncate_blocks is under way: blocks [lo, hi) of file k are gone. */
  ghost predicate Cutting(d: Disk, c: Disk, k: nat, lo: nat, hi: nat) {
    && Conserved(d, c) && SameSizes(d, c)
    && (forall q :: Target(c, q) == if Dropped(q, k, lo, hi) then 0 else Target(d, q))
    && (forall j: nat, i: nat :: ByteOf(c, j, i) == if j == k && lo <= i / BLKSIZE < hi then 0 else ByteOf(d, j, i))
  }

  /** Everything of file k beyond its first n blocks is gone. */
  ghost predicate Truncated(d: Disk, c: Disk, k: nat, n: nat) {
    && Conserved(d, c) && SameSizes(d, c)
    && (forall q: Ref :: Target(c, q) == if q.k == k && Needs(q) > n then 0 else Target(d, q))
    && (forall j: nat, i: nat :: ByteOf(c, j, i) == if j == k && i / BLKSIZE >= n then 0 else ByteOf(d, j, i))
  }

  lemma {:induction false} CuttingStarts(d: Disk, k: nat, lo: nat)
    ensures Cutting(d, d, k, lo, lo)
  {
  }

  lemma {:induction false} CuttingStep(d: Disk, c: Disk, e: Disk, k: nat, lo: nat, hi: nat)
    requires Inv(d) && lo <= hi && Cutting(d, c, k, lo, hi) && Without(c, e, Slot(k, hi))
    ensures Cutting(d, e, k, lo, hi + 1)
  {
    var n := hi + 1;
    forall q ensures Target(e, q) == if Dropped(q, k, lo, n) then 0 else Target(d, q) {
      CuttingTarget(d, c, e, k, lo, hi, q);
    }
    forall j: nat, i: nat
      ensures ByteOf(e, j, i) == if j == k && lo <= i / BLKSIZE < n then 0 else ByteOf(d, j, i)
    {
      assert Slot(j, i / BLKSIZE) == Slot(k, hi) <==> j == k && i / BLKSIZE == hi;
    }
  }

  lemma {:induction false} CuttingTarget(d: Disk, c: Disk, e: Disk, k: nat, lo: nat, hi: nat, q: Ref)
    requires Inv(d) && lo <= hi
    requires Target(c, q) == if Dropped(q, k, lo, hi) then 0 else Target(d, q)
    requires Target(e, q) == if q == Slot(k, hi) then 0 else Target(c, q)
    ensures Target(e, q) == if Dropped(q, k, lo, hi + 1) then 0 else Target(d, q)
  {
    if q.Direct? && q.n >= NDIRECT {
      assert Target(d, q) == 0;
    }
  }

  lemma {:induction false} NoEntries(d: Disk, c: Disk, k: nat, lo: nat, hi: nat)
    requires Inv(d) && Inv(c) && Cutting(d, c, k, lo, hi) && k < |d.files| && lo <= NDIRECT
    requires hi >= NBlocks(d.files[k].size)
    ensures forall n: nat :: Target(c, Entry(k, n)) == 0
  {
    forall n: nat ensures Target(c, Entry(k, n)) == 0 {
      assert Target(c, Entry(k, n)) != 0 ==> RefOk(c, Entry(k, n));
    }
  }

  lemma {:induction false} CuttingEnds(d: Disk, c: Disk, e: Disk, k: nat, lo: nat, hi: nat)
    requires Inv(d) && k < |d.files| && lo <= hi && hi >= NBlocks(d.files[k].size) && Cutting(d, c, k, lo, hi)
    requires if lo <= NDIRECT && Target(c, Indirect(k)) != 0 then Without(c, e, Indirect(k)) else e == c
    ensures Truncated(d, e, k, lo)
  {
    BeyondEnd(d, k, hi);
  }

  /** Past its size a file has no blocks, so it reads as zeros there. */
  lemma {:induction false} BeyondEnd(d: Disk, k: nat, hi: nat)
    requires Inv(d) && k < |d.files| && hi >= NBlocks(d.files[k].size)
    ensures forall q: Ref :: q.k == k && Needs(q) > hi ==> Target(d, q) == 0
    ensures forall i: nat :: i / BLKSIZE >= hi ==> ByteOf(d, k, i) == 0
  {
    forall q: Ref | q.k == k && Needs(q) > hi ensures Target(d, q) == 0 {
      assert Target(d, q) != 0 ==> RefOk(d, q);
    }
    forall i: nat | i / BLKSIZE >= hi ensures ByteOf(d, k, i) == 0 {
      var q := Slot(k, i / BLKSIZE);
      assert q.k == k && Needs(q) > hi;
    }
  }

  /** buf holds the bytes of file k from offset on. */
  ghost predicate Copied(d: Disk, k: nat, offset: nat, buf: seq<Byte>) {
    forall j :: 0 <= j < |buf| ==> buf[j] == ByteOf(d, k, offset + j)
  }

  lemma {:induction false} CopiedMore(d: Disk, e: Disk, k: nat, offset: nat, buf: seq<Byte>, pos: nat, more: seq<Byte>)
    requires pos == offset + |buf| && Copied(d, k, offset, buf) && Copied(e, k, pos, more) && SameBytes(d, e)
    ensures Copied(d, k, offset, buf + more)
  {
    forall j | |buf| <= j < |buf + more| ensures (buf + more)[j] == ByteOf(d, k, offset + j) {
      assert offset + j == pos + (j - |buf|);
    }
  }

  /** c is d with src written into file k at offset, and no other byte of any file changed. */
  ghost predicate Written(d: Disk, c: Disk, k: nat, offset: nat, src: seq<Byte>) {
    forall j: nat, i: nat :: ByteOf(c, j, i) == if j == k && offset <= i < offset + |src| then src[i - offset]
        else ByteOf(d, j, i)
  }

  lemma {:induction false} WrittenStill(d: Disk, e: Disk, c: Disk, k: nat, offset: nat, src: seq<Byte>)
    requires Written(d, e, k, offset, src) && SameBytes(e, c)
    ensures Written(d, c, k, offset, src)
  {
  }

  lemma {:induction false} WrittenMore(d: Disk, e: Disk, c: Disk, k: nat, offset: nat, src: seq<Byte>, pos: nat,
      more: seq<Byte>)
    requires pos == offset + |src| && Written(d, e, k, offset, src) && Written(e, c, k, pos, more)
    ensures Written(d, c, k, offset, src + more)
  {
  }
}
