/**
  fs/fs.c: the bitmap as it lies on the disk, in consecutive blocks from number 2, and the
  flush that follows every change to it. Disks may have any size.
 */
module BitmapDisk {
  import opened Base
  import opened Bitmap

  const BLKWORDS: nat := 1024
  const BLKBITSIZE: nat := 32768
  const BITMAP: nat := 2
  const JOURNAL: nat := 3
  const JBD_MAGIC: nat := 0x4A424421

  type Blocks = seq<seq<Word>>

  ghost predicate Wf(m: Blocks, n: nat) {
    4 <= n == |m| && forall b :: 0 <= b < n ==> |m[b]| == BLKWORDS
  }

  /** The block and the word in it that bitmap[b/32] names. */
  function Home(b: nat): nat {
    BITMAP + b / 32 / BLKWORDS
  }

  function Place(b: nat): nat {
    b / 32 % BLKWORDS
  }

  lemma HomeFits(b: nat, n: nat)
    requires 4 <= n && b < n
    ensures Home(b) < n && (Home(b) == BITMAP <==> b < BLKBITSIZE)
  {
  }

  /** The bit of block b, as block_is_free tests it. */
  predicate Free(m: Blocks, b: nat) {
    Home(b) < |m| && Place(b) < |m[Home(b)]| && NonZero(And(m[Home(b)][Place(b)], Mask(b % 32)))
  }

  function Put(m: Blocks, b: nat, w: Word): Blocks
    requires Home(b) < |m| && Place(b) < |m[Home(b)]|
  {
    var row: seq<Word> := m[Home(b)][Place(b) := w];
    m[Home(b) := row]
  }

  /** bitmap[b/32] ^= 1 << (b%32) */
  function Occupied(m: Blocks, b: nat): Blocks
    requires Home(b) < |m| && Place(b) < |m[Home(b)]|
  {
    Put(m, b, Xor(m[Home(b)][Place(b)], Mask(b % 32)))
  }

  /** bitmap[b/32] |= 1 << (b%32) */
  function Freed(m: Blocks, b: nat): Blocks
    requires Home(b) < |m| && Place(b) < |m[Home(b)]|
  {
    Put(m, b, Or(m[Home(b)][Place(b)], Mask(b % 32)))
  }

  /** flush_block(bitmap): block 2 and no other. */
  function Flushed(view: Blocks, disk: Blocks): Blocks
    requires BITMAP < |view| && BITMAP < |disk|
  {
    disk[BITMAP := view[BITMAP]]
  }

  /** The on-disk bitmap says of every block what the one in memory says. */
  ghost predicate InSync(view: Blocks, disk: Blocks, n: nat) {
    forall b: nat :: b < n ==> Free(view, b) == Free(disk, b)
  }

  lemma {:induction false} SamePlace(b: nat, x: nat)
    ensures Home(b) == Home(x) && Place(b) == Place(x) && b % 32 == x % 32 ==> b == x
  {
    assert b / 32 == BLKWORDS * (b / 32 / BLKWORDS) + Place(b);
    assert x / 32 == BLKWORDS * (x / 32 / BLKWORDS) + Place(x);
  }

  /** A new word at the place of b that differs from the old one in bit b % 32 only, if at all. */
  lemma {:induction false} PutIs(m: Blocks, n: nat, b: nat, w: Word, x: nat)
    requires Wf(m, n) && b < n && x < n && Home(b) < n
    requires forall k :: 0 <= k < 32 && k != b % 32 ==> w[k] == m[Home(b)][Place(b)][k]
    ensures Wf(Put(m, b, w), n) && Free(Put(m, b, w), x) == if x == b then w[b % 32] else Free(m, x)
  {
    HomeFits(x, n);
    SamePlace(b, x);
    Tests(m[Home(x)][Place(x)], x % 32);
    Tests(Put(m, b, w)[Home(x)][Place(x)], x % 32);
  }

  /** occupy_block takes block b and no other. */
  lemma {:induction false} OccupiedIs(m: Blocks, n: nat, b: nat, x: nat)
    requires Wf(m, n) && b < n && x < n && Home(b) < n
    ensures Wf(Occupied(m, b), n) && Free(Occupied(m, b), x) == if x == b then !Free(m, b) else Free(m, x)
  {
    Tests(m[Home(b)][Place(b)], b % 32);
    PutIs(m, n, b, Xor(m[Home(b)][Place(b)], Mask(b % 32)), x);
  }

  lemma {:induction false} FreedIs(m: Blocks, n: nat, b: nat, x: nat)
    requires Wf(m, n) && b < n && x < n && Home(b) < n
    ensures Wf(Freed(m, b), n) && Free(Freed(m, b), x) == (x == b || Free(m, x))
  {
    PutIs(m, n, b, Or(m[Home(b)][Place(b)], Mask(b % 32)), x);
  }

  /** What the flush brings to the disk: the bits of the first 32768 blocks. */
  lemma {:induction false} FlushedIs(view: Blocks, disk: Blocks, n: nat, x: nat)
    requires Wf(view, n) && Wf(disk, n) && x < n
    ensures Wf(Flushed(view, disk), n)
    ensures Free(Flushed(view, disk), x) == Free(if x < BLKBITSIZE then view else disk, x)
  {
    HomeFits(x, n);
  }

  /**
    From a bitmap that is on the disk, taking block b leaves it there if and only if b is
    one of the first 32768 blocks.
   */
  lemma {:induction false} OccupyExact(view: Blocks, disk: Blocks, n: nat, b: nat)
    requires Wf(view, n) && Wf(disk, n) && InSync(view, disk, n) && b < n && Home(b) < n
    ensures InSync(Occupied(view, b), Flushed(Occupied(view, b), disk), n) <==> b < BLKBITSIZE
  {
    var v := Occupied(view, b);
    OccupiedIs(view, n, b, b);
    FlushedIs(v, disk, n, b);
    if b < BLKBITSIZE {
      forall x: nat | x < n ensures Free(v, x) == Free(Flushed(v, disk), x) {
        OccupiedIs(view, n, b, x);
        FlushedIs(v, disk, n, x);
      }
    }
  }

  /** And so does giving back a block that was in use. */
  lemma {:induction false} FreeExact(view: Blocks, disk: Blocks, n: nat, b: nat)
    requires Wf(view, n) && Wf(disk, n) && InSync(view, disk, n) && b < n && Home(b) < n
    ensures InSync(Freed(view, b), Flushed(Freed(view, b), disk), n) <==> b < BLKBITSIZE || Free(view, b)
  {
    var v := Freed(view, b);
    FreedIs(view, n, b, b);
    FlushedIs(v, disk, n, b);
    if b < BLKBITSIZE || Free(view, b) {
      forall x: nat | x < n ensures Free(v, x) == Free(Flushed(v, disk), x) {
        FreedIs(view, n, b, x);
        FlushedIs(v, disk, n, x);
      }
    }
  }

  // ---------------------------------------------------------------- the first block too many

  /** Bit i of a number. */
  predicate Digit(x: nat, i: nat) {
    if i == 0 then x % 2 == 1 else Digit(x / 2, i - 1)
  }

  function Number(x: nat): Word {
    seq(32, i requires 0 <= i < 32 => Digit(x, i))
  }

  /**
    The bit of block 32768 is the lowest one of the journal's magic number. It is set, so the
    block looks free; taking it spoils the number, and the on-disk bitmap still has the block free.
   */
  lemma {:induction false} MagicSpoilt(view: Blocks, n: nat)
    requires Wf(view, n) && n > BLKBITSIZE && view[JOURNAL][0] == Number(JBD_MAGIC)
    ensures Home(BLKBITSIZE) == JOURNAL && Free(view, BLKBITSIZE)
    ensures var v := Occupied(view, BLKBITSIZE);
            v[JOURNAL][0] == Number(JBD_MAGIC - 1) != Number(JBD_MAGIC) && Free(Flushed(v, view), BLKBITSIZE)
  {
    var v := Occupied(view, BLKBITSIZE);
    Tests(view[JOURNAL][0], 0);
    assert Number(JBD_MAGIC)[0] && !Number(JBD_MAGIC - 1)[0];
    forall i | 0 <= i < 32 ensures v[JOURNAL][0][i] == Number(JBD_MAGIC - 1)[i] {
      assert i > 0 ==> Digit(JBD_MAGIC, i) == Digit(JBD_MAGIC / 2, i - 1) == Digit(JBD_MAGIC - 1, i);
    }
    FlushedIs(v, view, n, BLKBITSIZE);
  }

  // ---------------------------------------------------------------- the code

  datatype Op = Alloc(occupy: bool) | Release(b: nat)

  /** b is the lowest free block, 0 being none. */
  ghost predicate Lowest(m: Blocks, n: nat, b: nat) {
    0 < b < n && Free(m, b) && forall x: nat :: 0 < x < b ==> !Free(m, x)
  }

  /** Which blocks a call takes or gives back. */
  ghost predicate Did(v: Blocks, op: Op, w: Blocks, n: nat) {
    match op
    case Alloc(occupy) =>
      && (w == v || occupy)
      && ((forall b: nat :: 0 < b < n ==> !Free(v, b)) ==> w == v)
      && (occupy ==> forall b: nat :: Lowest(v, n, b) ==>
            forall x: nat :: x < n ==> Free(w, x) == (x != b && Free(v, x)))
    case Release(b) =>
      if 0 < b < n then forall x: nat :: x < n ==> Free(w, x) == (x == b || Free(v, x)) else w == v
  }

  class Store {
    const n: nat                  // super->s_nblocks
    var view: Blocks              // the block cache
    var disk: Blocks
    var dirty: seq<bool>

    ghost predicate Valid()
      reads this
    {
      && Wf(view, n) && Wf(disk, n) && |dirty| == n
      && forall b :: 0 <= b < n && !dirty[b] ==> view[b] == disk[b]
    }

    constructor (blocks: Blocks)
      requires Wf(blocks, |blocks|)
      ensures Valid() && view == disk == blocks && n == |blocks|
    {
      n, view, disk, dirty := |blocks|, blocks, blocks, seq(|blocks|, _ => false);
    }

    predicate BlockIsFree(b: nat)
      reads this
    {
      b < n && Free(view, b)
    }

    /** A store to the word of block b, and flush_block(bitmap). */
    method StoreWord(b: nat, w: Word)
      requires Valid() && b < n && Home(b) < n
      modifies this
      ensures Valid() && view == Put(old(view), b, w) && disk == Flushed(view, old(disk))
    {
      view, dirty := Put(view, b, w), dirty[Home(b) := true];
      if dirty[BITMAP] {
        disk, dirty := disk[BITMAP := view[BITMAP]], dirty[BITMAP := false];
      }
      assert disk == Flushed(view, old(disk));
    }

    method FreeBlock(b: nat)
      requires Valid() && 0 < b < n
      modifies this
      ensures Valid() && Home(b) < n && view == Freed(old(view), b) && disk == Flushed(view, old(disk))
    {
      HomeFits(b, n);
      StoreWord(b, Or(view[Home(b)][Place(b)], Mask(b % 32)));
    }

    method OccupyBlock(b: nat)
      requires Valid() && BlockIsFree(b)
      modifies this
      ensures Valid() && Home(b) < n && view == Occupied(old(view), b) && disk == Flushed(view, old(disk))
    {
      HomeFits(b, n);
      StoreWord(b, Xor(view[Home(b)][Place(b)], Mask(b % 32)));
    }

    /** alloc_block: the lowest free block; its bit is on the disk exactly if it is among the first 32768,
        or was there already. */
    method AllocBlock(occupy: bool) returns (r: Option<nat>)
      requires Valid()
      modifies this
      ensures Valid()
      ensures r.None? <==> forall b: nat :: 0 < b < n ==> !Free(old(view), b)
      ensures r.Some? ==>
              0 < r.value < n && Free(old(view), r.value) && forall b: nat :: 0 < b < r.value ==> !Free(old(view), b)
      ensures r.None? || !occupy ==> view == old(view) && disk == old(disk)
      ensures r.Some? && occupy ==>
                && Home(r.value) < n && view == Occupied(old(view), r.value) && disk == Flushed(view, old(disk))
                && (forall b: nat :: b < n ==> Free(view, b) == (b != r.value && Free(old(view), b)))
                && (!Free(disk, r.value) <==> r.value < BLKBITSIZE || !Free(old(disk), r.value))
    {
      var b := 1;
      while b < n
        invariant 0 < b && view == old(view) && disk == old(disk) && Valid()
        invariant forall x: nat :: 0 < x < b && x < n ==> !Free(view, x)
      {
        if BlockIsFree(b) {
          if occupy {
            OccupyBlock(b);
            forall x: nat | x < n ensures Free(view, x) == (x != b && Free(old(view), x)) {
              OccupiedIs(old(view), n, b, x);
            }
            FlushedIs(view, old(disk), n, b);
          }
          return Some(b);
        }
        b := b + 1;
      }
      return None;
    }

    method Do(op: Op)
      requires Valid()
      modifies this
      ensures Valid() && Did(old(view), op, view, n)
      ensures InSync(old(view), old(disk), n) && n <= BLKBITSIZE ==> InSync(view, disk, n)
    {
      ghost var v, d := view, disk;
      match op {
        case Alloc(occupy) =>
          var r := AllocBlock(occupy);
          if r.Some? && occupy && InSync(v, d, n) {
            OccupyExact(v, d, n, r.value);
          }
        case Release(b) =>
          if 0 < b < n {
            FreeBlock(b);
            forall x: nat | x < n ensures Free(view, x) == (x == b || Free(v, x)) {
              FreedIs(v, n, b, x);
            }
            if InSync(v, d, n) { FreeExact(v, d, n, b); }
          }
      }
    }

    /** One bitmap block is enough for 32768 blocks: then the disk follows every run of calls. */
    method Run(ops: seq<Op>) returns (ghost vs: seq<Blocks>)
      requires Valid() && InSync(view, disk, n) && n <= BLKBITSIZE
      modifies this
      ensures Valid() && InSync(view, disk, n)
      ensures |vs| == |ops| + 1 && vs[0] == old(view) && vs[|ops|] == view
      ensures forall i :: 0 <= i < |ops| ==> Did(vs[i], ops[i], vs[i + 1], n)
    {
      vs := [view];
      for i := 0 to |ops|
        invariant Valid() && InSync(view, disk, n)
        invariant |vs| == i + 1 && vs[0] == old(view) && vs[i] == view
        invariant forall k :: 0 <= k < i ==> Did(vs[k], ops[k], vs[k + 1], n)
      {
        Do(ops[i]);
        vs := vs + [view];
      }
    }
  }
}
