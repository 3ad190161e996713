/**
  The part of the disk the journal works on, as values: the block bitmap (block 2), the
  transaction records (block 3) and the words of all other blocks, once as the block cache
  shows them and once as they are on the disk.
 */
module JournalState {

  const BLKSECTS: nat := 8
  const BLKBITSIZE: nat := 32768
  const BITMAP: nat := 2
  const JOURNAL: nat := 3
  const MAX_NTRANS: nat := 112              // (4096 - 512) / 32
  const MAX_NHANDLES: nat := 1024

  /** Transaction_t; envid 0 marks an unused record. */
  datatype Record = Record(active: bool, envid: nat, id: nat, nhandles: nat, handlei: nat)

  type Words = seq<nat>

  datatype Image = Image(free: seq<bool>, recs: seq<Record>, data: seq<Words>)

  /** Journal and bitmap sit in blocks 3 and 2, so one block of bits has to do for the disk. */
  ghost predicate Wf(m: Image, n: nat) {
    && 4 <= n <= BLKBITSIZE && |m.free| == n && |m.recs| == MAX_NTRANS && |m.data| == n
    && (forall b :: 0 <= b < n ==> |m.data[b]| == MAX_NHANDLES)
  }

  function Zeros(): Words {
    seq(MAX_NHANDLES, _ => 0)
  }

  /** The sector of the journal block that holds record r. */
  function SectorOf(r: nat): nat {
    1 + r / 16
  }

  /** Records of 32 bytes follow a header of one sector, and none lies across two. */
  lemma {:induction false} SectorHolds(r: nat)
    ensures SectorOf(r) * 512 <= 512 + r * 32 && 512 + (r + 1) * 32 <= (SectorOf(r) + 1) * 512
    ensures r < MAX_NTRANS ==> SectorOf(r) < BLKSECTS
  {
  }

  // ---------------------------------------------------------------- disk writes

  /** d after its block b has received sectors [lo, hi) of v. */
  ghost function Push(d: Image, v: Image, b: nat, lo: nat, hi: nat): (m: Image)
    requires Wf(d, |d.free|) && Wf(v, |d.free|) && b < |d.free|
    ensures Wf(m, |d.free|)
  {
    if b == BITMAP then
      d.(free := seq(|d.free|, i requires 0 <= i < |d.free| => if lo <= i / 4096 < hi then v.free[i] else d.free[i]))
    else if b == JOURNAL then
      d.(recs := seq(MAX_NTRANS, r requires 0 <= r < MAX_NTRANS => if lo <= SectorOf(r) < hi then v.recs[r]
          else d.recs[r]))
    else
      d.(data := d.data[b := seq(MAX_NHANDLES, i requires 0 <= i < MAX_NHANDLES =>
                                   if lo <= i / 128 < hi then v.data[b][i] else d.data[b][i])])
  }

  /** Writing the sectors of a block one by one writes the block. */
  lemma {:induction false} PushMore(d: Image, v: Image, b: nat, s: nat)
    requires Wf(d, |d.free|) && Wf(v, |d.free|) && b < |d.free|
    ensures Push(Push(d, v, b, 0, s), v, b, s, s + 1) == Push(d, v, b, 0, s + 1)
    ensures Push(d, v, b, 0, 0) == d
  {
    var c, e := Push(Push(d, v, b, 0, s), v, b, s, s + 1), Push(d, v, b, 0, s + 1);
    assert c.free == e.free;
    assert c.recs == e.recs;
    forall x | 0 <= x < |d.free| ensures c.data[x] == e.data[x] {
    }
    assert c.data == e.data;
    var z := Push(d, v, b, 0, 0);
    assert z.free == d.free && z.recs == d.recs;
    forall x | 0 <= x < |d.free| ensures z.data[x] == d.data[x] {
    }
    assert z.data == d.data;
  }

  /** Block b is the same in both images. */
  ghost predicate SameBlock(v: Image, d: Image, b: nat) {
    if b == BITMAP then v.free == d.free
    else if b == JOURNAL then v.recs == d.recs
    else b < |v.data| && b < |d.data| && v.data[b] == d.data[b]
  }

  /** A block all of whose sectors were written is the same on the disk. */
  lemma {:induction false} PushWhole(d: Image, v: Image, b: nat)
    requires Wf(d, |d.free|) && Wf(v, |d.free|) && b < |d.free|
    ensures var c := Push(d, v, b, 0, BLKSECTS);
            SameBlock(v, c, b) && forall x :: 0 <= x < |d.free| && x != b ==> SameBlock(c, d, x)
  {
    var c := Push(d, v, b, 0, BLKSECTS);
    if b == BITMAP {
      forall i | 0 <= i < |d.free| ensures c.free[i] == v.free[i] {
      }
      assert c.free == v.free;
    } else if b == JOURNAL {
      assert c.recs == v.recs;
    } else {
      assert c.data[b] == v.data[b];
    }
  }

  /** c is d with parts of block b replaced by what v has there. */
  ghost predicate Partly(c: Image, d: Image, v: Image, b: nat) {
    && |c.free| == |d.free| == |v.free| && |c.recs| == |d.recs| == |v.recs| && |c.data| == |d.data| == |v.data|
    && (forall i :: 0 <= i < |c.free| ==> c.free[i] == d.free[i] || (b == BITMAP && c.free[i] == v.free[i]))
    && (forall r :: 0 <= r < |c.recs| ==> c.recs[r] == d.recs[r] || (b == JOURNAL && c.recs[r] == v.recs[r]))
    && (forall x :: 0 <= x < |c.data| && x != b ==> c.data[x] == d.data[x])
  }

  lemma {:induction false} PushPartly(d: Image, v: Image, b: nat, lo: nat, hi: nat)
    requires Wf(d, |d.free|) && Wf(v, |d.free|) && b < |d.free|
    ensures Partly(Push(d, v, b, lo, hi), d, v, b)
  {
  }

  /** The blocks of the files and their bits in the bitmap are the same. */
  ghost predicate FilesSame(c: Image, d: Image, owned: set<nat>) {
    forall b :: b in owned ==>
      b < |c.data| && b < |d.data| && b < |c.free| && b < |d.free| && c.data[b] == d.data[b] && c.free[b] == d.free[b]
  }

  lemma {:induction false} PartlyFiles(c: Image, d: Image, v: Image, b: nat, owned: set<nat>)
    requires Partly(c, d, v, b) && b !in owned && FilesSame(d, d, owned)
    requires b == BITMAP ==> forall x :: x in owned && x < |d.free| ==> v.free[x] == d.free[x]
    ensures FilesSame(c, d, owned)
  {
  }

  // ---------------------------------------------------------------- transactions on an image

  /** The places that hold block numbers of the journal. */
  datatype Place = Index(r: nat) | Entry(r: nat, h: nat)

  function Target(v: Image, p: Place): nat {
    match p
    case Index(r) => if r < |v.recs| then v.recs[r].handlei else 0
    case Entry(r, h) =>
      if r < |v.recs| && 0 < v.recs[r].handlei < |v.data| && h < |v.data[v.recs[r].handlei]|
      then v.data[v.recs[r].handlei][h] else 0
  }

  /** log[r]: the handles logged so far in transaction r. */
  type Log = seq<seq<Words>>

  /** Handle h of record r is on the disk, whole, in a block the on-disk bitmap has in use. */
  ghost predicate HandleSaved(d: Image, log: Log, r: nat, h: nat)
    requires r < |log| && h < |log[r]|
  {
    var b := Target(d, Entry(r, h));
    0 < b < |d.data| && b < |d.free| && !d.free[b] && d.data[b] == log[r][h]
  }

  /** The index block and all handle blocks of record r are on the disk. */
  ghost predicate Complete(d: Image, log: Log, r: nat) {
    && r < |d.recs| && r < |log| && d.recs[r].nhandles == |log[r]|
    && var i := d.recs[r].handlei;
    && 0 < i < |d.data| && i < |d.free| && !d.free[i]
    && forall h :: 0 <= h < |log[r]| ==> HandleSaved(d, log, r, h)
  }

  /** What a crash must find: every record marked active on the disk can be replayed. */
  ghost predicate Safe(d: Image, log: Log) {
    forall r :: 0 <= r < |d.recs| && d.recs[r].active ==> Complete(d, log, r)
  }

  // ---------------------------------------------------------------- the invariant of disk writes

  /** The cache and the disk agree about handle h of record r. */
  ghost predicate HandleAgrees(v: Image, d: Image, log: Log, r: nat, h: nat)
    requires r < |log| && h < |log[r]|
  {
    && HandleSaved(d, log, r, h)
    && var b := Target(d, Entry(r, h));
    b != BITMAP && b != JOURNAL && b < |v.data| && b < |v.free| && !v.free[b] && v.data[b] == d.data[b]
  }

  ghost predicate Agrees(v: Image, d: Image, log: Log, r: nat) {
    && r < |v.recs| && Complete(d, log, r) && v.recs[r] == d.recs[r]
    && var i := d.recs[r].handlei;
    && i != BITMAP && i != JOURNAL && i < |v.data| && i < |v.free| && !v.free[i] && v.data[i] == d.data[i]
    && forall h :: 0 <= h < |log[r]| ==> HandleAgrees(v, d, log, r, h)
  }

  /** Records marked active anywhere are complete, and no later flush can change them. */
  ghost predicate Guarded(v: Image, d: Image, log: Log) {
    forall r :: 0 <= r < |d.recs| && r < |v.recs| && (v.recs[r].active || d.recs[r].active) ==> Agrees(v, d, log, r)
  }

  lemma {:induction false} GuardedSafe(v: Image, d: Image, log: Log)
    requires Guarded(v, d, log) && |v.recs| == |d.recs|
    ensures Safe(d, log)
  {
    forall r | 0 <= r < |d.recs| && d.recs[r].active ensures Complete(d, log, r) {
      assert Agrees(v, d, log, r);
    }
  }

  /** Any sector of any block may be written at any time. */
  lemma {:induction false} PushKeeps(v: Image, d: Image, log: Log, b: nat, lo: nat, hi: nat)
    requires Wf(d, |d.free|) && Wf(v, |d.free|) && b < |d.free| && Guarded(v, d, log)
    ensures Guarded(v, Push(d, v, b, lo, hi), log)
  {
    var c := Push(d, v, b, lo, hi);
    forall r | 0 <= r < |c.recs| && r < |v.recs|
        && (v.recs[r].active || c.recs[r].active) ensures Agrees(v, c, log, r) {
      assert v.recs[r].active || d.recs[r].active;
      assert Agrees(v, d, log, r);
      PushSame(v, d, c, b, lo, hi, d.recs[r].handlei);
      forall h | 0 <= h < |log[r]| ensures HandleSaved(c, log, r, h) && HandleAgrees(v, c, log, r, h) {
        assert HandleAgrees(v, d, log, r, h);
        PushSame(v, d, c, b, lo, hi, Target(d, Entry(r, h)));
      }
    }
  }

  lemma {:induction false} PushSame(v: Image, d: Image, c: Image, b: nat, lo: nat, hi: nat, x: nat)
    requires Wf(d, |d.free|) && Wf(v, |d.free|) && b < |d.free| && c == Push(d, v, b, lo, hi)
    requires x < |d.free| && x != BITMAP && x != JOURNAL && v.data[x] == d.data[x] && !v.free[x] && !d.free[x]
    ensures c.data[x] == d.data[x] && !c.free[x]
  {
  }

  /** Block x belongs to a transaction that is marked active. */
  ghost predicate InActive(v: Image, x: nat) {
    exists p: Place :: p.r < |v.recs| && v.recs[p.r].active && Target(v, p) == x
  }

  /** The cache may change except in records and blocks of active transactions. */
  lemma {:induction false} EditKeeps(v: Image, w: Image, d: Image, log: Log)
    requires Wf(d, |d.free|) && Wf(v, |d.free|) && Wf(w, |d.free|) && Guarded(v, d, log)
    requires forall r :: 0 <= r < MAX_NTRANS && (v.recs[r].active || w.recs[r].active) ==> w.recs[r] == v.recs[r]
    requires forall x: nat :: InActive(v, x) && x < |d.free| ==> w.data[x] == v.data[x] && (w.free[x] ==> v.free[x])
    ensures Guarded(w, d, log)
  {
    forall r | 0 <= r < |d.recs| && r < |w.recs|
        && (w.recs[r].active || d.recs[r].active) ensures Agrees(w, d, log, r) {
      assert Agrees(v, d, log, r);
      assert Target(v, Index(r)) == v.recs[r].handlei && InActive(v, v.recs[r].handlei);
      forall h | 0 <= h < |log[r]| ensures HandleAgrees(w, d, log, r, h) {
        assert HandleAgrees(v, d, log, r, h);
        assert Target(v, Entry(r, h)) == Target(d, Entry(r, h));
        assert InActive(v, Target(v, Entry(r, h)));
      }
    }
  }

  // ---------------------------------------------------------------- who owns which block

  ghost predicate PlaceOk(v: Image, owned: set<nat>, p: Place) {
    var b := Target(v, p);
    JOURNAL < b < |v.free| && !v.free[b] && b !in owned
  }

  ghost predicate Logged(v: Image, log: Log, r: nat, h: nat)
    requires r < |log| && h < |log[r]|
  {
    var b := Target(v, Entry(r, h));
    0 < b < |v.data| && v.data[b] == log[r][h]
  }

  ghost predicate RecordOk(v: Image, log: Log, r: nat)
    requires r < |v.recs| && r < |log|
  {
    && v.recs[r].nhandles == |log[r]|
    && (forall h :: 0 <= h < |log[r]| ==> Logged(v, log, r, h))
    && (forall h: nat :: h >= |log[r]| ==> Target(v, Entry(r, h)) == 0)
  }

  /** Journal blocks are in use, apart from each other and from those of the files. */
  ghost predicate Places(v: Image, owned: set<nat>) {
    && (forall p :: Target(v, p) != 0 ==> PlaceOk(v, owned, p))
    && (forall p, q :: Target(v, p) != 0 && Target(v, p) == Target(v, q) ==> p == q)
    && (forall b :: b in owned ==> 0 < b < |v.free| && b != BITMAP && b != JOURNAL && !v.free[b])
  }

  /** The index blocks list exactly the handles that were logged. */
  ghost predicate Owns(v: Image, owned: set<nat>, log: Log) {
    && Places(v, owned) && |log| == |v.recs|
    && (forall r :: 0 <= r < |v.recs| ==> RecordOk(v, log, r))
  }

  /** Records no environment uses hold no blocks. */
  predicate Unused(v: Image) {
    forall r :: 0 <= r < |v.recs| && v.recs[r].envid == 0 ==> v.recs[r].handlei == 0
  }

  /** Blocks 0 to 3 are never handed out. */
  predicate Reserved(v: Image) {
    |v.free| >= 4 && forall b :: 0 <= b < 4 ==> !v.free[b]
  }

  ghost predicate Clean(v: Image, d: Image, dirty: seq<bool>) {
    forall b :: 0 <= b < |dirty| && !dirty[b] ==> SameBlock(v, d, b)
  }

  ghost predicate Quiet(v: Image) {
    forall r :: 0 <= r < |v.recs| ==> !v.recs[r].active
  }

  function SetWord(v: Image, b: nat, i: nat, w: nat): Image
    requires b < |v.data| && i < |v.data[b]|
  {
    var x: Words := v.data[b][i := w];
    v.(data := v.data[b := x])
  }

  // ---------------------------------------------------------------- logging a handle

  /** Record r gets the empty index block i. */
  function WithIndex(v: Image, r: nat, i: nat): Image
    requires r < |v.recs| && i < |v.data| && i < |v.free|
  {
    v.(free := v.free[i := false], data := v.data[i := Zeros()], recs := v.recs[r := v.recs[r].(handlei := i)])
  }

  lemma {:induction false} IndexPlaces(v: Image, owned: set<nat>, r: nat, i: nat)
    requires Wf(v, |v.free|) && Places(v, owned) && Reserved(v)
    requires r < |v.recs| && v.recs[r].handlei == 0 && i < |v.free| && v.free[i]
    ensures Places(WithIndex(v, r, i), owned)
    ensures forall p :: Target(WithIndex(v, r, i), p) == if p == Index(r) then i else Target(v, p)
  {
    var w := WithIndex(v, r, i);
    forall p ensures Target(w, p) == if p == Index(r) then i else Target(v, p) {
      if p.Entry? && p.r != r && 0 < Target(v, Index(p.r)) { assert PlaceOk(v, owned, Index(p.r)); }
    }
    forall p | Target(w, p) != 0 ensures PlaceOk(w, owned, p) && (p != Index(r) ==> Target(w, p) != i) {
      if p != Index(r) { assert PlaceOk(v, owned, p); }
    }
  }

  lemma {:induction false} IndexKeeps(v: Image, owned: set<nat>, log: Log, r: nat, i: nat)
    requires Wf(v, |v.free|) && Owns(v, owned, log) && Reserved(v)
    requires r < |v.recs| && v.recs[r].handlei == 0 && i < |v.free| && v.free[i]
    ensures Owns(WithIndex(v, r, i), owned, log)
  {
    var w := WithIndex(v, r, i);
    IndexPlaces(v, owned, r, i);
    forall x | 0 <= x < |w.recs| ensures RecordOk(w, log, x) {
      assert RecordOk(v, log, x);
      forall h | 0 <= h < |log[x]| ensures Logged(w, log, x, h) {
        assert Logged(v, log, x, h) && PlaceOk(v, owned, Entry(x, h));
      }
    }
  }

  /** Entry h of record r gets the empty block b. */
  function WithEntry(v: Image, r: nat, h: nat, b: nat): Image
    requires r < |v.recs| && v.recs[r].handlei < |v.data| && b < |v.data| && b < |v.free|
    requires h < |v.data[v.recs[r].handlei]|
  {
    var w := SetWord(v, v.recs[r].handlei, h, b);
    w.(free := v.free[b := false], data := w.data[b := Zeros()])
  }

  lemma {:induction false} EntryPlaces(v: Image, owned: set<nat>, r: nat, h: nat, b: nat)
    requires Wf(v, |v.free|) && Places(v, owned) && Reserved(v) && r < |v.recs| && h < MAX_NHANDLES
    requires 0 < v.recs[r].handlei < |v.data| && b < |v.free| && v.free[b]
    ensures Places(WithEntry(v, r, h, b), owned)
    ensures forall p :: Target(WithEntry(v, r, h, b), p) == if p == Entry(r, h) then b else Target(v, p)
  {
    var w := WithEntry(v, r, h, b);
    assert PlaceOk(v, owned, Index(r));
    forall p ensures Target(w, p) == if p == Entry(r, h) then b else Target(v, p) {
      if p.r < |v.recs| && v.recs[p.r].handlei != 0 {
        assert PlaceOk(v, owned, Index(p.r));
        assert p.r != r ==> Target(v, Index(p.r)) != Target(v, Index(r));
      }
    }
    forall p | Target(w, p) != 0 ensures PlaceOk(w, owned, p) && (p != Entry(r, h) ==> Target(w, p) != b) {
      if p != Entry(r, h) { assert PlaceOk(v, owned, p); }
    }
  }

  /** The next handle x of record r goes to the new block b. */
  function WithHandle(v: Image, r: nat, b: nat, x: Words): Image
    requires r < |v.recs| && v.recs[r].handlei < |v.data| && b < |v.data| && b < |v.free|
    requires v.recs[r].nhandles < |v.data[v.recs[r].handlei]|
  {
    var w := WithEntry(v, r, v.recs[r].nhandles, b);
    w.(data := w.data[b := x], recs := v.recs[r := v.recs[r].(nhandles := v.recs[r].nhandles + 1)])
  }

  function Append(log: Log, r: nat, x: Words): Log
    requires r < |log|
  {
    log[r := log[r] + [x]]
  }

  lemma {:induction false} HandleKeeps(v: Image, owned: set<nat>, log: Log, r: nat, b: nat, x: Words)
    requires Wf(v, |v.free|) && Owns(v, owned, log) && Reserved(v) && r < |v.recs| && v.recs[r].nhandles < MAX_NHANDLES
    requires 0 < v.recs[r].handlei < |v.data| && b < |v.free| && v.free[b]
    ensures Owns(WithHandle(v, r, b, x), owned, Append(log, r, x))
  {
    var w, n := WithHandle(v, r, b, x), v.recs[r].nhandles;
    var u, more := WithEntry(v, r, n, b), Append(log, r, x);
    EntryPlaces(v, owned, r, n, b);
    forall p ensures Target(w, p) == Target(u, p) {
      assert p.r < |v.recs| ==> Target(u, Index(p.r)) != b;
    }
    forall p | Target(w, p) != 0 ensures PlaceOk(w, owned, p) {
      assert PlaceOk(u, owned, p);
    }
    HandleRecords(v, w, owned, log, r, b, x);
  }

  lemma {:induction false} HandleRecords(v: Image, w: Image, owned: set<nat>, log: Log, r: nat, b: nat, x: Words)
    requires Wf(v, |v.free|) && Owns(v, owned, log) && r < |v.recs| && v.recs[r].nhandles < MAX_NHANDLES
    requires 0 < v.recs[r].handlei < |v.data| && b < |v.free| && v.free[b] && w == WithHandle(v, r, b, x)
    requires forall p :: Target(w, p) == if p == Entry(r, v.recs[r].nhandles) then b else Target(v, p)
    requires b != 0
    ensures forall k :: 0 <= k < |w.recs| ==> RecordOk(w, Append(log, r, x), k)
  {
    var n, more := v.recs[r].nhandles, Append(log, r, x);
    forall k | 0 <= k < |w.recs| ensures RecordOk(w, more, k) {
      assert RecordOk(v, log, k) && RecordOk(v, log, r);
      forall h | 0 <= h < |more[k]| ensures Logged(w, more, k, h) {
        if k != r || h < n {
          assert Logged(v, log, k, h) && PlaceOk(v, owned, Entry(k, h));
          assert Target(v, Entry(k, h)) != Target(v, Index(r));
        }
      }
    }
  }

  /** Handles logged in, and blocks given to, transactions that are not active are free to change. */
  lemma {:induction false} LogKeeps(v: Image, d: Image, log: Log, r: nat, x: seq<Words>)
    requires Guarded(v, d, log) && |v.recs| == |d.recs| && r < |log| && r < |v.recs| && !v.recs[r].active
    ensures Guarded(v, d, log[r := x]) && !d.recs[r].active
  {
    var more := log[r := x];
    assert d.recs[r].active ==> Agrees(v, d, log, r);
    forall k | 0 <= k < |d.recs| && k < |v.recs|
        && (v.recs[k].active || d.recs[k].active) ensures Agrees(v, d, more, k) {
      assert Agrees(v, d, log, k) && k != r;
      forall h | 0 <= h < |log[k]| ensures HandleSaved(d, more, k, h) && HandleAgrees(v, d, more, k, h) {
        assert HandleAgrees(v, d, log, k, h);
      }
    }
  }

  /** A free block belongs to no transaction, and one of a file to no transaction either. */
  lemma {:induction false} Outside(v: Image, owned: set<nat>, b: nat)
    requires Places(v, owned) && 0 < b < |v.free| && (v.free[b] || b in owned)
    ensures forall p :: Target(v, p) != b
    ensures !InActive(v, b)
  {
    forall p ensures Target(v, p) != b {
      assert Target(v, p) != 0 ==> PlaceOk(v, owned, p);
    }
  }

  // ---------------------------------------------------------------- commit

  function WithRecord(v: Image, r: nat, x: Record): Image
    requires r < |v.recs|
  {
    v.(recs := v.recs[r := x])
  }

  /** All blocks of record r are on the disk as they are in the cache. */
  ghost predicate Flushed(v: Image, d: Image, r: nat) {
    forall p: Place :: p.r == r && Target(v, p) != 0 ==> SameBlock(v, d, Target(v, p))
  }

  /** Once handles and index are flushed, the record may be marked active by one sector write. */
  lemma {:induction false} CommitKeeps(v: Image, d: Image, owned: set<nat>, log: Log, r: nat)
    requires Wf(d, |d.free|) && Wf(v, |d.free|) && Owns(v, owned, log) && Guarded(v, d, log) && v.free == d.free
    requires r < MAX_NTRANS && !v.recs[r].active && |log[r]| > 0 && Flushed(v, d, r)
    ensures var w := WithRecord(v, r, v.recs[r].(active := true));
            var c := Push(d, w, JOURNAL, SectorOf(r), SectorOf(r) + 1);
            Wf(w, |d.free|) && Owns(w, owned, log) && Guarded(w, c, log) && c.recs[r].active
  {
    var w := WithRecord(v, r, v.recs[r].(active := true));
    var c := Push(d, w, JOURNAL, SectorOf(r), SectorOf(r) + 1);
    RecordOwns(v, owned, log, r, w.recs[r]);
    forall k | 0 <= k < MAX_NTRANS && (w.recs[k].active || c.recs[k].active) ensures Agrees(w, c, log, k) {
      if k == r {
        Activated(v, d, w, c, owned, log, r);
      } else {
        assert Agrees(v, d, log, k);
        forall h | 0 <= h < |log[k]| ensures HandleSaved(c, log, k, h) && HandleAgrees(w, c, log, k, h) {
          assert HandleAgrees(v, d, log, k, h);
        }
      }
    }
  }

  /** Changing only the active mark, or the environment, of a record moves no block. */
  lemma {:induction false} RecordOwns(v: Image, owned: set<nat>, log: Log, r: nat, x: Record)
    requires Owns(v, owned, log) && r < |v.recs| && x.nhandles == v.recs[r].nhandles && x.handlei == v.recs[r].handlei
    ensures Owns(WithRecord(v, r, x), owned, log)
  {
    var w := WithRecord(v, r, x);
    forall p ensures Target(w, p) == Target(v, p) {
    }
    forall p | Target(w, p) != 0 ensures PlaceOk(w, owned, p) {
      assert PlaceOk(v, owned, p);
    }
    forall k | 0 <= k < |w.recs| ensures RecordOk(w, log, k) {
      assert RecordOk(v, log, k);
      forall h | 0 <= h < |log[k]| ensures Logged(w, log, k, h) {
        assert Logged(v, log, k, h);
      }
    }
  }

  lemma {:induction false} Activated(v: Image, d: Image, w: Image, c: Image, owned: set<nat>, log: Log, r: nat)
    requires Wf(d, |d.free|) && Wf(v, |d.free|) && Owns(v, owned, log) && v.free == d.free
    requires r < MAX_NTRANS && |log[r]| > 0 && Flushed(v, d, r)
    requires w == WithRecord(v, r, v.recs[r].(active := true)) && c == Push(d, w, JOURNAL, SectorOf(r), SectorOf(r) + 1)
    ensures Agrees(w, c, log, r)
  {
    assert RecordOk(v, log, r) && Logged(v, log, r, 0);
    var i := v.recs[r].handlei;
    assert Target(v, Index(r)) == i && PlaceOk(v, owned, Index(r)) && SameBlock(v, d, i);
    forall h | 0 <= h < |log[r]| ensures HandleSaved(c, log, r, h) && HandleAgrees(w, c, log, r, h) {
      assert Logged(v, log, r, h) && PlaceOk(v, owned, Entry(r, h)) && SameBlock(v, d, Target(v, Entry(r, h)));
    }
  }

  // ---------------------------------------------------------------- end of a transaction

  /** One sector write takes the record out of the journal. */
  lemma {:induction false} DeactivateKeeps(v: Image, d: Image, log: Log, r: nat, x: Record)
    requires Wf(d, |d.free|) && Wf(v, |d.free|) && Guarded(v, d, log) && r < MAX_NTRANS && !x.active
    ensures var w := WithRecord(v, r, x);
            var c := Push(d, w, JOURNAL, SectorOf(r), SectorOf(r) + 1);
            Wf(w, |d.free|) && Guarded(w, c, log) && !c.recs[r].active
  {
    var w := WithRecord(v, r, x);
    var c := Push(d, w, JOURNAL, SectorOf(r), SectorOf(r) + 1);
    forall k | 0 <= k < MAX_NTRANS && (w.recs[k].active || c.recs[k].active) ensures Agrees(w, c, log, k) {
      assert k != r && Agrees(v, d, log, k);
      forall h | 0 <= h < |log[k]| ensures HandleSaved(c, log, k, h) && HandleAgrees(w, c, log, k, h) {
        assert HandleAgrees(v, d, log, k, h);
      }
    }
  }

  /** b holds one of the first k handles of record r. */
  ghost predicate Holds(v: Image, r: nat, k: nat, b: nat) {
    exists h: nat :: h < k && Target(v, Entry(r, h)) == b
  }

  /** v after the first k handle blocks of record r were freed and their entries cleared. */
  ghost function Emptied(v: Image, r: nat, k: nat): Image
    requires r < |v.recs| && v.recs[r].handlei < |v.data|
  {
    var x: Words := v.data[v.recs[r].handlei];
    v.(free := seq(|v.free|, b requires 0 <= b < |v.free| => v.free[b] || Holds(v, r, k, b)),
       data := v.data[v.recs[r].handlei := seq(|x|, h requires 0 <= h < |x| => if h < k then 0 else x[h])])
  }

  lemma {:induction false} EmptiedMore(v: Image, owned: set<nat>, log: Log, r: nat, k: nat)
    requires Wf(v, |v.free|) && Owns(v, owned, log) && r < |v.recs| && k < v.recs[r].nhandles
    ensures var i, b := v.recs[r].handlei, Target(v, Entry(r, k));
            && JOURNAL < i < |v.data| && JOURNAL < b < |v.free| && k < MAX_NHANDLES
            && var u := Emptied(v, r, k);
            && Target(u, Entry(r, k)) == b
            && SetWord(u.(free := u.free[b := true]), i, k, 0) == Emptied(v, r, k + 1)
  {
    assert RecordOk(v, log, r) && Logged(v, log, r, k) && PlaceOk(v, owned, Entry(r, k));
    assert PlaceOk(v, owned, Index(r));
    var i, b := v.recs[r].handlei, Target(v, Entry(r, k));
    var u, w := Emptied(v, r, k), Emptied(v, r, k + 1);
    var m := SetWord(u.(free := u.free[b := true]), i, k, 0);
    forall x | 0 <= x < |v.free| ensures m.free[x] == w.free[x] {
      assert Holds(v, r, k, x) ==> Holds(v, r, k + 1, x);
      assert Holds(v, r, k + 1, b);
    }
    assert m.free == w.free;
    assert m.data[i] == w.data[i];
    assert m.data == w.data;
  }

  lemma {:induction false} EmptiedNone(v: Image, r: nat)
    requires Wf(v, |v.free|) && r < |v.recs| && v.recs[r].handlei < |v.data|
    ensures Emptied(v, r, 0) == v
  {
    var u := Emptied(v, r, 0);
    assert u.free == v.free;
    assert u.data[v.recs[r].handlei] == v.data[v.recs[r].handlei];
    assert u.data == v.data;
  }

  /** While record r is being emptied, no active transaction has one of its blocks. */
  lemma {:induction false} EmptiedIdle(v: Image, owned: set<nat>, log: Log, r: nat, k: nat, b: nat)
    requires Wf(v, |v.free|) && Owns(v, owned, log) && r < |v.recs| && !v.recs[r].active
    requires 0 < v.recs[r].handlei < |v.data| && b != 0 && exists q: Place :: q.r == r && Target(v, q) == b
    ensures !InActive(Emptied(v, r, k), b)
  {
    var u := Emptied(v, r, k);
    var q: Place :| q.r == r && Target(v, q) == b;
    forall p: Place | p.r < |u.recs| && u.recs[p.r].active ensures Target(u, p) != b {
      assert p.r != r && Target(v, Index(p.r)) == u.recs[p.r].handlei;
      assert p.Entry? && Target(v, Index(p.r)) != 0 ==> Target(v, Index(p.r)) != Target(v, Index(r));
      assert Target(u, p) == Target(v, p);
    }
  }

  /** A block no active transaction has may be freed. */
  lemma {:induction false} FreeKeeps(u: Image, d: Image, log: Log, b: nat)
    requires Wf(d, |d.free|) && Wf(u, |d.free|) && Guarded(u, d, log) && b < |d.free| && !InActive(u, b)
    ensures Guarded(u.(free := u.free[b := true]), d, log)
  {
    EditKeeps(u, u.(free := u.free[b := true]), d, log);
  }

  /** v after clear_transaction: the blocks of record r are free and the record is unused. */
  ghost function Ended(v: Image, r: nat): Image
    requires r < |v.recs| && v.recs[r].handlei < |v.data| && v.recs[r].handlei < |v.free|
  {
    var i := v.recs[r].handlei;
    var u := if i == 0 then v else Emptied(v, r, v.recs[r].nhandles);
    WithRecord(if i == 0 then u else u.(free := u.free[i := true]), r, v.recs[r].(nhandles := 0, handlei := 0))
  }

  lemma {:induction false} EndedTarget(v: Image, owned: set<nat>, log: Log, r: nat, p: Place)
    requires Wf(v, |v.free|) && Owns(v, owned, log) && r < |v.recs| && v.recs[r].handlei < |v.data|
    ensures Target(Ended(v, r), p) == if p.r == r then 0 else Target(v, p)
  {
    if p.r != r && p.Entry? && p.r < |v.recs| && v.recs[p.r].handlei != 0 {
      assert PlaceOk(v, owned, Index(p.r));
      assert Target(v, Index(p.r)) != Target(v, Index(r));
    }
  }

  /** Exactly the blocks of the ended transaction have become free. */
  lemma {:induction false} EndedFrees(v: Image, owned: set<nat>, log: Log, r: nat, b: nat)
    requires Wf(v, |v.free|) && Owns(v, owned, log) && r < |v.recs| && v.recs[r].handlei < |v.data| && b < |v.free|
    ensures Ended(v, r).free[b] <==> v.free[b] || (b != 0 && exists p: Place :: p.r == r && Target(v, p) == b)
  {
    assert RecordOk(v, log, r);
    var n := v.recs[r].nhandles;
    if b != 0 && exists p: Place :: p.r == r && Target(v, p) == b {
      var p: Place :| p.r == r && Target(v, p) == b;
      assert p.Entry? ==> p.h < n;
      assert p.Entry? ==> Holds(v, r, n, b);
    }
    if v.recs[r].handlei != 0 {
      assert PlaceOk(v, owned, Index(r));
      if Holds(v, r, n, b) {
        var h: nat :| h < n && Target(v, Entry(r, h)) == b;
        assert Logged(v, log, r, h);
        assert Entry(r, h).r == r;
      }
      assert Target(v, Index(r)) == v.recs[r].handlei;
    }
  }

  lemma {:induction false} EndedKeeps(v: Image, owned: set<nat>, log: Log, r: nat)
    requires Wf(v, |v.free|) && Owns(v, owned, log) && Reserved(v) && r < |v.recs| && v.recs[r].handlei < |v.data|
    ensures Owns(Ended(v, r), owned, log[r := []]) && Reserved(Ended(v, r))
  {
    var w, none := Ended(v, r), log[r := []];
    forall p ensures Target(w, p) == if p.r == r then 0 else Target(v, p) {
      EndedTarget(v, owned, log, r, p);
    }
    forall b | 0 <= b < |v.free| ensures w.free[b] <==>
        v.free[b] || (b != 0 && exists p: Place :: p.r == r && Target(v, p) == b) {
      EndedFrees(v, owned, log, r, b);
    }
    forall p | Target(w, p) != 0 ensures PlaceOk(w, owned, p) {
      assert PlaceOk(v, owned, p);
    }
    forall b | 0 <= b < |v.free| && (b < 4 || b in owned) ensures w.free[b] == v.free[b] {
    }
    forall k | 0 <= k < |w.recs| ensures RecordOk(w, none, k) {
      assert RecordOk(v, log, k);
      forall h | 0 <= h < |none[k]| ensures Logged(w, none, k, h) {
        assert Logged(v, log, k, h);
        assert Target(v, Entry(k, h)) != Target(v, Index(r));
      }
    }
  }

  // ---------------------------------------------------------------- blocks of the files

  /** The file layer may take a free block, give one back, and fill its own. */
  lemma {:induction false} FileTakes(v: Image, owned: set<nat>, log: Log, b: nat)
    requires Owns(v, owned, log) && JOURNAL < b < |v.free| && v.free[b]
    ensures Owns(v.(free := v.free[b := false]), owned + {b}, log)
  {
    var w := v.(free := v.free[b := false]);
    Outside(v, owned, b);
    SameTargets(v, w, owned, owned + {b}, log);
  }

  lemma {:induction false} FileGives(v: Image, owned: set<nat>, log: Log, b: nat)
    requires Owns(v, owned, log) && b in owned
    ensures Owns(v.(free := v.free[b := true]), owned - {b}, log)
  {
    var w := v.(free := v.free[b := true]);
    Outside(v, owned, b);
    SameTargets(v, w, owned, owned - {b}, log);
  }

  lemma {:induction false} FileFills(v: Image, owned: set<nat>, log: Log, b: nat, x: Words)
    requires Owns(v, owned, log) && b in owned && |v.data| == |v.free| && |x| == |v.data[b]|
    ensures Owns(v.(data := v.data[b := x]), owned, log)
  {
    var w := v.(data := v.data[b := x]);
    Outside(v, owned, b);
    forall p ensures Target(w, p) == Target(v, p) {
      assert Target(v, Index(p.r)) != b;
    }
    SameTargets(v, w, owned, owned, log);
  }

  /** Nothing the journal refers to has changed. */
  lemma {:induction false} SameTargets(v: Image, w: Image, owned: set<nat>, now: set<nat>, log: Log)
    requires Owns(v, owned, log) && |w.free| == |v.free| && |w.data| == |v.data| && w.recs == v.recs
    requires forall p :: Target(w, p) == Target(v, p)
    requires forall p :: Target(v, p) != 0 && PlaceOk(v, owned, p) ==> PlaceOk(w, now, p)
    requires forall p :: 0 < Target(v, p) < |v.data| ==> w.data[Target(v, p)] == v.data[Target(v, p)] || p.Index?
    requires forall b :: b in now ==> 0 < b < |w.free| && b != BITMAP && b != JOURNAL && !w.free[b]
    ensures Owns(w, now, log)
  {
    forall k | 0 <= k < |w.recs| ensures RecordOk(w, log, k) {
      assert RecordOk(v, log, k);
      forall h | 0 <= h < |log[k]| ensures Logged(w, log, k, h) {
        assert Logged(v, log, k, h);
      }
    }
  }

  // ---------------------------------------------------------------- handles after the commit

  /**
    Logging a handle and then letting the record's sector reach the disk is safe exactly when
    the transaction is not active yet.
   */
  lemma {:induction false} AddExact(v: Image, d: Image, owned: set<nat>, log: Log, r: nat, b: nat, x: Words)
    requires Wf(d, |d.free|) && Wf(v, |d.free|) && Owns(v, owned, log) && Reserved(v) && Guarded(v, d, log)
    requires r < MAX_NTRANS && 0 < v.recs[r].handlei < |v.data| && v.recs[r].nhandles < MAX_NHANDLES
    requires b < |v.free| && v.free[b] && |x| == MAX_NHANDLES
    ensures var w := WithHandle(v, r, b, x);
            Safe(Push(d, w, JOURNAL, SectorOf(r), SectorOf(r) + 1), Append(log, r, x)) <==> !v.recs[r].active
  {
    var w, more, s := WithHandle(v, r, b, x), Append(log, r, x), SectorOf(r);
    var c := Push(d, w, JOURNAL, s, s + 1);
    if v.recs[r].active {
      var n := v.recs[r].nhandles;
      assert Agrees(v, d, log, r) && RecordOk(v, log, r);
      assert Target(v, Entry(r, n)) == 0;
      assert Target(c, Entry(r, n)) == 0;
      assert !HandleSaved(c, more, r, n);
    } else {
      LogKeeps(v, d, log, r, more[r]);
      HandleGuard(v, d, owned, log, more, r, b, x);
      PushKeeps(w, d, more, JOURNAL, s, s + 1);
      GuardedSafe(w, c, more);
    }
  }

  lemma {:induction false} HandleGuard(v: Image, d: Image, owned: set<nat>, log: Log, more: Log, r: nat, b: nat,
      x: Words)
    requires Wf(d, |d.free|) && Wf(v, |d.free|) && Owns(v, owned, log) && Reserved(v) && Guarded(v, d, more)
    requires r < MAX_NTRANS && !v.recs[r].active && 0 < v.recs[r].handlei < |v.data|
    requires v.recs[r].nhandles < MAX_NHANDLES
    requires b < |v.free| && v.free[b] && |x| == MAX_NHANDLES
    ensures Wf(WithHandle(v, r, b, x), |d.free|) && Guarded(WithHandle(v, r, b, x), d, more)
  {
    var w := WithHandle(v, r, b, x);
    Outside(v, owned, b);
    forall k: nat | InActive(v, k) && k < |d.free| ensures w.data[k] == v.data[k] && w.free[k] == v.free[k] {
      NotIndex(v, owned, r, k);
    }
    EditKeeps(v, w, d, more);
  }

  /** The index block of an inactive record belongs to no active one. */
  lemma {:induction false} NotIndex(v: Image, owned: set<nat>, r: nat, k: nat)
    requires Places(v, owned) && r < |v.recs| && !v.recs[r].active && v.recs[r].handlei != 0 && InActive(v, k)
    ensures k != v.recs[r].handlei
  {
    var p: Place :| p.r < |v.recs| && v.recs[p.r].active && Target(v, p) == k;
    assert Target(v, Index(r)) == v.recs[r].handlei;
  }
}
