/**
  fs/jbd.c over the block cache of fs/bc.c. Every sector write is recorded with the disk it
  leaves behind, so that what a crash between any two writes finds can be stated.
 */
module Journal {
  import opened Base
  import opened JournalState

  datatype Status = Ok | NotFound | NoDisk | Inval

  /** The disk as a crash would find it, with the handles logged until then. */
  datatype Crash = Crash(disk: Image, log: Log)

  ghost predicate AllSafe(cs: seq<Crash>) {
    forall i :: 0 <= i < |cs| ==> Safe(cs[i].disk, cs[i].log)
  }

  /** The disks recorded from number j on have parts of block b as v has it, and else what d had. */
  ghost predicate AllPartly(cs: seq<Crash>, j: nat, d: Image, v: Image, b: nat) {
    forall i :: j <= i < |cs| ==> Partly(cs[i].disk, d, v, b)
  }

  /** On the disks recorded from number j to before number k the files are as on d. */
  ghost predicate FilesKept(cs: seq<Crash>, j: nat, k: nat, d: Image, owned: set<nat>) {
    forall i :: j <= i < k && i < |cs| ==> FilesSame(cs[i].disk, d, owned)
  }

  predicate ActiveIn(c: Image, r: nat) {
    r < |c.recs| && c.recs[r].active
  }

  /** On the disks recorded from number j to before number k record r is active. */
  ghost predicate ActiveFrom(cs: seq<Crash>, j: nat, k: nat, r: nat) {
    forall i :: j <= i < k && i < |cs| ==> ActiveIn(cs[i].disk, r)
  }

  /** A record that is active in the cache and on the disk stays active on it. */
  ghost predicate NoneLost(cs: seq<Crash>, j: nat, v: Image, d: Image) {
    forall r :: ActiveIn(v, r) && ActiveIn(d, r) ==> ActiveFrom(cs, j, |cs|, r)
  }

  lemma {:induction false} PartlyActive(cs: seq<Crash>, j: nat, d: Image, v: Image, w: Image, b: nat)
    requires AllPartly(cs, j, d, v, b) && v.recs == w.recs
    ensures NoneLost(cs, j, w, d)
  {
    forall r, i | ActiveIn(w, r) && ActiveIn(d, r) && j <= i < |cs| ensures ActiveIn(cs[i].disk, r) {
      assert Partly(cs[i].disk, d, v, b);
    }
  }

  lemma {:induction false} PartlyKept(cs: seq<Crash>, j: nat, d: Image, v: Image, b: nat, owned: set<nat>)
    requires AllPartly(cs, j, d, v, b) && b !in owned && FilesSame(d, d, owned)
    requires b == BITMAP ==> forall x :: x in owned && x < |d.free| && x < |v.free| ==> v.free[x] == d.free[x]
    ensures FilesKept(cs, j, |cs|, d, owned)
  {
    forall i | j <= i < |cs| ensures FilesSame(cs[i].disk, d, owned) {
      assert Partly(cs[i].disk, d, v, b);
      PartlyFiles(cs[i].disk, d, v, b, owned);
    }
  }

  /** Of two stretches of recorded disks, the second starting from d1. */
  lemma {:induction false} KeptOn(cs: seq<Crash>, more: seq<Crash>, j: nat, d: Image, d1: Image, owned: set<nat>)
    requires cs <= more && FilesKept(cs, j, |cs|, d, owned) && FilesSame(d1, d, owned)
    requires FilesKept(more, |cs|, |more|, d1, owned)
    ensures FilesKept(more, j, |more|, d, owned)
  {
    forall i | j <= i < |more| ensures FilesSame(more[i].disk, d, owned) {
      if i < |cs| {
        assert FilesSame(cs[i].disk, d, owned);
      } else {
        assert FilesSame(more[i].disk, d1, owned);
      }
    }
  }

  /** A change of bits outside the files, written out, leaves the files alone. */
  lemma {:induction false} BitsKept(cs: seq<Crash>, j: nat, d: Image, v: Image, w: Image, owned: set<nat>)
    requires Wf(d, |d.free|) && Wf(v, |d.free|) && Places(v, owned) && v.free == d.free && |w.free| == |d.free|
    requires AllPartly(cs, j, d, w, BITMAP) && forall b :: b in owned && b < |d.free| ==> w.free[b] == v.free[b]
    ensures FilesKept(cs, j, |cs|, d, owned)
    ensures forall c :: j < |cs| && c == cs[|cs| - 1].disk ==> FilesSame(c, d, owned)
  {
    PartlyKept(cs, j, d, w, BITMAP, owned);
    assert j < |cs| ==> FilesSame(cs[|cs| - 1].disk, d, owned);
  }

  lemma {:induction false} ActiveOn(cs: seq<Crash>, more: seq<Crash>, j: nat, v: Image, d: Image, w: Image, d1: Image)
    requires cs <= more && 0 < |cs| && j <= |cs| && cs[|cs| - 1].disk == d1 && (j == |cs| ==> d1 == d)
    requires NoneLost(cs, j, v, d) && NoneLost(more, |cs|, w, d1) && w.recs == v.recs
    ensures NoneLost(more, j, v, d)
  {
    forall r, i | ActiveIn(v, r) && ActiveIn(d, r) && j <= i < |more| ensures ActiveIn(more[i].disk, r) {
      assert ActiveFrom(cs, j, |cs|, r);
      assert ActiveIn(d1, r) && ActiveIn(w, r);
      assert ActiveFrom(more, |cs|, |more|, r);
    }
  }

  /**
    Write-ahead: of the disks recorded from number j to before number m, the first have the files as they were, and
    all from the one that shows the record active on have it active.
   */
  ghost predicate WriteAhead(cs: seq<Crash>, j: nat, m: nat, r: nat, d: Image, owned: set<nat>) {
    exists k :: j <= k < m <= |cs| && FilesKept(cs, j, k, d, owned) && ActiveFrom(cs, k, m, r)
  }

  lemma {:induction false} Ahead(cs: seq<Crash>, more: seq<Crash>, j: nat, r: nat, d: Image, owned: set<nat>)
    requires cs <= more && j < |cs| && FilesKept(cs, j, |cs|, d, owned) && ActiveIn(cs[|cs| - 1].disk, r)
    requires ActiveFrom(more, |cs|, |more|, r)
    ensures WriteAhead(more, j, |more|, r, d, owned)
  {
    var k := |cs| - 1;
    forall i | j <= i < k ensures FilesSame(more[i].disk, d, owned) {
      assert FilesSame(cs[i].disk, d, owned);
    }
    assert FilesKept(more, j, k, d, owned) && ActiveFrom(more, k, |more|, r);
  }

  /**
    What a crash during a request can find: the files as they were before it, or the record active, or the files as
    they are after it.
   */
  ghost predicate Fenced(cs: seq<Crash>, j: nat, r: nat, d: Image, owned: set<nat>, last: Image, now: set<nat>) {
    exists m :: j < m <= |cs| && WriteAhead(cs, j, m, r, d, owned) && FilesKept(cs, m, |cs|, last, now)
  }

  lemma {:induction false} FencedIs(cs: seq<Crash>, more: seq<Crash>, j: nat, r: nat, d: Image, owned: set<nat>,
      mid: Image, last: Image, now: set<nat>)
    requires cs <= more && WriteAhead(cs, j, |cs|, r, d, owned)
    requires FilesKept(more, |cs|, |more|, mid, now) && FilesSame(last, mid, now)
    ensures Fenced(more, j, r, d, owned, last, now)
  {
    KeptEnd(more, |cs|, mid, last, now);
    var k :| j <= k < |cs| && FilesKept(cs, j, k, d, owned) && ActiveFrom(cs, k, |cs|, r);
    forall i | j <= i < k ensures FilesSame(more[i].disk, d, owned) {
      assert FilesSame(cs[i].disk, d, owned);
    }
    forall i | k <= i < |cs| ensures ActiveIn(more[i].disk, r) {
      assert ActiveIn(cs[i].disk, r);
    }
    assert FilesKept(more, j, k, d, owned) && ActiveFrom(more, k, |cs|, r);
    assert WriteAhead(more, j, |cs|, r, d, owned);
  }

  lemma {:induction false} KeptEnd(cs: seq<Crash>, m: nat, d: Image, last: Image, owned: set<nat>)
    requires FilesKept(cs, m, |cs|, d, owned) && FilesSame(last, d, owned)
    ensures FilesKept(cs, m, |cs|, last, owned)
  {
    forall i | m <= i < |cs| ensures FilesSame(cs[i].disk, last, owned) {
      assert FilesSame(cs[i].disk, d, owned);
    }
  }

  /** Environments refer to distinct records that are in use. */
  predicate TransOk(trans: map<nat, nat>, v: Image) {
    && (forall e :: e in trans ==> trans[e] < |v.recs| && v.recs[trans[e]].envid != 0)
    && (forall e, f :: e in trans && f in trans && trans[e] == trans[f] ==> e == f)
  }

  class Server {
    const n: nat                      // super->s_nblocks
    var view: Image                   // what loads through the block cache yield
    var disk: Image
    var dirty: seq<bool>
    var trans: map<nat, nat>          // envs[].env_trans
    ghost var log: Log
    var owned: set<nat>               // blocks of the files
    ghost var crashes: seq<Crash>

    /** What holds around every disk write. */
    ghost predicate Base()
      reads this
    {
      && Wf(view, n) && Wf(disk, n) && |dirty| == n && |log| == MAX_NTRANS
      && Reserved(view) && Guarded(view, disk, log) && Clean(view, disk, dirty)
      && |crashes| > 0 && crashes[|crashes| - 1].disk == disk && AllSafe(crashes)
    }

    /** What holds between calls; every bitmap change has reached the disk. */
    ghost predicate Valid()
      reads this
    {
      Base() && Owns(view, owned, log) && Unused(view) && !dirty[BITMAP]
    }

    ghost function S(): Snap
      reads this
    {
      Snap(view, disk, dirty, trans, log, owned, crashes)
    }

    /** What holds between requests: no transaction is active. */
    ghost predicate Idle()
      reads this
    {
      Valid() && Quiet(view) && TransOk(trans, view)
    }

    /** A disk with a cleared journal; fsformat numbers the records. */
    constructor (nblocks: nat, image: Image, files: set<nat>)
      requires Wf(image, nblocks) && Reserved(image)
      requires forall r :: 0 <= r < MAX_NTRANS ==> image.recs[r] == Record(false, 0, image.recs[r].id, 0, 0)
      requires forall b :: b in files ==> 0 < b < nblocks && b != BITMAP && b != JOURNAL && !image.free[b]
      ensures Valid() && Idle() && n == nblocks && disk == image && owned == files && trans == map[]
    {
      n := nblocks;
      view, disk, dirty, trans := image, image, seq(nblocks, _ => false), map[];
      log, owned, crashes := seq(MAX_NTRANS, _ => []), files, [Crash(image, seq(MAX_NTRANS, _ => []))];
    }

    // -------------------------------------------------------------- disk writes

    /** One sector of ide_write. */
    method WriteSector(b: nat, s: nat)
      requires Wf(view, n) && Wf(disk, n) && b < n && Guarded(view, Push(disk, view, b, s, s + 1), log)
      requires AllSafe(crashes)
      modifies this`disk, this`crashes
      ensures disk == Push(old(disk), view, b, s, s + 1)
      ensures crashes == old(crashes) + [Crash(disk, log)] && AllSafe(crashes)
    {
      var d := PushSector(disk, view, b, s);
      disk := d;
      GuardedSafe(view, disk, log);
      crashes := crashes + [Crash(disk, log)];
    }

    /** flush_block: eight sector writes, none if the block is clean. */
    method FlushBlock(b: nat)
      requires Base() && b < n
      modifies this`disk, this`crashes, this`dirty
      ensures Base() && old(crashes) <= crashes && dirty == old(dirty)[b := false]
      ensures |crashes| == |old(crashes)| + if old(dirty)[b] then BLKSECTS else 0
      ensures AllPartly(crashes, |old(crashes)|, old(disk), view, b)
      ensures SameBlock(view, disk, b) && forall x :: 0 <= x < n && x != b ==> SameBlock(disk, old(disk), x)
    {
      if !dirty[b] {
        return;
      }
      ghost var d := disk;
      PushMore(d, view, b, 0);
      for s := 0 to BLKSECTS
        invariant Wf(disk, n) && disk == Push(d, view, b, 0, s) && Guarded(view, disk, log) && AllSafe(crashes)
        invariant old(crashes) <= crashes && |crashes| == |old(crashes)| + s && crashes[|crashes| - 1].disk == disk
        invariant AllPartly(crashes, |old(crashes)|, d, view, b)
        modifies this`disk, this`crashes
      {
        PushPartly(d, view, b, 0, s + 1);
        PushMore(d, view, b, s);
        PushKeeps(view, disk, log, b, s, s + 1);
        WriteSector(b, s);
      }
      PushWhole(d, view, b);
      dirty := dirty[b := false];
      CleanAfter(view, d, disk, old(dirty), b);
    }

    /** flush_sector: one sector write, none if the block is clean; it stays marked dirty. */
    method FlushSector(b: nat, s: nat)
      requires Wf(view, n) && Wf(disk, n) && |dirty| == n && b < n && AllSafe(crashes)
      requires dirty[b] ==> Guarded(view, Push(disk, view, b, s, s + 1), log)
      modifies this`disk, this`crashes
      ensures disk == if dirty[b] then Push(old(disk), view, b, s, s + 1) else old(disk)
      ensures old(crashes) <= crashes && AllSafe(crashes)
      ensures crashes == if dirty[b] then old(crashes) + [Crash(disk, log)] else old(crashes)
    {
      if !dirty[b] {
        return;
      }
      WriteSector(b, s);
    }

    // -------------------------------------------------------------- bitmap

    /** alloc_block: the lowest free block; its bit is on the disk when this returns. */
    method AllocBlock() returns (r: Option<nat>)
      requires Base()
      modifies this`view, this`disk, this`crashes, this`dirty
      ensures Base() && old(crashes) <= crashes
      ensures AllPartly(crashes, |old(crashes)|, old(disk), view, BITMAP)
      ensures r.None? ==>
              view == old(view) && disk == old(disk) && dirty == old(dirty) && crashes == old(crashes)
              && forall b :: 0 < b < n ==> !view.free[b]
      ensures r.Some? ==>
              JOURNAL < r.value < n && old(view).free[r.value]
              && view == old(view).(free := old(view).free[r.value := false])
      ensures r.Some? ==> dirty == old(dirty)[BITMAP := false] && forall b :: 0 < b < r.value ==> !old(view).free[b]
    {
      var b := 1;
      while b < n
        invariant 0 < b && forall x :: 0 < x < b && x < n ==> !view.free[x]
      {
        if view.free[b] {
          ghost var v := view;
          view := view.(free := view.free[b := false]);
          dirty := dirty[BITMAP := true];
          EditKeeps(v, view, disk, log);
          CleanDirty(v, view, disk, old(dirty), BITMAP);
          FlushBlock(BITMAP);
          return Some(b);
        }
        b := b + 1;
      }
      return None;
    }

    /** free_block */
    method FreeBlock(b: nat)
      requires Base() && JOURNAL < b < n && Guarded(view.(free := view.free[b := true]), disk, log)
      modifies this`view, this`disk, this`crashes, this`dirty
      ensures Base() && old(crashes) <= crashes && AllPartly(crashes, |old(crashes)|, old(disk), view, BITMAP)
      ensures view == old(view).(free := old(view).free[b := true]) && dirty == old(dirty)[BITMAP := false]
    {
      ghost var v := view;
      view := view.(free := view.free[b := true]);
      dirty := dirty[BITMAP := true];
      CleanDirty(v, view, disk, old(dirty), BITMAP);
      FlushBlock(BITMAP);
    }

    // -------------------------------------------------------------- stores through the cache

    method StoreBlock(b: nat, x: Words)
      requires Base() && b < n && b != BITMAP && b != JOURNAL && |x| == MAX_NHANDLES
      requires Guarded(view.(data := view.data[b := x]), disk, log)
      modifies this`view, this`dirty
      ensures Base() && view == old(view).(data := old(view).data[b := x]) && dirty == old(dirty)[b := true]
    {
      ghost var v := view;
      view := view.(data := view.data[b := x]);
      dirty := dirty[b := true];
      CleanDirty(v, view, disk, old(dirty), b);
    }

    method StoreRecord(r: nat, x: Record)
      requires Base() && r < MAX_NTRANS && !view.recs[r].active && !x.active
      modifies this`view, this`dirty
      ensures Base() && view == WithRecord(old(view), r, x) && dirty == old(dirty)[JOURNAL := true]
    {
      ghost var v := view;
      view := view.(recs := view.recs[r := x]);
      dirty := dirty[JOURNAL := true];
      EditKeeps(v, view, disk, log);
      CleanDirty(v, view, disk, old(dirty), JOURNAL);
    }

    // -------------------------------------------------------------- transactions

    /** The record after the last one in use. */
    method NextRecord() returns (next: nat)
      requires |view.recs| == MAX_NTRANS
      ensures next <= MAX_NTRANS && (next > 0 ==> view.recs[next - 1].envid > 0)
      ensures forall k :: next <= k < MAX_NTRANS ==> view.recs[k].envid == 0
    {
      next := 0;
      for i := 0 to MAX_NTRANS
        invariant next <= i && (next > 0 ==> view.recs[next - 1].envid > 0)
        invariant forall k :: next <= k < i ==> view.recs[k].envid == 0
      {
        if view.recs[i].envid > 0 {
          next := i + 1;
        }
      }
    }

    /** start_transaction; false is the panic when the last record is taken. */
    method StartTransaction(e: nat) returns (ok: bool)
      requires Idle() && e > 0
      modifies this`view, this`dirty, this`trans
      ensures !ok <==> Slot(e) !in old(trans) && old(view).recs[MAX_NTRANS - 1].envid > 0
      ensures ok ==> Idle() && Started(old(S()), e, S())
    {
      if Slot(e) in trans {
        return true;
      }
      var next := NextRecord();
      if next >= MAX_NTRANS {
        return false;
      }
      ghost var v := view;
      UnusedIdle(view, disk, owned, log, next);
      assert view.recs[next].nhandles == 0 && view.recs[next].handlei == 0;   // the two assertions at the end
      var x := view.recs[next].(envid := e);
      StoreRecord(next, x);
      RecordOwns(v, owned, log, next, x);
      BeginTrans(trans, v, view, next, x, Slot(e));
      trans := trans[Slot(e) := next];
      return true;
    }

    /** transaction_handle_walk */
    method HandleWalk(r: nat, h: nat, alloc: bool) returns (st: Status)
      requires Base() && Places(view, owned) && r < MAX_NTRANS && (alloc ==> !view.recs[r].active)
      modifies this`view, this`disk, this`crashes, this`dirty
      ensures Base() && Places(view, owned) && old(crashes) <= crashes && (!old(dirty)[BITMAP] ==> !dirty[BITMAP])
      ensures st == Inval <==> h >= MAX_NHANDLES
      ensures st == NotFound <==> h < MAX_NHANDLES && !alloc && old(view).recs[r].handlei == 0
      ensures st == NoDisk ==> alloc && old(view).recs[r].handlei == 0 && forall b :: 0 < b < n ==> !view.free[b]
      ensures st == Ok ==> 0 < view.recs[r].handlei < n
      ensures st == Ok && old(view).recs[r].handlei == 0 ==>
                var i := view.recs[r].handlei; old(view).free[i] && view == WithIndex(old(view), r, i)
      ensures st != Ok || old(view).recs[r].handlei != 0 ==>
              view == old(view) && disk == old(disk) && dirty == old(dirty) && crashes == old(crashes)
      ensures FilesSame(view, old(view), owned)
      ensures !old(dirty)[BITMAP] ==>
              FilesKept(crashes, |old(crashes)|, |crashes|, old(disk), owned) && FilesSame(disk, old(disk), owned)
    {
      if h >= MAX_NHANDLES {
        return Inval;
      }
      if view.recs[r].handlei == 0 {
        if !alloc {
          return NotFound;
        }
        ghost var v := view;
        var b := AllocBlock();
        if b.None? {
          return NoDisk;
        }
        if !old(dirty)[BITMAP] { BitsKept(crashes, |old(crashes)|, old(disk), v, view, owned); }
        IndexPlaces(v, owned, r, b.value);
        Outside(v, owned, b.value);
        ghost var u := view;
        StoreKeeps(v, u, disk, log, b.value, Zeros());
        StoreBlock(b.value, Zeros());
        StoreRecord(r, view.recs[r].(handlei := b.value));
        assert view == WithIndex(v, r, b.value);
      } else {
        assert PlaceOk(view, owned, Index(r));
        assert !view.free[view.recs[r].handlei];       // the assertion of transaction_handle_walk
      }
      return Ok;
    }

    /** transaction_get_handle; b is the block of handle h. */
    method GetHandle(r: nat, h: nat, alloc: bool) returns (st: Status, b: nat)
      requires Base() && Places(view, owned) && r < MAX_NTRANS && (alloc ==> !view.recs[r].active)
      modifies this`view, this`disk, this`crashes, this`dirty
      ensures Base() && Places(view, owned) && old(crashes) <= crashes && (!old(dirty)[BITMAP] ==> !dirty[BITMAP])
      ensures st == Ok ==>
              0 < b < n && b != BITMAP && b != JOURNAL && Target(view, Entry(r, h)) == b && h < MAX_NHANDLES
      ensures st == Ok && Target(old(view), Entry(r, h)) == 0 ==>
                alloc && Attached(old(view), view, r, h, b)
      ensures st == Ok && Target(old(view), Entry(r, h)) != 0 ==>
              view == old(view) && disk == old(disk) && dirty == old(dirty)
      ensures !alloc ==> view == old(view) && (st == Ok <==> Target(view, Entry(r, h)) != 0)
      ensures !alloc ==> disk == old(disk) && crashes == old(crashes)
      ensures (st == Inval <==> h >= MAX_NHANDLES) && (st == NotFound ==> !alloc)
      ensures st == NoDisk ==> FewFree(old(view))
      ensures FilesSame(view, old(view), owned)
      ensures !old(dirty)[BITMAP] ==>
              FilesKept(crashes, |old(crashes)|, |crashes|, old(disk), owned) && FilesSame(disk, old(disk), owned)
    {
      ghost var v := view;
      b := 0;
      if h >= MAX_NHANDLES {
        return Inval, 0;
      }
      st := HandleWalk(r, h, alloc);
      if st != Ok {
        return;
      }
      b := view.data[view.recs[r].handlei][h];
      if b == 0 {
        if !alloc {
          return NotFound, 0;
        }
        ghost var cs, d := crashes, disk;
        var a := NewHandle(r, h);
        if !old(dirty)[BITMAP] { KeptOn(cs, crashes, |old(crashes)|, old(disk), d, owned); }
        if a.None? {
          FewLeft(v, view, view.recs[r].handlei);
          return NoDisk, 0;
        }
        b := a.value;
      } else {
        assert PlaceOk(view, owned, Entry(r, h));
        assert !view.free[b];                          // the assertion of transaction_get_handle
      }
    }

    /** A block for handle h of record r, which has an index block. */
    method NewHandle(r: nat, h: nat) returns (a: Option<nat>)
      requires Base() && Places(view, owned) && r < MAX_NTRANS && h < MAX_NHANDLES && !view.recs[r].active
      requires 0 < view.recs[r].handlei < n
      modifies this`view, this`disk, this`crashes, this`dirty
      ensures Base() && Places(view, owned) && old(crashes) <= crashes && (!old(dirty)[BITMAP] ==> !dirty[BITMAP])
      ensures a.None? ==> view == old(view) && disk == old(disk) && dirty == old(dirty) && crashes == old(crashes)
      ensures a.None? ==> forall x :: 0 < x < n ==> !view.free[x]
      ensures a.Some? ==> JOURNAL < a.value < n && old(view).free[a.value]
      ensures a.Some? ==> view == WithEntry(old(view), r, h, a.value) && Target(view, Entry(r, h)) == a.value
      ensures FilesSame(view, old(view), owned)
      ensures !old(dirty)[BITMAP] ==>
              FilesKept(crashes, |old(crashes)|, |crashes|, old(disk), owned) && FilesSame(disk, old(disk), owned)
    {
      ghost var u := view;
      a := AllocBlock();
      if a.Some? {
        if !old(dirty)[BITMAP] { BitsKept(crashes, |old(crashes)|, old(disk), u, view, owned); }
        FillEntry(u, r, h, a.value);
        EntryAside(u, owned, r, h, a.value);
      }
    }

    /** Clear the new block b and enter it as handle h of record r. */
    method FillEntry(ghost u: Image, r: nat, h: nat, b: nat)
      requires Base() && Wf(u, n) && Places(u, owned) && Reserved(u) && r < MAX_NTRANS && h < MAX_NHANDLES
      requires !u.recs[r].active
      requires 0 < u.recs[r].handlei < n && JOURNAL < b < n && u.free[b] && view == u.(free := u.free[b := false])
      modifies this`view, this`dirty
      ensures Base() && Places(view, owned) && view == WithEntry(u, r, h, b)
      ensures Target(view, Entry(r, h)) == b && dirty[BITMAP] == old(dirty)[BITMAP]
    {
      EntryPlaces(u, owned, r, h, b);
      Outside(u, owned, b);
      StoreKeeps(u, view, disk, log, b, Zeros());
      StoreBlock(b, Zeros());
      ghost var w := view;
      var i := view.recs[r].handlei;
      assert PlaceOk(u, owned, Index(r));
      var x: Words := view.data[i][h := b];
      IndexStoreKeeps(u, w, disk, owned, log, r, b, x);
      StoreBlock(i, x);
      assert view.data == WithEntry(u, r, h, b).data;
      assert view == WithEntry(u, r, h, b);
    }

    /** The append path of add_handle_to_transaction; false is the panic for a full index or disk. */
    method AddHandle(r: nat, handle: Words) returns (ok: bool)
      requires Valid() && r < MAX_NTRANS && !view.recs[r].active && view.recs[r].envid != 0 && |handle| == MAX_NHANDLES
      modifies this`view, this`disk, this`crashes, this`dirty, this`log
      ensures old(crashes) <= crashes && AllSafe(crashes)
      ensures ok ==>
              Valid() && log == Append(old(log), r, Stamped(handle, view.recs[r].id)) && SameRecords(old(view), view, r)
      ensures !ok ==> old(view).recs[r].nhandles >= MAX_NHANDLES || FewFree(old(view))
      ensures FilesKept(crashes, |old(crashes)|, |crashes|, old(disk), owned) && FilesSame(disk, old(disk), owned)
      ensures FilesSame(view, old(view), owned)
    {
      ghost var v := view;
      assert RecordOk(v, log, r);
      var h := view.recs[r].nhandles;
      ghost var x := view.recs[r].(nhandles := h + 1);
      StoreRecord(r, view.recs[r].(nhandles := h + 1));
      ghost var v1 := view;
      RecordPlaces(v, owned, r, x);
      var st, b := GetHandle(r, h, true);
      if st != Ok {
        return false;
      }
      assert Target(v1, Entry(r, h)) == Target(v, Entry(r, h)) == 0;
      WriteHandle(v, v1, r, h, b, Stamped(handle, view.recs[r].id));
      return true;
    }

    /** The handle goes into its block. */
    method WriteHandle(ghost v: Image, ghost v1: Image, r: nat, ghost h: nat, b: nat, y: Words)
      requires Base() && Wf(v, n) && Owns(v, owned, log) && Reserved(v) && Unused(v) && Places(view, owned)
      requires r < MAX_NTRANS && v.recs[r].envid != 0 && !view.recs[r].active && h == v.recs[r].nhandles
      requires v1 == WithRecord(v, r, v.recs[r].(nhandles := h + 1)) && Attached(v1, view, r, h, b)
      requires 0 < b < n && b != BITMAP && b != JOURNAL && Target(view, Entry(r, h)) == b && |y| == MAX_NHANDLES
      requires !dirty[BITMAP]
      modifies this`view, this`dirty, this`log
      ensures Valid() && log == Append(old(log), r, y) && SameRecords(v, view, r) && FilesSame(view, old(view), owned)
    {
      ghost var w := view;
      assert PlaceOk(w, owned, Entry(r, h));
      EntryStoreKeeps(w, disk, owned, log, r, h, y);
      StoreBlock(b, y);
      Added(v, v1, w, view, owned, log, r, h, b, y);
      LogKeeps(view, disk, log, r, log[r] + [y]);
      log := Append(log, r, y);
    }

    /** The loop of commit_transaction over the handle blocks, then the index block. */
    method FlushTransaction(r: nat)
      requires Valid() && r < MAX_NTRANS && log[r] != []
      modifies this`view, this`disk, this`crashes, this`dirty
      ensures Valid() && old(crashes) <= crashes && view == old(view) && Flushed(view, disk, r)
      ensures FilesKept(crashes, |old(crashes)|, |crashes|, old(disk), owned) && FilesSame(disk, old(disk), owned)
    {
      ghost var v := view;
      assert RecordOk(v, log, r) && Logged(v, log, r, 0);
      for h := 0 to view.recs[r].nhandles
        invariant Base() && view == v && !dirty[BITMAP] && old(crashes) <= crashes
        invariant forall k: nat :: k < h ==> SameBlock(v, disk, Target(v, Entry(r, k)))
        invariant FilesKept(crashes, |old(crashes)|, |crashes|, old(disk), owned) && FilesSame(disk, old(disk), owned)
      {
        assert Logged(v, log, r, h);
        var st, b := GetHandle(r, h, false);
        assert st == Ok;
        assert PlaceOk(v, owned, Entry(r, h));
        FlushAside(b, |old(crashes)|, old(disk));
      }
      assert PlaceOk(v, owned, Index(r));
      FlushAside(view.recs[r].handlei, |old(crashes)|, old(disk));
      AllFlushed(v, disk, log, r);
    }

    /** flush_block of a block that is not a file's, and not the bitmap. */
    method FlushAside(b: nat, ghost j: nat, ghost d0: Image)
      requires Base() && Places(view, owned) && b < n && b !in owned && b != BITMAP && b != JOURNAL
      requires FilesKept(crashes, j, |crashes|, d0, owned) && FilesSame(disk, d0, owned)
      modifies this`disk, this`crashes, this`dirty
      ensures Base() && old(crashes) <= crashes && dirty == old(dirty)[b := false] && SameBlock(view, disk, b)
      ensures forall x: nat :: x < n && SameBlock(view, old(disk), x) ==> SameBlock(view, disk, x)
      ensures FilesKept(crashes, j, |crashes|, d0, owned) && FilesSame(disk, d0, owned)
    {
      ghost var cs, d := crashes, disk;
      FlushBlock(b);
      StillSame(view, d, disk, n, b);
      PartlyKept(crashes, |cs|, d, view, b, owned);
      KeptOn(cs, crashes, j, d0, d, owned);
      assert SameBlock(disk, d, BITMAP);
      forall x | x in owned ensures disk.data[x] == d.data[x] && x < |disk.data| {
        assert SameBlock(disk, d, x);
      }
    }

    /** commit_transaction: the record is marked active only once everything it needs is on the disk. */
    method CommitTransaction(r: nat)
      requires Valid() && r < MAX_NTRANS && !view.recs[r].active
      modifies this`view, this`disk, this`crashes, this`dirty
      ensures Valid() && old(crashes) <= crashes
      ensures log[r] == [] ==> view == old(view) && !disk.recs[r].active
      ensures log[r] != [] ==>
              view == WithRecord(old(view), r, old(view).recs[r].(active := true)) && Complete(disk, log, r)
              && disk.recs[r].active
      ensures log[r] != [] ==> |crashes| > |old(crashes)|
      ensures FilesKept(crashes, |old(crashes)|, |crashes|, old(disk), owned) && FilesSame(disk, old(disk), owned)
    {
      assert RecordOk(view, log, r);
      if view.recs[r].nhandles == 0 {
        LogKeeps(view, disk, log, r, log[r]);
        return;
      }
      FlushTransaction(r);
      ghost var v, d := view, disk;
      CommitKeeps(v, d, owned, log, r);
      view := view.(recs := view.recs[r := view.recs[r].(active := true)]);
      CleanDirty(v, view, d, dirty, JOURNAL);
      dirty := dirty[JOURNAL := true];
      FlushSector(JOURNAL, SectorOf(r));
      CleanSector(view, d, dirty, SectorOf(r));
      assert Agrees(view, disk, log, r);
    }

    /** transaction_free_handle, for the first handle not freed yet. */
    method FreeHandle(ghost v: Image, r: nat, h: nat)
      requires Base() && Wf(v, n) && Owns(v, owned, log) && r < MAX_NTRANS && !v.recs[r].active
      requires h < v.recs[r].nhandles
      requires v.recs[r].handlei < n && view == Emptied(v, r, h) && !dirty[BITMAP]
      modifies this`view, this`disk, this`crashes, this`dirty
      ensures Base() && old(crashes) <= crashes && !dirty[BITMAP] && view == Emptied(v, r, h + 1)
      ensures FilesKept(crashes, |old(crashes)|, |crashes|, old(disk), owned) && FilesSame(disk, old(disk), owned)
    {
      EmptiedMore(v, owned, log, r, h);
      var i := view.recs[r].handlei;
      var b := view.data[i][h];
      assert Target(v, Entry(r, h)) == b && Target(v, Index(r)) == i;
      EmptiedIdle(v, owned, log, r, h, b);
      EmptiedIdle(v, owned, log, r, h, i);
      assert PlaceOk(v, owned, Entry(r, h));
      FreeKeeps(view, disk, log, b);
      ghost var u := view;
      FreeAside(v, b);
      var x: Words := view.data[i][h := 0];
      StoreKeeps(u, view, disk, log, i, x);
      StoreBlock(i, x);
    }

    /** free_block of a block that is not a file's; v is how things were when all of this began. */
    method FreeAside(ghost v: Image, b: nat)
      requires Base() && JOURNAL < b < n && Guarded(view.(free := view.free[b := true]), disk, log)
      requires !dirty[BITMAP] && Wf(v, n) && Places(v, owned) && b !in owned
      modifies this`view, this`disk, this`crashes, this`dirty
      ensures Base() && old(crashes) <= crashes
      ensures view == old(view).(free := old(view).free[b := true]) && dirty == old(dirty)[BITMAP := false]
      ensures FilesKept(crashes, |old(crashes)|, |crashes|, old(disk), owned) && FilesSame(disk, old(disk), owned)
    {
      assert SameBlock(view, disk, BITMAP);
      FreeBlock(b);
      PartlyKept(crashes, |old(crashes)|, old(disk), view, BITMAP, owned);
      assert |crashes| > |old(crashes)| ==> FilesSame(crashes[|crashes| - 1].disk, old(disk), owned);
    }

    /** Steps 2 and 3 of clear_transaction: the handle blocks, then the index block. */
    method FreeTransaction(r: nat)
      requires Base() && Owns(view, owned, log) && r < MAX_NTRANS && !view.recs[r].active && !dirty[BITMAP]
      modifies this`view, this`disk, this`crashes, this`dirty
      ensures Base() && old(crashes) <= crashes && !dirty[BITMAP] && old(view).recs[r].handlei < n
      ensures WithRecord(view, r, view.recs[r].(nhandles := 0, handlei := 0)) == Ended(old(view), r)
      ensures view.recs == old(view).recs
      ensures FilesKept(crashes, |old(crashes)|, |crashes|, old(disk), owned) && FilesSame(disk, old(disk), owned)
    {
      ghost var v := view;
      assert RecordOk(v, log, r);
      assert v.recs[r].handlei != 0 ==> PlaceOk(v, owned, Index(r));
      assert log[r] != [] ==> Logged(v, log, r, 0);
      EmptiedNone(v, r);
      for h := 0 to view.recs[r].nhandles
        invariant Base() && view == Emptied(v, r, h) && !dirty[BITMAP] && old(crashes) <= crashes
        invariant FilesKept(crashes, |old(crashes)|, |crashes|, old(disk), owned) && FilesSame(disk, old(disk), owned)
      {
        ghost var cs, d := crashes, disk;
        FreeHandle(v, r, h);
        KeptOn(cs, crashes, |old(crashes)|, old(disk), d, owned);
      }
      var i := view.recs[r].handlei;
      if i != 0 {
        assert Target(v, Index(r)) == i;
        EmptiedIdle(v, owned, log, r, v.recs[r].nhandles, i);
        FreeKeeps(view, disk, log, i);
        ghost var cs, d := crashes, disk;
        FreeAside(v, i);
        KeptOn(cs, crashes, |old(crashes)|, old(disk), d, owned);
      }
    }

    /** Store an inactive record and write its sector. */
    method SaveRecord(r: nat, x: Record)
      requires Base() && r < MAX_NTRANS && !x.active
      modifies this`view, this`disk, this`crashes, this`dirty
      ensures Base() && old(crashes) <= crashes && view == WithRecord(old(view), r, x) && !disk.recs[r].active
      ensures dirty == old(dirty)[JOURNAL := true] && disk.free == old(disk).free && disk.data == old(disk).data
      ensures forall i :: |old(crashes)| <= i < |crashes| ==> crashes[i].disk == disk
    {
      ghost var v, d := view, disk;
      DeactivateKeeps(v, d, log, r, x);
      view := view.(recs := view.recs[r := x]);
      CleanDirty(v, view, d, dirty, JOURNAL);
      dirty := dirty[JOURNAL := true];
      FlushSector(JOURNAL, SectorOf(r));
      CleanSector(view, d, dirty, SectorOf(r));
    }

    /** clear_transaction: off the journal first, then the blocks are given back. */
    method ClearTransaction(r: nat)
      requires Valid() && r < MAX_NTRANS
      modifies this`view, this`disk, this`crashes, this`dirty, this`log
      ensures Valid() && old(crashes) <= crashes && log == old(log)[r := []]
      ensures var v := Retired(old(view), r); v.recs[r].handlei < n && view == Ended(v, r)
      ensures !disk.recs[r].active
      ensures FilesKept(crashes, |old(crashes)|, |crashes|, old(disk), owned) && FilesSame(disk, old(disk), owned)
    {
      ghost var v := Retired(view, r);
      var x := view.recs[r].(active := false, envid := 0);
      RecordOwns(view, owned, log, r, x);
      SaveRecord(r, x);
      ghost var cs, d := crashes, disk;
      FreeTransaction(r);
      KeptOn(cs, crashes, |old(crashes)|, old(disk), d, owned);
      cs, d := crashes, disk;
      SaveRecord(r, x.(nhandles := 0, handlei := 0));
      KeptOn(cs, crashes, |old(crashes)|, old(disk), d, owned);
      EndedKeeps(v, owned, log, r);
      EndedUnused(v, r);
      LogKeeps(view, disk, log, r, []);
      log := log[r := []];
    }

    // -------------------------------------------------------------- the file server

    /** What the file layer does with blocks of its own while serving a request. */
    method FileWork(work: seq<Work>)
      requires Valid()
      modifies this`view, this`disk, this`crashes, this`dirty, this`owned
      ensures Valid() && old(crashes) <= crashes && view.recs == old(view).recs
      ensures Cache(view, owned, dirty) == AllWorked(Cache(old(view), old(owned), old(dirty)), work)
      ensures NoneLost(crashes, |old(crashes)|, old(view), old(disk))
    {
      ghost var was := Cache(view, owned, dirty);
      for i := 0 to |work|
        invariant Valid() && old(crashes) <= crashes && view.recs == old(view).recs
        invariant Cache(view, owned, dirty) == AllWorked(was, work[..i])
        invariant NoneLost(crashes, |old(crashes)|, old(view), old(disk))
      {
        ghost var cs, v, d := crashes, view, disk;
        WorkOn(work[i]);
        ActiveOn(cs, crashes, |old(crashes)|, old(view), old(disk), v, d);
        assert work[..i + 1][..i] == work[..i];
      }
      assert work[..|work|] == work;
    }

    method WorkOn(w: Work)
      requires Valid()
      modifies this`view, this`disk, this`crashes, this`dirty, this`owned
      ensures Valid() && old(crashes) <= crashes && view.recs == old(view).recs
      ensures Cache(view, owned, dirty) == Worked(Cache(old(view), old(owned), old(dirty)), w)
      ensures NoneLost(crashes, |old(crashes)|, old(view), old(disk))
    {
      match w {
        case Take =>
          TakeBlock();
        case Give(b) =>
          if b in owned && b > JOURNAL { GiveBlock(b); }
        case Fill(b, x) =>
          if b in owned && |x| == MAX_NHANDLES { FillBlock(b, x); }
        case Flush(b) =>
          if b < n {
            FlushBlock(b);
            PartlyActive(crashes, |old(crashes)|, old(disk), view, view, b);
          }
      }
    }

    method TakeBlock()
      requires Valid()
      modifies this`view, this`disk, this`crashes, this`dirty, this`owned
      ensures Valid() && old(crashes) <= crashes && view.recs == old(view).recs
      ensures Cache(view, owned, dirty) == Worked(Cache(old(view), old(owned), old(dirty)), Take)
      ensures NoneLost(crashes, |old(crashes)|, old(view), old(disk))
    {
      ghost var v := view;
      var b := AllocBlock();
      PartlyActive(crashes, |old(crashes)|, old(disk), view, v, BITMAP);
      LowestIs(v.free, if b.Some? then b.value else n);
      if b.Some? {
        FileTakes(v, owned, log, b.value);
        owned := owned + {b.value};
      }
    }

    method GiveBlock(b: nat)
      requires Valid() && b in owned && b > JOURNAL
      modifies this`view, this`disk, this`crashes, this`dirty, this`owned
      ensures Valid() && old(crashes) <= crashes && view.recs == old(view).recs
      ensures Cache(view, owned, dirty) == Worked(Cache(old(view), old(owned), old(dirty)), Give(b))
      ensures NoneLost(crashes, |old(crashes)|, old(view), old(disk))
    {
      FileGives(view, owned, log, b);
      Outside(view, owned, b);
      FreeKeeps(view, disk, log, b);
      FreeBlock(b);
      PartlyActive(crashes, |old(crashes)|, old(disk), view, old(view), BITMAP);
      owned := owned - {b};
    }

    method FillBlock(b: nat, x: Words)
      requires Valid() && b in owned && |x| == MAX_NHANDLES
      modifies this`view, this`dirty
      ensures Valid() && view.recs == old(view).recs
      ensures Cache(view, owned, dirty) == Worked(Cache(old(view), old(owned), old(dirty)), Fill(b, x))
    {
      FileFills(view, owned, log, b, x);
      Outside(view, owned, b);
      StoreKeeps(view, view, disk, log, b, x);
      StoreBlock(b, x);
    }

    /** serve_flush and serve_remove: the work is done between commit and end. */
    method CommitWorkEnd(e: nat, work: seq<Work>)
      requires Idle() && Slot(e) in trans
      modifies this`view, this`disk, this`crashes, this`dirty, this`owned, this`log, this`trans
      ensures Idle() && Finished(old(S()), e, work, S())
    {
      var r := trans[Slot(e)];
      ghost var v := view;
      CommitWorkClear(r, work);
      EndTrans(trans, v, view, Slot(e));
      trans := trans - {Slot(e)};
    }

    method CommitWorkClear(r: nat, work: seq<Work>)
      requires Valid() && r < MAX_NTRANS && !view.recs[r].active
      modifies this`view, this`disk, this`crashes, this`dirty, this`owned, this`log
      ensures Valid() && old(crashes) <= crashes && log == old(log)[r := []]
      ensures OthersSame(old(view), view, r) && !view.recs[r].active
      ensures WorkDone(Marked(old(view), old(log), r), old(owned), work, view, owned)
      ensures old(log)[r] != [] ==> Fenced(crashes, |old(crashes)|, r, old(disk), old(owned), disk, owned)
    {
      CommitAndWork(r, work);
      ghost var u, cs, d := view, crashes, disk;
      ClearTransaction(r);
      WorkStays(Marked(old(view), old(log), r), old(owned), work, u, view, owned, old(log), r);
      if old(log)[r] != [] {
        FencedIs(cs, crashes, |old(crashes)|, r, old(disk), old(owned), d, disk, owned);
      }
      EndedRecords(u, view, r);
    }

    method CommitAndWork(r: nat, work: seq<Work>)
      requires Valid() && r < MAX_NTRANS && !view.recs[r].active
      modifies this`view, this`disk, this`crashes, this`dirty, this`owned
      ensures Valid() && old(crashes) <= crashes && log == old(log) && OthersSame(old(view), view, r)
      ensures WorkDone(Marked(old(view), log, r), old(owned), work, view, owned)
      ensures log[r] != [] ==> WriteAhead(crashes, |old(crashes)|, |crashes|, r, old(disk), old(owned))
    {
      CommitTransaction(r);
      ghost var cs, v, d, dirt := crashes, view, disk, dirty;
      FileWork(work);
      assert |dirt| == |v.free|;
      if log[r] != [] {
        assert ActiveIn(v, r) && ActiveIn(d, r);
        assert ActiveFrom(crashes, |cs|, |crashes|, r);
        Ahead(cs, crashes, |old(crashes)|, r, old(disk), old(owned));
      }
    }

    /** fs_sync: everything the cache holds is on the disk. */
    method Sync()
      requires Valid()
      modifies this`disk, this`crashes, this`dirty
      ensures Valid() && old(crashes) <= crashes && forall b :: 0 < b < n ==> SameBlock(view, disk, b)
    {
      for b := 1 to n
        invariant Valid() && old(crashes) <= crashes && forall x :: 0 < x < b ==> SameBlock(view, disk, x)
      {
        ghost var d := disk;
        FlushBlock(b);
        StillSame(view, d, disk, n, b);
      }
    }

    /** One action of the server; false is a panic, or a request that has no transaction. */
    method Act(a: Action) returns (ok: bool)
      requires Idle()
      modifies this`view, this`disk, this`crashes, this`dirty, this`owned, this`log, this`trans
      ensures old(crashes) <= crashes && AllSafe(crashes)
      ensures if ok then Idle() && Did(old(S()), a, S()) else Refused(old(S()), a)
    {
      match a {
        case Begin(e) =>
          if e > 0 {
            ok := StartTransaction(e);
            return;
          }
        case Log(e, handle) =>
          if Slot(e) !in trans || |handle| != MAX_NHANDLES { return false; }
          ok := LogFor(trans[Slot(e)], handle);
          return;
        case Finish(e, work) =>
          if Slot(e) !in trans { return false; }
          CommitWorkEnd(e, work);
        case Files(work) =>
          FileWork(work);
        case SyncAll =>
          Sync();
        case Reuse(e) =>
          trans := trans - {Slot(e)};
      }
      return true;
    }

    method LogFor(r: nat, handle: Words) returns (ok: bool)
      requires Idle() && (exists x :: x in trans && trans[x] == r) && |handle| == MAX_NHANDLES
      modifies this`view, this`disk, this`crashes, this`dirty, this`log
      ensures old(crashes) <= crashes && AllSafe(crashes) && r < |old(view).recs| && r < |old(log)|
      ensures ok ==> Idle() && Appended(old(S()), r, handle, S())
      ensures !ok ==> old(view).recs[r].nhandles >= MAX_NHANDLES || FewFree(old(view))
    {
      ghost var v := view;
      ok := AddHandle(r, handle);
      if ok { StillIdle(trans, v, view, r); }
    }

    /**
      Whatever clients ask for, and wherever the run is cut off between two sector writes:
      a record that is active on the disk can be replayed in full. Every action does what it should,
      up to the first that is refused.
     */
    method Serve(actions: seq<Action>) returns (ok: bool, ghost ss: seq<Snap>)
      requires Idle()
      modifies this`view, this`disk, this`crashes, this`dirty, this`owned, this`log, this`trans
      ensures old(crashes) <= crashes && AllSafe(crashes)
      ensures 0 < |ss| <= |actions| + 1 && ss[0] == old(S()) && IsRun(ss, actions)
      ensures if ok then Idle() && |ss| == |actions| + 1 && ss[|actions|] == S()
              else |ss| <= |actions| && Refused(ss[|ss| - 1], actions[|ss| - 1])
    {
      ss := [S()];
      for i := 0 to |actions|
        invariant Idle() && old(crashes) <= crashes
        invariant |ss| == i + 1 && ss[0] == old(S()) && ss[i] == S() && IsRun(ss, actions)
      {
        ok := Act(actions[i]);
        if !ok {
          return;
        }
        RunOn(ss, actions, S());
        ss := ss + [S()];
      }
      return true, ss;
    }
  }

  /** The server between two actions. */
  datatype Snap = Snap(view: Image, disk: Image, dirty: seq<bool>, trans: map<nat, nat>, log: Log, owned: set<nat>,
      crashes: seq<Crash>)

  /** At most one block is free. */
  ghost predicate FewFree(v: Image) {
    forall x, y :: 0 < x < y < |v.free| ==> !v.free[x] || !v.free[y]
  }

  lemma {:induction false} FewLeft(v: Image, u: Image, i: nat)
    requires |u.free| == |v.free| && forall x :: 0 < x < |u.free| ==> !u.free[x]
    requires forall x :: 0 <= x < |v.free| && x != i ==> u.free[x] == v.free[x]
    ensures FewFree(v)
  {
    forall x, y | 0 < x < y < |v.free| ensures !v.free[x] || !v.free[y] {
      assert x != i ==> !u.free[x];
      assert y != i ==> !u.free[y];
    }
  }

  /** start_transaction: the environment has a record, an unused one if it had none. */
  ghost predicate Started(s: Snap, e: nat, t: Snap) {
    if Slot(e) in s.trans then t == s.(dirty := t.dirty)
    else
      && Slot(e) in t.trans && t.trans == s.trans[Slot(e) := t.trans[Slot(e)]]
      && var r := t.trans[Slot(e)];
      && r < |s.view.recs| && r < |s.log| && s.view.recs[r].envid == 0 && s.log[r] == []
      && t == s.(trans := t.trans, dirty := t.dirty, view := WithRecord(s.view, r, s.view.recs[r].(envid := e)))
  }

  /** One more handle in record r, and the files are as they were, in the cache and on the disk. */
  ghost predicate Appended(s: Snap, r: nat, handle: Words, t: Snap) {
    && r < |s.log| && r < |s.view.recs| && r < |t.view.recs|
    && t.log == Append(s.log, r, Stamped(handle, s.view.recs[r].id)) && SameRecords(s.view, t.view, r)
    && t.trans == s.trans && t.owned == s.owned && s.crashes <= t.crashes
    && FilesSame(t.view, s.view, s.owned) && FilesSame(t.disk, s.disk, s.owned)
    && FilesKept(t.crashes, |s.crashes|, |t.crashes|, s.disk, s.owned)
  }

  /** The work is done, the transaction over, and every disk a crash could have left is fenced. */
  ghost predicate Finished(s: Snap, e: nat, work: seq<Work>, t: Snap) {
    && Slot(e) in s.trans && t.trans == s.trans - {Slot(e)} && s.crashes <= t.crashes
    && var r := s.trans[Slot(e)];
    && r < |s.log| && r < |s.view.recs| && t.log == s.log[r := []]
    && WorkDone(Marked(s.view, s.log, r), s.owned, work, t.view, t.owned)
    && (s.log[r] != [] ==> Fenced(t.crashes, |s.crashes|, r, s.disk, s.owned, t.disk, t.owned))
  }

  ghost predicate Did(s: Snap, a: Action, t: Snap) {
    match a
    case Begin(e) => if e == 0 then t == s else Started(s, e, t)
    case Log(e, handle) => Slot(e) in s.trans && Appended(s, s.trans[Slot(e)], handle, t)
    case Finish(e, work) => Finished(s, e, work, t)
    case Files(work) =>
      && Cache(t.view, t.owned, t.dirty) == AllWorked(Cache(s.view, s.owned, s.dirty), work)
      && t.trans == s.trans && t.log == s.log && s.crashes <= t.crashes
    case SyncAll =>
      && t.view == s.view && t.trans == s.trans && t.log == s.log && t.owned == s.owned && s.crashes <= t.crashes
      && forall b :: 0 < b < |t.view.free| ==> SameBlock(t.view, t.disk, b)
    case Reuse(e) => t == s.(trans := s.trans - {Slot(e)})
  }

  /** Why an action is not done: no record is left, there is no transaction, or no room for the handle. */
  ghost predicate Refused(s: Snap, a: Action) {
    match a
    case Begin(e) =>
      Slot(e) !in s.trans && |s.view.recs| == MAX_NTRANS && s.view.recs[MAX_NTRANS - 1].envid > 0
    case Log(e, handle) =>
      || Slot(e) !in s.trans || |handle| != MAX_NHANDLES || s.trans[Slot(e)] >= |s.view.recs|
      || s.view.recs[s.trans[Slot(e)]].nhandles >= MAX_NHANDLES || FewFree(s.view)
    case Finish(e, _) => Slot(e) !in s.trans
    case _ => false
  }

  ghost predicate IsRun(ss: seq<Snap>, actions: seq<Action>) {
    0 < |ss| <= |actions| + 1 && forall i :: 0 <= i < |ss| - 1 ==> Did(ss[i], actions[i], ss[i + 1])
  }

  lemma {:induction false} RunOn(ss: seq<Snap>, actions: seq<Action>, t: Snap)
    requires IsRun(ss, actions) && |ss| <= |actions| && Did(ss[|ss| - 1], actions[|ss| - 1], t)
    ensures IsRun(ss + [t], actions)
  {
    var tt := ss + [t];
    forall i | 0 <= i < |tt| - 1 ensures Did(tt[i], actions[i], tt[i + 1]) {
      if i < |ss| - 1 { assert Did(ss[i], actions[i], ss[i + 1]); }
    }
  }

  /** Steps of the file layer: alloc_block, free_block, stores and flush_block. */
  datatype Work = Take | Give(b: nat) | Fill(b: nat, x: Words) | Flush(b: nat)

  /** serve_open is Begin, Log and Files; serve_write is Log and Files; serve_remove is Begin, Log and Finish. */
  datatype Action =
    | Begin(e: nat) | Log(e: nat, handle: Words) | Finish(e: nat, work: seq<Work>) | Files(work: seq<Work>) | SyncAll
    | Reuse(e: nat)         // env_alloc: the slot of a dead environment is taken; its record stays in use

  /** What the cache holds and which blocks are the files'. */
  datatype Cache = Cache(view: Image, owned: set<nat>, dirty: seq<bool>)

  /** The lowest free block from b on, or the number of blocks. */
  function LowestFree(free: seq<bool>, b: nat): nat
    decreases |free| - b
  {
    if b >= |free| then |free| else if free[b] then b else LowestFree(free, b + 1)
  }

  lemma {:induction false} LowestIs(free: seq<bool>, b: nat)
    requires 0 < b <= |free| && (b < |free| ==> free[b]) && forall x :: 0 < x < b ==> !free[x]
    ensures LowestFree(free, 1) == b
  {
    var x := b;
    while x > 1
      invariant 1 <= x <= b && LowestFree(free, x) == b
    {
      x := x - 1;
    }
  }

  /** What one step of the file layer does. */
  function Worked(c: Cache, w: Work): Cache {
    var n := |c.view.free|;
    match w
    case Take =>
      var b := LowestFree(c.view.free, 1);
      if b >= n || |c.dirty| < 4 then c
      else Cache(c.view.(free := c.view.free[b := false]), c.owned + {b}, c.dirty[BITMAP := false])
    case Give(b) =>
      if b !in c.owned || b <= JOURNAL || b >= n || |c.dirty| < 4 then c
      else Cache(c.view.(free := c.view.free[b := true]), c.owned - {b}, c.dirty[BITMAP := false])
    case Fill(b, x) =>
      if b !in c.owned || |x| != MAX_NHANDLES || b >= |c.view.data| || b >= |c.dirty| then c
      else c.(view := c.view.(data := c.view.data[b := x]), dirty := c.dirty[b := true])
    case Flush(b) => if b >= |c.dirty| then c else c.(dirty := c.dirty[b := false])
  }

  function AllWorked(c: Cache, work: seq<Work>): Cache {
    if work == [] then c else Worked(AllWorked(c, work[..|work| - 1]), work[|work| - 1])
  }

  /** From v and the files in owned the steps of work have led to the files in now as view has them. */
  ghost predicate WorkDone(v: Image, owned: set<nat>, work: seq<Work>, view: Image, now: set<nat>) {
    exists dirt :: |dirt| == |v.free|
                && var w := AllWorked(Cache(v, owned, dirt), work); now == w.owned && FilesSame(view, w.view, now)
  }

  lemma {:induction false} WorkStays(v: Image, owned: set<nat>, work: seq<Work>, u: Image, view: Image, now: set<nat>,
      log: Log, r: nat)
    requires WorkDone(v, owned, work, u, now) && Wf(u, |u.free|) && Owns(u, now, log) && r < |u.recs|
    requires u.recs[r].handlei < |u.data| && view == Ended(Retired(u, r), r)
    ensures WorkDone(v, owned, work, view, now)
  {
    EndedFiles(u, now, log, r);
    var dirt :| |dirt| == |v.free|
             && var w := AllWorked(Cache(v, owned, dirt), work); now == w.owned && FilesSame(u, w.view, now);
    var w := AllWorked(Cache(v, owned, dirt), work);
    assert FilesSame(view, w.view, now);
  }

  /** A record with handles is marked active by the commit. */
  function Marked(v: Image, log: Log, r: nat): Image
    requires r < |v.recs| && r < |log|
  {
    if log[r] == [] then v else WithRecord(v, r, v.recs[r].(active := true))
  }

  /** clear_transaction touches no file. */
  lemma {:induction false} EndedFiles(v: Image, owned: set<nat>, log: Log, r: nat)
    requires Wf(v, |v.free|) && Owns(v, owned, log) && r < |v.recs| && v.recs[r].handlei < |v.data|
    ensures FilesSame(Ended(Retired(v, r), r), v, owned)
  {
    var u := Retired(v, r);
    RecordOwns(v, owned, log, r, u.recs[r]);
    forall b | b in owned ensures Ended(u, r).free[b] == v.free[b] && Ended(u, r).data[b] == v.data[b] {
      EndedFrees(u, owned, log, r, b);
      Outside(u, owned, b);
    }
  }

  /** Record r off the journal and free for others, its blocks still there. */
  ghost function Retired(v: Image, r: nat): Image
    requires r < |v.recs|
  {
    WithRecord(v, r, v.recs[r].(active := false, envid := 0))
  }

  /** No record but r has changed. */
  ghost predicate OthersSame(v: Image, w: Image, r: nat) {
    |w.recs| == |v.recs| && forall k :: 0 <= k < |v.recs| && k != r ==> w.recs[k] == v.recs[k]
  }

  /** The environment in a slot has begun one. */
  lemma {:induction false} BeginTrans(trans: map<nat, nat>, v: Image, w: Image, r: nat, x: Record, slot: nat)
    requires TransOk(trans, v) && Quiet(v) && Unused(v) && r < |v.recs| && v.recs[r].envid == 0
    requires w == WithRecord(v, r, x)
    requires slot !in trans && x.envid > 0 && !x.active
    ensures TransOk(trans[slot := r], w) && Quiet(w) && Unused(w)
  {
  }

  /** The environment in a slot has ended its transaction. */
  lemma {:induction false} EndTrans(trans: map<nat, nat>, v: Image, w: Image, slot: nat)
    requires TransOk(trans, v) && Quiet(v) && slot in trans && OthersSame(v, w, trans[slot])
    requires !w.recs[trans[slot]].active
    ensures TransOk(trans - {slot}, w) && Quiet(w)
  {
  }

  lemma {:induction false} EndedUnused(v: Image, r: nat)
    requires r < |v.recs| && v.recs[r].handlei < |v.data| && v.recs[r].handlei < |v.free|
    requires forall k :: 0 <= k < |v.recs| && k != r && v.recs[k].envid == 0 ==> v.recs[k].handlei == 0
    ensures Unused(Ended(v, r))
  {
  }

  lemma {:induction false} EndedRecords(v: Image, w: Image, r: nat)
    requires r < |v.recs| && v.recs[r].handlei < |v.data| && v.recs[r].handlei < |v.free|
    requires w == Ended(Retired(v, r), r)
    ensures OthersSame(v, w, r) && !w.recs[r].active
  {
  }

  lemma {:induction false} StillIdle(trans: map<nat, nat>, v: Image, w: Image, r: nat)
    requires TransOk(trans, v) && Quiet(v) && SameRecords(v, w, r)
    ensures TransOk(trans, w) && Quiet(w)
  {
  }

  /** Flushing block b leaves other blocks on the disk as they were. */
  lemma {:induction false} StillSame(v: Image, d: Image, c: Image, n: nat, b: nat)
    requires Wf(v, n) && SameBlock(v, c, b) && forall x :: 0 <= x < n && x != b ==> SameBlock(c, d, x)
    ensures forall x: nat :: x < n && SameBlock(v, d, x) ==> SameBlock(v, c, x)
  {
    forall x: nat | x < n && SameBlock(v, d, x) ensures SameBlock(v, c, x) {
      if x != b { assert SameBlock(c, d, x); }
    }
  }

  lemma {:induction false} AllFlushed(v: Image, d: Image, log: Log, r: nat)
    requires r < |v.recs| && r < |log| && RecordOk(v, log, r) && SameBlock(v, d, v.recs[r].handlei)
    requires forall k: nat :: k < |log[r]| ==> SameBlock(v, d, Target(v, Entry(r, k)))
    ensures Flushed(v, d, r)
  {
    forall p: Place | p.r == r && Target(v, p) != 0 ensures SameBlock(v, d, Target(v, p)) {
      assert p.Entry? ==> p.h < |log[r]|;
    }
  }

  lemma {:induction false} CleanSector(v: Image, d: Image, dirty: seq<bool>, s: nat)
    requires Wf(v, |dirty|) && Wf(d, |dirty|) && |dirty| >= 4 && Clean(v, d, dirty) && dirty[JOURNAL]
    ensures Clean(v, Push(d, v, JOURNAL, s, s + 1), dirty)
  {
    var c := Push(d, v, JOURNAL, s, s + 1);
    forall b | 0 <= b < |dirty| && !dirty[b] ensures SameBlock(v, c, b) {
      assert SameBlock(v, d, b);
    }
  }

  /** The header of a logged handle carries the transaction's number. */
  function Stamped(handle: Words, id: nat): (x: Words)
    ensures |x| == |handle| && (handle != [] ==> x[0] == id)
    ensures forall i :: 0 < i < |handle| ==> x[i] == handle[i]
  {
    if |handle| == 0 then handle else [id] + handle[1..]
  }

  /** No record other than r has changed, and r is still used by the same environment, not active. */
  predicate SameRecords(v: Image, w: Image, r: nat) {
    && |w.recs| == |v.recs| && r < |v.recs|
    && (forall k :: 0 <= k < |v.recs| && k != r ==> w.recs[k] == v.recs[k])
    && w.recs[r].envid == v.recs[r].envid && w.recs[r].active == v.recs[r].active && w.recs[r].id == v.recs[r].id
  }

  /** The index block of record r exists, and its entry h holds the new block b. */
  ghost predicate Attached(v: Image, w: Image, r: nat, h: nat, b: nat) {
    && Wf(v, |v.free|) && r < MAX_NTRANS && h < MAX_NHANDLES && b < |v.free|
    && (v.recs[r].handlei == 0 ==> r < |w.recs| && 0 < w.recs[r].handlei < |v.free| && v.free[w.recs[r].handlei])
    && v.recs[r].handlei < |v.free|
    && var u := if v.recs[r].handlei == 0 then WithIndex(v, r, w.recs[r].handlei) else v;
    u.free[b] && w == WithEntry(u, r, h, b)
  }

  lemma {:induction false} RecordPlaces(v: Image, owned: set<nat>, r: nat, x: Record)
    requires Places(v, owned) && r < |v.recs| && x.handlei == v.recs[r].handlei
    ensures Places(WithRecord(v, r, x), owned) && forall p :: Target(WithRecord(v, r, x), p) == Target(v, p)
  {
    var w := WithRecord(v, r, x);
    forall p ensures Target(w, p) == Target(v, p) {
    }
    forall p | Target(w, p) != 0 ensures PlaceOk(w, owned, p) {
      assert PlaceOk(v, owned, p);
    }
  }

  /** A block of an inactive transaction may be filled. */
  lemma {:induction false} EntryStoreKeeps(w: Image, d: Image, owned: set<nat>, log: Log, r: nat, h: nat, y: Words)
    requires Wf(d, |d.free|) && Wf(w, |d.free|) && Guarded(w, d, log) && Places(w, owned)
    requires r < MAX_NTRANS && !w.recs[r].active && 0 < Target(w, Entry(r, h)) < |d.free| && |y| == MAX_NHANDLES
    ensures Guarded(w.(data := w.data[Target(w, Entry(r, h)) := y]), d, log)
  {
    var z := w.(data := w.data[Target(w, Entry(r, h)) := y]);
    forall k: nat | InActive(w, k) && k < |d.free| ensures z.data[k] == w.data[k] {
      var p: Place :| p.r < |w.recs| && w.recs[p.r].active && Target(w, p) == k;
      assert p != Entry(r, h);
    }
    EditKeeps(w, z, d, log);
  }

  /** What add_handle_to_transaction does, step by step, is to append one handle. */
  lemma {:induction false} Added(v: Image, v1: Image, w: Image, z: Image, owned: set<nat>, log: Log, r: nat, h: nat,
      b: nat, y: Words)
    requires Wf(v, |v.free|) && Owns(v, owned, log) && Reserved(v) && r < MAX_NTRANS && v.recs[r].envid != 0
    requires h == v.recs[r].nhandles
    requires v1 == WithRecord(v, r, v.recs[r].(nhandles := h + 1)) && Attached(v1, w, r, h, b)
    requires z == w.(data := w.data[b := y])
    ensures Owns(z, owned, Append(log, r, y)) && SameRecords(v, z, r)
  {
    var i := w.recs[r].handlei;
    var u := if v.recs[r].handlei == 0 then WithIndex(v, r, i) else v;
    if v.recs[r].handlei == 0 {
      IndexKeeps(v, owned, log, r, i);
      assert Reserved(u);
    }
    assert Wf(u, |v.free|) && u.recs[r].handlei != 0;
    HandleKeeps(u, owned, log, r, b, y);
    assert z.recs == WithHandle(u, r, b, y).recs;
    assert z == WithHandle(u, r, b, y);
  }

  /** A new handle touches no file. */
  lemma {:induction false} EntryAside(u: Image, owned: set<nat>, r: nat, h: nat, b: nat)
    requires Wf(u, |u.free|) && Places(u, owned) && r < MAX_NTRANS && h < MAX_NHANDLES
    requires 0 < u.recs[r].handlei < |u.free| && b < |u.free| && u.free[b]
    ensures FilesSame(WithEntry(u, r, h, b), u, owned)
  {
    assert PlaceOk(u, owned, Index(r));
  }

  lemma {:induction false} IndexStoreKeeps(u: Image, w: Image, d: Image, owned: set<nat>, log: Log, r: nat, b: nat,
      x: Words)
    requires Wf(d, |d.free|) && Wf(u, |d.free|) && Wf(w, |d.free|) && Guarded(w, d, log) && |x| == MAX_NHANDLES
    requires Places(u, owned) && r < MAX_NTRANS && !u.recs[r].active && 0 < u.recs[r].handlei < |d.free| && b < |d.free|
    requires w.recs == u.recs && w.data == u.data[b := Zeros()] && !InActive(u, b)
    ensures Guarded(w.(data := w.data[u.recs[r].handlei := x]), d, log)
  {
    var z := w.(data := w.data[u.recs[r].handlei := x]);
    forall k: nat | InActive(w, k) && k < |d.free| ensures z.data[k] == w.data[k] {
      var p: Place :| p.r < |w.recs| && w.recs[p.r].active && Target(w, p) == k;
      assert Target(u, Index(p.r)) == w.recs[p.r].handlei && InActive(u, w.recs[p.r].handlei);
      assert Target(u, p) == k && InActive(u, k);
      NotIndex(u, owned, r, k);
    }
    EditKeeps(w, z, d, log);
  }

  function Slot(e: nat): nat {
    e % 1024
  }

  /** A record that is not in use is not active. */
  lemma {:induction false} UnusedIdle(v: Image, d: Image, owned: set<nat>, log: Log, r: nat)
    requires Owns(v, owned, log) && Unused(v) && Guarded(v, d, log) && r < |v.recs| == |d.recs| && v.recs[r].envid == 0
    ensures !v.recs[r].active && v.recs[r].nhandles == 0 && v.recs[r].handlei == 0 && log[r] == []
  {
    assert RecordOk(v, log, r);
    assert log[r] != [] ==> Logged(v, log, r, 0);
    assert v.recs[r].active ==> Agrees(v, d, log, r);
  }

  /** A block that was free before may be filled. */
  lemma {:induction false} StoreKeeps(v: Image, u: Image, d: Image, log: Log, b: nat, x: Words)
    requires Wf(d, |d.free|) && Wf(v, |d.free|) && Wf(u, |d.free|) && Guarded(u, d, log) && |x| == MAX_NHANDLES
    requires b < |d.free| && !InActive(v, b) && u.recs == v.recs && u.data == v.data
    ensures Guarded(u.(data := u.data[b := x]), d, log)
  {
    var w := u.(data := u.data[b := x]);
    forall k: nat | InActive(u, k) && k < |d.free| ensures w.data[k] == u.data[k] {
      var p: Place :| p.r < |u.recs| && u.recs[p.r].active && Target(u, p) == k;
      assert Target(v, p) == Target(u, p);
    }
    EditKeeps(u, w, d, log);
  }

  method PushSector(d: Image, v: Image, b: nat, s: nat) returns (m: Image)
    requires Wf(d, |d.free|) && Wf(v, |d.free|) && b < |d.free|
    ensures m == Push(d, v, b, s, s + 1)
  {
    if b == BITMAP {
      m := d.(free := seq(|d.free|, i requires 0 <= i < |d.free| => if i / 4096 == s then v.free[i] else d.free[i]));
    } else if b == JOURNAL {
      m := d.(recs := seq(MAX_NTRANS, r requires 0 <= r < MAX_NTRANS => if SectorOf(r) == s then v.recs[r]
          else d.recs[r]));
    } else {
      var x := seq(MAX_NHANDLES, i requires 0 <= i < MAX_NHANDLES => if i / 128 == s then v.data[b][i]
          else d.data[b][i]);
      assert x == Push(d, v, b, s, s + 1).data[b];
      m := d.(data := d.data[b := x]);
    }
    assert m.free == Push(d, v, b, s, s + 1).free;
    assert m.recs == Push(d, v, b, s, s + 1).recs;
  }

  lemma {:induction false} CleanAfter(v: Image, d: Image, c: Image, dirty: seq<bool>, b: nat)
    requires b < |dirty| && Clean(v, d, dirty) && SameBlock(v, c, b)
    requires forall x :: 0 <= x < |dirty| && x != b ==> SameBlock(c, d, x)
    ensures Clean(v, c, dirty[b := false])
  {
    forall x | 0 <= x < |dirty| && !dirty[b := false][x] ensures SameBlock(v, c, x) {
      if x != b { assert SameBlock(v, d, x) && SameBlock(c, d, x); }
    }
  }

  lemma {:induction false} CleanDirty(v: Image, w: Image, d: Image, dirty: seq<bool>, b: nat)
    requires b < |dirty| && Clean(v, d, dirty)
    requires forall x :: 0 <= x < |dirty| && x != b && SameBlock(v, d, x) ==> SameBlock(w, d, x)
    ensures Clean(w, d, dirty[b := true])
  {
  }
}
