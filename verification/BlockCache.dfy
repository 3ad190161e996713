/** fs/bc.c: disk blocks mapped on demand, written back by dirty bit. */
module BlockCache {
  import opened Base

  const BLKSECTS: nat := 8

  /** A block is its sectors. */
  type Block<T> = seq<T>

  datatype Op<T> = Load(b: nat) | Store(b: nat, s: nat, x: T) | Flush(b: nat) | FlushOne(b: nat, s: nat)
      | Unmap(b: nat) | Sync

  /** Addresses that diskaddr does not panic on. */
  predicate InRange<T>(op: Op<T>, n: nat) {
    match op
    case Load(b) => 0 < b < n
    case Store(b, s, _) => 0 < b < n && s < BLKSECTS
    case Flush(b) => 0 < b < n
    case FlushOne(b, s) => 0 < b < n && s < BLKSECTS
    case Unmap(b) => 0 < b < n
    case Sync => true
  }

  ghost predicate Blocks<T(!new)>(m: seq<Block<T>>, n: nat) {
    |m| == n && forall b :: 0 <= b < n ==> |m[b]| == BLKSECTS
  }

  /** What loads and stores do on plain memory; the rest does nothing there. */
  ghost function Plain<T(!new)>(m: seq<Block<T>>, ops: seq<Op<T>>): (r: (seq<Block<T>>, seq<Block<T>>))
    requires Blocks(m, |m|) && forall i :: 0 <= i < |ops| ==> InRange(ops[i], |m|)
    ensures Blocks(r.0, |m|)
  {
    if ops == [] then (m, []) else
      var k := |ops| - 1;
      var (now, read) := Plain(m, ops[..k]);
      assert InRange(ops[k], |m|);
      match ops[k]
      case Load(b) => (now, read + [now[b]])
      case Store(b, s, x) => (now[b := now[b][s := x]], read)
      case _ => (now, read)
  }

  /** A mapped block hides the one on the disk. */
  ghost function Shown<T(!new)>(disk: seq<Block<T>>, page: seq<Option<Block<T>>>): (v: seq<Block<T>>)
    requires |page| == |disk|
    ensures |v| == |disk| && forall b :: 0 <= b < |disk| ==> v[b] == if page[b].Some? then page[b].value else disk[b]
  {
    seq(|disk|, b requires 0 <= b < |disk| => if page[b].Some? then page[b].value else disk[b])
  }

  /** What a flush has brought to the disk. */
  ghost predicate Saved<T(!new)>(op: Op<T>, view: seq<Block<T>>, disk: seq<Block<T>>)
    requires Blocks(view, |view|) && Blocks(disk, |view|)
  {
    match op
    case Flush(b) => b < |view| ==> disk[b] == view[b]
    case Unmap(b) => b < |view| ==> disk[b] == view[b]
    case FlushOne(b, s) => b < |view| && s < BLKSECTS ==> disk[b][s] == view[b][s]
    case Sync => forall b :: 0 < b < |view| ==> disk[b] == view[b]
    case _ => true
  }

  class Cache<T(!new)> {
    const n: nat                        // super->s_nblocks
    var disk: seq<Block<T>>
    var page: seq<Option<Block<T>>>     // the pages mapped at DISKMAP
    var dirty: seq<bool>                // PTE_D

    ghost predicate Valid()
      reads this
    {
      && Blocks(disk, n) && |page| == |dirty| == n
      && (forall b :: 0 <= b < n && page[b].Some? ==> |page[b].value| == BLKSECTS)
      && (forall b :: 0 <= b < n && !dirty[b] ==> page[b].None? || page[b].value == disk[b])
      && (forall b :: 0 <= b < n && dirty[b] ==> page[b].Some?)
    }

    /** What a load finds. */
    ghost function View(): (v: seq<Block<T>>)
      requires Valid()
      reads this
      ensures Blocks(v, n)
    {
      Shown(disk, page)
    }

    constructor (blocks: seq<Block<T>>)
      requires Blocks(blocks, |blocks|)
      ensures Valid() && View() == disk == blocks
    {
      n, disk := |blocks|, blocks;
      page, dirty := seq(|blocks|, _ => None), seq(|blocks|, _ => false);
    }

    /** bc_pgfault, when the block is not mapped: read it in. ide_read stores through the mapping,
        so the page is dirty. */
    method Fault(b: nat)
      requires Valid() && 0 < b < n
      modifies this`page, this`dirty
      ensures Valid() && View() == old(View()) && page[b].Some?
      ensures dirty == if old(page)[b].None? then old(dirty)[b := true] else old(dirty)
    {
      if page[b].None? {
        page, dirty := page[b := Some(disk[b])], dirty[b := true];
      }
      assert View() == old(View());
    }

    method LoadBlock(b: nat) returns (x: Block<T>)
      requires Valid() && 0 < b < n
      modifies this`page, this`dirty
      ensures Valid() && View() == old(View()) && x == View()[b]
    {
      Fault(b);
      x := page[b].value;
    }

    method StoreSector(b: nat, s: nat, x: T)
      requires Valid() && 0 < b < n && s < BLKSECTS
      modifies this`page, this`dirty
      ensures Valid() && View() == old(View())[b := old(View())[b][s := x]] && dirty[b]
    {
      Fault(b);
      page := page[b := Some(page[b].value[s := x])];
      dirty := dirty[b := true];
      assert View() == old(View())[b := old(View())[b][s := x]];
    }

    /** flush_block: nothing to do unless mapped and dirty. */
    method FlushBlock(b: nat)
      requires Valid() && 0 < b < n
      modifies this`disk, this`dirty
      ensures Valid() && View() == old(View())
      ensures disk == old(disk)[b := View()[b]] && !dirty[b]
              && forall x :: 0 <= x < n && x != b ==> dirty[x] == old(dirty)[x]
    {
      if page[b].None? || !dirty[b] {
        assert disk == disk[b := View()[b]];
        return;
      }
      for s := 0 to BLKSECTS
        invariant |disk| == n && |disk[b]| == BLKSECTS && disk[b][..s] == page[b].value[..s]
        invariant forall x :: 0 <= x < n && x != b ==> disk[x] == old(disk)[x]
        modifies this`disk
      {
        disk := disk[b := disk[b][s := page[b].value[s]]];
      }
      assert disk[b] == disk[b][..BLKSECTS] == page[b].value[..BLKSECTS] == page[b].value;
      dirty := dirty[b := false];
      assert View() == old(View());
    }

    /** flush_sector: one sector; the dirty bit stays as it is. */
    method FlushSector(b: nat, s: nat)
      requires Valid() && 0 < b < n && s < BLKSECTS
      modifies this`disk
      ensures Valid() && View() == old(View()) && disk == old(disk)[b := old(disk)[b][s := View()[b][s]]]
    {
      if page[b].None? || !dirty[b] {
        assert disk[b] == disk[b][s := View()[b][s]];
        assert disk == disk[b := disk[b][s := View()[b][s]]];
        return;
      }
      disk := disk[b := disk[b][s := page[b].value[s]]];
      assert View() == old(View());
    }

    /** sys_page_unmap of a block that was flushed. */
    method UnmapClean(b: nat)
      requires Valid() && 0 < b < n && !dirty[b]
      modifies this`page
      ensures Valid() && View() == old(View()) && page[b].None?
    {
      page := page[b := None];
      assert View() == old(View());
    }

    /** fs_sync: all blocks but number 0, which is never mapped. */
    method SyncAll()
      requires Valid()
      modifies this`disk, this`dirty
      ensures Valid() && View() == old(View()) && forall b :: 0 < b < n ==> disk[b] == View()[b] && !dirty[b]
    {
      var b := 1;
      while b < n
        invariant 0 < b && Valid() && View() == old(View())
        invariant forall x :: 0 < x < b && x < n ==> disk[x] == View()[x] && !dirty[x]
      {
        FlushBlock(b);
        b := b + 1;
      }
    }

    /** However faults, flushes and unmappings fall, clients see plain memory. */
    method Run(ops: seq<Op<T>>) returns (read: seq<Block<T>>)
      requires Valid() && forall i :: 0 <= i < |ops| ==> InRange(ops[i], n)
      modifies this`disk, this`page, this`dirty
      ensures Valid() && (View(), read) == Plain(old(View()), ops)
      ensures ops != [] ==> Saved(ops[|ops| - 1], View(), disk)
    {
      read := [];
      ghost var v := View();
      for i := 0 to |ops|
        invariant Valid() && (View(), read) == Plain(v, ops[..i])
        invariant i > 0 ==> Saved(ops[i - 1], View(), disk)
      {
        assert ops[..i + 1][..i] == ops[..i];
        match ops[i] {
          case Load(b) =>
            var x := LoadBlock(b);
            read := read + [x];
          case Store(b, s, x) =>
            StoreSector(b, s, x);
          case Flush(b) =>
            FlushBlock(b);
          case FlushOne(b, s) =>
            FlushSector(b, s);
          case Unmap(b) =>
            FlushBlock(b);
            UnmapClean(b);
          case Sync =>
            SyncAll();
        }
      }
      assert ops[..|ops|] == ops;
    }
  }
}
