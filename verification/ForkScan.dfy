/** The address loop of fork: which pages duppage is called for, and in which order. */
module ForkScan {
  import opened Base
  import Fork

  const NPT: nat := 1024                // pages per page table: PTSIZE / PGSIZE

  /** Page v is mapped for user access: its table is present and so is its entry. */
  predicate Mapped(vpd: seq<bool>, vpt: seq<Perm>, v: nat) {
    v / NPT < |vpd| && v < |vpt| && vpd[v / NPT] && vpt[v].u && vpt[v].p
  }

  /** What fork has to hand to duppage. */
  predicate Wanted(vpd: seq<bool>, vpt: seq<Perm>, v: nat) {
    Fork.UTEXT <= v < Fork.UEND && v != Fork.XSTACK && Mapped(vpd, vpt, v)
  }

  /** A whole table is missing, so nothing in it is wanted. */
  lemma SkippedTable(vpd: seq<bool>, vpt: seq<Perm>, addr: nat, v: nat)
    requires addr % NPT == 0 && addr / NPT < |vpd| && !vpd[addr / NPT] && addr <= v < addr + NPT
    ensures !Wanted(vpd, vpt, v)
  {
    assert v / NPT == addr / NPT;
  }

  /** fork's scan, addresses counted in pages: `addr += PTSIZE - PGSIZE` skips a missing table. */
  method Scan(vpd: seq<bool>, vpt: seq<Perm>) returns (dups: seq<nat>)
    requires |vpd| * NPT == |vpt| == Fork.UEND
    ensures forall v: nat :: v in dups <==> Wanted(vpd, vpt, v)
    ensures forall i, j :: 0 <= i < j < |dups| ==> dups[i] < dups[j]
  {
    dups := [];
    var addr := Fork.UTEXT;
    while addr < Fork.UEND
      invariant Fork.UTEXT <= addr <= Fork.UEND
      invariant addr % NPT != 0 ==> vpd[addr / NPT]
      invariant forall v: nat :: v in dups <==> v < addr && Wanted(vpd, vpt, v)
      invariant forall i, j :: 0 <= i < j < |dups| ==> dups[i] < dups[j]
    {
      if addr == Fork.XSTACK {
        addr := addr + 1;
        continue;
      }
      if !vpd[addr / NPT] {
        forall v | addr <= v < addr + NPT ensures !Wanted(vpd, vpt, v) {
          SkippedTable(vpd, vpt, addr, v);
        }
        addr := addr + (NPT - 1);
        addr := addr + 1;
        continue;
      }
      if !vpt[addr].u || !vpt[addr].p {
        addr := addr + 1;
        continue;
      }
      assert forall i :: 0 <= i < |dups| ==> dups[i] in dups;
      dups := dups + [addr];
      addr := addr + 1;
    }
  }
}
