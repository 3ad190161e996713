/**
  kern/pmap.c, kern/env.c and the memory system calls of kern/syscall.c: the code that
  changes page tables, reference counts, the page free list and the environment table.
 */
module Kernel {
  import opened Base
  import opened PageState

  const NENV: nat := 1024
  const PGSIZE: nat := 4096
  const UTOP: nat := UVPN * PGSIZE
  const I31: int := 0x8000_0000

  datatype Status = Free | Runnable | NotRunnable

  datatype Env = Env(id: int, parent: int, status: Status)

  /** What a call comes back with, or Panic if it does not. */
  datatype Result = Ok | NoMem | NoFreeEnv | BadEnv | Inval | Panic

  datatype Call = Boot(parent: int) | Alloc(id: int, va: nat, perm: Perm)
                | Map(src: int, srcva: nat, dst: int, dstva: nat, perm: Perm) | Unmap(id: int, va: nat)
                | Exofork | Destroy(id: int) | Yield(e: nat)

  /** The permission test of the system calls. */
  predicate BadPerm(perm: Perm) {
    !perm.u || !perm.p || perm.other != 0
  }

  /** Pages page_init keeps off the free list: page 0, the IO hole, the kernel. */
  predicate InUse(p: nat, bootFree: nat) {
    p == 0 || 0xA0 <= p < 0x100 || 0x100 <= p <= bootFree
  }

  predicate BadVa(va: nat) {
    va >= UTOP || va % PGSIZE != 0
  }

  ghost predicate EnvOk(envs: seq<Env>, dirs: seq<Option<nat>>, free: seq<nat>, e: nat)
    requires e < |envs| == |dirs|
  {
    && (envs[e].status.Free? <==> dirs[e].None?)
    && (envs[e].status.Free? <==> e in free)
    && 0 <= envs[e].id < I31 && (envs[e].id == 0 || envs[e].id % NENV == e)
    && (!envs[e].status.Free? ==> envs[e].id > 0)
  }

  /** The environment table: free slots are listed once each, ids of live ones encode the slot. */
  ghost predicate EnvTable(envs: seq<Env>, dirs: seq<Option<nat>>, free: seq<nat>) {
    && |envs| == |dirs| == NENV
    && (forall e :: 0 <= e < NENV ==> EnvOk(envs, dirs, free, e))
    && (forall i :: 0 <= i < |free| ==> free[i] < NENV)
    && (forall i, j :: 0 <= i < j < |free| ==> free[i] != free[j])
  }

  /** The state of the kernel between two calls. */
  datatype Snap = Snap(m: Mem, envs: seq<Env>, envFree: seq<nat>, cur: Option<nat>)

  /** Every mapping is for the user, present, and has no bits but those of PTE_USER. */
  ghost predicate UserOnly(m: Mem) {
    forall e: nat, v: nat :: Lookup(m, e, v).Present? ==>
      Lookup(m, e, v).perm.u && Lookup(m, e, v).perm.p && Lookup(m, e, v).perm.other == 0
  }

  ghost predicate SnapOk(s: Snap) {
    && Inv(s.m) && Settled(s.m) && EnvTable(s.envs, s.m.dirs, s.envFree) && UserOnly(s.m)
    && (s.cur.Some? ==> s.cur.value < NENV && s.m.dirs[s.cur.value].Some?)
  }

  /** The id names environment e: 0 is the caller, any other the live environment that has it. */
  predicate Names(s: Snap, envid: int, e: nat) {
    && e < |s.envs| && e < |s.m.dirs| && s.m.dirs[e].Some?
    && if envid == 0 then s.cur == Some(e) else s.envs[e].id == envid
  }

  /** e is the caller or a child of the caller. */
  predicate Rightful(s: Snap, e: nat) {
    && e < |s.envs| && s.cur.Some? && s.cur.value < |s.envs|
    && (s.cur == Some(e) || s.envs[e].parent == s.envs[s.cur.value].id)
  }

  /** The caller may act on e by this id. */
  predicate Reaches(s: Snap, envid: int, e: nat) {
    Names(s, envid, e) && Rightful(s, e)
  }

  ghost predicate OutOfReach(s: Snap, envid: int) {
    forall e: nat :: !Reaches(s, envid, e)
  }

  /** Ids are unambiguous. */
  lemma {:induction false} NamesOne(s: Snap, envid: int, e: nat, f: nat)
    requires SnapOk(s) && Names(s, envid, e) && Names(s, envid, f)
    ensures e == f
  {
    assert EnvOk(s.envs, s.m.dirs, s.envFree, e) && EnvOk(s.envs, s.m.dirs, s.envFree, f);
  }

  /** Where to look for it. */
  lemma {:induction false} Located(s: Snap, envid: int)
    requires SnapOk(s) && envid != 0
    ensures forall e: nat :: Names(s, envid, e) ==> e == envid % NENV && !s.envs[e].status.Free?
  {
    forall e: nat | Names(s, envid, e) ensures e == envid % NENV && !s.envs[e].status.Free? {
      assert EnvOk(s.envs, s.m.dirs, s.envFree, e);
    }
  }

  /** Only the mappings and pages have changed. */
  predicate SameEnvs(s: Snap, t: Snap) {
    t.envs == s.envs && t.envFree == s.envFree && t.cur == s.cur && t.m.dirs == s.m.dirs
  }

  /** sys_page_alloc for e: out of memory exactly if there is no page for the mapping or for a table it needs. */
  ghost predicate AllocedFor(s: Snap, e: nat, v: nat, perm: Perm, r: Result, t: Snap) {
    if s.m.free == [] || (|s.m.free| == 1 && TableOf(s.m, e, v).None?) then r == NoMem && t == s
    else
      && r == (if perm.w then Ok else Panic) && SameEnvs(s, t)
      && exists p :: p in s.m.free && MapsOnly(s.m, t.m, e, v, Present(p, WithP(perm))) && DataKept(s.m, t.m, {p})
                  && p < |t.m.frames| && (r == Ok ==> t.m.frames[p] == User(Some(seq(PGSIZE, _ => 0))))
  }

  lemma {:induction false} AllocIs(s: Snap, k: Mem, t: Snap, e: nat, v: nat, perm: Perm, p: nat, r: Result)
    requires p in s.m.free && !(|s.m.free| == 1 && TableOf(s.m, e, v).None?) && SameMaps(s.m, k) && SameEnvs(s, t)
    requires MapsOnly(k, t.m, e, v, Present(p, WithP(perm))) && DataKept(s.m, t.m, {p}) && p < |t.m.frames|
    requires r == (if perm.w then Ok else Panic) && (r == Ok ==> t.m.frames[p] == User(Some(seq(PGSIZE, _ => 0))))
    requires UserOnly(s.m) && !BadPerm(perm)
    ensures AllocedFor(s, e, v, perm, r, t) && UserOnly(t.m)
  {
    assert MapsOnly(s.m, t.m, e, v, Present(p, WithP(perm)));
  }

  /** What sys_page_alloc does. */
  ghost predicate PageAlloced(s: Snap, envid: int, va: nat, perm: Perm, r: Result, t: Snap) {
    if BadVa(va) || BadPerm(perm) then r == Inval && t == s
    else if OutOfReach(s, envid) then r == BadEnv && t == s
    else exists e :: Reaches(s, envid, e) && AllocedFor(s, e, va / PGSIZE, perm, r, t)
  }

  /** sys_page_map from page v of e to page w of f. */
  ghost predicate MappedFor(s: Snap, e: nat, v: nat, f: nat, w: nat, perm: Perm, r: Result, t: Snap) {
    var x := Lookup(s.m, e, v);
    if x.Absent? || (perm.w && !x.perm.w) then r == Inval && t == s
    else if s.m.free == [] && TableOf(s.m, f, w).None? then r == NoMem && t == s
    else
      && r == Ok && SameEnvs(s, t) && DataKept(s.m, t.m, {})
      && MapsOnly(s.m, t.m, f, w, Present(x.page, WithP(perm)))
  }

  ghost predicate PageMapped(s: Snap, src: int, srcva: nat, dst: int, dstva: nat, perm: Perm, r: Result, t: Snap) {
    if BadVa(srcva) || BadVa(dstva) || BadPerm(perm) then r == Inval && t == s
    else if OutOfReach(s, src) || OutOfReach(s, dst) then r == BadEnv && t == s
    else exists e, f :: Reaches(s, src, e) && Reaches(s, dst, f)
                     && MappedFor(s, e, srcva / PGSIZE, f, dstva / PGSIZE, perm, r, t)
  }

  ghost predicate PageUnmapped(s: Snap, envid: int, va: nat, r: Result, t: Snap) {
    if BadVa(va) then r == Inval && t == s
    else if OutOfReach(s, envid) then r == BadEnv && t == s
    else
      && r == Ok && SameEnvs(s, t) && DataKept(s.m, t.m, {})
      && exists e :: Reaches(s, envid, e) && MapsOnly(s.m, t.m, e, va / PGSIZE, Absent)
  }

  /** env_alloc: the first free slot with the next id. */
  ghost predicate NewEnv(s: Snap, parent: int, status: Status, r: Result, t: Snap) {
    if s.envFree == [] then r == NoFreeEnv && t == s
    else if s.m.free == [] then r == NoMem && t == s
    else
      var e := s.envFree[0];
      && r == Ok && e < |s.envs| && e < |s.m.dirs| && 0 <= s.envs[e].id < I31 && e < NENV
      && (s.envs[e].id == 0 || s.envs[e].id % NENV == e)
      && t.envs == s.envs[e := Env(NextId(s.envs[e].id, e), parent, status)] && t.envFree == s.envFree[1..]
      && t.cur == s.cur && |t.m.dirs| == |s.m.dirs| && t.m.dirs[e].Some? && t.m.dirs == s.m.dirs[e := t.m.dirs[e]]
      && SameMaps(s.m, t.m) && DataKept(s.m, t.m, {})
  }

  /** env_destroy of e. */
  ghost predicate Destroyed(s: Snap, e: nat, t: Snap) {
    && e < |s.envs| && e < |s.m.dirs| && TornDown(s.m, t.m, e) && t.m.dirs == s.m.dirs[e := None]
    && t.envs == s.envs[e := s.envs[e].(status := Free)] && t.envFree == [e] + s.envFree
    && t.cur == if s.cur == Some(e) then None else s.cur
  }

  ghost predicate EnvDestroyed(s: Snap, envid: int, r: Result, t: Snap) {
    if OutOfReach(s, envid) then r == BadEnv && t == s
    else r == Ok && exists e :: Reaches(s, envid, e) && Destroyed(s, e, t)
  }

  /** What one call does; calls of an environment need one, and booting needs none. */
  ghost predicate Did(s: Snap, c: Call, r: Result, t: Snap) {
    match c
    case Boot(parent) => if s.cur.None? then NewEnv(s, parent, Runnable, r, t) else t == s
    case Yield(e) => t == if e < |s.m.dirs| && s.m.dirs[e].Some? then s.(cur := Some(e)) else s
    case Alloc(id, va, perm) => if s.cur.None? then t == s else PageAlloced(s, id, va, perm, r, t)
    case Map(a, va, b, vb, perm) => if s.cur.None? then t == s else PageMapped(s, a, va, b, vb, perm, r, t)
    case Unmap(id, va) => if s.cur.None? then t == s else PageUnmapped(s, id, va, r, t)
    case Exofork =>
      if s.cur.None? || s.cur.value >= |s.envs| then t == s
      else NewEnv(s, s.envs[s.cur.value].id, NotRunnable, r, t)
    case Destroy(id) => if s.cur.None? then t == s else EnvDestroyed(s, id, r, t)
  }

  /** The directory or a mapping of e is another one. */
  ghost predicate Touched(s: Snap, t: Snap, e: nat) {
    || |t.m.dirs| != |s.m.dirs| || (e < |s.m.dirs| && t.m.dirs[e] != s.m.dirs[e])
    || exists v: nat :: Lookup(t.m, e, v) != Lookup(s.m, e, v)
  }

  /** Nobody's memory is touched but that of the caller, of a child of the caller, or of a new child. */
  lemma {:induction false} OnlyRightful(s: Snap, c: Call, r: Result, t: Snap, e: nat)
    requires SnapOk(s) && Did(s, c, r, t) && s.cur.Some? && e < NENV && Touched(s, t, e)
    ensures Rightful(s, e) || (s.m.dirs[e].None? && Rightful(t, e))
  {
    if c.Exofork? && r == Ok {
      assert e == s.envFree[0];
      assert s.envFree[0] in s.envFree;
      assert EnvOk(s.envs, s.m.dirs, s.envFree, e);
      assert EnvOk(s.envs, s.m.dirs, s.envFree, s.cur.value);
    }
  }

  /** An id that no live environment has gets nothing done. */
  lemma {:induction false} NoSuchEnv(s: Snap, c: Call, r: Result, t: Snap, envid: int)
    requires SnapOk(s) && Did(s, c, r, t) && s.cur.Some? && envid != 0
    requires forall e: nat :: e < NENV && s.m.dirs[e].Some? ==> s.envs[e].id != envid
    requires match c
             case Alloc(id, _, _) => id == envid
             case Map(a, _, b, _, _) => a == envid || b == envid
             case Unmap(id, _) => id == envid
             case Destroy(id) => id == envid
             case _ => false
    ensures t == s && (r == BadEnv || r == Inval)
    ensures c.Destroy? ==> r == BadEnv
  {
    assert OutOfReach(s, envid);
  }

  /** Page v of e is mapped, and writable if that is asked for. */
  predicate Grantable(s: Snap, e: nat, v: nat, perm: Perm) {
    Lookup(s.m, e, v).Present? && (perm.w ==> Lookup(s.m, e, v).perm.w)
  }

  /** A bad address or bad permissions, as the comments of the calls spell them out. */
  predicate Bad(va: nat, perm: Perm) {
    va >= 0xEEC00000 || va % 4096 != 0 || !perm.u || !perm.p || perm.other != 0
  }

  /** -E_INVAL comes exactly of those, and in sys_page_map of a source that is not mapped or not writable. */
  lemma {:induction false} InvalExact(s: Snap, c: Call, r: Result, t: Snap)
    requires SnapOk(s) && Did(s, c, r, t) && s.cur.Some?
    ensures c.Alloc? ==> (r == Inval <==> Bad(c.va, c.perm))
    ensures c.Unmap? ==> (r == Inval <==> c.va >= 0xEEC00000 || c.va % 4096 != 0)
    ensures c.Map? && (Bad(c.srcva, c.perm) || Bad(c.dstva, c.perm)) ==> r == Inval
    ensures c.Map? && r == Inval && !Bad(c.srcva, c.perm) && !Bad(c.dstva, c.perm) ==>
              exists e :: Reaches(s, c.src, e) && !Grantable(s, e, c.srcva / PGSIZE, c.perm)
    ensures r == Inval && (c.Alloc? || c.Map? || c.Unmap?) ==> t == s
  {
  }

  /** No call gives write access that nobody had: a writable mapping is an old one, or of a page with one, or new. */
  lemma {:induction false} NoGain(s: Snap, c: Call, r: Result, t: Snap, e: nat, v: nat)
    requires SnapOk(s) && Did(s, c, r, t) && Lookup(t.m, e, v).Present? && Lookup(t.m, e, v).perm.w
    ensures Lookup(t.m, e, v).page in s.m.free || exists f: nat, w: nat ::
              && Lookup(s.m, f, w).Present? && Lookup(s.m, f, w).page == Lookup(t.m, e, v).page
              && Lookup(s.m, f, w).perm.w
  {
    if Lookup(t.m, e, v) != Lookup(s.m, e, v) {
      if c.Map? {
        var a, b :| Reaches(s, c.src, a) && Reaches(s, c.dst, b)
                 && MappedFor(s, a, c.srcva / PGSIZE, b, c.dstva / PGSIZE, c.perm, r, t);
        assert Lookup(s.m, a, c.srcva / PGSIZE).page == Lookup(t.m, e, v).page;
      }
    }
  }

  /** What a run of calls did, state by state, with the results. */
  ghost predicate IsRun(calls: seq<Call>, ss: seq<Snap>, rs: seq<Result>, n: nat) {
    && |ss| == n + 1 && |rs| == n <= |calls|
    && forall i :: 0 <= i < n ==> Did(ss[i], calls[i], rs[i], ss[i + 1])
  }

  /** The next id for a slot: its generation goes up, its index stays; it starts again when it would be negative. */
  function NextId(id: int, e: nat): (r: int)
    requires 0 <= id < I31 && e < NENV && (id == 0 || id % NENV == e)
    ensures 0 < r < I31 && r % NENV == e
    ensures id > 0 && id + 0x1000 < I31 ==> r == id + 0x1000
    ensures r > id <==> id + 0x1000 < I31
  {
    var g := (id + 0x1000) / NENV * NENV;
    (if g >= I31 then 0x1000 else g) + e
  }

  class Machine {
    var frames: seq<Frame>
    var refs: seq<nat>                  // pages[].pp_ref
    var freeList: seq<nat>              // page_free_list
    var dirs: seq<Option<nat>>          // envs[].env_pgdir
    var envs: seq<Env>
    var envFree: seq<nat>               // env_free_list
    var cur: Option<nat>                // curenv

    function M(): Mem
      reads this
    {
      Mem(frames, refs, freeList, dirs)
    }

    function S(): Snap
      reads this
    {
      Snap(M(), envs, envFree, cur)
    }

    /** Between calls: exact counts, an exact free list, nothing half allocated. */
    ghost predicate Valid()
      reads this
    {
      SnapOk(S())
    }

    /** page_init and env_init. */
    constructor (npage: nat, bootFree: nat)
      ensures Valid() && cur.None?
      ensures |frames| == npage
      ensures (forall p :: 0 <= p < npage ==> refs[p] == 0 && (p in freeList <==> !InUse(p, bootFree)))
      ensures forall e :: 0 <= e < NENV ==> dirs[e].None?
    {
      var fs: seq<Frame>, rs: seq<nat>, free: seq<nat> := [], [], [];
      for i := 0 to npage
        invariant |fs| == |rs| == i
        invariant forall p :: 0 <= p < i ==> rs[p] == 0 && fs[p] == if InUse(p, bootFree) then Reserved else Unused
        invariant forall p :: p in free <==> 0 <= p < i && !InUse(p, bootFree)
        invariant forall x, y :: 0 <= x < y < |free| ==> free[x] != free[y]
      {
        rs := rs + [0];
        if InUse(i, bootFree) {
          fs := fs + [Reserved];
        } else {
          fs := fs + [Unused];
          free := [i] + free;
        }
      }
      var es: seq<Env>, ef: seq<nat> := seq(NENV, _ => Env(0, 0, Status.Free)), [];
      var envid := NENV;
      while envid > 0
        invariant 0 <= envid <= NENV && |ef| == NENV - envid
        invariant forall x :: 0 <= x < |ef| ==> ef[x] == envid + x
      {
        envid := envid - 1;
        ef := [envid] + ef;
      }
      frames, refs, freeList := fs, rs, free;
      dirs := seq(NENV, _ => None);
      envs, envFree, cur := es, ef, None;
      new;
      assert forall i :: 0 <= i < |freeList| ==> freeList[i] in freeList;
      FreshInv(M());
      forall e | 0 <= e < NENV ensures EnvOk(envs, dirs, envFree, e) {
        assert envFree[e] == e;
      }
    }

    // -------------------------------------------------------------- pmap.c

    method PageAlloc() returns (r: Option<nat>)
      requires Inv(M())
      modifies this`frames, this`refs, this`freeList
      ensures r.None? <==> old(freeList) == []
      ensures r.None? ==> M() == old(M())
      ensures r.Some? ==> r.value == old(freeList)[0] && M() == TakePage(old(M())) && Inv(M()) && frames[r.value].Loose?
    {
      if freeList == [] {
        return None;
      }
      ghost var m := M();
      TakeKeeps(m);
      var p := freeList[0];
      freeList := freeList[1..];
      refs := refs[p := 0];
      frames := frames[p := Loose];
      return Some(p);
    }

    method PageFree(p: nat)
      requires p < |frames|
      modifies this`frames, this`freeList
      ensures M() == GivePage(old(M()), p)
    {
      freeList := [p] + freeList;
      frames := frames[p := Unused];
    }

    method PageDecref(p: nat)
      requires p < |frames| == |refs| && refs[p] > 0
      modifies this`frames, this`refs, this`freeList
      ensures M() == DropRef(old(M()), p)
    {
      refs := refs[p := refs[p] - 1];
      if refs[p] == 0 {
        PageFree(p);
      }
    }

    /** The table that holds the entry for v; with `create`, made if missing. */
    method PgdirWalk(e: nat, v: nat, create: bool) returns (t: Option<nat>)
      requires Inv(M()) && e < |dirs| && dirs[e].Some? && v < UVPN
      modifies this`frames, this`refs, this`freeList
      ensures Inv(M()) && t == TableOf(M(), e, v)
      ensures t.None? <==> TableOf(old(M()), e, v).None? && (!create || old(freeList) == [])
      ensures M() == if t.Some? && TableOf(old(M()), e, v).None? then NewTable(old(M()), e, v) else old(M())
    {
      ghost var m := M();
      DirOk(m, e);
      var d := dirs[e].value;
      var pde := frames[d].ents[v / NPT];
      if pde.Absent? {
        if !create {
          return None;
        }
        var r := PageAlloc();
        if r.None? {
          return None;
        }
        var p := r.value;
        assert FrameOk(m, p);
        refs := refs[p := 1];
        frames := frames[p := EmptyTable()];
        frames := frames[d := Dir(frames[d].ents[v / NPT := Present(p, RW)])];
        NewTableKeeps(m, e, v);
        assert frames == NewTable(m, e, v).frames && refs == NewTable(m, e, v).refs;
        return Some(p);
      }
      return Some(pde.page);
    }

    /** The page mapped at v, and its table. */
    method PageLookup(e: nat, v: nat) returns (r: Option<nat>, t: nat)
      requires Inv(M()) && e < |dirs| && dirs[e].Some? && v < UVPN
      modifies this`frames, this`refs, this`freeList
      ensures M() == old(M())
      ensures Lookup(M(), e, v) == Absent <==> r.None?
      ensures r.Some? ==> TableOf(M(), e, v) == Some(t) && Lookup(M(), e, v).page == r.value
    {
      t := 0;
      var w := PgdirWalk(e, v, false);
      if w.None? {
        return None, 0;
      }
      t := w.value;
      TableOk(M(), e, v);
      match frames[t].ents[v % NPT]
      case Absent => return None, t;
      case Present(p, _) => return Some(p), t;
    }

    method PageRemove(e: nat, v: nat)
      requires Inv(M()) && e < |dirs| && dirs[e].Some? && v < UVPN
      modifies this`frames, this`refs, this`freeList
      ensures Inv(M()) && MapsOnly(old(M()), M(), e, v, Absent) && DataKept(old(M()), M(), {})
      ensures TableOf(old(M()), e, v).None? ==> M() == old(M())
      ensures TableOf(old(M()), e, v).Some? ==>
                var t := TableOf(old(M()), e, v).value;
                && t < |old(frames)| && v % NPT < |Ents(old(frames)[t])|
                && (Ents(old(frames)[t])[v % NPT].Present? ==> CanUnlink(old(M()), t, v % NPT))
                && M() == RemoveAt(old(M()), t, v % NPT)
                && Named(M()) == Named(old(M())) - {OfEntry(t, v % NPT)}
    {
      ghost var m := M();
      if TableOf(m, e, v).Some? { RemoveKeeps(m, e, v); }
      var r, t := PageLookup(e, v);
      if r.None? {
        return;
      }
      TableOk(m, e, v);
      Removable(m, t, v % NPT);
      assert refs[r.value] > 0;         // the panic of page_remove does not happen
      PageDecref(r.value);
      frames := frames[t := Table(frames[t].ents[v % NPT := Absent])];
    }

    /** On failure nothing has changed; on success exactly the mapping of v has. */
    method PageInsert(e: nat, p: nat, v: nat, perm: Perm) returns (ok: bool)
      requires Inv(M()) && e < |dirs| && dirs[e].Some? && v < UVPN
      requires p < |frames| && (frames[p].Loose? || frames[p].User?)
      modifies this`frames, this`refs, this`freeList
      ensures ok <==> TableOf(old(M()), e, v).Some? || old(freeList) != []
      ensures !ok ==> M() == old(M())
      ensures ok ==> Inv(M()) && MapsOnly(old(M()), M(), e, v, Present(p, WithP(perm)))
      ensures ok ==> |frames| == |old(frames)| && frames[p].User?
      ensures ok ==> DataKept(old(M()), M(), if old(frames)[p].User? then {} else {p})
      ensures ok ==> forall q :: 0 <= q < |frames| && frames[q].Loose? ==> q != p && old(frames)[q].Loose?
      ensures ok && Lookup(old(M()), e, v).Present? && Lookup(old(M()), e, v).page == p ==>
                refs == old(refs) && freeList == old(freeList)
    {
      ghost var m := M();
      var w := PgdirWalk(e, v, true);
      if w.None? {
        return false;
      }
      InsertWhole(m, e, v, p, perm);
      WalkData(m, e, v);
      InsertData(m, M(), w.value, v % NPT, p, perm);
      WriteEntry(e, p, v, w.value, perm);
      return true;
    }

    /** page_insert, once the table is known. */
    method WriteEntry(e: nat, p: nat, v: nat, t: nat, perm: Perm)
      requires Inv(M()) && e < |dirs| && dirs[e].Some? && v < UVPN && TableOf(M(), e, v) == Some(t)
      requires p < |frames| && (frames[p].Loose? || frames[p].User?)
      requires t < |frames| && frames[t].Table? && |Ents(frames[t])| == NPT
      requires Ents(frames[t])[v % NPT].Present? ==> CanUnlink(M(), t, v % NPT)
      modifies this`frames, this`refs, this`freeList
      ensures M() == InsertAt(old(M()), t, v % NPT, p, perm)
    {
      var pte := frames[t].ents[v % NPT];
      if pte.Present? {
        if pte.page == p {
          frames := frames[t := Table(frames[t].ents[v % NPT := Present(p, WithP(perm))])];
          return;
        }
        PageRemove(e, v);
      }
      FillEntry(t, v % NPT, p, WithP(perm));
    }

    /** The end of page_insert: the entry is written and counted. */
    method FillEntry(t: nat, j: nat, p: nat, perm: Perm)
      requires t < |frames| == |refs| && frames[t].Table? && j < |frames[t].ents| && p < |frames| && p != t
      modifies this`frames, this`refs
      ensures M() == LinkEntry(old(M()), t, j, p, perm)
    {
      frames := frames[t := Table(frames[t].ents[j := Present(p, perm)])];
      if frames[p].Loose? {
        frames := frames[p := User(None)];
      }
      refs := refs[p := refs[p] + 1];
    }

    // -------------------------------------------------------------- env.c

    /** One round of the inner loop of env_free. */
    method FreeMapping(e: nat, i: nat, t: nat, j: nat, ghost m: Mem, ghost gone: set<Slot>)
      requires Freeing(m, M(), e, i, gone) && e < |dirs| && dirs[e].Some? && i < UPDE
      requires DirEntry(M(), e, i).Present? && DirEntry(M(), e, i).page == t
      requires t < |frames| && frames[t].Table? && j < |frames[t].ents| == NPT && frames[t].ents[j].Present?
      modifies this`frames, this`refs, this`freeList
      ensures Freeing(m, M(), e, i, gone + {OfEntry(t, j)})
      ensures DirEntry(M(), e, i) == old(DirEntry(M(), e, i))
      ensures t < |frames| && frames[t] == Table(old(frames)[t].ents[j := Absent])
    {
      ghost var k := M();
      var v := i * NPT + j;
      VpnSplit(i, j);
      assert TableOf(k, e, v) == Some(t) && v % NPT == j;
      Removable(k, t, j);
      NamedIs(k, OfEntry(t, j));
      UnlinkFrames(k, t, j);
      PageRemove(e, v);
      assert M() == UnlinkEntry(k, t, j);
      FreeingMapping(m, k, M(), e, i, gone, t, j);
    }

    method FreePte(e: nat, i: nat, t: nat, j: nat, ghost m: Mem, ghost gone0: set<Slot>) returns (ghost gone: set<Slot>)
      requires Freeing(m, M(), e, i, gone0) && e < |dirs| && dirs[e].Some? && i < UPDE
      requires DirEntry(M(), e, i).Present? && DirEntry(M(), e, i).page == t
      requires t < |frames| && frames[t].Table? && j < |frames[t].ents| == NPT
      modifies this`frames, this`refs, this`freeList
      ensures Freeing(m, M(), e, i, gone)
      ensures DirEntry(M(), e, i) == old(DirEntry(M(), e, i))
      ensures t < |frames| && frames[t] == Table(old(frames)[t].ents[j := Absent])
    {
      gone := gone0;
      if frames[t].ents[j].Present? {
        FreeMapping(e, i, t, j, m, gone);
        gone := gone + {OfEntry(t, j)};
      }
    }

    /** The inner loop of env_free: unmap everything in table t of directory entry i. */
    method EmptyTableOf(e: nat, i: nat, t: nat, ghost m: Mem, ghost gone0: set<Slot>) returns (ghost gone: set<Slot>)
      requires Freeing(m, M(), e, i, gone0) && e < |dirs| && dirs[e].Some? && i < UPDE
      requires DirEntry(M(), e, i).Present? && DirEntry(M(), e, i).page == t
      modifies this`frames, this`refs, this`freeList
      ensures Freeing(m, M(), e, i, gone)
      ensures DirEntry(M(), e, i).Present? && DirEntry(M(), e, i).page == t
      ensures t < |frames| && AllAbsent(frames[t])
    {
      gone := gone0;
      VpnSplit(i, 0);
      TableOk(M(), e, i * NPT);
      var j := 0;
      while j < NPT
        invariant 0 <= j <= NPT && Freeing(m, M(), e, i, gone)
        invariant t < |frames| && frames[t].Table? && |frames[t].ents| == NPT
        invariant DirEntry(M(), e, i).Present? && DirEntry(M(), e, i).page == t
        invariant forall x :: 0 <= x < j ==> frames[t].ents[x].Absent?
      {
        gone := FreePte(e, i, t, j, m, gone);
        j := j + 1;
      }
    }

    /** One round of the outer loop of env_free. */
    method FreeEntry(e: nat, i: nat, ghost m: Mem, ghost gone0: set<Slot>) returns (ghost gone: set<Slot>)
      requires Freeing(m, M(), e, i, gone0) && e < |dirs| && dirs[e].Some? && i < UPDE
      modifies this`frames, this`refs, this`freeList
      ensures Freeing(m, M(), e, i + 1, gone)
    {
      DirOk(M(), e);
      gone := gone0;
      var d := dirs[e].value;
      if frames[d].ents[i].Absent? {
        FreeingSkip(m, M(), e, i, gone);
      } else {
        var t := frames[d].ents[i].page;
        gone := EmptyTableOf(e, i, t, m, gone);
        FreeingTable(m, M(), e, i, gone, t);
        DropTable(d, i, t);
        gone := gone + {OfEntry(d, i)};
      }
    }

    /** Clear a directory entry and drop the reference to the table. */
    method DropTable(d: nat, i: nat, t: nat)
      requires CanUnlink(M(), d, i) && frames[d].Dir? && frames[d].ents[i].page == t
      modifies this`frames, this`refs, this`freeList
      ensures M() == UnlinkEntry(old(M()), d, i)
    {
      frames := frames[d := Dir(frames[d].ents[i := Absent])];
      PageDecref(t);
    }

    /** env_free */
    method EnvFree(e: nat)
      requires Inv(M()) && Settled(M()) && EnvTable(envs, dirs, envFree) && e < NENV && dirs[e].Some?
      modifies this`frames, this`refs, this`freeList, this`dirs, this`envs, this`envFree
      ensures TornDown(old(M()), M(), e) && Settled(M()) && EnvTable(envs, dirs, envFree)
      ensures dirs == old(dirs)[e := None]
      ensures envs == old(envs)[e := old(envs)[e].(status := Free)] && envFree == [e] + old(envFree)
    {
      ghost var m := M();
      ghost var gone: set<Slot> := {};
      FreeingStarts(m, e);
      assert EnvOk(envs, dirs, envFree, e);
      var d := dirs[e].value;
      var i := 0;
      while i < UPDE
        invariant 0 <= i <= UPDE && Freeing(m, M(), e, i, gone)
        modifies this`frames, this`refs, this`freeList
      {
        gone := FreeEntry(e, i, m, gone);
        i := i + 1;
      }
      FreeingEnds(m, M(), e, gone);
      dirs := dirs[e := None];
      PageDecref(d);
      forall f | 0 <= f < NENV && f != e ensures EnvOk(envs, dirs, envFree, f) {
        assert old(EnvOk(envs, dirs, envFree, f));
      }
      RetireEnv(e);
    }

    /** The environment slot goes back to the free list. */
    method RetireEnv(e: nat)
      requires |envs| == |dirs| == NENV && e < NENV && dirs[e].None? && e !in envFree
      requires 0 <= envs[e].id < I31 && (envs[e].id == 0 || envs[e].id % NENV == e)
      requires forall f :: 0 <= f < NENV && f != e ==> EnvOk(envs, dirs, envFree, f)
      requires forall i :: 0 <= i < |envFree| ==> envFree[i] < NENV
      requires forall i, j :: 0 <= i < j < |envFree| ==> envFree[i] != envFree[j]
      modifies this`envs, this`envFree
      ensures EnvTable(envs, dirs, envFree)
      ensures envs == old(envs)[e := old(envs)[e].(status := Free)] && envFree == [e] + old(envFree)
    {
      ghost var fs := envFree;
      envs := envs[e := envs[e].(status := Free)];
      envFree := [e] + envFree;
      forall f | 0 <= f < NENV ensures EnvOk(envs, dirs, envFree, f) {
        assert f in envFree <==> f == e || f in fs;
        assert f != e ==> old(EnvOk(envs, dirs, envFree, f));
      }
    }

    /** env_setup_vm: a fresh directory, empty below UTOP. */
    method EnvSetupVm(e: nat) returns (ok: bool)
      requires Inv(M()) && e < |dirs| && dirs[e].None?
      modifies this`frames, this`refs, this`freeList, this`dirs
      ensures ok <==> old(freeList) != []
      ensures !ok ==> M() == old(M())
      ensures ok ==> Inv(M()) && SameMaps(old(M()), M())
      ensures ok ==> |dirs| == |old(dirs)| && dirs[e].Some? && dirs == old(dirs)[e := dirs[e]]
      ensures ok ==>
              |frames| == |old(frames)| && forall q :: 0 <= q < |frames| && frames[q].Loose? ==> old(frames)[q].Loose?
      ensures ok ==> DataKept(old(M()), M(), {})
    {
      var r := PageAlloc();
      if r.None? {
        return false;
      }
      ghost var m := M();
      var p := r.value;
      LinkEnvKeeps(m, e, p);
      dirs := dirs[e := Some(p)];
      refs := refs[p := 1];
      frames := frames[p := EmptyDir()];
      assert M() == LinkEnv(m, e, p);
      NewDirMaps(old(M()), e);
      return true;
    }

    /** env_alloc */
    method EnvAlloc(parent: int) returns (r: Result, e: nat)
      requires Valid()
      modifies this`frames, this`refs, this`freeList, this`dirs, this`envs, this`envFree
      ensures Valid() && NewEnv(old(S()), parent, Runnable, r, S())
      ensures r == Ok ==> e < NENV && e == old(envFree)[0] && envs[e].id != old(envs)[e].id
    {
      if envFree == [] {
        return NoFreeEnv, 0;
      }
      e := envFree[0];
      assert e in envFree && EnvOk(envs, dirs, envFree, e);
      var ok := EnvSetupVm(e);
      if !ok {
        return NoMem, e;
      }
      ghost var fs := envFree;
      envs := envs[e := Env(NextId(envs[e].id, e), parent, Runnable)];
      envFree := envFree[1..];
      forall f | 0 <= f < NENV ensures EnvOk(envs, dirs, envFree, f) {
        assert old(EnvOk(envs, dirs, envFree, f));
        assert f in fs <==> f == e || f in envFree;
      }
      return Ok, e;
    }

    /** env_destroy */
    method EnvDestroy(e: nat)
      requires Valid() && e < NENV && dirs[e].Some?
      modifies this
      ensures Valid() && Destroyed(old(S()), e, S())
    {
      EnvFree(e);
      if cur == Some(e) {
        cur := None;
      }
    }

    // -------------------------------------------------------------- syscall.c

    /** envid2env with the permission check: who the caller may act on by this id. */
    function Resolve(envid: int): (r: Option<nat>)
      requires SnapOk(S()) && cur.Some?
      reads this
      ensures forall e: nat :: r == Some(e) <==> Reaches(S(), envid, e)
    {
      var e := envid % NENV;
      assert EnvOk(envs, dirs, envFree, e);
      if envid == 0 then cur
      else
      Located(S(), envid);
      if envs[e].status.Free? || envs[e].id != envid then None
      else if e != cur.value && envs[e].parent != envs[cur.value].id then None
      else Some(e)
    }

    /**
      The page is cleared through its new mapping, and CR0_WP makes the kernel heed PTE_W: without
      it the kernel faults once the page is mapped, and stops.
     */
    method SysPageAlloc(envid: int, va: nat, perm: Perm) returns (r: Result)
      requires Valid() && cur.Some?
      modifies this`frames, this`refs, this`freeList
      ensures Valid() && PageAlloced(old(S()), envid, va, perm, r, S())
    {
      if BadVa(va) || BadPerm(perm) {
        return Inval;
      }
      var env := Resolve(envid);
      if env.None? {
        return BadEnv;
      }
      assert EnvOk(envs, dirs, envFree, env.value);
      r := AllocPage(env.value, va / PGSIZE, perm);
    }

    /** sys_page_alloc, once the environment is known. */
    method AllocPage(e: nat, v: nat, perm: Perm) returns (r: Result)
      requires Valid() && e < NENV && dirs[e].Some? && v < UVPN && !BadPerm(perm)
      modifies this`frames, this`refs, this`freeList
      ensures Valid() && AllocedFor(old(S()), e, v, perm, r, S())
    {
      ghost var k;
      var pp;
      pp, k := AllocInsert(e, v, perm);
      if pp.None? {
        return NoMem;
      }
      r := Panic;
      if perm.w {
        ClearPage(pp.value);
        r := Ok;
      }
      AllocIs(old(S()), k, S(), e, v, perm, pp.value, r);
    }

    /** A page is taken and mapped, or given back; k is how things were when it was taken. */
    method AllocInsert(e: nat, v: nat, perm: Perm) returns (pp: Option<nat>, ghost k: Mem)
      requires Valid() && e < NENV && dirs[e].Some? && v < UVPN
      modifies this`frames, this`refs, this`freeList
      ensures pp.None? <==> old(freeList) == [] || (|old(freeList)| == 1 && TableOf(old(M()), e, v).None?)
      ensures pp.None? ==> M() == old(M())
      ensures pp.Some? ==> Inv(M()) && Settled(M()) && SameMaps(old(M()), k) && pp.value in old(freeList)
      ensures pp.Some? ==> pp.value < |frames| && frames[pp.value].User? && DataKept(old(M()), M(), {pp.value})
      ensures pp.Some? ==> MapsOnly(k, M(), e, v, Present(pp.value, WithP(perm)))
    {
      ghost var m := M();
      pp := PageAlloc();
      k := M();
      if pp.Some? {
        var p := pp.value;
        assert FrameOk(m, p);
        QuietMaps(m, k);
        var ok := PageInsert(e, p, v, perm);
        if !ok {
          PageFree(p);
          TakeGive(m);
          pp := None;
        }
      }
    }

    /** memset of the new page. */
    method ClearPage(p: nat)
      requires Inv(M()) && p < |frames| && frames[p].User?
      modifies this`frames
      ensures Inv(M()) && SameMaps(old(M()), M()) && frames == old(frames)[p := User(Some(seq(PGSIZE, _ => 0)))]
    {
      DataKeeps(M(), p, Some(seq(PGSIZE, _ => 0)));
      frames := frames[p := User(Some(seq(PGSIZE, _ => 0)))];
    }

    method SysPageMap(srcid: int, srcva: nat, dstid: int, dstva: nat, perm: Perm) returns (r: Result)
      requires Valid() && cur.Some?
      modifies this`frames, this`refs, this`freeList
      ensures Valid() && PageMapped(old(S()), srcid, srcva, dstid, dstva, perm, r, S())
    {
      if BadVa(srcva) || BadVa(dstva) || BadPerm(perm) {
        return Inval;
      }
      var src, dst := Resolve(srcid), Resolve(dstid);
      if src.None? || dst.None? {
        return BadEnv;
      }
      assert EnvOk(envs, dirs, envFree, src.value) && EnvOk(envs, dirs, envFree, dst.value);
      r := MapPage(src.value, srcva / PGSIZE, dst.value, dstva / PGSIZE, perm);
    }

    /** sys_page_map, once the environments are known. */
    method MapPage(e: nat, v: nat, f: nat, w: nat, perm: Perm) returns (r: Result)
      requires Valid() && e < NENV && dirs[e].Some? && v < UVPN && f < NENV && dirs[f].Some? && w < UVPN
      requires !BadPerm(perm)
      modifies this`frames, this`refs, this`freeList
      ensures Valid() && MappedFor(old(S()), e, v, f, w, perm, r, S())
    {
      var pp, t := PageLookup(e, v);
      if pp.None? {
        return Inval;
      }
      TableOk(M(), e, v);
      Removable(M(), t, v % NPT);
      if perm.w && !frames[t].ents[v % NPT].perm.w {
        return Inval;
      }
      var ok := PageInsert(f, pp.value, w, perm);
      return if ok then Ok else NoMem;
    }

    method SysPageUnmap(envid: int, va: nat) returns (r: Result)
      requires Valid() && cur.Some?
      modifies this`frames, this`refs, this`freeList
      ensures Valid() && PageUnmapped(old(S()), envid, va, r, S())
    {
      if BadVa(va) {
        return Inval;
      }
      var env := Resolve(envid);
      if env.None? {
        return BadEnv;
      }
      assert EnvOk(envs, dirs, envFree, env.value);
      ghost var m := M();
      PageRemove(env.value, va / PGSIZE);
      if TableOf(m, env.value, va / PGSIZE).Some? {
        RemoveSettled(m, TableOf(m, env.value, va / PGSIZE).value, va / PGSIZE % NPT);
      }
      return Ok;
    }

    method SysExofork() returns (r: Result, e: nat)
      requires Valid() && cur.Some?
      modifies this`frames, this`refs, this`freeList, this`dirs, this`envs, this`envFree
      ensures Valid() && NewEnv(old(S()), old(envs)[cur.value].id, NotRunnable, r, S())
      ensures r == Ok ==> e == old(envFree)[0] && old(dirs)[e].None?
    {
      assert EnvOk(envs, dirs, envFree, cur.value);
      if envFree != [] { assert envFree[0] in envFree && EnvOk(envs, dirs, envFree, envFree[0]); }
      r, e := EnvAlloc(envs[cur.value].id);
      if r == Ok {
        ghost var es := envs;
        envs := envs[e := envs[e].(status := NotRunnable)];
        forall f | 0 <= f < NENV ensures EnvOk(envs, dirs, envFree, f) {
          assert EnvOk(es, dirs, envFree, f);
        }
      }
    }

    method SysEnvDestroy(envid: int) returns (r: Result)
      requires Valid() && cur.Some?
      modifies this
      ensures Valid() && EnvDestroyed(old(S()), envid, r, S())
    {
      var env := Resolve(envid);
      if env.None? {
        return BadEnv;
      }
      assert EnvOk(envs, dirs, envFree, env.value);
      EnvDestroy(env.value);
      return Ok;
    }

    /** sched_yield or an interrupt: some live environment runs next. */
    method Switch(e: nat)
      requires Valid()
      modifies this`cur
      ensures Valid() && cur == if e < NENV && dirs[e].Some? then Some(e) else old(cur)
    {
      if e < NENV && dirs[e].Some? {
        cur := Some(e);
      }
    }

    /** One call, by whoever is running. */
    method Do(c: Call) returns (r: Result)
      requires Valid()
      modifies this
      ensures Valid() && Did(old(S()), c, r, S())
      ensures r == Panic ==> c.Alloc? && !BadPerm(c.perm) && !c.perm.w
    {
      r := Ok;
      if cur.None? {
        match c
        case Boot(parent) =>
          var e;
          r, e := EnvAlloc(parent);
        case Yield(e) => Switch(e);
        case _ =>
      } else {
        match c
        case Alloc(id, va, perm) => r := SysPageAlloc(id, va, perm);
        case Map(a, va, b, vb, perm) => r := SysPageMap(a, va, b, vb, perm);
        case Unmap(id, va) => r := SysPageUnmap(id, va);
        case Exofork =>
          var e;
          r, e := SysExofork();
        case Destroy(id) => r := SysEnvDestroy(id);
        case Yield(e) => Switch(e);
        case Boot(_) =>
      }
    }

    /**
      Any run of system calls, by any environments in any order, keeps the invariant, up to a panic if one comes.
      Every call has done what it should, which OnlyRightful and NoSuchEnv are about.
     */
    method Run(calls: seq<Call>) returns (done: nat, ghost ss: seq<Snap>, ghost rs: seq<Result>)
      requires Valid()
      modifies this
      ensures Valid() && IsRun(calls, ss, rs, done) && ss[0] == old(S()) && ss[done] == S()
      ensures forall i :: 0 <= i <= done ==> SnapOk(ss[i])
      ensures done < |calls| ==> done > 0 && rs[done - 1] == Panic
      ensures forall i :: 0 <= i < done && rs[i] == Panic ==>
                i == done - 1 && calls[i].Alloc? && !BadPerm(calls[i].perm) && !calls[i].perm.w
    {
      ss, rs := [S()], [];
      for i := 0 to |calls|
        invariant Valid() && IsRun(calls, ss, rs, i) && ss[0] == old(S()) && ss[i] == S()
        invariant forall k :: 0 <= k <= i ==> SnapOk(ss[k])
        invariant forall k :: 0 <= k < i ==> rs[k] != Panic
      {
        ghost var s, ts, us := S(), ss, rs;
        var r := Do(calls[i]);
        ss, rs := ss + [S()], rs + [r];
        RunOn(calls, ts, us, i, S(), r);
        if r == Panic {
          return i + 1, ss, rs;
        }
      }
      return |calls|, ss, rs;
    }
  }

  lemma {:induction false} RunOn(calls: seq<Call>, ss: seq<Snap>, rs: seq<Result>, n: nat, t: Snap, r: Result)
    requires IsRun(calls, ss, rs, n) && n < |calls| && Did(ss[n], calls[n], r, t)
    ensures IsRun(calls, ss + [t], rs + [r], n + 1)
  {
    var tt, qq := ss + [t], rs + [r];
    forall i | 0 <= i < n + 1 ensures Did(tt[i], calls[i], qq[i], tt[i + 1]) {
      if i < n { assert Did(ss[i], calls[i], rs[i], ss[i + 1]); }
    }
  }
}
