/**
  lib/fork.c: user-level fork with copy-on-write, as interleaved steps of any number of
  environments. Every system call, every byte the fault handler copies and every store of
  a user program is one step; steps of different environments mix freely.
 */
module Fork {
  import opened Base

  const PGSIZE: nat := 4096
  const UTEXT: nat := 0x800             // virtual page numbers
  const UEND: nat := 0xEEC00            // UTOP
  const XSTACK: nat := UEND - 1         // the user exception stack
  const PFTEMP: nat := 0x7FF

  type Page = nat

  datatype Pte = Pte(page: Page, perm: Perm)

  predicate Writable(perm: Perm) {
    perm.w
  }

  predicate IsShared(perm: Perm) {
    perm.share && perm.w
  }

  /** duppage makes such a page copy-on-write. */
  predicate Copied(perm: Perm) {
    perm.cow || perm.w
  }

  predicate IsCow(perm: Perm) {
    perm.cow && !perm.w
  }

  /** Where the program stands inside fork; `next` is the page the scan looks at. */
  datatype Main = Idle
                | Scan(child: nat, next: nat)
                | Dup(child: nat, next: nat, snap: Perm)     // duppage has read vpt[pn]
                | DupMid(child: nat, next: nat)              // the child has its copy-on-write mapping
                | Finish(child: nat)                         // the child has its exception stack

  /** Where the fault handler stands. */
  datatype Handler = Quiet
                   | Faulted(v: nat)
                   | Copying(v: nat, k: nat)                 // k bytes are in the page at PFTEMP
                   | Mapped(v: nat)                          // that page is mapped at v too

  datatype Proc = Proc(space: map<nat, Pte>, main: Main, hand: Handler, runnable: bool)

  datatype State = State(procs: map<nat, Proc>, mem: map<Page, seq<Byte>>)

  predicate Maps(s: State, e: nat, v: nat) {
    e in s.procs && v in s.procs[e].space
  }

  function At(s: State, e: nat, v: nat): Pte {
    if Maps(s, e, v) then s.procs[e].space[v] else Pte(0, Perm(false, false, false, false, false, false, 0))
  }

  ghost predicate IsFree(s: State, p: Page) {
    forall e, v :: Maps(s, e, v) ==> At(s, e, v).page != p
  }

  function Zeros(): seq<Byte> {
    seq(PGSIZE, _ => 0)
  }

  // ---------------------------------------------------------------- the steps

  datatype Action =
    | Write(e: nat, v: nat, k: nat, b: Byte)
    | Fault(e: nat, v: nat)
    | HandAlloc(e: nat, p: Page)
    | HandCopy(e: nat)
    | HandMap(e: nat)
    | HandUnmap(e: nat)
    | ForkBegin(e: nat, c: nat)
    | ScanSkip(e: nat)
    | ScanDup(e: nat)
    | DupShare(e: nat)
    | DupCow(e: nat)
    | DupOwn(e: nat)
    | DupRead(e: nat)
    | ForkStack(e: nat, p: Page)
    | ForkStart(e: nat)
    | Alloc(e: nat, v: nat, perm: Perm, p: Page)
    | Unmap(e: nat, v: nat)
    | MapShared(e: nat, v: nat, w: nat)
    | Exit(e: nat)

  /** The program of e itself can take a step: it runs and its handler does not. */
  predicate Ready(s: State, e: nat) {
    e in s.procs && s.procs[e].runnable && s.procs[e].hand.Quiet?
  }

  ghost predicate Enabled(s: State, a: Action) {
    match a
    case Write(e, v, k, b) => Ready(s, e) && Maps(s, e, v) && v != PFTEMP && Writable(At(s, e, v).perm) && k < PGSIZE
    case Fault(e, v) => Ready(s, e) && Maps(s, e, v) && IsCow(At(s, e, v).perm)
    case HandAlloc(e, p) => e in s.procs && s.procs[e].hand.Faulted? && IsFree(s, p)
    case HandCopy(e) => e in s.procs && s.procs[e].hand.Copying? && s.procs[e].hand.k < PGSIZE
    case HandMap(e) => e in s.procs && s.procs[e].hand.Copying? && s.procs[e].hand.k == PGSIZE
    case HandUnmap(e) => e in s.procs && s.procs[e].hand.Mapped?
    case ForkBegin(e, c) => Ready(s, e) && s.procs[e].main.Idle? && c !in s.procs
    case ScanSkip(e) => Ready(s, e) && s.procs[e].main.Scan? && s.procs[e].main.next < UEND
                     && (s.procs[e].main.next == XSTACK || !Maps(s, e, s.procs[e].main.next))
    case ScanDup(e) => Ready(s, e) && s.procs[e].main.Scan? && s.procs[e].main.next < UEND
                    && s.procs[e].main.next != XSTACK && Maps(s, e, s.procs[e].main.next)
    case DupShare(e) => Ready(s, e) && s.procs[e].main.Dup? && IsShared(s.procs[e].main.snap)
    case DupCow(e) => Ready(s, e) && s.procs[e].main.Dup? && !IsShared(s.procs[e].main.snap)
                   && Copied(s.procs[e].main.snap)
    case DupOwn(e) => Ready(s, e) && s.procs[e].main.DupMid?
    case DupRead(e) => Ready(s, e) && s.procs[e].main.Dup? && !IsShared(s.procs[e].main.snap)
                    && !Copied(s.procs[e].main.snap) && UserBits(s.procs[e].main.snap) == RO
    case ForkStack(e, p) => Ready(s, e) && s.procs[e].main.Scan? && s.procs[e].main.next == UEND && IsFree(s, p)
    case ForkStart(e) => Ready(s, e) && s.procs[e].main.Finish?
    case Alloc(e, v, perm, p) => Ready(s, e) && s.procs[e].main.Idle? && v != PFTEMP && IsFree(s, p)
                              && (perm == RO || perm == RW || perm == SHARED)
    case Unmap(e, v) => Ready(s, e) && s.procs[e].main.Idle? && v != PFTEMP
    case MapShared(e, v, w) => Ready(s, e) && s.procs[e].main.Idle? && Maps(s, e, v) && v != PFTEMP
                            && IsShared(At(s, e, v).perm) && w != PFTEMP
    case Exit(e) => e in s.procs && s.procs[e].runnable
  }

  function Put(s: State, e: nat, x: Proc): State {
    s.(procs := s.procs[e := x])
  }

  function Remap(s: State, e: nat, v: nat, x: Pte): State {
    if e in s.procs then Put(s, e, s.procs[e].(space := s.procs[e].space[v := x])) else s
  }

  function Demap(s: State, e: nat, v: nat): State {
    if e in s.procs then Put(s, e, s.procs[e].(space := s.procs[e].space - {v})) else s
  }

  function Goto(s: State, e: nat, m: Main): State {
    if e in s.procs then Put(s, e, s.procs[e].(main := m)) else s
  }

  function Handle(s: State, e: nat, h: Handler): State {
    if e in s.procs then Put(s, e, s.procs[e].(hand := h)) else s
  }

  function Store(s: State, p: Page, k: nat, b: Byte): State {
    if p in s.mem && k < |s.mem[p]| then s.(mem := s.mem[p := s.mem[p][k := b]]) else s
  }

  function ByteAt(s: State, p: Page, k: nat): Byte {
    if p in s.mem && k < |s.mem[p]| then s.mem[p][k] else 0
  }

  // ---------------------------------------------------------------- the invariant

  /** Environment e has given f its copy-on-write mapping of page v but not remapped its own yet. */
  predicate MidDup(s: State, e: nat, f: nat, v: nat) {
    e in s.procs && s.procs[e].main == DupMid(f, v)
  }

  /** The fault handler of e has its new page at both PFTEMP and v. */
  predicate MidFault(s: State, e: nat, v: nat) {
    e in s.procs && s.procs[e].hand == Mapped(v)
  }

  /** Two mappings of one page: both shared, or neither writable, or a step is half done. */
  predicate Compat(s: State, e: nat, v: nat, f: nat, w: nat) {
    var a, b := At(s, e, v).perm, At(s, f, w).perm;
    || (IsShared(a) && IsShared(b))
    || (!Writable(a) && !Writable(b))
    || (e == f && MidFault(s, e, v) && w == PFTEMP)
    || (e == f && MidFault(s, e, w) && v == PFTEMP)
    || (v == w && MidDup(s, e, f, v) && IsCow(b))
    || (v == w && MidDup(s, f, e, v) && IsCow(a))
  }

  ghost predicate Pairs(s: State) {
    forall e, v, f, w :: Maps(s, e, v) && Maps(s, f, w) && (e != f || v != w) && At(s, e, v).page == At(s, f, w).page
      ==> Compat(s, e, v, f, w)
  }

  predicate SameChild(m: Main, n: Main) {
    !m.Idle? && !n.Idle? && m.child == n.child
  }

  predicate HandOk(s: State, e: nat)
    requires e in s.procs
  {
    var P := s.procs[e];
    match P.hand
    case Quiet => PFTEMP !in P.space
    case Faulted(v) => P.runnable && PFTEMP !in P.space && v != PFTEMP && v in P.space && IsCow(P.space[v].perm)
    case Copying(v, k) =>
      && P.runnable && PFTEMP in P.space && P.space[PFTEMP].perm == RW && v != PFTEMP && v in P.space
         && IsCow(P.space[v].perm)
      && k <= PGSIZE && P.space[PFTEMP].page in s.mem && P.space[v].page in s.mem
      && |s.mem[P.space[PFTEMP].page]| == |s.mem[P.space[v].page]| == PGSIZE
      && s.mem[P.space[PFTEMP].page][..k] == s.mem[P.space[v].page][..k]
    case Mapped(v) =>
      && P.runnable && v != PFTEMP && v in P.space && PFTEMP in P.space && P.space[v] == P.space[PFTEMP]
      && P.space[v].perm == RW
  }

  /** y is what duppage makes of x for the child: shared pages and read-only ones are common, others copy-on-write. */
  predicate Alike(x: Pte, y: Pte) {
    if IsShared(x.perm) then y == Pte(x.page, UserBits(x.perm))
    else if Copied(x.perm) then y.perm == COW
    else y == Pte(x.page, RO)
  }

  predicate AlikeAt(s: State, e: nat, c: nat, v: nat) {
    && (Maps(s, e, v) <==> Maps(s, c, v))
    && (Maps(s, e, v) ==> Alike(At(s, e, v), At(s, c, v)))
  }

  /** Below n the child has a mapping for exactly the pages its parent has, of the same kind; above, none. */
  ghost predicate Covered(s: State, e: nat, c: nat, n: nat)
    requires e in s.procs && c in s.procs
  {
    && (forall v :: UTEXT <= v < n && v != XSTACK ==> AlikeAt(s, e, c, v))
    && (forall v: nat :: Maps(s, c, v) && v != XSTACK ==> UTEXT <= v < n)
  }

  /** The child has an exception stack it can write to. */
  predicate HasStack(s: State, c: nat) {
    Maps(s, c, XSTACK) && At(s, c, XSTACK).perm == RW
  }

  ghost predicate MainOk(s: State, e: nat)
    requires e in s.procs
  {
    var P := s.procs[e];
    P.main.Idle? ||
    (var c := P.main.child;
     && P.runnable && c in s.procs && c != e && !s.procs[c].runnable && s.procs[c].main.Idle? && s.procs[c].hand.Quiet?
     && (if P.main.Finish? then HasStack(s, c) else !Maps(s, c, XSTACK))
     && match P.main
        case Idle => true
        case Scan(_, n) => UTEXT <= n <= UEND && Covered(s, e, c, n)
        case Dup(_, n, snap) =>
          && UTEXT <= n < UEND && n != XSTACK && Covered(s, e, c, n) && n in P.space
          && (IsShared(snap) <==> IsShared(P.space[n].perm))
          && (IsShared(snap) || !Copied(snap) ==> P.space[n].perm == snap)
          && (Copied(snap) <==> Copied(P.space[n].perm))
        case DupMid(_, n) => UTEXT <= n < UEND && n != XSTACK && Covered(s, e, c, n + 1) && n in P.space
            && !IsShared(P.space[n].perm) && Copied(P.space[n].perm)
        case Finish(_) => Covered(s, e, c, UEND))
  }

  ghost predicate ProcOk(s: State, e: nat)
    requires e in s.procs
  {
    HandOk(s, e) && MainOk(s, e)
  }

  predicate PageOk(s: State, e: nat, v: nat) {
    At(s, e, v).page in s.mem && |s.mem[At(s, e, v).page]| == PGSIZE
  }

  ghost predicate OneParent(s: State) {
    forall e, f :: e in s.procs && f in s.procs && SameChild(s.procs[e].main, s.procs[f].main) ==> e == f
  }

  ghost predicate ProcsOk(s: State) {
    forall e :: e in s.procs ==> ProcOk(s, e)
  }

  ghost predicate PagesOk(s: State) {
    forall e, v :: Maps(s, e, v) ==> PageOk(s, e, v)
  }

  ghost predicate Inv(s: State) {
    Pairs(s) && ProcsOk(s) && OneParent(s) && PagesOk(s)
  }

  // ---------------------------------------------------------------- what a step does

  /** The program counter of the actor is where the action starts. */
  predicate Staged(P: Proc, a: Action) {
    match a
    case HandAlloc(_, _) => P.hand.Faulted?
    case HandCopy(_) => P.hand.Copying?
    case HandMap(_) => P.hand.Copying?
    case HandUnmap(_) => P.hand.Mapped?
    case ScanSkip(_) => P.main.Scan?
    case ScanDup(_) => P.main.Scan?
    case DupShare(_) => P.main.Dup?
    case DupCow(_) => P.main.Dup?
    case DupRead(_) => P.main.Dup?
    case DupOwn(_) => P.main.DupMid?
    case ForkStack(_, _) => P.main.Scan?
    case ForkStart(_) => P.main.Finish?
    case _ => true
  }

  function Apply(s: State, a: Action): State
    requires a.e in s.procs && Staged(s.procs[a.e], a)
  {
    match a
    case Write(e, v, k, b) => Store(s, At(s, e, v).page, k, b)
    case Fault(e, v) => Handle(s, e, Faulted(v))
    case HandAlloc(e, p) =>
      Handle(Remap(s, e, PFTEMP, Pte(p, RW)).(mem := s.mem[p := Zeros()]), e, Copying(s.procs[e].hand.v, 0))
    case HandCopy(e) =>
      var h := s.procs[e].hand;
      Handle(Store(s, At(s, e, PFTEMP).page, h.k, ByteAt(s, At(s, e, h.v).page, h.k)), e, Copying(h.v, h.k + 1))
    case HandMap(e) =>
      var v := s.procs[e].hand.v;
      Handle(Remap(s, e, v, Pte(At(s, e, PFTEMP).page, RW)), e, Mapped(v))
    case HandUnmap(e) => Handle(Demap(s, e, PFTEMP), e, Quiet)
    case ForkBegin(e, c) =>
      Goto(Put(s, c, Proc(map[], Idle, Quiet, false)), e, Scan(c, UTEXT))
    case ScanSkip(e) => Goto(s, e, Scan(s.procs[e].main.child, s.procs[e].main.next + 1))
    case ScanDup(e) =>
      var m := s.procs[e].main;
      Goto(s, e, Dup(m.child, m.next, At(s, e, m.next).perm))
    case DupShare(e) =>
      var m := s.procs[e].main;
      Goto(Remap(s, m.child, m.next, Pte(At(s, e, m.next).page, UserBits(m.snap))), e, Scan(m.child, m.next + 1))
    case DupCow(e) =>
      var m := s.procs[e].main;
      Goto(Remap(s, m.child, m.next, Pte(At(s, e, m.next).page, COW)), e, DupMid(m.child, m.next))
    case DupOwn(e) =>
      var m := s.procs[e].main;
      Goto(Remap(s, e, m.next, Pte(At(s, e, m.next).page, COW)), e, Scan(m.child, m.next + 1))
    case DupRead(e) =>
      var m := s.procs[e].main;
      Goto(Remap(s, m.child, m.next, Pte(At(s, e, m.next).page, RO)), e, Scan(m.child, m.next + 1))
    case ForkStack(e, p) =>
      var c := s.procs[e].main.child;
      Goto(Remap(s, c, XSTACK, Pte(p, RW)).(mem := s.mem[p := Zeros()]), e, Finish(c))
    case ForkStart(e) =>
      var c := s.procs[e].main.child;
      Goto(if c in s.procs then Put(s, c, s.procs[c].(runnable := true)) else s, e, Idle)
    case Alloc(e, v, perm, p) => Remap(s, e, v, Pte(p, perm)).(mem := s.mem[p := Zeros()])
    case Unmap(e, v) => Demap(s, e, v)
    case MapShared(e, v, w) => Remap(s, e, w, Pte(At(s, e, v).page, SHARED))
    case Exit(e) => s.(procs := s.procs - {e})
  }

  // ---------------------------------------------------------------- pairs of mappings

  /** Outside (e0, v0) the mappings of t are those of s, and half-done steps elsewhere go on. */
  ghost predicate Elsewhere(s: State, t: State, e0: nat, v0: nat) {
    && (forall e, v :: Maps(t, e, v) && (e != e0 || v != v0) ==> Maps(s, e, v) && At(t, e, v) == At(s, e, v))
    && (forall e :: e in t.procs && e in s.procs && s.procs[e].hand.Mapped? ==>
          t.procs[e].hand == s.procs[e].hand || (e == e0 && v0 == PFTEMP))
    && (forall e :: e in t.procs && e in s.procs && s.procs[e].main.DupMid? ==>
          t.procs[e].main == s.procs[e].main || (e == e0 && v0 == s.procs[e].main.next))
  }

  lemma {:induction false} PairsKeep(s: State, t: State, e0: nat, v0: nat)
    requires Pairs(s) && Elsewhere(s, t, e0, v0)
    requires Maps(t, e0, v0) ==>
               forall f, w :: Maps(t, f, w) && (f != e0 || w != v0) && At(t, f, w).page == At(t, e0, v0).page ==>
                 Compat(t, e0, v0, f, w)
    ensures Pairs(t)
  {
    forall e: nat, v: nat, f: nat, w: nat | Maps(t, e, v) && Maps(t, f, w) && (e != f || v != w)
        && At(t, e, v).page == At(t, f, w).page
      ensures Compat(t, e, v, f, w)
    {
      if (e, v) == (e0, v0) {
      } else if (f, w) == (e0, v0) {
        assert Compat(t, e0, v0, e, v);
      } else {
        assert Compat(s, e, v, f, w);
      }
    }
  }

  /** The mapping (e0, v0) is new and its page was free. */
  lemma {:induction false} PairsFresh(s: State, t: State, e0: nat, v0: nat)
    requires Pairs(s) && Elsewhere(s, t, e0, v0) && IsFree(s, At(t, e0, v0).page)
    ensures Pairs(t)
  {
    PairsKeep(s, t, e0, v0);
  }

  /** What else can name the page of a mapping of a running environment. */
  lemma {:induction false} Rivals(s: State, e: nat, v: nat, f: nat, w: nat)
    requires Inv(s) && Maps(s, e, v) && Maps(s, f, w) && (e != f || v != w) && At(s, e, v).page == At(s, f, w).page
    requires s.procs[e].runnable
    ensures var a, b := At(s, e, v).perm, At(s, f, w).perm;
            || (IsShared(a) && IsShared(b))
            || (!Writable(a) && !Writable(b))
            || (e == f && ((MidFault(s, e, v) && w == PFTEMP) || (MidFault(s, e, w) && v == PFTEMP)))
            || (v == w && MidDup(s, e, f, v) && IsCow(b))
  {
    assert Compat(s, e, v, f, w);
    if f in s.procs { assert ProcOk(s, f); }
  }

  // ---------------------------------------------------------------- one environment

  predicate SamePage(s: State, t: State, p: Page) {
    p in s.mem && p in t.mem && s.mem[p] == t.mem[p]
  }

  /** A process that did not move, whose pages did not change, is still fine. */
  lemma {:induction false} HandKeep(s: State, t: State, e: nat)
    requires e in s.procs && e in t.procs && HandOk(s, e)
    requires t.procs[e].space == s.procs[e].space && t.procs[e].hand == s.procs[e].hand
    requires t.procs[e].runnable == s.procs[e].runnable
    requires s.procs[e].hand.Copying? ==>
               SamePage(s, t, At(s, e, PFTEMP).page) && SamePage(s, t, At(s, e, s.procs[e].hand.v).page)
    ensures HandOk(t, e)
  {
  }

  /** Only a private page that is writable or copy-on-write can change, and it stays one. */
  predicate PteKeep(x: Pte, y: Pte) {
    x == y || (!IsShared(x.perm) && Copied(x.perm) && !IsShared(y.perm) && Copied(y.perm))
  }

  /** The same for its progress through fork, if its child stays put as well. */
  lemma {:induction false} MainKeep(s: State, t: State, e: nat)
    requires e in s.procs && e in t.procs && MainOk(s, e)
    requires t.procs[e].main == s.procs[e].main && t.procs[e].runnable == s.procs[e].runnable
    requires t.procs[e].main.Idle? || forall v :: v != PFTEMP ==>
               && (v in t.procs[e].space <==> v in s.procs[e].space)
               && (v in t.procs[e].space ==> PteKeep(s.procs[e].space[v], t.procs[e].space[v]))
    requires !s.procs[e].main.Idle? && s.procs[e].main.child in s.procs ==>
               var c := s.procs[e].main.child; c in t.procs && t.procs[c] == s.procs[c]
    ensures MainOk(t, e)
  {
    if !s.procs[e].main.Idle? {
      var c := s.procs[e].main.child;
      assert forall v :: v != PFTEMP ==> (Maps(t, e, v) <==> Maps(s, e, v));
      assert forall v :: (Maps(t, c, v) <==> Maps(s, c, v)) && At(t, c, v) == At(s, c, v);
      assert forall v :: v != PFTEMP && AlikeAt(s, e, c, v) ==> AlikeAt(t, e, c, v);
      assert forall n: nat :: Covered(s, e, c, n) ==> Covered(t, e, c, n);
    }
  }

  /** Pages below n are as they were, and what n needs is there if the scan has passed it. */
  lemma {:induction false} CoverKeep(s: State, t: State, e: nat, c: nat, n: nat, m: nat)
    requires e in s.procs && c in s.procs && e in t.procs && c in t.procs && Covered(s, e, c, n) && UTEXT <= n <= m
    requires m <= n + 1 && (m > n && n != XSTACK ==> AlikeAt(t, e, c, n))
    requires forall v :: UTEXT <= v < n ==> (Maps(t, e, v) <==> Maps(s, e, v)) && PteKeep(At(s, e, v), At(t, e, v))
    requires forall v :: v != XSTACK && (v != n || m == n) ==> (Maps(t, c, v) <==> Maps(s, c, v))
    requires forall v :: v != XSTACK && UTEXT <= v < n ==> At(t, c, v) == At(s, c, v)
    ensures Covered(t, e, c, m)
  {
    forall v | UTEXT <= v < m && v != XSTACK ensures AlikeAt(t, e, c, v) {
      if v < n { assert AlikeAt(s, e, c, v); }
    }
  }

  /** No one else stores into the two pages a fault handler is copying between. */
  lemma {:induction false} CopyAlone(s: State, e: nat, v: nat, f: nat, w: nat)
    requires Inv(s) && f in s.procs && s.procs[f].hand.Copying? && (w == PFTEMP || w == s.procs[f].hand.v)
    requires Maps(s, e, v) && s.procs[e].runnable && Writable(At(s, e, v).perm) && v != PFTEMP
    ensures Maps(s, f, w) && At(s, e, v).page != At(s, f, w).page
  {
    assert ProcOk(s, f);
    assert ProcOk(s, e);
    if At(s, e, v).page == At(s, f, w).page && (e != f || v != w) {
      Rivals(s, e, v, f, w);
    }
  }

  // ---------------------------------------------------------------- every step keeps the invariant

  lemma {:induction false} PairsSame(s: State, t: State)
    requires Pairs(s)
    requires forall e, v :: Maps(t, e, v) ==> Maps(s, e, v) && At(t, e, v) == At(s, e, v)
    requires forall e :: e in t.procs && e in s.procs ==>
               && (s.procs[e].hand.Mapped? ==> t.procs[e].hand == s.procs[e].hand)
               && (s.procs[e].main.DupMid? ==> t.procs[e].main == s.procs[e].main)
    ensures Pairs(t)
  {
    forall e: nat, v: nat, f: nat, w: nat | Maps(t, e, v) && Maps(t, f, w) && (e != f || v != w)
        && At(t, e, v).page == At(t, f, w).page
      ensures Compat(t, e, v, f, w)
    {
      assert Compat(s, e, v, f, w);
    }
  }

  /** Everybody but e and its child c is as before, and so is the memory they look at. */
  ghost predicate Others(s: State, t: State, e: nat, c: nat) {
    forall f :: f in t.procs && f != e && f != c ==> f in s.procs && t.procs[f] == s.procs[f]
  }

  /** A page that one step of e may overwrite: one e alone may store into, or a free one. */
  ghost predicate Overwritable(s: State, e: nat, p: Page) {
    || IsFree(s, p)
    || (exists v :: Maps(s, e, v) && v != PFTEMP && At(s, e, v).page == p && Writable(At(s, e, v).perm))
    || (e in s.procs && s.procs[e].hand.Copying? && Maps(s, e, PFTEMP) && At(s, e, PFTEMP).page == p)
  }

  lemma {:induction false} OtherPages(s: State, e: nat, p: Page, f: nat, w: nat)
    requires Inv(s) && e in s.procs && s.procs[e].runnable && Overwritable(s, e, p) && f in s.procs && f != e
    requires s.procs[f].hand.Copying? && (w == PFTEMP || w == s.procs[f].hand.v)
    ensures Maps(s, f, w) && At(s, f, w).page != p
  {
    assert ProcOk(s, f) && ProcOk(s, e);
    assert Maps(s, f, w);
    if !IsFree(s, p) {
      if v :| Maps(s, e, v) && v != PFTEMP && At(s, e, v).page == p && Writable(At(s, e, v).perm) {
        CopyAlone(s, e, v, f, w);
      } else if At(s, f, w).page == p {
        Rivals(s, e, PFTEMP, f, w);
      }
    }
  }

  /** A running environment, and the child it is making, are nobody else's children. */
  lemma {:induction false} NotAChild(s: State, e: nat, f: nat)
    requires Inv(s) && e in s.procs && f in s.procs && !s.procs[f].main.Idle?
    ensures s.procs[e].runnable ==> s.procs[f].main.child != e
    ensures s.procs[f].main.child in s.procs
    ensures f != e && !s.procs[e].main.Idle? ==> s.procs[f].main.child != s.procs[e].main.child
  {
    assert ProcOk(s, f);
  }

  /** All processes but e and its child c, after a step of e that overwrites page p at most. */
  lemma {:induction false} OthersOk(s: State, t: State, e: nat, c: nat, p: Page)
    requires Inv(s) && Others(s, t, e, c) && e in s.procs && s.procs[e].runnable && s.procs.Keys <= t.procs.Keys
    requires c == e || c !in s.procs || (!s.procs[e].main.Idle? && s.procs[e].main.child == c)
    requires forall q :: q in s.mem && q != p ==> q in t.mem && t.mem[q] == s.mem[q]
    requires Overwritable(s, e, p) || t.mem == s.mem
    ensures forall f :: f in t.procs && f != e && f != c ==> ProcOk(t, f)
  {
    forall f | f in t.procs && f != e && f != c ensures ProcOk(t, f) {
      assert ProcOk(s, f);
      if !s.procs[f].main.Idle? {
        NotAChild(s, e, f);
      }
      if s.procs[f].hand.Copying? && t.mem != s.mem {
        OtherPages(s, e, p, f, PFTEMP);
        OtherPages(s, e, p, f, s.procs[f].hand.v);
      }
      HandKeep(s, t, f);
      MainKeep(s, t, f);
    }
  }

  lemma {:induction false} ParentsKeep(s: State, t: State)
    requires OneParent(s)
    requires forall f :: f in t.procs && !t.procs[f].main.Idle? ==>
             f in s.procs && SameChild(s.procs[f].main, t.procs[f].main)
    ensures OneParent(t)
  {
  }

  lemma {:induction false} PagesKeep(s: State, t: State, e: nat, v: nat)
    requires PagesOk(s)
    requires forall f, w :: Maps(t, f, w) && (f != e || w != v) ==> Maps(s, f, w) && At(t, f, w) == At(s, f, w)
    requires forall q :: q in s.mem && |s.mem[q]| == PGSIZE ==> q in t.mem && |t.mem[q]| == PGSIZE
    requires Maps(t, e, v) ==> PageOk(t, e, v)
    ensures PagesOk(t)
  {
    forall f: nat, w: nat | Maps(t, f, w) ensures PageOk(t, f, w) {
      assert Maps(s, f, w) ==> PageOk(s, f, w);
    }
  }

  // Each of the following lemmas is about one kind of step: t is the state it leads to.

  lemma {:induction false} WriteProcs(s: State, e: nat, v: nat, k: nat, b: Byte, t: State)
    requires Inv(s) && Ready(s, e) && Maps(s, e, v) && v != PFTEMP && Writable(At(s, e, v).perm) && k < PGSIZE
    requires t == Store(s, At(s, e, v).page, k, b)
    ensures ProcsOk(t)
  {
    assert PageOk(s, e, v) && ProcOk(s, e);
    OthersOk(s, t, e, e, At(s, e, v).page);
    HandKeep(s, t, e);
    MainKeep(s, t, e);
  }

  lemma {:induction false} KeepWrite(s: State, e: nat, v: nat, k: nat, b: Byte, t: State)
    requires Inv(s) && Ready(s, e) && Maps(s, e, v) && v != PFTEMP && Writable(At(s, e, v).perm) && k < PGSIZE
    requires t == Store(s, At(s, e, v).page, k, b)
    ensures Inv(t)
  {
    assert PageOk(s, e, v) && ProcOk(s, e);
    PairsSame(s, t);
    ParentsKeep(s, t);
    PagesKeep(s, t, e, v);
    WriteProcs(s, e, v, k, b, t);
  }

  lemma {:induction false} KeepFault(s: State, e: nat, v: nat, t: State)
    requires Inv(s) && Ready(s, e) && Maps(s, e, v) && IsCow(At(s, e, v).perm)
    requires t == Handle(s, e, Faulted(v))
    ensures Inv(t)
  {
    assert PageOk(s, e, v) && ProcOk(s, e);
    PairsSame(s, t);
    OthersOk(s, t, e, e, 0);
    ParentsKeep(s, t);
    MainKeep(s, t, e);
    PagesKeep(s, t, e, v);
  }

  lemma {:induction false} HandAllocProcs(s: State, e: nat, p: Page, t: State)
    requires Inv(s) && e in s.procs && s.procs[e].hand.Faulted? && IsFree(s, p)
    requires t == Handle(Remap(s, e, PFTEMP, Pte(p, RW)).(mem := s.mem[p := Zeros()]), e, Copying(s.procs[e].hand.v, 0))
    ensures ProcsOk(t)
  {
    assert ProcOk(s, e);
    assert PageOk(s, e, s.procs[e].hand.v);
    OthersOk(s, t, e, e, p);
    MainKeep(s, t, e);
  }

  lemma {:induction false} KeepHandAlloc(s: State, e: nat, p: Page, t: State)
    requires Inv(s) && e in s.procs && s.procs[e].hand.Faulted? && IsFree(s, p)
    requires t == Handle(Remap(s, e, PFTEMP, Pte(p, RW)).(mem := s.mem[p := Zeros()]), e, Copying(s.procs[e].hand.v, 0))
    ensures Inv(t)
  {
    assert ProcOk(s, e);
    assert PageOk(s, e, s.procs[e].hand.v);
    PairsFresh(s, t, e, PFTEMP);
    ParentsKeep(s, t);
    PagesKeep(s, t, e, PFTEMP);
    HandAllocProcs(s, e, p, t);
  }

  lemma {:induction false} HandCopyProcs(s: State, e: nat, t: State)
    requires Inv(s) && e in s.procs && s.procs[e].hand.Copying? && s.procs[e].hand.k < PGSIZE
    requires var h := s.procs[e].hand;
             t == Handle(Store(s, At(s, e, PFTEMP).page, h.k, ByteAt(s, At(s, e, h.v).page, h.k)), e,
                 Copying(h.v, h.k + 1))
    ensures ProcsOk(t)
  {
    var v, k := s.procs[e].hand.v, s.procs[e].hand.k;
    assert ProcOk(s, e);
    var p, q := At(s, e, PFTEMP).page, At(s, e, v).page;
    OthersOk(s, t, e, e, p);
    MainKeep(s, t, e);
    assert t.mem[p][..k + 1] == s.mem[p][..k] + [s.mem[q][k]];
    assert s.mem[q][..k + 1] == s.mem[q][..k] + [s.mem[q][k]];
  }

  lemma {:induction false} KeepHandCopy(s: State, e: nat, t: State)
    requires Inv(s) && e in s.procs && s.procs[e].hand.Copying? && s.procs[e].hand.k < PGSIZE
    requires var h := s.procs[e].hand;
             t == Handle(Store(s, At(s, e, PFTEMP).page, h.k, ByteAt(s, At(s, e, h.v).page, h.k)), e,
                 Copying(h.v, h.k + 1))
    ensures Inv(t)
  {
    var v, k := s.procs[e].hand.v, s.procs[e].hand.k;
    assert ProcOk(s, e);
    var p, q := At(s, e, PFTEMP).page, At(s, e, v).page;
    assert p == q ==> Compat(s, e, PFTEMP, e, v);
    PairsSame(s, t);
    ParentsKeep(s, t);
    PagesKeep(s, t, e, PFTEMP);
    HandCopyProcs(s, e, t);
  }

  lemma {:induction false} HandMapPairs(s: State, e: nat, v: nat, t: State)
    requires Inv(s) && e in s.procs && s.procs[e].hand.Copying? && s.procs[e].hand.v == v
    requires t == Handle(Remap(s, e, v, Pte(At(s, e, PFTEMP).page, RW)), e, Mapped(v))
    ensures Pairs(t)
  {
    assert ProcOk(s, e);
    forall f: nat, w: nat | Maps(t, f, w) && (f != e || w != v) && At(t, f, w).page == At(t, e, v).page
      ensures Compat(t, e, v, f, w)
    {
      if f != e || w != PFTEMP {
        Rivals(s, e, PFTEMP, f, w);
      }
    }
    PairsKeep(s, t, e, v);
  }

  lemma {:induction false} HandMapProcs(s: State, e: nat, v: nat, t: State)
    requires Inv(s) && e in s.procs && s.procs[e].hand.Copying? && s.procs[e].hand.v == v
    requires t == Handle(Remap(s, e, v, Pte(At(s, e, PFTEMP).page, RW)), e, Mapped(v))
    ensures ProcsOk(t)
  {
    assert ProcOk(s, e);
    OthersOk(s, t, e, e, 0);
    MainKeep(s, t, e);
    assert PageOk(s, e, PFTEMP);
  }

  lemma {:induction false} KeepHandMap(s: State, e: nat, v: nat, t: State)
    requires Inv(s) && e in s.procs && s.procs[e].hand.Copying? && s.procs[e].hand.v == v
    requires t == Handle(Remap(s, e, v, Pte(At(s, e, PFTEMP).page, RW)), e, Mapped(v))
    ensures Inv(t)
  {
    HandMapPairs(s, e, v, t);
    assert ProcOk(s, e);
    ParentsKeep(s, t);
    assert PageOk(s, e, PFTEMP);
    PagesKeep(s, t, e, v);
    HandMapProcs(s, e, v, t);
  }

  lemma {:induction false} HandUnmapProcs(s: State, e: nat, t: State)
    requires Inv(s) && e in s.procs && s.procs[e].hand.Mapped?
    requires t == Handle(Demap(s, e, PFTEMP), e, Quiet)
    ensures ProcsOk(t)
  {
    assert ProcOk(s, e);
    OthersOk(s, t, e, e, 0);
    MainKeep(s, t, e);
  }

  lemma {:induction false} KeepHandUnmap(s: State, e: nat, t: State)
    requires Inv(s) && e in s.procs && s.procs[e].hand.Mapped?
    requires t == Handle(Demap(s, e, PFTEMP), e, Quiet)
    ensures Inv(t)
  {
    assert ProcOk(s, e);
    PairsKeep(s, t, e, PFTEMP);
    ParentsKeep(s, t);
    PagesKeep(s, t, e, PFTEMP);
    HandUnmapProcs(s, e, t);
  }

  lemma {:induction false} ForkBeginParents(s: State, e: nat, c: nat, t: State)
    requires Inv(s) && e in s.procs && s.procs[e].main.Idle? && c !in s.procs
    requires t == Goto(Put(s, c, Proc(map[], Idle, Quiet, false)), e, Scan(c, UTEXT))
    ensures OneParent(t)
  {
    forall f | f in s.procs && !s.procs[f].main.Idle? ensures s.procs[f].main.child in s.procs {
      NotAChild(s, e, f);
    }
  }

  lemma {:induction false} ForkBeginProcs(s: State, e: nat, c: nat, t: State)
    requires Inv(s) && Ready(s, e) && s.procs[e].main.Idle? && c !in s.procs
    requires t == Goto(Put(s, c, Proc(map[], Idle, Quiet, false)), e, Scan(c, UTEXT))
    ensures ProcsOk(t)
  {
    assert ProcOk(s, e);
    OthersOk(s, t, e, c, 0);
    HandKeep(s, t, e);
  }

  lemma {:induction false} KeepForkBegin(s: State, e: nat, c: nat, t: State)
    requires Inv(s) && Ready(s, e) && s.procs[e].main.Idle? && c !in s.procs
    requires t == Goto(Put(s, c, Proc(map[], Idle, Quiet, false)), e, Scan(c, UTEXT))
    ensures Inv(t)
  {
    assert ProcOk(s, e);
    PairsSame(s, t);
    ForkBeginParents(s, e, c, t);
    PagesKeep(s, t, e, 0);
    ForkBeginProcs(s, e, c, t);
  }

  lemma {:induction false} ScanSkipProcs(s: State, e: nat, c: nat, n: nat, t: State)
    requires Inv(s) && Ready(s, e) && s.procs[e].main == Scan(c, n) && n < UEND && (n == XSTACK || !Maps(s, e, n))
    requires t == Goto(s, e, Scan(c, n + 1))
    ensures ProcsOk(t)
  {
    assert ProcOk(s, e);
    OthersOk(s, t, e, e, 0);
    HandKeep(s, t, e);
    assert MainOk(t, e) by {
      assert forall f, v :: (Maps(t, f, v) <==> Maps(s, f, v)) && At(t, f, v) == At(s, f, v);
      CoverKeep(s, t, e, c, n, n + 1);
    }
  }

  lemma {:induction false} KeepScanSkip(s: State, e: nat, c: nat, n: nat, t: State)
    requires Inv(s) && Ready(s, e) && s.procs[e].main == Scan(c, n) && n < UEND && (n == XSTACK || !Maps(s, e, n))
    requires t == Goto(s, e, Scan(c, n + 1))
    ensures Inv(t)
  {
    assert ProcOk(s, e);
    PairsSame(s, t);
    ParentsKeep(s, t);
    PagesKeep(s, t, e, 0);
    ScanSkipProcs(s, e, c, n, t);
  }

  lemma {:induction false} ScanDupProcs(s: State, e: nat, c: nat, n: nat, t: State)
    requires Inv(s) && Ready(s, e) && s.procs[e].main == Scan(c, n) && n < UEND && n != XSTACK && Maps(s, e, n)
    requires t == Goto(s, e, Dup(c, n, At(s, e, n).perm))
    ensures ProcsOk(t)
  {
    assert ProcOk(s, e);
    OthersOk(s, t, e, e, 0);
    HandKeep(s, t, e);
    assert MainOk(t, e) by {
      assert forall f, v :: (Maps(t, f, v) <==> Maps(s, f, v)) && At(t, f, v) == At(s, f, v);
      CoverKeep(s, t, e, c, n, n);
    }
  }

  lemma {:induction false} KeepScanDup(s: State, e: nat, c: nat, n: nat, t: State)
    requires Inv(s) && Ready(s, e) && s.procs[e].main == Scan(c, n) && n < UEND && n != XSTACK && Maps(s, e, n)
    requires t == Goto(s, e, Dup(c, n, At(s, e, n).perm))
    ensures Inv(t)
  {
    assert ProcOk(s, e);
    PairsSame(s, t);
    ParentsKeep(s, t);
    PagesKeep(s, t, e, 0);
    ScanDupProcs(s, e, c, n, t);
  }

  /** The three branches of duppage, for a page with the permissions x. */
  predicate DupCase(x: Perm, perm: Perm, c: nat, n: nat, m: Main) {
    || (m == Scan(c, n + 1) && IsShared(x) && perm == UserBits(x))
    || (m == Scan(c, n + 1) && !Copied(x) && perm == RO)
    || (m == DupMid(c, n) && !IsShared(x) && Copied(x) && perm == COW)
  }

  /** The new mapping of the child is compatible with every other mapping of that page. */
  lemma {:induction false} DupPairs(s: State, e: nat, c: nat, n: nat, perm: Perm, m: Main, t: State)
    requires Inv(s) && Ready(s, e) && s.procs[e].main.Dup? && s.procs[e].main.child == c && s.procs[e].main.next == n
    requires t == Goto(Remap(s, c, n, Pte(At(s, e, n).page, perm)), e, m)
    requires DupCase(At(s, e, n).perm, perm, c, n, m)
    ensures Pairs(t)
  {
    assert ProcOk(s, e);
    assert ProcOk(s, c);
    forall f: nat, w: nat | Maps(t, f, w) && (f != c || w != n) && At(t, f, w).page == At(t, c, n).page
      ensures Compat(t, c, n, f, w)
    {
      if f != e || w != n {
        Rivals(s, e, n, f, w);
      }
    }
    PairsKeep(s, t, c, n);
  }

  /** A new mapping of the child of e, whose scan goes on. */
  lemma {:induction false} DupRest(s: State, e: nat, c: nat, n: nat, x: Pte, m: Main, t: State)
    requires OneParent(s) && PagesOk(s) && e in s.procs && c in s.procs && c != e && SameChild(s.procs[e].main, m)
    requires x.page in s.mem && |s.mem[x.page]| == PGSIZE && t == Goto(Remap(s, c, n, x), e, m)
    ensures OneParent(t) && PagesOk(t)
  {
    ParentsKeep(s, t);
    PagesKeep(s, t, c, n);
  }

  /** One mapping of the child, as duppage makes it. */
  lemma {:induction false} DupProcs(s: State, e: nat, c: nat, n: nat, perm: Perm, m: Main, t: State)
    requires Inv(s) && Ready(s, e) && s.procs[e].main.Dup? && s.procs[e].main.child == c && s.procs[e].main.next == n
    requires t == Goto(Remap(s, c, n, Pte(At(s, e, n).page, perm)), e, m)
    requires DupCase(At(s, e, n).perm, perm, c, n, m)
    ensures ProcsOk(t)
  {
    assert ProcOk(s, e);
    assert ProcOk(s, c);
    OthersOk(s, t, e, c, 0);
    HandKeep(s, t, e);
    assert MainOk(t, e) by {
      assert forall v :: (Maps(t, c, v) <==> v == n || Maps(s, c, v)) && (v != n ==> At(t, c, v) == At(s, c, v));
      assert forall v :: (Maps(t, e, v) <==> Maps(s, e, v)) && At(t, e, v) == At(s, e, v);
      assert AlikeAt(t, e, c, n);
      CoverKeep(s, t, e, c, n, n + 1);
    }
    assert PageOk(s, e, n);
  }

  lemma {:induction false} KeepDup(s: State, e: nat, c: nat, n: nat, perm: Perm, m: Main, t: State)
    requires Inv(s) && Ready(s, e) && s.procs[e].main.Dup? && s.procs[e].main.child == c && s.procs[e].main.next == n
    requires t == Goto(Remap(s, c, n, Pte(At(s, e, n).page, perm)), e, m)
    requires DupCase(At(s, e, n).perm, perm, c, n, m)
    ensures Inv(t)
  {
    DupPairs(s, e, c, n, perm, m, t);
    DupProcs(s, e, c, n, perm, m, t);
    assert ProcOk(s, e);
    assert PageOk(s, e, n);
    DupRest(s, e, c, n, Pte(At(s, e, n).page, perm), m, t);
  }

  /** The parent's own mapping becomes copy-on-write: the end of duppage. */
  lemma {:induction false} DupOwnProcs(s: State, e: nat, c: nat, n: nat, t: State)
    requires Inv(s) && Ready(s, e) && s.procs[e].main == DupMid(c, n)
    requires t == Goto(Remap(s, e, n, Pte(At(s, e, n).page, COW)), e, Scan(c, n + 1))
    ensures ProcsOk(t)
  {
    assert ProcOk(s, e);
    OthersOk(s, t, e, e, 0);
    assert MainOk(t, e) by {
      assert forall f, v :: (Maps(t, f, v) <==> Maps(s, f, v)) && (f != e || v != n ==> At(t, f, v) == At(s, f, v));
      assert AlikeAt(s, e, c, n);
      CoverKeep(s, t, e, c, n + 1, n + 1);
    }
    assert PageOk(s, e, n);
  }

  lemma {:induction false} KeepDupOwn(s: State, e: nat, c: nat, n: nat, t: State)
    requires Inv(s) && Ready(s, e) && s.procs[e].main == DupMid(c, n)
    requires t == Goto(Remap(s, e, n, Pte(At(s, e, n).page, COW)), e, Scan(c, n + 1))
    ensures Inv(t)
  {
    assert ProcOk(s, e);
    forall f: nat, w: nat | Maps(t, f, w) && (f != e || w != n) && At(t, f, w).page == At(t, e, n).page
      ensures Compat(t, e, n, f, w)
    {
      Rivals(s, e, n, f, w);
    }
    PairsKeep(s, t, e, n);
    ParentsKeep(s, t);
    assert PageOk(s, e, n);
    PagesKeep(s, t, e, n);
    DupOwnProcs(s, e, c, n, t);
  }

  lemma {:induction false} ForkStackPairs(s: State, e: nat, c: nat, p: Page, t: State)
    requires Inv(s) && e in s.procs && s.procs[e].main == Scan(c, UEND) && c in s.procs && c != e && IsFree(s, p)
    requires t == Goto(Remap(s, c, XSTACK, Pte(p, RW)).(mem := s.mem[p := Zeros()]), e, Finish(c))
    ensures Pairs(t)
  {
    assert ProcOk(s, e);
    PairsFresh(s, t, c, XSTACK);
  }

  lemma {:induction false} ForkStackProcs(s: State, e: nat, c: nat, p: Page, t: State)
    requires Inv(s) && Ready(s, e) && s.procs[e].main == Scan(c, UEND) && IsFree(s, p)
    requires t == Goto(Remap(s, c, XSTACK, Pte(p, RW)).(mem := s.mem[p := Zeros()]), e, Finish(c))
    ensures ProcsOk(t)
  {
    assert ProcOk(s, e);
    assert ProcOk(s, c);
    OthersOk(s, t, e, c, p);
    HandKeep(s, t, e);
    assert MainOk(t, e) by {
      assert forall v :: v != XSTACK ==> (Maps(t, c, v) <==> Maps(s, c, v)) && At(t, c, v) == At(s, c, v);
      assert forall v :: (Maps(t, e, v) <==> Maps(s, e, v)) && At(t, e, v) == At(s, e, v);
      CoverKeep(s, t, e, c, UEND, UEND);
    }
  }

  lemma {:induction false} KeepForkStack(s: State, e: nat, c: nat, p: Page, t: State)
    requires Inv(s) && Ready(s, e) && s.procs[e].main == Scan(c, UEND) && IsFree(s, p)
    requires t == Goto(Remap(s, c, XSTACK, Pte(p, RW)).(mem := s.mem[p := Zeros()]), e, Finish(c))
    ensures Inv(t)
  {
    assert ProcOk(s, e);
    assert ProcOk(s, c);
    ForkStackPairs(s, e, c, p, t);
    ParentsKeep(s, t);
    PagesKeep(s, t, c, XSTACK);
    ForkStackProcs(s, e, c, p, t);
  }

  lemma {:induction false} ForkStartProcs(s: State, e: nat, c: nat, t: State)
    requires Inv(s) && Ready(s, e) && s.procs[e].main == Finish(c) && c in s.procs
    requires t == Goto(Put(s, c, s.procs[c].(runnable := true)), e, Idle)
    ensures ProcsOk(t)
  {
    assert ProcOk(s, e);
    assert ProcOk(s, c);
    OthersOk(s, t, e, c, 0);
    HandKeep(s, t, e);
  }

  lemma {:induction false} KeepForkStart(s: State, e: nat, c: nat, t: State)
    requires Inv(s) && Ready(s, e) && s.procs[e].main == Finish(c) && c in s.procs
    requires t == Goto(Put(s, c, s.procs[c].(runnable := true)), e, Idle)
    ensures Inv(t)
  {
    assert ProcOk(s, e);
    assert ProcOk(s, c);
    PairsSame(s, t);
    ParentsKeep(s, t);
    PagesKeep(s, t, e, 0);
    ForkStartProcs(s, e, c, t);
  }

  lemma {:induction false} AllocProcs(s: State, e: nat, v: nat, perm: Perm, p: Page, t: State)
    requires Inv(s) && Ready(s, e) && s.procs[e].main.Idle? && v != PFTEMP && IsFree(s, p)
    requires t == Remap(s, e, v, Pte(p, perm)).(mem := s.mem[p := Zeros()])
    ensures ProcsOk(t)
  {
    assert ProcOk(s, e);
    OthersOk(s, t, e, e, p);
  }

  lemma {:induction false} KeepAlloc(s: State, e: nat, v: nat, perm: Perm, p: Page, t: State)
    requires Inv(s) && Ready(s, e) && s.procs[e].main.Idle? && v != PFTEMP && IsFree(s, p)
    requires t == Remap(s, e, v, Pte(p, perm)).(mem := s.mem[p := Zeros()])
    ensures Inv(t)
  {
    assert ProcOk(s, e);
    PairsFresh(s, t, e, v);
    ParentsKeep(s, t);
    PagesKeep(s, t, e, v);
    AllocProcs(s, e, v, perm, p, t);
  }

  lemma {:induction false} UnmapProcs(s: State, e: nat, v: nat, t: State)
    requires Inv(s) && Ready(s, e) && s.procs[e].main.Idle? && v != PFTEMP
    requires t == Demap(s, e, v)
    ensures ProcsOk(t)
  {
    assert ProcOk(s, e);
    OthersOk(s, t, e, e, 0);
  }

  lemma {:induction false} KeepUnmap(s: State, e: nat, v: nat, t: State)
    requires Inv(s) && Ready(s, e) && s.procs[e].main.Idle? && v != PFTEMP
    requires t == Demap(s, e, v)
    ensures Inv(t)
  {
    assert ProcOk(s, e);
    PairsSame(s, t);
    ParentsKeep(s, t);
    PagesKeep(s, t, e, v);
    UnmapProcs(s, e, v, t);
  }

  lemma {:induction false} MapSharedProcs(s: State, e: nat, v: nat, w: nat, t: State)
    requires Inv(s) && Ready(s, e) && s.procs[e].main.Idle? && Maps(s, e, v) && IsShared(At(s, e, v).perm)
    requires w != PFTEMP
    requires t == Remap(s, e, w, Pte(At(s, e, v).page, SHARED))
    ensures ProcsOk(t)
  {
    assert ProcOk(s, e);
    OthersOk(s, t, e, e, 0);
    assert PageOk(s, e, v);
  }

  lemma {:induction false} KeepMapShared(s: State, e: nat, v: nat, w: nat, t: State)
    requires Inv(s) && Ready(s, e) && s.procs[e].main.Idle? && Maps(s, e, v) && IsShared(At(s, e, v).perm)
    requires w != PFTEMP
    requires t == Remap(s, e, w, Pte(At(s, e, v).page, SHARED))
    ensures Inv(t)
  {
    assert ProcOk(s, e);
    forall f: nat, u: nat | Maps(t, f, u) && (f != e || u != w) && At(t, f, u).page == At(t, e, w).page
      ensures Compat(t, e, w, f, u)
    {
      if f != e || u != v {
        Rivals(s, e, v, f, u);
      }
    }
    PairsKeep(s, t, e, w);
    ParentsKeep(s, t);
    assert PageOk(s, e, v);
    PagesKeep(s, t, e, w);
    MapSharedProcs(s, e, v, w, t);
  }

  lemma {:induction false} KeepExit(s: State, e: nat, t: State)
    requires Inv(s) && e in s.procs && s.procs[e].runnable
    requires t == s.(procs := s.procs - {e})
    ensures Inv(t)
  {
    PairsSame(s, t);
    forall f | f in t.procs ensures ProcOk(t, f) {
      assert ProcOk(s, f);
      if !s.procs[f].main.Idle? {
        NotAChild(s, e, f);
      }
      HandKeep(s, t, f);
      MainKeep(s, t, f);
    }
    ParentsKeep(s, t);
    PagesKeep(s, t, e, 0);
  }

  lemma {:induction false} HandlerKeeps(s: State, a: Action)
    requires Inv(s) && Enabled(s, a)
    requires a.Write? || a.Fault? || a.HandAlloc? || a.HandCopy? || a.HandMap? || a.HandUnmap?
    ensures Inv(Apply(s, a))
  {
    var t := Apply(s, a);
    match a
    case Write(e, v, k, b) => KeepWrite(s, e, v, k, b, t);
    case Fault(e, v) => KeepFault(s, e, v, t);
    case HandAlloc(e, p) => KeepHandAlloc(s, e, p, t);
    case HandCopy(e) => KeepHandCopy(s, e, t);
    case HandMap(e) => KeepHandMap(s, e, s.procs[e].hand.v, t);
    case HandUnmap(e) => KeepHandUnmap(s, e, t);
  }

  lemma {:induction false} DupBits(snap: Perm)
    ensures IsShared(snap) ==> IsShared(UserBits(snap))
    ensures !Copied(snap) ==> !Writable(snap)
    ensures IsCow(COW) && !Writable(RO) && !Writable(COW)
  {
  }

  lemma {:induction false} DupKeeps(s: State, a: Action)
    requires Inv(s) && Enabled(s, a) && (a.DupShare? || a.DupCow? || a.DupOwn? || a.DupRead?)
    ensures Inv(Apply(s, a))
  {
    if a.DupOwn? {
      KeepDupOwn(s, a.e, s.procs[a.e].main.child, s.procs[a.e].main.next, Apply(s, a));
    } else {
      DupChildKeeps(s, a, Apply(s, a));
    }
  }

  lemma {:induction false} DupChildKeeps(s: State, a: Action, t: State)
    requires Inv(s) && Enabled(s, a) && (a.DupShare? || a.DupCow? || a.DupRead?) && t == Apply(s, a)
    ensures Inv(t)
  {
    var e, m := a.e, s.procs[a.e].main;
    DupBits(m.snap);
    match a
    case DupShare(_) =>
      assert MainOk(s, e) by { assert ProcOk(s, e); }
      KeepDup(s, e, m.child, m.next, UserBits(m.snap), Scan(m.child, m.next + 1), t);
    case DupCow(_) =>
      assert MainOk(s, e) by { assert ProcOk(s, e); }
      KeepDup(s, e, m.child, m.next, COW, DupMid(m.child, m.next), t);
    case DupRead(_) =>
      assert MainOk(s, e) by { assert ProcOk(s, e); }
      KeepDup(s, e, m.child, m.next, RO, Scan(m.child, m.next + 1), t);
  }

  lemma {:induction false} ForkKeeps(s: State, a: Action)
    requires Inv(s) && Enabled(s, a) && (a.ScanSkip? || a.ScanDup? || a.ForkBegin? || a.ForkStack? || a.ForkStart?)
    ensures Inv(Apply(s, a))
  {
    var t := Apply(s, a);
    match a
    case ScanSkip(e) => KeepScanSkip(s, e, s.procs[e].main.child, s.procs[e].main.next, t);
    case ScanDup(e) => KeepScanDup(s, e, s.procs[e].main.child, s.procs[e].main.next, t);
    case ForkBegin(e, c) => KeepForkBegin(s, e, c, t);
    case ForkStack(e, p) => KeepForkStack(s, e, s.procs[e].main.child, p, t);
    case ForkStart(e) =>
      assert ProcOk(s, e);
      KeepForkStart(s, e, s.procs[e].main.child, t);
  }

  lemma {:induction false} UserKeeps(s: State, a: Action)
    requires Inv(s) && Enabled(s, a) && (a.Alloc? || a.Unmap? || a.MapShared? || a.Exit?)
    ensures Inv(Apply(s, a))
  {
    var t := Apply(s, a);
    match a
    case Alloc(e, v, perm, p) => KeepAlloc(s, e, v, perm, p, t);
    case Unmap(e, v) => KeepUnmap(s, e, v, t);
    case MapShared(e, v, w) => KeepMapShared(s, e, v, w, t);
    case Exit(e) => KeepExit(s, e, t);
  }

  /** Every step of every environment keeps the invariant. */
  lemma {:induction false} StepKeeps(s: State, a: Action)
    requires Inv(s) && Enabled(s, a)
    ensures Inv(Apply(s, a))
  {
    if a.Write? || a.Fault? || a.HandAlloc? || a.HandCopy? || a.HandMap? || a.HandUnmap? {
      HandlerKeeps(s, a);
    } else if a.DupShare? || a.DupCow? || a.DupOwn? || a.DupRead? {
      DupKeeps(s, a);
    } else if a.Alloc? || a.Unmap? || a.MapShared? || a.Exit? {
      UserKeeps(s, a);
    } else {
      ForkKeeps(s, a);
    }
  }

  // ---------------------------------------------------------------- isolation

  function Bytes(s: State, p: Page): seq<Byte> {
    if p in s.mem then s.mem[p] else []
  }

  /** v is one of e's private pages. */
  predicate Private(s: State, e: nat, v: nat) {
    Maps(s, e, v) && v != PFTEMP && !IsShared(At(s, e, v).perm)
  }

  /** What environment e sees in its private pages. */
  ghost function View(s: State, e: nat): map<nat, seq<Byte>>
    requires e in s.procs
  {
    map v | v in s.procs[e].space && Private(s, e, v) :: Bytes(s, At(s, e, v).page)
  }

  /** Outside a duppage no page has both a copy-on-write mapping and a writable one. */
  lemma {:induction false} NoMixedMappings(s: State, e: nat, v: nat, f: nat, w: nat)
    requires Inv(s) && Maps(s, e, v) && Maps(s, f, w) && At(s, e, v).page == At(s, f, w).page
    requires Writable(At(s, e, v).perm) && IsCow(At(s, f, w).perm)
    ensures MidDup(s, e, f, v) && v == w && !s.procs[f].runnable
  {
    assert Compat(s, e, v, f, w);
    assert ProcOk(s, e) && ProcOk(s, f);
  }

  /**
    When fork makes the child runnable, the child maps exactly what its parent maps: the same page where it is
    shared or read-only, copy-on-write where its parent can store. Its exception stack is its own.
   */
  lemma {:induction false} ForkCovers(s: State, e: nat, v: nat)
    requires Inv(s) && e in s.procs && s.procs[e].main.Finish?
    ensures var c := s.procs[e].main.child;
            && (UTEXT <= v < UEND && v != XSTACK ==> AlikeAt(s, e, c, v))
            && (v == XSTACK ==> HasStack(s, c))
            && (v < UTEXT || v >= UEND ==> !Maps(s, c, v))
  {
    var c := s.procs[e].main.child;
    assert MainOk(s, e) by { assert ProcOk(s, e); }
    assert Covered(s, e, c, UEND);
    if UTEXT <= v < UEND && v != XSTACK { assert AlikeAt(s, e, c, v); }
  }

  /** f is the child that e is in the middle of making. */
  predicate Making(s: State, e: nat, f: nat) {
    e in s.procs && !s.procs[e].main.Idle? && s.procs[e].main.child == f
  }

  /** A page that a step of e overwrites is in nobody else's private view. */
  lemma {:induction false} PrivatePages(s: State, e: nat, p: Page, f: nat, w: nat)
    requires Inv(s) && e in s.procs && s.procs[e].runnable && Overwritable(s, e, p)
    requires Maps(s, f, w) && f != e && !IsShared(At(s, f, w).perm)
    ensures At(s, f, w).page == p ==> MidDup(s, e, f, w)
  {
    assert ProcOk(s, e);
    if !IsFree(s, p) && At(s, f, w).page == p {
      if v :| Maps(s, e, v) && v != PFTEMP && At(s, e, v).page == p && Writable(At(s, e, v).perm) {
        Rivals(s, e, v, f, w);
      } else {
        Rivals(s, e, PFTEMP, f, w);
      }
    }
  }

  /** The page a step stores into, if any. */
  function Dirtied(s: State, a: Action): Option<Page> {
    match a
    case Write(e, v, _, _) => Some(At(s, e, v).page)
    case HandAlloc(_, p) => Some(p)
    case HandCopy(e) => Some(At(s, e, PFTEMP).page)
    case ForkStack(_, p) => Some(p)
    case Alloc(_, _, _, p) => Some(p)
    case _ => None
  }

  /** The one page a step may store into is a free page or one only its actor may write. */
  lemma {:induction false} FrameMem(s: State, a: Action)
    requires a.e in s.procs && HandOk(s, a.e) && Enabled(s, a)
    ensures Dirtied(s, a).Some? ==> Overwritable(s, a.e, Dirtied(s, a).value)
    ensures forall q :: q in s.mem && Dirtied(s, a) != Some(q) ==>
            q in Apply(s, a).mem && Apply(s, a).mem[q] == s.mem[q]
  {
    match a
    case Write(e, v, k, b) => assert Overwritable(s, e, At(s, e, v).page);
    case HandCopy(e) => assert Overwritable(s, e, At(s, e, PFTEMP).page);
    case _ =>
  }

  /** A step moves nobody but its actor and the child that one is making. */
  lemma {:induction false} FrameProcs(s: State, a: Action)
    requires a.e in s.procs && HandOk(s, a.e) && Enabled(s, a)
    ensures s.procs[a.e].runnable
    ensures forall f :: f in s.procs && f != a.e && !Making(s, a.e, f) ==>
            f in Apply(s, a).procs && Apply(s, a).procs[f] == s.procs[f]
  {
  }

  /** A step of one environment never changes what any other sees, except the child it is making. */
  lemma {:induction false} StepIsolated(s: State, a: Action, t: State, f: nat)
    requires Inv(s) && Steps(s, a, t) && f in s.procs && f != a.e && !Making(s, a.e, f)
    ensures f in t.procs && t.procs[f] == s.procs[f] && View(t, f) == View(s, f)
  {
    assert ProcOk(s, a.e);
    FrameMem(s, a);
    FrameProcs(s, a);
    OtherView(s, a.e, Dirtied(s, a), t, f);
  }

  lemma {:induction false} OtherView(s: State, e: nat, d: Option<Page>, t: State, f: nat)
    requires Inv(s) && e in s.procs && s.procs[e].runnable && (d.Some? ==> Overwritable(s, e, d.value))
    requires f in s.procs && f != e && !Making(s, e, f) && f in t.procs && t.procs[f] == s.procs[f]
    requires forall q :: q in s.mem && d != Some(q) ==> q in t.mem && t.mem[q] == s.mem[q]
    ensures View(t, f) == View(s, f)
  {
    forall v | v in s.procs[f].space && Private(s, f, v)
        ensures Bytes(t, At(t, f, v).page) == Bytes(s, At(s, f, v).page) {
      assert PageOk(s, f, v);
      if d.Some? {
        PrivatePages(s, e, d.value, f, v);
      }
    }
  }

  /** What its own step does to the private memory of an environment: faults and fork do nothing. */
  function Effect(a: Action, view: map<nat, seq<Byte>>): map<nat, seq<Byte>> {
    match a
    case Write(_, v, k, b) => if v in view && k < |view[v]| then view[v := view[v][k := b]] else view
    case Alloc(_, v, perm, _) => if perm == SHARED then view - {v} else view[v := Zeros()]
    case Unmap(_, v) => view - {v}
    case MapShared(_, _, w) => view - {w}
    case _ => view
  }

  /** No other page of the environment itself shows what a step overwrites. */
  lemma {:induction false} OwnPages(s: State, e: nat, p: Page, v: nat, w: nat)
    requires Inv(s) && Maps(s, e, v) && s.procs[e].runnable && At(s, e, v).page == p && Writable(At(s, e, v).perm)
    requires !s.procs[e].hand.Mapped? && Private(s, e, w) && v != w
    ensures At(s, e, w).page != p
  {
    assert ProcOk(s, e);
    if At(s, e, w).page == p {
      Rivals(s, e, v, e, w);
    }
  }

  lemma {:induction false} OwnWrite(s: State, e: nat, v: nat, k: nat, b: Byte, t: State)
    requires Inv(s) && Ready(s, e) && Maps(s, e, v) && v != PFTEMP && Writable(At(s, e, v).perm) && k < PGSIZE
    requires t == Store(s, At(s, e, v).page, k, b)
    ensures View(t, e) == Effect(Write(e, v, k, b), View(s, e))
  {
    var p := At(s, e, v).page;
    assert PageOk(s, e, v);
    forall w | Private(s, e, w) && w != v ensures At(s, e, w).page != p {
      OwnPages(s, e, p, v, w);
    }
    if IsShared(At(s, e, v).perm) {
      assert forall w :: Private(t, e, w) <==> Private(s, e, w);
    }
  }

  lemma {:induction false} OwnCopy(s: State, e: nat, t: State)
    requires Inv(s) && e in s.procs && s.procs[e].hand.Copying? && s.procs[e].hand.k < PGSIZE
    requires var h := s.procs[e].hand;
             t == Handle(Store(s, At(s, e, PFTEMP).page, h.k, ByteAt(s, At(s, e, h.v).page, h.k)), e,
                 Copying(h.v, h.k + 1))
    ensures View(t, e) == View(s, e)
  {
    assert ProcOk(s, e);
    forall w | Private(s, e, w) ensures At(s, e, w).page != At(s, e, PFTEMP).page {
      OwnPages(s, e, At(s, e, PFTEMP).page, PFTEMP, w);
    }
  }

  /** The page swap at the end of a fault does not change what the environment sees. */
  lemma {:induction false} OwnSwap(s: State, e: nat, v: nat, t: State)
    requires Inv(s) && e in s.procs && s.procs[e].hand == Copying(v, PGSIZE)
    requires t == Handle(Remap(s, e, v, Pte(At(s, e, PFTEMP).page, RW)), e, Mapped(v))
    ensures View(t, e) == View(s, e)
  {
    assert ProcOk(s, e);
    var p, q := At(s, e, PFTEMP).page, At(s, e, v).page;
    assert s.mem[p] == s.mem[p][..PGSIZE] && s.mem[q] == s.mem[q][..PGSIZE];
  }

  lemma {:induction false} OwnFresh(s: State, e: nat, v: nat, perm: Perm, p: Page, t: State)
    requires e in s.procs && IsFree(s, p) && v != PFTEMP
    requires t == Remap(s, e, v, Pte(p, perm)).(mem := s.mem[p := Zeros()])
    ensures View(t, e) == if IsShared(perm) then View(s, e) - {v} else View(s, e)[v := Zeros()]
  {
    forall w: nat | w != v ensures Private(t, e, w) <==> Private(s, e, w) {
    }
    forall w: nat | w != v && Private(s, e, w) ensures Bytes(t, At(t, e, w).page) == Bytes(s, At(s, e, w).page) {
      assert Maps(s, e, w) && At(t, e, w) == At(s, e, w);
    }
    assert Private(t, e, v) <==> !IsShared(perm);
  }

  /** The private pages of e have the same mappings, up to permissions, and the same bytes. */
  lemma {:induction false} ViewSame(s: State, t: State, e: nat)
    requires e in s.procs && e in t.procs
    requires forall w :: Private(t, e, w) <==> Private(s, e, w)
    requires forall w :: Private(s, e, w) ==> At(t, e, w).page == At(s, e, w).page && SamePage(s, t, At(s, e, w).page)
    ensures View(t, e) == View(s, e)
  {
  }

  /** A step that leaves e's mappings alone, except at PFTEMP, and stores into a free page at most. */
  lemma {:induction false} OwnStill(s: State, t: State, e: nat, p: Page)
    requires PagesOk(s) && e in s.procs && e in t.procs && (IsFree(s, p) || t.mem == s.mem)
    requires forall w :: w != PFTEMP ==> (w in t.procs[e].space <==> w in s.procs[e].space)
    requires forall w :: w != PFTEMP && w in s.procs[e].space && w in t.procs[e].space ==>
               && t.procs[e].space[w].page == s.procs[e].space[w].page
               && (IsShared(t.procs[e].space[w].perm) <==> IsShared(s.procs[e].space[w].perm))
    requires forall q :: q in s.mem && q != p ==> q in t.mem && t.mem[q] == s.mem[q]
    ensures View(t, e) == View(s, e)
  {
    forall w: nat | Private(s, e, w) ensures SamePage(s, t, At(s, e, w).page) {
      assert Maps(s, e, w) && PageOk(s, e, w);
    }
    ViewSame(s, t, e);
  }

  lemma {:induction false} OwnFault(s: State, e: nat, h: Handler, t: State)
    requires PagesOk(s) && e in s.procs && t == Handle(s, e, h)
    ensures View(t, e) == View(s, e)
  {
    OwnStill(s, t, e, 0);
  }

  lemma {:induction false} OwnTemp(s: State, e: nat, p: Page, h: Handler, t: State)
    requires PagesOk(s) && e in s.procs && IsFree(s, p)
    requires t == Handle(Remap(s, e, PFTEMP, Pte(p, RW)).(mem := s.mem[p := Zeros()]), e, h)
    ensures View(t, e) == View(s, e)
  {
    OwnStill(s, t, e, p);
  }

  lemma {:induction false} OwnUnmap(s: State, e: nat, t: State)
    requires PagesOk(s) && e in s.procs && t == Handle(Demap(s, e, PFTEMP), e, Quiet)
    ensures View(t, e) == View(s, e)
  {
    OwnStill(s, t, e, 0);
  }

  lemma {:induction false} OwnHandler(s: State, a: Action, t: State)
    requires Inv(s) && Steps(s, a, t)
    requires a.Write? || a.Fault? || a.HandAlloc? || a.HandCopy? || a.HandMap? || a.HandUnmap?
    ensures a.e in t.procs && View(t, a.e) == Effect(a, View(s, a.e))
  {
    match a
    case Write(e, v, k, b) => OwnWrite(s, e, v, k, b, t);
    case Fault(e, v) => OwnFault(s, e, Faulted(v), t);
    case HandAlloc(e, p) => OwnTemp(s, e, p, Copying(s.procs[e].hand.v, 0), t);
    case HandCopy(e) => OwnCopy(s, e, t);
    case HandMap(e) => OwnSwap(s, e, s.procs[e].hand.v, t);
    case HandUnmap(e) => OwnUnmap(s, e, t);
  }

  /** Progress through fork, and mappings of another environment, leave the view of e. */
  lemma {:induction false} OwnGoto(s: State, e: nat, c: nat, n: nat, x: Pte, m: Main, t: State)
    requires PagesOk(s) && e in s.procs && c != e && t == Goto(Remap(s, c, n, x), e, m)
    ensures e in t.procs && View(t, e) == View(s, e)
  {
    OwnStill(s, t, e, 0);
  }

  lemma {:induction false} OwnRemap(s: State, e: nat, n: nat, m: Main, t: State)
    requires PagesOk(s) && Maps(s, e, n) && !IsShared(At(s, e, n).perm)
    requires t == Goto(Remap(s, e, n, Pte(At(s, e, n).page, COW)), e, m)
    ensures e in t.procs && View(t, e) == View(s, e)
  {
    OwnStill(s, t, e, 0);
  }

  lemma {:induction false} OwnDup(s: State, a: Action, t: State)
    requires Inv(s) && Steps(s, a, t) && (a.DupShare? || a.DupCow? || a.DupOwn? || a.DupRead?)
    ensures a.e in t.procs && View(t, a.e) == Effect(a, View(s, a.e))
  {
    var e, m := a.e, s.procs[a.e].main;
    assert MainOk(s, e) by { assert ProcOk(s, e); }
    var page := At(s, e, m.next).page;
    match a
    case DupShare(_) => OwnGoto(s, e, m.child, m.next, Pte(page, UserBits(m.snap)), Scan(m.child, m.next + 1), t);
    case DupCow(_) => OwnGoto(s, e, m.child, m.next, Pte(page, COW), DupMid(m.child, m.next), t);
    case DupOwn(_) => OwnRemap(s, e, m.next, Scan(m.child, m.next + 1), t);
    case DupRead(_) => OwnGoto(s, e, m.child, m.next, Pte(page, RO), Scan(m.child, m.next + 1), t);
  }

  lemma {:induction false} OwnScan(s: State, a: Action, t: State)
    requires Inv(s) && Steps(s, a, t) && (a.ScanSkip? || a.ScanDup? || a.ForkBegin? || a.ForkStack? || a.ForkStart?)
    ensures a.e in t.procs && View(t, a.e) == Effect(a, View(s, a.e))
  {
    assert MainOk(s, a.e) by { assert ProcOk(s, a.e); }
    SameSpace(s, a, t);
    OwnStill(s, t, a.e, if a.ForkStack? then a.p else 0);
  }

  lemma {:induction false} SameSpace(s: State, a: Action, t: State)
    requires Steps(s, a, t) && (a.ScanSkip? || a.ScanDup? || a.ForkBegin? || a.ForkStack? || a.ForkStart?)
    requires !s.procs[a.e].main.Idle? ==> s.procs[a.e].main.child != a.e
    ensures a.e in t.procs && t.procs[a.e].space == s.procs[a.e].space
    ensures t.mem == if a.ForkStack? then s.mem[a.p := Zeros()] else s.mem
    ensures a.ForkStack? ==> IsFree(s, a.p)
  {
  }

  lemma {:induction false} OwnMemory(s: State, a: Action, t: State)
    requires Inv(s) && Steps(s, a, t) && (a.Alloc? || a.Unmap? || a.MapShared?)
    ensures a.e in t.procs && View(t, a.e) == Effect(a, View(s, a.e))
  {
    match a
    case Alloc(e, v, perm, p) => OwnFresh(s, e, v, perm, p, t);
    case Unmap(e, v) => OwnGone(s, t, e, v);
    case MapShared(e, v, w) => OwnGone(s, t, e, w);
  }

  /** v stops being a private page of e; everything else stays. */
  lemma {:induction false} OwnGone(s: State, t: State, e: nat, v: nat)
    requires e in s.procs && e in t.procs && t.mem == s.mem && !Private(t, e, v)
    requires forall w :: w != v ==> (w in t.procs[e].space <==> w in s.procs[e].space)
    requires forall w :: w != v && w in s.procs[e].space && w in t.procs[e].space ==>
             t.procs[e].space[w] == s.procs[e].space[w]
    ensures View(t, e) == View(s, e) - {v}
  {
    forall w: nat | w != v ensures Private(t, e, w) <==> Private(s, e, w) {
    }
  }

  /** Fault handling and fork are invisible to the program; a store changes just that byte. */
  lemma {:induction false} OwnView(s: State, a: Action, t: State)
    requires Inv(s) && Steps(s, a, t) && !a.Exit?
    ensures a.e in t.procs && View(t, a.e) == Effect(a, View(s, a.e))
  {
    if a.Write? || a.Fault? || a.HandAlloc? || a.HandCopy? || a.HandMap? || a.HandUnmap? {
      OwnHandler(s, a, t);
    } else if a.DupShare? || a.DupCow? || a.DupOwn? || a.DupRead? {
      OwnDup(s, a, t);
    } else if a.Alloc? || a.Unmap? || a.MapShared? {
      OwnMemory(s, a, t);
    } else {
      OwnScan(s, a, t);
    }
  }

  // ---------------------------------------------------------------- the child's memory

  /** Page v has been through duppage, or the exception stack is there. */
  predicate Done(m: Main, v: nat) {
    m.Finish? || (!m.Idle? && v < m.next && v != XSTACK)
  }

  /** duppage gives the child what the parent sees at that moment. */
  lemma {:induction false} DupCopies(s: State, a: Action, t: State)
    requires Inv(s) && Steps(s, a, t) && (a.DupCow? || a.DupRead?)
    ensures var m := s.procs[a.e].main;
            && m.child in t.procs && m.next in View(s, a.e) && m.next in View(t, m.child)
            && View(t, m.child)[m.next] == View(s, a.e)[m.next]
  {
    assert MainOk(s, a.e) by { assert ProcOk(s, a.e); }
  }

  /** Once a page is through duppage, no step of anybody changes the child's copy of it. */
  lemma {:induction false} StepSnapshot(s: State, a: Action, t: State, e: nat, c: nat, v: nat)
    requires Inv(s) && Steps(s, a, t) && Making(s, e, c) && c in s.procs && Done(s.procs[e].main, v)
    requires Private(s, c, v)
    ensures Making(t, e, c) ==> Done(t.procs[e].main, v)
    ensures c in t.procs && Private(t, c, v) && At(t, c, v) == At(s, c, v)
    ensures Bytes(t, At(t, c, v).page) == Bytes(s, At(s, c, v).page)
  {
    if a.e == e {
      SnapshotOwn(s, a, t, c, v);
    } else {
      SnapshotOther(s, a, t, e, c, v);
    }
  }

  /** The parent's own steps leave the child's mapping of a page that is through duppage. */
  lemma {:induction false} ChildStays(s: State, a: Action, t: State, c: nat, v: nat)
    requires Steps(s, a, t) && Making(s, a.e, c) && c != a.e && c in s.procs && !s.procs[c].runnable
    requires Done(s.procs[a.e].main, v) && Maps(s, c, v)
    ensures Making(t, a.e, c) ==> Done(t.procs[a.e].main, v)
    ensures Maps(t, c, v) && At(t, c, v) == At(s, c, v)
  {
  }

  lemma {:induction false} SnapshotOwn(s: State, a: Action, t: State, c: nat, v: nat)
    requires Inv(s) && Steps(s, a, t) && Making(s, a.e, c) && c in s.procs && Done(s.procs[a.e].main, v)
    requires Private(s, c, v)
    ensures Making(t, a.e, c) ==> Done(t.procs[a.e].main, v)
    ensures c in t.procs && Private(t, c, v) && At(t, c, v) == At(s, c, v)
    ensures Bytes(t, At(t, c, v).page) == Bytes(s, At(s, c, v).page)
  {
    assert ProcOk(s, a.e) && PageOk(s, c, v);
    ChildStays(s, a, t, c, v);
    FrameMem(s, a);
    if Dirtied(s, a).Some? {
      FrameProcs(s, a);
      PrivatePages(s, a.e, Dirtied(s, a).value, c, v);
    }
  }

  lemma {:induction false} SnapshotOther(s: State, a: Action, t: State, e: nat, c: nat, v: nat)
    requires Inv(s) && Steps(s, a, t) && Making(s, e, c) && c in s.procs && Done(s.procs[e].main, v)
    requires Private(s, c, v)
    requires a.e != e
    ensures Making(t, e, c) ==> Done(t.procs[e].main, v)
    ensures c in t.procs && Private(t, c, v) && At(t, c, v) == At(s, c, v)
    ensures Bytes(t, At(t, c, v).page) == Bytes(s, At(s, c, v).page)
  {
    assert ProcOk(s, e) && ProcOk(s, c) && PageOk(s, c, v) && ProcOk(s, a.e);
    FrameMem(s, a);
    FrameProcs(s, a);
    NotAChild(s, e, e);
    if Making(s, a.e, c) { NotAChild(s, e, a.e); }
    if Dirtied(s, a).Some? {
      PrivatePages(s, a.e, Dirtied(s, a).value, c, v);
    }
  }

  // ---------------------------------------------------------------- what can be stored to

  /** The action does not ask for another mapping at page v of f. */
  predicate Spares(a: Action, f: nat, v: nat) {
    a.e != f || !(a.Exit? || (a.Alloc? && a.v == v) || (a.Unmap? && a.v == v) || (a.MapShared? && a.w == v))
  }

  /**
    Faults and forks, one's own and other people's, leave a page as it is, or a private page that can be stored to,
    at once or after a fault, one of that kind.
   */
  lemma {:induction false} StepPerms(s: State, a: Action, t: State, f: nat, v: nat)
    requires Inv(s) && Steps(s, a, t) && Maps(s, f, v) && v != PFTEMP && Spares(a, f, v)
    ensures Maps(t, f, v) && PteKeep(At(s, f, v), At(t, f, v))
  {
    assert ProcOk(s, a.e);
    FrameProcs(s, a);
    if f == a.e {
      OwnPerms(s, a, t, v);
    } else if Making(s, a.e, f) {
      ChildPerms(s, a, t, f, v);
    }
  }

  lemma {:induction false} OwnPerms(s: State, a: Action, t: State, v: nat)
    requires Steps(s, a, t) && Maps(s, a.e, v) && v != PFTEMP && Spares(a, a.e, v) && ProcOk(s, a.e)
    ensures Maps(t, a.e, v) && PteKeep(At(s, a.e, v), At(t, a.e, v))
  {
    if !a.HandMap? && !a.DupOwn? {
      assert Maps(t, a.e, v) && At(t, a.e, v) == At(s, a.e, v);
    }
  }

  /** The mappings a child has stay while it is being made. */
  lemma {:induction false} ChildPerms(s: State, a: Action, t: State, c: nat, v: nat)
    requires Steps(s, a, t) && Making(s, a.e, c) && Maps(s, c, v) && MainOk(s, a.e)
    ensures Maps(t, c, v) && At(t, c, v) == At(s, c, v)
  {
    if a.DupShare? || a.DupCow? || a.DupRead? {
      assert Covered(s, a.e, c, s.procs[a.e].main.next);
    }
  }

  /** Such a page can be stored to, or the store faults and is served. */
  lemma {:induction false} CanStore(s: State, e: nat, v: nat, k: nat, b: Byte)
    requires Ready(s, e) && Maps(s, e, v) && v != PFTEMP && k < PGSIZE
    ensures Copied(At(s, e, v).perm) <==> Enabled(s, Write(e, v, k, b)) || Enabled(s, Fault(e, v))
  {
  }

  ghost predicate Steps(s: State, a: Action, t: State) {
    Enabled(s, a) && t == Apply(s, a)
  }

  ghost predicate StepAt(ss: seq<State>, acts: seq<Action>, i: nat)
    requires i < |acts| && |ss| == |acts| + 1
  {
    Steps(ss[i], acts[i], ss[i + 1])
  }

  /** A run: any mixture of steps of any environments. */
  ghost predicate IsRun(ss: seq<State>, acts: seq<Action>) {
    |ss| == |acts| + 1 && forall i :: 0 <= i < |acts| ==> StepAt(ss, acts, i)
  }

  lemma {:induction false} RunKeeps(ss: seq<State>, acts: seq<Action>, n: nat)
    requires IsRun(ss, acts) && Inv(ss[0]) && n <= |acts|
    ensures Inv(ss[n])
  {
    if n > 0 {
      RunKeeps(ss, acts, n - 1);
      assert StepAt(ss, acts, n - 1);
      StepKeeps(ss[n - 1], acts[n - 1]);
    }
  }

  /**
    Isolation over whole runs: whatever the others do, in whatever order, the private memory
    of a running environment is what it was until that environment takes a step itself.
   */
  lemma {:induction false} RunIsolated(ss: seq<State>, acts: seq<Action>, f: nat, n: nat)
    requires IsRun(ss, acts) && Inv(ss[0]) && n <= |acts| && f in ss[0].procs && ss[0].procs[f].runnable
    requires forall i :: 0 <= i < n ==> acts[i].e != f
    ensures f in ss[n].procs && ss[n].procs[f].runnable && View(ss[n], f) == View(ss[0], f)
  {
    if n > 0 {
      RunIsolated(ss, acts, f, n - 1);
      RunKeeps(ss, acts, n - 1);
      var s, a := ss[n - 1], acts[n - 1];
      assert StepAt(ss, acts, n - 1);
      if Making(s, a.e, f) { NotAChild(s, f, a.e); }
      StepIsolated(s, a, ss[n], f);
    }
  }

  /** The copy of a page a child got in fork is a snapshot: it stays until the child itself runs. */
  lemma {:induction false} RunSnapshot(ss: seq<State>, acts: seq<Action>, e: nat, c: nat, v: nat, m: nat, n: nat)
    requires IsRun(ss, acts) && Inv(ss[0]) && m <= n <= |acts|
    requires forall i :: m <= i < n ==> Making(ss[i], e, c)
    requires c in ss[m].procs && Making(ss[m], e, c) && Done(ss[m].procs[e].main, v)
    requires Private(ss[m], c, v)
    ensures c in ss[n].procs && Private(ss[n], c, v) && At(ss[n], c, v) == At(ss[m], c, v)
    ensures Bytes(ss[n], At(ss[n], c, v).page) == Bytes(ss[m], At(ss[m], c, v).page)
    ensures Making(ss[n], e, c) ==> Done(ss[n].procs[e].main, v)
  {
    if n > m {
      RunSnapshot(ss, acts, e, c, v, m, n - 1);
      RunKeeps(ss, acts, n - 1);
      assert StepAt(ss, acts, n - 1);
      StepSnapshot(ss[n - 1], acts[n - 1], ss[n], e, c, v);
    }
  }
}
