/** lib/fork.c over whole runs: where they start, what a store can touch, and what a child gets. */
module ForkRuns {
  import opened Base
  import opened Fork

  /** One environment with pages of its own. */
  lemma {:induction false} Begins(e: nat, space: map<nat, Pte>, mem: map<Page, seq<Byte>>)
    requires PFTEMP !in space && (forall v, w :: v in space && w in space && space[v].page == space[w].page ==> v == w)
    requires forall v :: v in space ==> space[v].page in mem && |mem[space[v].page]| == PGSIZE
    ensures Inv(State(map[e := Proc(space, Idle, Quiet, true)], mem))
  {
    var s := State(map[e := Proc(space, Idle, Quiet, true)], mem);
    forall f, v | Maps(s, f, v) ensures f == e && v in space && PageOk(s, f, v) {
    }
  }

  /**
    A page that another environment maps, in whatever way, is changed only by a store through
    a shared mapping or in the middle of the duppage that gave it away.
   */
  lemma {:induction false} StepTouches(s: State, a: Action, t: State, f: nat, w: nat)
    requires Inv(s) && Steps(s, a, t) && Maps(s, f, w) && f != a.e && !MidDup(s, a.e, f, w)
    requires a.Write? ==> !IsShared(At(s, a.e, a.v).perm)
    ensures Bytes(t, At(s, f, w).page) == Bytes(s, At(s, f, w).page)
  {
    assert ProcOk(s, a.e) && PageOk(s, f, w);
    FrameMem(s, a);
    if Dirtied(s, a) == Some(At(s, f, w).page) {
      if a.Write? {
        Rivals(s, a.e, a.v, f, w);
      } else if a.HandCopy? {
        Rivals(s, a.e, PFTEMP, f, w);
      }
    }
  }

  /**
    A shared page is the same for all who map it: it changes by stores through any of its mappings, and by nothing
    else, and a fork leaves the mapping.
   */
  lemma {:induction false} StepShares(s: State, a: Action, t: State, f: nat, w: nat)
    requires Inv(s) && Steps(s, a, t) && Maps(s, f, w) && w != PFTEMP && IsShared(At(s, f, w).perm) && Spares(a, f, w)
    ensures Maps(t, f, w) && At(t, f, w) == At(s, f, w)
    ensures var p := At(s, f, w).page;
            Bytes(t, p) == if a.Write? && At(s, a.e, a.v).page == p then Bytes(s, p)[a.k := a.b] else Bytes(s, p)
  {
    StepPerms(s, a, t, f, w);
    assert HandOk(s, a.e) by { assert ProcOk(s, a.e); }
    assert PageOk(s, f, w);
    FrameMem(s, a);
    if a.HandCopy? && At(s, a.e, PFTEMP).page == At(s, f, w).page {
      assert s.procs[a.e].runnable by { assert ProcOk(s, a.e); }
      Rivals(s, a.e, PFTEMP, f, w);
    }
  }

  /** What a program does to its own mappings. */
  lemma {:induction false} UserSteps(s: State, a: Action, t: State)
    requires Inv(s) && Steps(s, a, t)
    ensures a.Alloc? ==> Maps(t, a.e, a.v) && At(t, a.e, a.v).perm == a.perm
    ensures a.Alloc? ==> Bytes(t, At(t, a.e, a.v).page) == Zeros() && IsFree(s, At(t, a.e, a.v).page)
    ensures a.Unmap? ==> !Maps(t, a.e, a.v)
    ensures a.MapShared? ==> Maps(t, a.e, a.w) && At(t, a.e, a.w) == Pte(At(s, a.e, a.v).page, SHARED)
    ensures a.Exit? ==> a.e !in t.procs
  {
  }

  // ---------------------------------------------------------------- what the child gets

  /** The child c of e has in page v what e saw there in state u, and can store there if e could. */
  ghost predicate Got(s: State, c: nat, v: nat, u: State, e: nat) {
    && Private(s, c, v) && Private(u, e, v) && Bytes(s, At(s, c, v).page) == Bytes(u, At(u, e, v).page)
    && (Copied(At(s, c, v).perm) <==> Copied(At(u, e, v).perm))
  }

  /** In the middle of a duppage: a step leaves the child's page as it is,
      or parent and child still have it in common. */
  lemma {:induction false} MidStep(s: State, a: Action, t: State, e: nat, c: nat, v: nat)
    requires Inv(s) && Inv(t) && Steps(s, a, t) && MidDup(s, e, c, v) && MidDup(t, e, c, v) && Private(s, c, v)
    ensures Private(t, c, v) && At(t, c, v) == At(s, c, v)
    ensures Bytes(t, At(t, c, v).page) == Bytes(s, At(s, c, v).page) || Got(t, c, v, t, e)
  {
    assert ProcOk(s, e) && ProcOk(s, c) && ProcOk(s, a.e) && ProcOk(t, e) && PageOk(s, c, v);
    MidChild(s, a, t, e, c, v);
    FrameMem(s, a);
    var p := At(s, c, v).page;
    if Dirtied(s, a) == Some(p) {
      FrameProcs(s, a);
      PrivatePages(s, a.e, p, c, v);
      MidWrite(s, a, t, e, c, v);
    }
  }

  /** The child's mapping is left alone. */
  lemma {:induction false} MidChild(s: State, a: Action, t: State, e: nat, c: nat, v: nat)
    requires Inv(s) && Steps(s, a, t) && MidDup(s, e, c, v) && MidDup(t, e, c, v) && Private(s, c, v)
    ensures Private(t, c, v) && At(t, c, v) == At(s, c, v)
  {
    if a.e != e {
      OthersLeave(s, a, t, e, c);
    } else {
      assert MainOk(s, e) by { assert ProcOk(s, e); }
      ChildPerms(s, a, t, c, v);
    }
  }

  /** What changes the child's page is a store of the parent through its own mapping of it. */
  lemma {:induction false} MidWrite(s: State, a: Action, t: State, e: nat, c: nat, v: nat)
    requires Inv(s) && Steps(s, a, t) && MidDup(s, e, c, v) && MidDup(s, a.e, c, v) && Private(s, c, v)
    requires Dirtied(s, a) == Some(At(s, c, v).page) && Private(t, c, v) && At(t, c, v) == At(s, c, v)
    ensures Got(t, c, v, t, e)
  {
    assert ProcOk(s, e) && ProcOk(s, a.e);
    NotAChild(s, a.e, e);
    if a.Write? {
      Rivals(s, a.e, a.v, c, v);
    } else if a.HandCopy? {
      Rivals(s, a.e, PFTEMP, c, v);
    }
  }

  /** While a duppage is half done, the child has what its parent saw at some moment since it began. */
  lemma {:induction false} MidRun(ss: seq<State>, acts: seq<Action>, e: nat, c: nat, v: nat, i: nat, m: nat)
      returns (k: nat)
    requires IsRun(ss, acts) && Inv(ss[0]) && i < m <= |acts| && acts[i] == DupCow(e)
             && forall x :: i < x <= m ==> MidDup(ss[x], e, c, v)
    ensures i <= k <= m && Got(ss[m], c, v, ss[k], e)
  {
    RunKeeps(ss, acts, m - 1);
    RunKeeps(ss, acts, m);
    assert StepAt(ss, acts, m - 1) && MidDup(ss[m], e, c, v);
    if m == i + 1 {
      DupGives(ss[i], acts[i], ss[m]);
      k := i;
    } else {
      var l := MidRun(ss, acts, e, c, v, i, m - 1);
      k := MidNext(ss[m - 1], acts[m - 1], ss[m], ss[l], e, c, v, l, m);
    }
  }

  /** The moment l still stands, or the present one, m, takes its place. */
  lemma {:induction false} MidNext(s: State, a: Action, t: State, u: State, e: nat, c: nat, v: nat, l: nat, m: nat)
    returns (k: nat)
    requires Inv(s) && Inv(t) && Steps(s, a, t) && MidDup(s, e, c, v) && MidDup(t, e, c, v) && Got(s, c, v, u, e)
    ensures (k == l && Got(t, c, v, u, e)) || (k == m && Got(t, c, v, t, e))
  {
    MidStep(s, a, t, e, c, v);
    k := if Got(t, c, v, t, e) then m else l;
  }

  lemma {:induction false} DupGives(s: State, a: Action, t: State)
    requires Inv(s) && Steps(s, a, t) && (a.DupCow? || a.DupRead?)
    ensures var m := s.procs[a.e].main; Got(t, m.child, m.next, s, a.e) && m.next != XSTACK
    ensures a.e in t.procs
    ensures t.procs[a.e].main == var m := s.procs[a.e].main; if a.DupCow? then DupMid(m.child, m.next)
            else Scan(m.child, m.next + 1)
  {
    DupCopies(s, a, t);
    assert MainOk(s, a.e) by { assert ProcOk(s, a.e); }
  }

  /** The end of duppage leaves the child's page. */
  lemma {:induction false} DupOwnKeeps(s: State, t: State, e: nat, c: nat, v: nat)
    requires Inv(s) && Steps(s, DupOwn(e), t) && MidDup(s, e, c, v) && Private(s, c, v)
    ensures Private(t, c, v) && Bytes(t, At(t, c, v).page) == Bytes(s, At(s, c, v).page) && v != XSTACK
    ensures e in t.procs && t.procs[e].main == Scan(c, v + 1)
  {
    assert ProcOk(s, e);
  }

  /** duppage of page v for the child c takes e from step i to step j. */
  ghost predicate Duppage(ss: seq<State>, acts: seq<Action>, e: nat, c: nat, v: nat, i: nat, j: nat)
    requires |ss| == |acts| + 1
  {
    && i <= j < |acts| && e in ss[i].procs && ss[i].procs[e].main.Dup? && ss[i].procs[e].main.child == c
       && ss[i].procs[e].main.next == v
    && if i == j then acts[i] == DupRead(e)
       else acts[i] == DupCow(e) && acts[j] == DupOwn(e) && forall x :: i < x <= j ==> MidDup(ss[x], e, c, v)
  }

  lemma {:induction false} DuppageGives(ss: seq<State>, acts: seq<Action>, e: nat, c: nat, v: nat, i: nat, j: nat)
      returns (k: nat)
    requires IsRun(ss, acts) && Inv(ss[0]) && Duppage(ss, acts, e, c, v, i, j)
    ensures i <= k <= j && Got(ss[j + 1], c, v, ss[k], e) && v != XSTACK
    ensures e in ss[j + 1].procs && ss[j + 1].procs[e].main == Scan(c, v + 1)
  {
    RunKeeps(ss, acts, j);
    assert StepAt(ss, acts, j);
    if i == j {
      DupGives(ss[i], acts[i], ss[i + 1]);
      k := i;
    } else {
      k := MidRun(ss, acts, e, c, v, i, j);
      DupOwnKeeps(ss[j], ss[j + 1], e, c, v);
    }
  }

  /**
    One duppage, over any run: when the child is made runnable, the private page it got from a
    duppage holds what its parent saw there at one moment of that duppage, whatever anybody did since.
   */
  lemma {:induction false} ForkCopies(ss: seq<State>, acts: seq<Action>, e: nat, c: nat, v: nat, i: nat, j: nat,
      n: nat) returns (k: nat)
    requires IsRun(ss, acts) && Inv(ss[0]) && j < n < |acts| && Duppage(ss, acts, e, c, v, i, j)
    requires acts[n] == ForkStart(e) && forall x :: j < x <= n ==> Making(ss[x], e, c)
    ensures i <= k <= j && Got(ss[n + 1], c, v, ss[k], e) && ss[n + 1].procs[c].runnable
  {
    k := DuppageGives(ss, acts, e, c, v, i, j);
    RunSnapshot(ss, acts, e, c, v, j + 1, n);
    RunKeeps(ss, acts, n);
    assert StepAt(ss, acts, n) && Making(ss[n], e, c);
    StepSnapshot(ss[n], acts[n], ss[n + 1], e, c, v);
  }

  // ---------------------------------------------------------------- a whole fork

  /** The fork of c by e: it begins in step a and makes the child runnable in step n. */
  ghost predicate WholeFork(ss: seq<State>, acts: seq<Action>, e: nat, c: nat, a: nat, n: nat)
    requires |ss| == |acts| + 1
  {
    && a < n < |acts| && acts[a] == ForkBegin(e, c) && acts[n] == ForkStart(e)
    && forall x :: a < x <= n ==> Making(ss[x], e, c)
  }

  /** A step of somebody else moves neither parent nor child. */
  lemma {:induction false} OthersLeave(s: State, a: Action, t: State, e: nat, c: nat)
    requires Inv(s) && Steps(s, a, t) && Making(s, e, c) && a.e != e
    ensures e in t.procs && c in t.procs && c in s.procs && t.procs[e] == s.procs[e] && t.procs[c] == s.procs[c]
  {
    assert MainOk(s, e) && HandOk(s, a.e) by { assert ProcOk(s, e) && ProcOk(s, a.e); }
    FrameProcs(s, a);
    NotAChild(s, a.e, e);
    if !s.procs[a.e].main.Idle? { NotAChild(s, e, a.e); }
  }

  /** A private page of the child comes from duppage. */
  lemma {:induction false} ChildOwn(s: State, a: Action, t: State, c: nat, v: nat)
    requires Steps(s, a, t) && Making(s, a.e, c) && c != a.e && c in s.procs && !s.procs[c].runnable
    requires Making(t, a.e, c) && Private(t, c, v) && v != XSTACK
    ensures Private(s, c, v) ||
            ((a.DupCow? || a.DupRead?) && !s.procs[a.e].main.Finish? && s.procs[a.e].main.next == v)
  {
    if a.DupShare? || a.DupCow? || a.DupRead? {
      if v != s.procs[a.e].main.next { assert At(t, c, v) == At(s, c, v); }
    } else {
      assert At(t, c, v) == At(s, c, v);
    }
  }

  lemma {:induction false} ChildStep(s: State, a: Action, t: State, e: nat, c: nat, v: nat)
    requires Inv(s) && Steps(s, a, t) && Making(s, e, c) && Making(t, e, c) && Private(t, c, v) && v != XSTACK
    ensures Private(s, c, v) ||
            ((a == DupCow(e) || a == DupRead(e)) && !s.procs[e].main.Finish? && s.procs[e].main.next == v)
  {
    if a.e != e {
      OthersLeave(s, a, t, e, c);
    } else {
      assert MainOk(s, e) by { assert ProcOk(s, e); }
      ChildOwn(s, a, t, c, v);
    }
  }

  /** A duppage that has begun goes on, or ends. */
  lemma {:induction false} MidEnds(s: State, a: Action, t: State, e: nat, c: nat, v: nat)
    requires Inv(s) && Steps(s, a, t) && MidDup(s, e, c, v) && Making(t, e, c)
    ensures MidDup(t, e, c, v) || a == DupOwn(e)
  {
    if a.e != e {
      OthersLeave(s, a, t, e, c);
    } else {
      MidOwn(s, a, t, c, v);
    }
  }

  lemma {:induction false} MidOwn(s: State, a: Action, t: State, c: nat, v: nat)
    requires Steps(s, a, t) && MidDup(s, a.e, c, v) && Making(t, a.e, c)
    ensures MidDup(t, a.e, c, v) || a.DupOwn?
  {
    assert a.DupOwn? || a.Exit? || a.Write? || a.Fault? || a.HandAlloc? || a.HandCopy? || a.HandMap? || a.HandUnmap?;
  }

  /** The duppage of v for c began in step i and is not over in state x. */
  ghost predicate HalfDone(ss: seq<State>, acts: seq<Action>, e: nat, c: nat, v: nat, i: nat, x: nat)
    requires |ss| == |acts| + 1
  {
    && i < x <= |acts| && acts[i] == DupCow(e) && e in ss[i].procs && ss[i].procs[e].main.Dup?
    && ss[i].procs[e].main.child == c && ss[i].procs[e].main.next == v
    && forall y :: i < y <= x ==> MidDup(ss[y], e, c, v)
  }

  /** Every private page of the child has had its duppage, or is in the middle of it. */
  lemma {:induction false} FindDuppage(ss: seq<State>, acts: seq<Action>, e: nat, c: nat, v: nat, a: nat, x: nat)
      returns (i: nat, j: nat)
    requires IsRun(ss, acts) && Inv(ss[0]) && a < x <= |acts| && acts[a] == ForkBegin(e, c)
    requires (forall y :: a < y <= x ==> Making(ss[y], e, c)) && Private(ss[x], c, v) && v != XSTACK
    ensures a < i <= j < x && (Duppage(ss, acts, e, c, v, i, j) || HalfDone(ss, acts, e, c, v, i, x))
  {
    RunKeeps(ss, acts, x - 1);
    assert StepAt(ss, acts, x - 1) && Making(ss[x], e, c);
    if x == a + 1 {
      assert false;
    } else {
      assert Making(ss[x - 1], e, c);
      ChildStep(ss[x - 1], acts[x - 1], ss[x], e, c, v);
      if Private(ss[x - 1], c, v) {
        i, j := FindDuppage(ss, acts, e, c, v, a, x - 1);
        if HalfDone(ss, acts, e, c, v, i, x - 1) {
          HalfNext(ss, acts, e, c, v, i, x - 1);
          j := x - 1;
        }
      } else {
        i, j := x - 1, x - 1;
        DupBegins(ss, acts, e, c, v, i);
      }
    }
  }

  lemma {:induction false} HalfNext(ss: seq<State>, acts: seq<Action>, e: nat, c: nat, v: nat, i: nat, x: nat)
    requires IsRun(ss, acts) && x < |acts| && Inv(ss[x]) && HalfDone(ss, acts, e, c, v, i, x)
    requires Making(ss[x + 1], e, c)
    ensures Duppage(ss, acts, e, c, v, i, x) || HalfDone(ss, acts, e, c, v, i, x + 1)
  {
    assert StepAt(ss, acts, x);
    MidEnds(ss[x], acts[x], ss[x + 1], e, c, v);
  }

  lemma {:induction false} DupBegins(ss: seq<State>, acts: seq<Action>, e: nat, c: nat, v: nat, i: nat)
    requires IsRun(ss, acts) && i < |acts| && Inv(ss[i]) && Making(ss[i], e, c)
    requires acts[i] == DupCow(e) || acts[i] == DupRead(e)
    requires !ss[i].procs[e].main.Finish? && ss[i].procs[e].main.next == v
    ensures Duppage(ss, acts, e, c, v, i, i) || HalfDone(ss, acts, e, c, v, i, i + 1)
  {
    assert StepAt(ss, acts, i);
    DupGives(ss[i], acts[i], ss[i + 1]);
  }

  /**
    What fork promises, over any run: when the child is made runnable, each of its private pages but the
    exception stack holds what its parent saw there at one moment of the fork.
   */
  lemma {:induction false} ForkGives(ss: seq<State>, acts: seq<Action>, e: nat, c: nat, v: nat, a: nat, n: nat)
      returns (k: nat)
    requires IsRun(ss, acts) && Inv(ss[0]) && WholeFork(ss, acts, e, c, a, n)
    requires Private(ss[n + 1], c, v) && v != XSTACK
    ensures a < k < n && Got(ss[n + 1], c, v, ss[k], e) && ss[n + 1].procs[c].runnable
  {
    assert StepAt(ss, acts, n) && Making(ss[n], e, c);
    var i, j := FindDuppage(ss, acts, e, c, v, a, n);
    k := ForkCopies(ss, acts, e, c, v, i, j, n);
  }

  /** The child's exception stack is a writable page of zeros, and the parent is out of fork. */
  lemma {:induction false} ForkStacks(ss: seq<State>, acts: seq<Action>, e: nat, c: nat, a: nat, n: nat)
    requires IsRun(ss, acts) && Inv(ss[0]) && WholeFork(ss, acts, e, c, a, n)
    ensures HasStack(ss[n + 1], c) && Bytes(ss[n + 1], At(ss[n + 1], c, XSTACK).page) == Zeros()
    ensures ss[n + 1].procs[c].runnable && e in ss[n + 1].procs && ss[n + 1].procs[e].main.Idle?
  {
    assert StepAt(ss, acts, n) && Making(ss[n], e, c);
    RunKeeps(ss, acts, n);
    assert MainOk(ss[n], e) by { assert ProcOk(ss[n], e); }
    var m := FindStack(ss, acts, e, c, a, n);
    RunSnapshot(ss, acts, e, c, XSTACK, m, n);
    StepSnapshot(ss[n], acts[n], ss[n + 1], e, c, XSTACK);
  }

  /** The child c of e has all it needs. */
  predicate Finishing(s: State, e: nat, c: nat) {
    e in s.procs && s.procs[e].main == Finish(c)
  }

  /** The moment the exception stack is there. */
  lemma {:induction false} FindStack(ss: seq<State>, acts: seq<Action>, e: nat, c: nat, a: nat, n: nat)
      returns (m: nat)
    requires IsRun(ss, acts) && Inv(ss[0]) && a < n <= |acts| && acts[a] == ForkBegin(e, c)
    requires (forall y :: a < y <= n ==> Making(ss[y], e, c)) && Finishing(ss[n], e, c)
    ensures a < m <= n && Finishing(ss[m], e, c)
    ensures HasStack(ss[m], c) && Bytes(ss[m], At(ss[m], c, XSTACK).page) == Zeros()
  {
    assert StepAt(ss, acts, n - 1);
    if n == a + 1 {
      assert false;
    } else if Finishing(ss[n - 1], e, c) {
      m := FindStack(ss, acts, e, c, a, n - 1);
    } else {
      m := n;
      assert Making(ss[n - 1], e, c);
      RunKeeps(ss, acts, n - 1);
      StackMade(ss[n - 1], acts[n - 1], ss[n], e, c);
    }
  }

  lemma {:induction false} StackMade(s: State, a: Action, t: State, e: nat, c: nat)
    requires Inv(s) && Steps(s, a, t) && Making(s, e, c) && !Finishing(s, e, c) && Finishing(t, e, c)
    ensures HasStack(t, c) && Bytes(t, At(t, c, XSTACK).page) == Zeros()
  {
    if a.e != e {
      OthersLeave(s, a, t, e, c);
    } else {
      assert MainOk(s, e) by { assert ProcOk(s, e); }
      assert a.ForkStack?;
    }
  }

  // ---------------------------------------------------------------- stores after a fork

  /** Over any run in which f does not remap page v itself, the page stays as it is or one f can store to. */
  lemma {:induction false} RunPerms(ss: seq<State>, acts: seq<Action>, f: nat, v: nat, m: nat, n: nat)
    requires IsRun(ss, acts) && Inv(ss[0]) && m <= n <= |acts| && Maps(ss[m], f, v) && v != PFTEMP
    requires forall i :: m <= i < n ==> Spares(acts[i], f, v)
    ensures Maps(ss[n], f, v) && PteKeep(At(ss[m], f, v), At(ss[n], f, v))
  {
    if n > m {
      RunPerms(ss, acts, f, v, m, n - 1);
      RunKeeps(ss, acts, n - 1);
      assert StepAt(ss, acts, n - 1) && Spares(acts[n - 1], f, v);
      StepPerms(ss[n - 1], acts[n - 1], ss[n], f, v);
    }
  }

  /** e in the handler of a fault at v, with k bytes copied; what it sees is the same. */
  ghost predicate Serving(s: State, u: State, e: nat, v: nat, k: nat) {
    && Inv(s) && e in s.procs && s.procs[e].hand == Copying(v, k) && e in u.procs && View(s, e) == View(u, e)
    && s.procs[e].main == u.procs[e].main && s.procs[e].runnable == u.procs[e].runnable
  }

  lemma {:induction false} CopyByte(s: State, u: State, e: nat, v: nat, k: nat) returns (t: State)
    requires Serving(s, u, e, v, k) && k < PGSIZE
    ensures Steps(s, HandCopy(e), t) && Serving(t, u, e, v, k + 1)
  {
    t := Apply(s, HandCopy(e));
    StepKeeps(s, HandCopy(e));
    OwnView(s, HandCopy(e), t);
  }

  /** All steps of a run are the fault handler's of e. */
  predicate Handling(acts: seq<Action>, e: nat) {
    forall i :: 0 <= i < |acts| ==>
      acts[i].e == e && (acts[i].Fault? || acts[i].HandAlloc? || acts[i].HandCopy? || acts[i].HandMap?
                         || acts[i].HandUnmap?)
  }

  lemma {:induction false} Longer(ss: seq<State>, acts: seq<Action>, a: Action, t: State, e: nat)
    requires IsRun(ss, acts) && Handling(acts, e) && Steps(ss[|acts|], a, t)
    requires a.e == e && (a.Fault? || a.HandAlloc? || a.HandCopy? || a.HandMap? || a.HandUnmap?)
    ensures IsRun(ss + [t], acts + [a]) && Handling(acts + [a], e)
  {
    var rr, bb := ss + [t], acts + [a];
    forall i | 0 <= i < |bb| ensures StepAt(rr, bb, i) {
      if i < |acts| { assert StepAt(ss, acts, i); }
    }
  }

  /** The handler gets as far as k bytes. */
  lemma {:induction false} ServeUpTo(s: State, e: nat, v: nat, p: Page, k: nat)
      returns (ss: seq<State>, acts: seq<Action>)
    requires Inv(s) && Enabled(s, Fault(e, v)) && IsFree(s, p) && k <= PGSIZE
    ensures IsRun(ss, acts) && Handling(acts, e) && ss[0] == s && Serving(ss[|acts|], s, e, v, k)
  {
    if k == 0 {
      var t := Apply(s, Fault(e, v));
      StepKeeps(s, Fault(e, v));
      OwnView(s, Fault(e, v), t);
      assert IsFree(t, p) by { assert forall f, w :: Maps(t, f, w) ==> Maps(s, f, w) && At(t, f, w) == At(s, f, w); }
      var u := Apply(t, HandAlloc(e, p));
      StepKeeps(t, HandAlloc(e, p));
      OwnView(t, HandAlloc(e, p), u);
      Longer([s], [], Fault(e, v), t, e);
      Longer([s] + [t], [] + [Fault(e, v)], HandAlloc(e, p), u, e);
      ss, acts := [s] + [t] + [u], [] + [Fault(e, v)] + [HandAlloc(e, p)];
    } else {
      ss, acts := ServeUpTo(s, e, v, p, k - 1);
      var t := CopyByte(ss[|acts|], s, e, v, k - 1);
      Longer(ss, acts, HandCopy(e), t, e);
      ss, acts := ss + [t], acts + [HandCopy(e)];
    }
  }

  /**
    A store that faults is served: given a free page, the handler of e can run to its end, after which e goes on
    where it was, sees what it saw, and can store to the page.
   */
  lemma {:induction false} FaultServed(s: State, e: nat, v: nat, p: Page) returns (ss: seq<State>, acts: seq<Action>)
    requires Inv(s) && Enabled(s, Fault(e, v)) && IsFree(s, p)
    ensures IsRun(ss, acts) && Handling(acts, e) && ss[0] == s
    ensures var t := ss[|acts|];
            Ready(t, e) && Maps(t, e, v) && Writable(At(t, e, v).perm) && t.procs[e].main == s.procs[e].main
                && View(t, e) == View(s, e)
  {
    ss, acts := ServeUpTo(s, e, v, p, PGSIZE);
    var y, z := SwapIn(ss[|acts|], s, e, v);
    Longer(ss, acts, HandMap(e), y, e);
    Longer(ss + [y], acts + [HandMap(e)], HandUnmap(e), z, e);
    ss, acts := ss + [y] + [z], acts + [HandMap(e)] + [HandUnmap(e)];
  }

  /** The end of the handler. */
  lemma {:induction false} SwapIn(x: State, u: State, e: nat, v: nat) returns (y: State, z: State)
    requires Serving(x, u, e, v, PGSIZE)
    ensures Steps(x, HandMap(e), y) && Steps(y, HandUnmap(e), z)
    ensures Ready(z, e) && Maps(z, e, v) && Writable(At(z, e, v).perm) && z.procs[e].main == u.procs[e].main
    ensures View(z, e) == View(u, e)
  {
    y := Apply(x, HandMap(e));
    StepKeeps(x, HandMap(e));
    OwnView(x, HandMap(e), y);
    z := Apply(y, HandUnmap(e));
    OwnView(y, HandUnmap(e), z);
    assert HandOk(x, e) && HandOk(y, e) by { assert ProcOk(x, e) && ProcOk(y, e); }
  }

  // ---------------------------------------------------------------- fork goes on

  /** The steps of fork itself. */
  predicate ForkStep(a: Action) {
    a.ScanSkip? || a.ScanDup? || a.DupShare? || a.DupCow? || a.DupOwn? || a.DupRead? || a.ForkStack? || a.ForkStart?
  }

  /** A fork under way can go on, given a free page, unless it meets a page that fails the assertion of duppage. */
  lemma {:induction false} ForkGoesOn(s: State, e: nat, p: Page)
    requires Inv(s) && Ready(s, e) && !s.procs[e].main.Idle? && IsFree(s, p)
    ensures (exists a :: ForkStep(a) && a.e == e && Enabled(s, a)) <==>
            !(s.procs[e].main.Dup? && var x := s.procs[e].main.snap; !Copied(x) && UserBits(x) != RO)
  {
    var m := s.procs[e].main;
    assert MainOk(s, e) by { assert ProcOk(s, e); }
    var a := match m
      case Scan(_, n) => if n == UEND then ForkStack(e, p)
                         else if n == XSTACK || !Maps(s, e, n) then ScanSkip(e) else ScanDup(e)
      case Dup(_, _, x) => if IsShared(x) then DupShare(e) else if Copied(x) then DupCow(e) else DupRead(e)
      case DupMid(_, _) => DupOwn(e)
      case _ => ForkStart(e);
    assert ForkStep(a) && a.e == e;
    if m.Dup? && !Copied(m.snap) && UserBits(m.snap) != RO {
      forall b | ForkStep(b) && b.e == e ensures !Enabled(s, b) {
      }
    } else {
      assert Enabled(s, a);
    }
  }
}
