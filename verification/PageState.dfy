/**
  Physical pages, page directories and page tables as a value: what every page holds, its
  reference count, the free list and the page directory of each environment.
 */
module PageState {
  import opened Base

  const NPT: nat := 1024                // NPTENTRIES
  const UPDE: nat := 955                // PDX(UTOP): directory entries below UTOP
  const UVPN: nat := UPDE * NPT         // virtual pages below UTOP

  datatype Pte = Absent | Present(page: nat, perm: Perm)

  /**
    Reserved pages are never managed. Loose pages were taken from the free list and not put
    to use yet. A User page holds Some(bytes), or None while it still holds what its
    previous owner left.
   */
  datatype Frame = Reserved | Unused | Loose
                 | Dir(ents: seq<Pte>) | Table(ents: seq<Pte>) | User(data: Option<seq<Byte>>)

  datatype Mem = Mem(frames: seq<Frame>, refs: seq<nat>, free: seq<nat>, dirs: seq<Option<nat>>)

  /** The places that hold a counted reference: env_pgdir, a user PDE, a user PTE. */
  datatype Slot = OfEnv(e: nat) | OfEntry(q: nat, i: nat)

  function Ents(f: Frame): seq<Pte> {
    if f.Dir? || f.Table? then f.ents else []
  }

  /** What a slot names. */
  function Target(m: Mem, s: Slot): Option<nat> {
    match s
    case OfEnv(e) => if e < |m.dirs| then m.dirs[e] else None
    case OfEntry(q, i) =>
      if q < |m.frames| && i < |Ents(m.frames[q])| && Ents(m.frames[q])[i].Present?
      then Some(Ents(m.frames[q])[i].page) else None
  }

  ghost function SlotSet(m: Mem): set<Slot> {
    (set e | 0 <= e < |m.dirs| :: OfEnv(e))
    + (set q, i | 0 <= q < |m.frames| && 0 <= i < |Ents(m.frames[q])| :: OfEntry(q, i))
  }

  /** All references there are, as a map from slot to page. */
  ghost function Named(m: Mem): map<Slot, nat> {
    map s | s in SlotSet(m) && Target(m, s).Some? :: Target(m, s).value
  }

  ghost function Namers(n: map<Slot, nat>, p: nat): set<Slot> {
    set s | s in n && n[s] == p
  }

  lemma NamedIs(m: Mem, s: Slot)
    ensures s in Named(m) <==> Target(m, s).Some?
    ensures s in Named(m) ==> Named(m)[s] == Target(m, s).value
  {
  }

  /** The kind of page a slot may name. */
  predicate Fitting(m: Mem, s: Slot, f: Frame) {
    match s
    case OfEnv(_) => f.Dir?
    case OfEntry(q, _) => q < |m.frames| && ((m.frames[q].Dir? && f.Table?) || (m.frames[q].Table? && f.User?))
  }

  ghost predicate FrameOk(m: Mem, p: nat)
    requires p < |m.frames| == |m.refs|
  {
    var f := m.frames[p];
    && m.refs[p] == |Namers(Named(m), p)|
    && (f.Dir? ==> |f.ents| == UPDE)
    && (f.Table? ==> |f.ents| == NPT)
    && (f.Dir? || f.Table? ==> m.refs[p] == 1)
    && (f.User? ==> m.refs[p] >= 1)
    && (p in m.free <==> f.Unused?)
  }

  ghost predicate SlotOk(m: Mem, s: Slot)
    requires Target(m, s).Some?
  {
    var p := Target(m, s).value;
    p < |m.frames| && Fitting(m, s, m.frames[p])
  }

  /**
    The invariant: counts are exact, every reference names a page of the right kind, tables
    and directories are not shared, and the free list holds exactly the unused pages.
   */
  ghost predicate Inv(m: Mem) {
    && |m.refs| == |m.frames|
    && (forall p :: 0 <= p < |m.frames| ==> FrameOk(m, p))
    && (forall s :: s in Named(m) ==> Target(m, s).Some? && SlotOk(m, s))
    && (forall i :: 0 <= i < |m.free| ==> m.free[i] < |m.frames|)
    && (forall i, j :: 0 <= i < j < |m.free| ==> m.free[i] != m.free[j])
  }

  predicate Settled(m: Mem) {
    forall p :: 0 <= p < |m.frames| ==> !m.frames[p].Loose?
  }

  /** Unreferenced pages are unused, loose or reserved, and nothing else is. */
  lemma CountZero(m: Mem, p: nat)
    requires Inv(m) && p < |m.frames|
    ensures m.refs[p] == 0 <==> m.frames[p].Unused? || m.frames[p].Loose? || m.frames[p].Reserved?
  {
    assert FrameOk(m, p);
    if m.refs[p] != 0 {
      var s :| s in Namers(Named(m), p);
      NamedIs(m, s);
      assert SlotOk(m, s);
    }
  }

  // ---------------------------------------------------------------- counting

  lemma CountAdd(n: map<Slot, nat>, s: Slot, p: nat, x: nat)
    requires s !in n
    ensures |Namers(n[s := p], x)| == |Namers(n, x)| + if x == p then 1 else 0
  {
    assert Namers(n[s := p], x) == Namers(n, x) + if x == p then {s} else {};
  }

  lemma CountDrop(n: map<Slot, nat>, s: Slot, x: nat)
    requires s in n
    ensures |Namers(n - {s}, x)| == |Namers(n, x)| - if x == n[s] then 1 else 0
  {
    assert Namers(n - {s}, x) == Namers(n, x) - if x == n[s] then {s} else {};
  }

  lemma OnlyNamer(m: Mem, a: Slot, b: Slot, p: nat)
    requires Inv(m) && p < |m.frames| && m.refs[p] == 1
    requires Target(m, a) == Some(p) && Target(m, b) == Some(p)
    ensures a == b
  {
    assert FrameOk(m, p);
    NamedIs(m, a);
    NamedIs(m, b);
    var S := Namers(Named(m), p);
    assert {a, b} <= S;
    assert |S - {a}| == 0;
    assert b !in S - {a};
  }

  // ---------------------------------------------------------------- the four primitive steps

  function PutEntry(m: Mem, q: nat, i: nat, e: Pte): Mem
    requires q < |m.frames| && i < |Ents(m.frames[q])|
  {
    m.(frames := m.frames[q := match m.frames[q]
                               case Dir(x) => Dir(x[i := e])
                               case Table(x) => Table(x[i := e])])
  }

  /** page_alloc */
  function TakePage(m: Mem): Mem
    requires m.free != [] && m.free[0] < |m.frames| == |m.refs|
  {
    var p := m.free[0];
    m.(free := m.free[1..], refs := m.refs[p := 0], frames := m.frames[p := Loose])
  }

  /** page_free */
  function GivePage(m: Mem, p: nat): Mem
    requires p < |m.frames|
  {
    m.(free := [p] + m.free, frames := m.frames[p := Unused])
  }

  /** page_decref */
  function DropRef(m: Mem, p: nat): Mem
    requires p < |m.frames| == |m.refs| && m.refs[p] > 0
  {
    var d := m.(refs := m.refs[p := m.refs[p] - 1]);
    if d.refs[p] == 0 then GivePage(d, p) else d
  }

  /** Put a loose page to use as what the slot calls for. */
  function Employ(m: Mem, p: nat, f: Frame): Mem
    requires p < |m.frames|
  {
    if m.frames[p].Loose? then m.(frames := m.frames[p := f]) else m
  }

  function EmptyTable(): Frame {
    Table(seq(NPT, _ => Absent))
  }

  function EmptyDir(): Frame {
    Dir(seq(UPDE, _ => Absent))
  }

  /** Store a reference to p in the empty entry (q, i) and count it. */
  function LinkEntry(m: Mem, q: nat, i: nat, p: nat, perm: Perm): Mem
    requires q < |m.frames| && i < |Ents(m.frames[q])| && p < |m.frames| == |m.refs| && p != q
  {
    var a := PutEntry(m, q, i, Present(p, perm));
    var b := Employ(a, p, if m.frames[q].Dir? then EmptyTable() else User(None));
    b.(refs := b.refs[p := b.refs[p] + 1])
  }

  /** Forget the reference in entry (q, i) and count it off. */
  function UnlinkEntry(m: Mem, q: nat, i: nat): Mem
    requires q < |m.frames| == |m.refs| && i < |Ents(m.frames[q])| && Ents(m.frames[q])[i].Present?
    requires var p := Ents(m.frames[q])[i].page; p < |m.frames| && p != q && m.refs[p] > 0
  {
    PutEntry(DropRef(m, Ents(m.frames[q])[i].page), q, i, Absent)
  }

  // ---------------------------------------------------------------- what they keep

  /** If one slot alone may differ, so may one reference alone. */
  lemma {:induction false} NamedDiff(m: Mem, k: Mem, s: Slot)
    requires forall x :: x != s ==> Target(m, x) == Target(k, x)
    ensures Named(k) == match Target(k, s) case Some(p) => Named(m)[s := p] case None => Named(m) - {s}
  {
    forall x ensures (x in Named(k) <==> Target(k, x).Some?) && (x in Named(m) <==> Target(m, x).Some?) {
      NamedIs(m, x);
      NamedIs(k, x);
    }
  }

  lemma {:induction false} NamedSame(m: Mem, k: Mem)
    requires forall x :: Target(m, x) == Target(k, x)
    ensures Named(k) == Named(m)
  {
    forall x ensures (x in Named(k) <==> Target(k, x).Some?) && (x in Named(m) <==> Target(m, x).Some?) {
      NamedIs(m, x);
      NamedIs(k, x);
    }
  }

  /** Pages of a kind that nothing may name are not named. */
  lemma {:induction false} Nameless(m: Mem, p: nat, s: Slot)
    requires Inv(m) && p < |m.frames| && (m.frames[p].Unused? || m.frames[p].Loose? || m.frames[p].Reserved?)
    ensures Target(m, s) != Some(p)
  {
    NamedIs(m, s);
    assert Target(m, s).Some? ==> SlotOk(m, s);
  }

  lemma {:induction false} TakeKeeps(m: Mem)
    requires Inv(m) && m.free != []
    ensures Inv(TakePage(m)) && Named(TakePage(m)) == Named(m)
  {
    var p := m.free[0];
    assert FrameOk(m, p);
    var k := TakePage(m);
    CountZero(m, p);
    NamedSame(m, k);
    forall x | 0 <= x < |k.frames| ensures FrameOk(k, x) {
      assert FrameOk(m, x);
      assert x in m.free <==> x == p || x in k.free;
    }
    forall s | s in Named(k) ensures Target(k, s).Some? && SlotOk(k, s) {
      NamedIs(m, s);
      assert SlotOk(m, s);
      Nameless(m, p, s);
    }
  }

  lemma {:induction false} GiveKeeps(m: Mem, p: nat)
    requires Inv(m) && p < |m.frames| && m.frames[p].Loose?
    ensures Inv(GivePage(m, p)) && Named(GivePage(m, p)) == Named(m)
  {
    var k := GivePage(m, p);
    assert FrameOk(m, p);
    NamedSame(m, k);
    forall x | 0 <= x < |k.frames| ensures FrameOk(k, x) {
      assert FrameOk(m, x);
      assert x in k.free <==> x == p || x in m.free;
    }
    forall s | s in Named(k) ensures Target(k, s).Some? && SlotOk(k, s) {
      NamedIs(m, s);
      assert SlotOk(m, s);
      Nameless(m, p, s);
    }
  }

  lemma {:induction false} LinkNamed(m: Mem, q: nat, i: nat, p: nat, perm: Perm)
    requires q < |m.frames| == |m.refs| && i < |Ents(m.frames[q])| && Ents(m.frames[q])[i].Absent?
    requires p < |m.frames| && p != q && (m.frames[p].Loose? || m.frames[p].User?)
    ensures OfEntry(q, i) !in Named(m)
    ensures Named(LinkEntry(m, q, i, p, perm)) == Named(m)[OfEntry(q, i) := p]
  {
    var k := LinkEntry(m, q, i, p, perm);
    var s0 := OfEntry(q, i);
    NamedIs(m, s0);
    forall x | x != s0 ensures Target(m, x) == Target(k, x) {
      LinkTarget(m, q, i, p, perm, x);
    }
    NamedDiff(m, k, s0);
  }

  lemma {:induction false} LinkFrame(m: Mem, q: nat, i: nat, p: nat, perm: Perm, x: nat)
    requires Inv(m) && q < |m.frames| && i < |Ents(m.frames[q])| && Ents(m.frames[q])[i].Absent? && x < |m.frames|
    requires p < |m.frames| && (m.frames[p].Loose? || (m.frames[p].User? && m.frames[q].Table?))
    ensures var k := LinkEntry(m, q, i, p, perm); |k.frames| == |k.refs| == |m.frames| && FrameOk(k, x)
  {
    LinkNamed(m, q, i, p, perm);
    assert FrameOk(m, x);
    CountAdd(Named(m), OfEntry(q, i), p, x);
    if x == p { CountZero(m, p); }
  }

  lemma {:induction false} LinkKeeps(m: Mem, q: nat, i: nat, p: nat, perm: Perm)
    requires Inv(m) && q < |m.frames| && i < |Ents(m.frames[q])| && Ents(m.frames[q])[i].Absent?
    requires p < |m.frames| && (m.frames[p].Loose? || (m.frames[p].User? && m.frames[q].Table?))
    ensures var k := LinkEntry(m, q, i, p, perm);
            Inv(k) && Named(k) == Named(m)[OfEntry(q, i) := p] && OfEntry(q, i) !in Named(m)
  {
    var k := LinkEntry(m, q, i, p, perm);
    var s0 := OfEntry(q, i);
    LinkNamed(m, q, i, p, perm);
    forall x | 0 <= x < |k.frames| ensures FrameOk(k, x) {
      LinkFrame(m, q, i, p, perm, x);
    }
    forall s | s in Named(k) ensures Target(k, s).Some? && SlotOk(k, s) {
      LinkSlot(m, q, i, p, perm, s);
    }
  }

  lemma {:induction false} LinkSlot(m: Mem, q: nat, i: nat, p: nat, perm: Perm, s: Slot)
    requires Inv(m) && q < |m.frames| && i < |Ents(m.frames[q])| && Ents(m.frames[q])[i].Absent?
    requires p < |m.frames| && (m.frames[p].Loose? || (m.frames[p].User? && m.frames[q].Table?))
    requires s in Named(LinkEntry(m, q, i, p, perm))
    ensures var k := LinkEntry(m, q, i, p, perm); Target(k, s).Some? && SlotOk(k, s)
  {
    var k := LinkEntry(m, q, i, p, perm);
    NamedIs(k, s);
    if s != OfEntry(q, i) {
      LinkTarget(m, q, i, p, perm, s);
      TargetOk(m, s);
      if m.frames[p].Loose? { Nameless(m, p, s); }
    }
  }

  /** Other slots name what they named. */
  lemma {:induction false} LinkTarget(m: Mem, q: nat, i: nat, p: nat, perm: Perm, s: Slot)
    requires q < |m.frames| == |m.refs| && i < |Ents(m.frames[q])| && s != OfEntry(q, i)
    requires p < |m.frames| && p != q && (m.frames[p].Loose? || m.frames[p].User?)
    ensures var k := LinkEntry(m, q, i, p, perm);
            && Target(k, s) == Target(m, s) && |k.frames| == |m.frames|
            && (s.OfEntry? && Target(m, s).Some? ==> s.q < |m.frames| && s.q != p)
  {
  }

  predicate AllAbsent(f: Frame) {
    forall j :: 0 <= j < |Ents(f)| ==> Ents(f)[j].Absent?
  }

  /** Whatever a slot names is a page in use. */
  lemma {:induction false} TargetOk(m: Mem, s: Slot)
    requires Inv(m) && Target(m, s).Some?
    ensures Target(m, s).value < |m.frames|
    ensures Fitting(m, s, m.frames[Target(m, s).value])
    ensures m.refs[Target(m, s).value] > 0
  {
    NamedIs(m, s);
    assert SlotOk(m, s);
    CountZero(m, Target(m, s).value);
  }

  predicate CanUnlink(m: Mem, q: nat, i: nat) {
    && q < |m.frames| == |m.refs| && i < |Ents(m.frames[q])| && Ents(m.frames[q])[i].Present?
    && var p := Ents(m.frames[q])[i].page;
       p < |m.frames| && p != q && m.refs[p] > 0 && AllAbsent(m.frames[p])
  }

  lemma {:induction false} UnlinkNamed(m: Mem, q: nat, i: nat)
    requires CanUnlink(m, q, i)
    ensures OfEntry(q, i) in Named(m)
    ensures Named(UnlinkEntry(m, q, i)) == Named(m) - {OfEntry(q, i)}
  {
    var k := UnlinkEntry(m, q, i);
    var s0 := OfEntry(q, i);
    NamedIs(m, s0);
    forall x | x != s0 ensures Target(m, x) == Target(k, x) {
      if x.OfEntry? && x.q == Ents(m.frames[q])[i].page {
        assert Target(m, x) == None;
      }
    }
    NamedDiff(m, k, s0);
  }

  /** What UnlinkEntry does to page x. */
  lemma {:induction false} UnlinkAt(m: Mem, q: nat, i: nat, x: nat)
    requires CanUnlink(m, q, i) && x < |m.frames|
    ensures var p, k := Ents(m.frames[q])[i].page, UnlinkEntry(m, q, i);
            && |k.frames| == |k.refs| == |m.frames| && k.refs[x] == m.refs[x] - (if x == p then 1 else 0)
            && (x in k.free <==> x in m.free || (x == p && m.refs[p] == 1))
            && (if x == p && m.refs[p] == 1 then k.frames[x].Unused?
                else SameKind(m.frames[x], k.frames[x]) && |Ents(k.frames[x])| == |Ents(m.frames[x])|)
  {
  }

  predicate SameKind(f: Frame, g: Frame) {
    && f.Dir? == g.Dir? && f.Table? == g.Table? && f.User? == g.User? && f.Unused? == g.Unused?
  }

  lemma {:induction false} UnlinkFrame(m: Mem, q: nat, i: nat, x: nat)
    requires Inv(m) && CanUnlink(m, q, i) && x < |m.frames|
    ensures |UnlinkEntry(m, q, i).frames| == |UnlinkEntry(m, q, i).refs| == |m.frames|
    ensures FrameOk(UnlinkEntry(m, q, i), x)
  {
    UnlinkAt(m, q, i, x);
    UnlinkNamed(m, q, i);
    assert FrameOk(m, x);
    NamedIs(m, OfEntry(q, i));
    CountDrop(Named(m), OfEntry(q, i), x);
  }

  lemma {:induction false} UnlinkKeeps(m: Mem, q: nat, i: nat)
    requires Inv(m) && CanUnlink(m, q, i)
    ensures Inv(UnlinkEntry(m, q, i))
  {
    var p, k := Ents(m.frames[q])[i].page, UnlinkEntry(m, q, i);
    assert FrameOk(m, p);
    forall x | 0 <= x < |m.frames| ensures |k.refs| == |k.frames| == |m.frames| && FrameOk(k, x) {
      UnlinkFrame(m, q, i, x);
    }
    forall s | s in Named(k) ensures Target(k, s).Some? && SlotOk(k, s) {
      UnlinkSlot(m, q, i, s);
    }
  }

  lemma {:induction false} UnlinkSlot(m: Mem, q: nat, i: nat, s: Slot)
    requires Inv(m) && CanUnlink(m, q, i) && s in Named(UnlinkEntry(m, q, i))
    ensures Target(UnlinkEntry(m, q, i), s).Some? && SlotOk(UnlinkEntry(m, q, i), s)
  {
    var p, k := Ents(m.frames[q])[i].page, UnlinkEntry(m, q, i);
    UnlinkNamed(m, q, i);
    NamedIs(k, s);
    NamedIs(m, s);
    TargetOk(m, s);
    var t := Target(m, s).value;
    assert t == p && m.refs[p] == 1 ==> s == OfEntry(q, i) by {
      if t == p && m.refs[p] == 1 { OnlyNamer(m, s, OfEntry(q, i), p); }
    }
    UnlinkAt(m, q, i, t);
    if s.OfEntry? { UnlinkAt(m, q, i, s.q); }
  }

  // ---------------------------------------------------------------- page directories

  /** env_setup_vm: the loose page p becomes the directory of environment e. */
  function LinkEnv(m: Mem, e: nat, p: nat): Mem
    requires e < |m.dirs| && p < |m.frames| == |m.refs|
  {
    m.(dirs := m.dirs[e := Some(p)], frames := m.frames[p := EmptyDir()], refs := m.refs[p := 1])
  }

  lemma {:induction false} LinkEnvKeeps(m: Mem, e: nat, p: nat)
    requires Inv(m) && e < |m.dirs| && m.dirs[e].None? && p < |m.frames| && m.frames[p].Loose?
    ensures Inv(LinkEnv(m, e, p)) && Named(LinkEnv(m, e, p)) == Named(m)[OfEnv(e) := p]
  {
    var k, s0 := LinkEnv(m, e, p), OfEnv(e);
    NamedIs(m, s0);
    NamedDiff(m, k, s0);
    CountZero(m, p);
    forall x | 0 <= x < |k.frames| ensures FrameOk(k, x) {
      assert FrameOk(m, x);
      CountAdd(Named(m), s0, p, x);
    }
    forall s | s in Named(k) ensures Target(k, s).Some? && SlotOk(k, s) {
      NamedIs(k, s);
      if s != s0 {
        TargetOk(m, s);
      }
    }
  }

  /** The end of env_free: the directory of e is given up. */
  function UnlinkEnv(m: Mem, e: nat): Mem
    requires e < |m.dirs| && m.dirs[e].Some? && m.dirs[e].value < |m.frames| == |m.refs| && m.refs[m.dirs[e].value] > 0
  {
    DropRef(m.(dirs := m.dirs[e := None]), m.dirs[e].value)
  }

  lemma {:induction false} UnlinkEnvKeeps(m: Mem, e: nat)
    requires Inv(m) && e < |m.dirs| && m.dirs[e].Some? && m.dirs[e].value < |m.frames| && m.refs[m.dirs[e].value] > 0
    requires AllAbsent(m.frames[m.dirs[e].value])
    ensures Inv(UnlinkEnv(m, e)) && Named(UnlinkEnv(m, e)) == Named(m) - {OfEnv(e)}
  {
    var p, k, s0 := m.dirs[e].value, UnlinkEnv(m, e), OfEnv(e);
    TargetOk(m, s0);
    NamedIs(m, s0);
    forall x | x != s0 ensures Target(m, x) == Target(k, x) {
      if x.OfEntry? && x.q == p {
        assert Target(m, x) == None;
      }
    }
    NamedDiff(m, k, s0);
    assert FrameOk(m, p);
    forall x | 0 <= x < |k.frames| ensures FrameOk(k, x) {
      UnlinkEnvFrame(m, k, e, p, x);
    }
    forall s | s in Named(k) ensures Target(k, s).Some? && SlotOk(k, s) {
      NamedIs(k, s);
      TargetOk(m, s);
      if Target(m, s) == Some(p) {
        OnlyNamer(m, s, s0, p);
      }
    }
  }

  lemma {:induction false} UnlinkEnvFrame(m: Mem, k: Mem, e: nat, p: nat, x: nat)
    requires Inv(m) && e < |m.dirs| && m.dirs[e] == Some(p) && p < |m.frames| && m.refs[p] == 1 && x < |m.frames|
    requires k == UnlinkEnv(m, e) && Named(k) == Named(m) - {OfEnv(e)} && OfEnv(e) in Named(m)
    requires Named(m)[OfEnv(e)] == p
    ensures |k.frames| == |k.refs| == |m.frames| && FrameOk(k, x)
  {
    assert FrameOk(m, x);
    CountDrop(Named(m), OfEnv(e), x);
    assert x in k.free <==> x in m.free || x == p;
  }

  // ---------------------------------------------------------------- the flat view

  function DirEntry(m: Mem, e: nat, i: nat): Pte {
    if e < |m.dirs| && m.dirs[e].Some? && m.dirs[e].value < |m.frames| && i < |Ents(m.frames[m.dirs[e].value])|
    then Ents(m.frames[m.dirs[e].value])[i] else Absent
  }

  /** The page table that serves virtual page v of environment e. */
  function TableOf(m: Mem, e: nat, v: nat): Option<nat> {
    match DirEntry(m, e, v / NPT)
    case Absent => None
    case Present(t, _) => Some(t)
  }

  /** What virtual page v of environment e is mapped to: the two levels read as one map. */
  function Lookup(m: Mem, e: nat, v: nat): Pte {
    var t := TableOf(m, e, v);
    if t.Some? && t.value < |m.frames| && v % NPT < |Ents(m.frames[t.value])|
    then Ents(m.frames[t.value])[v % NPT] else Absent
  }

  /** The same map everywhere, except that (e, v) now maps to x. */
  ghost predicate MapsOnly(m: Mem, k: Mem, e: nat, v: nat, x: Pte) {
    forall e': nat, v': nat :: Lookup(k, e', v') == if e' == e && v' == v then x else Lookup(m, e', v')
  }

  ghost predicate SameMaps(m: Mem, k: Mem) {
    forall e: nat, v: nat :: Lookup(k, e, v) == Lookup(m, e, v)
  }

  /** User pages outside x that are there after it are as they were. */
  ghost predicate DataKept(m: Mem, k: Mem, x: set<nat>) {
    |k.frames| == |m.frames| && forall q :: 0 <= q < |m.frames| && q !in x && k.frames[q].User? ==>
      k.frames[q] == m.frames[q]
  }

  lemma {:induction false} DirOk(m: Mem, e: nat)
    requires Inv(m) && e < |m.dirs| && m.dirs[e].Some?
    ensures m.dirs[e].value < |m.frames| && m.frames[m.dirs[e].value].Dir? && m.refs[m.dirs[e].value] == 1
    ensures |Ents(m.frames[m.dirs[e].value])| == UPDE
  {
    TargetOk(m, OfEnv(e));
    assert FrameOk(m, m.dirs[e].value);
  }

  lemma {:induction false} TableOk(m: Mem, e: nat, v: nat)
    requires Inv(m) && TableOf(m, e, v).Some?
    ensures var t := TableOf(m, e, v).value;
            t < |m.frames| && m.frames[t].Table? && |Ents(m.frames[t])| == NPT && m.refs[t] == 1
    ensures e < |m.dirs| && m.dirs[e].Some? && m.dirs[e].value < |m.frames| && m.dirs[e].value != TableOf(m, e, v).value
    ensures Target(m, OfEntry(m.dirs[e].value, v / NPT)) == TableOf(m, e, v)
  {
    DirOk(m, e);
    TargetOk(m, OfEntry(m.dirs[e].value, v / NPT));
    assert FrameOk(m, TableOf(m, e, v).value);
  }

  /** A directory serves one environment only. */
  lemma {:induction false} SameDir(m: Mem, e: nat, f: nat)
    requires Inv(m) && e < |m.dirs| && f < |m.dirs| && m.dirs[e].Some? && m.dirs[e] == m.dirs[f]
    ensures e == f
  {
    DirOk(m, e);
    OnlyNamer(m, OfEnv(e), OfEnv(f), m.dirs[e].value);
  }

  /** A page table serves one environment and one directory entry only. */
  lemma {:induction false} SameTable(m: Mem, e: nat, v: nat, f: nat, w: nat)
    requires Inv(m) && TableOf(m, e, v).Some? && TableOf(m, e, v) == TableOf(m, f, w)
    ensures e == f && v / NPT == w / NPT
  {
    TableOk(m, e, v);
    TableOk(m, f, w);
    OnlyNamer(m, OfEntry(m.dirs[e].value, v / NPT), OfEntry(m.dirs[f].value, w / NPT), TableOf(m, e, v).value);
    SameDir(m, e, f);
  }

  /** Directories are the same in m and k, and tables too, apart from entry j of table t. */
  ghost predicate OneEntryDiffers(m: Mem, k: Mem, t: nat, j: nat, x: Pte) {
    && |k.frames| == |m.frames| && k.dirs == m.dirs
    && t < |m.frames| && m.frames[t].Table? && j < |Ents(m.frames[t])| && k.frames[t] == Table(m.frames[t].ents[j := x])
    && forall q :: 0 <= q < |m.frames| && q != t && (m.frames[q].Dir? || m.frames[q].Table?) ==>
       k.frames[q] == m.frames[q]
  }

  lemma {:induction false} WriteMaps(m: Mem, k: Mem, e: nat, v: nat, x: Pte)
    requires Inv(m) && TableOf(m, e, v).Some? && OneEntryDiffers(m, k, TableOf(m, e, v).value, v % NPT, x)
    ensures MapsOnly(m, k, e, v, x)
  {
    TableOk(m, e, v);
    forall f: nat, w: nat ensures Lookup(k, f, w) == if f == e && w == v then x else Lookup(m, f, w) {
      if f < |m.dirs| && m.dirs[f].Some? {
        DirOk(m, f);
        if TableOf(m, f, w).Some? {
          TableOk(m, f, w);
          if TableOf(m, f, w) == TableOf(m, e, v) {
            SameTable(m, e, v, f, w);
          }
        }
      }
    }
  }

  /** A step that touches neither directories nor tables. */
  lemma {:induction false} QuietMaps(m: Mem, k: Mem)
    requires Inv(m) && |k.frames| == |m.frames| && k.dirs == m.dirs
    requires forall q :: 0 <= q < |m.frames| && (m.frames[q].Dir? || m.frames[q].Table?) ==> k.frames[q] == m.frames[q]
    ensures SameMaps(m, k)
  {
    forall f: nat, w: nat ensures Lookup(k, f, w) == Lookup(m, f, w) {
      if f < |m.dirs| && m.dirs[f].Some? {
        DirOk(m, f);
        if TableOf(m, f, w).Some? { TableOk(m, f, w); }
      }
    }
  }

  /** Directory entry (d, i) of environment e changes between no table and table t with nothing in it. */
  ghost predicate TableSwap(m: Mem, k: Mem, e: nat, i: nat, t: nat) {
    && e < |m.dirs| && m.dirs[e].Some? && |k.frames| == |m.frames| && k.dirs == m.dirs
    && t < |m.frames| && !m.frames[t].Dir? && AllAbsent(m.frames[t]) && AllAbsent(k.frames[t])
    && var d := m.dirs[e].value;
    && d < |m.frames| && d != t && i < |Ents(m.frames[d])|
    && Ents(k.frames[d]) == Ents(m.frames[d])[i := DirEntry(k, e, i)]
    && (DirEntry(m, e, i).Absent? || DirEntry(m, e, i).page == t)
    && (DirEntry(k, e, i).Absent? || DirEntry(k, e, i).page == t)
    && forall q :: 0 <= q < |m.frames| && q != d && q != t ==>
         (m.frames[q].Dir? || m.frames[q].Table? ==> k.frames[q] == m.frames[q])
  }

  lemma {:induction false} TableMaps(m: Mem, k: Mem, e: nat, i: nat, t: nat)
    requires Inv(m) && TableSwap(m, k, e, i, t)
    ensures SameMaps(m, k)
  {
    forall f: nat, w: nat ensures Lookup(k, f, w) == Lookup(m, f, w) {
      TableLookup(m, k, e, i, t, f, w);
    }
  }

  lemma {:induction false} TableLookup(m: Mem, k: Mem, e: nat, i: nat, t: nat, f: nat, w: nat)
    requires Inv(m) && TableSwap(m, k, e, i, t)
    ensures Lookup(k, f, w) == Lookup(m, f, w)
  {
    if f < |m.dirs| && m.dirs[f].Some? {
      DirOk(m, e);
      DirOk(m, f);
      if f == e {
        assert w / NPT != i ==> DirEntry(k, f, w / NPT) == DirEntry(m, f, w / NPT);
      } else if m.dirs[f] == m.dirs[e] {
        SameDir(m, e, f);
      } else {
        assert DirEntry(k, f, w / NPT) == DirEntry(m, f, w / NPT);
      }
      if TableOf(m, f, w).Some? { TableOk(m, f, w); }
    }
  }

  // ---------------------------------------------------------------- pgdir_walk, page_insert, page_remove

  /** pgdir_walk makes a table for virtual page v of e out of the first free page. */
  function NewTable(m: Mem, e: nat, v: nat): Mem
    requires Inv(m) && e < |m.dirs| && m.dirs[e].Some? && v < UVPN && m.free != []
  {
    DirOk(m, e);
    var d, p := m.dirs[e].value, m.free[0];
    assert FrameOk(m, p);
    LinkEntry(TakePage(m), d, v / NPT, p, RW)
  }

  lemma {:induction false} NewTableKeeps(m: Mem, e: nat, v: nat)
    requires Inv(m) && e < |m.dirs| && m.dirs[e].Some? && v < UVPN && m.free != [] && TableOf(m, e, v).None?
    ensures var k := NewTable(m, e, v);
            && Inv(k) && SameMaps(m, k) && k.dirs == m.dirs && |k.frames| == |m.frames|
            && TableOf(k, e, v) == Some(m.free[0])
            && (forall q :: 0 <= q < |m.frames| && !m.frames[q].Dir? && q != m.free[0] ==> k.frames[q] == m.frames[q])
            && (forall q :: 0 <= q < |m.frames| && k.frames[q].Loose? ==> m.frames[q].Loose?)
  {
    var d, p := m.dirs[e].value, m.free[0];
    DirOk(m, e);
    assert FrameOk(m, p);
    TakeKeeps(m);
    LinkKeeps(TakePage(m), d, v / NPT, p, RW);
    TableMaps(m, NewTable(m, e, v), e, v / NPT, p);
  }

  /** page_remove at entry j of table t. */
  function RemoveAt(m: Mem, t: nat, j: nat): Mem
    requires t < |m.frames| && j < |Ents(m.frames[t])| && (Ents(m.frames[t])[j].Present? ==> CanUnlink(m, t, j))
  {
    if Ents(m.frames[t])[j].Present? then UnlinkEntry(m, t, j) else m
  }

  /** page_insert at entry j of table t. */
  function InsertAt(m: Mem, t: nat, j: nat, p: nat, perm: Perm): Mem
    requires t < |m.frames| && j < |Ents(m.frames[t])| && (Ents(m.frames[t])[j].Present? ==> CanUnlink(m, t, j))
    requires p < |m.frames| == |m.refs| && p != t
  {
    var x := Ents(m.frames[t])[j];
    if x.Present? && x.page == p then PutEntry(m, t, j, Present(p, WithP(perm)))
    else LinkEntry(RemoveAt(m, t, j), t, j, p, WithP(perm))
  }

  /** Every mapping of a user page can be removed. */
  lemma {:induction false} Removable(m: Mem, t: nat, j: nat)
    requires Inv(m) && t < |m.frames| && m.frames[t].Table? && j < |Ents(m.frames[t])| && Ents(m.frames[t])[j].Present?
    ensures CanUnlink(m, t, j) && m.frames[Ents(m.frames[t])[j].page].User?
  {
    TargetOk(m, OfEntry(t, j));
  }

  /** page_remove unmaps v in e, changes no other mapping and drops one reference. */
  lemma {:induction false} RemoveKeeps(m: Mem, e: nat, v: nat)
    requires Inv(m) && TableOf(m, e, v).Some?
    ensures var t, j := TableOf(m, e, v).value, v % NPT;
            && t < |m.frames| && j < |Ents(m.frames[t])| && (Ents(m.frames[t])[j].Present? ==> CanUnlink(m, t, j))
            && var k := RemoveAt(m, t, j);
               Inv(k) && MapsOnly(m, k, e, v, Absent) && Named(k) == Named(m) - {OfEntry(t, j)}
  {
    TableOk(m, e, v);
    var t, j := TableOf(m, e, v).value, v % NPT;
    var k := if Ents(m.frames[t])[j].Present? then (Removable(m, t, j); RemoveAt(m, t, j)) else m;
    if Ents(m.frames[t])[j].Present? {
      UnlinkKeeps(m, t, j);
      UnlinkNamed(m, t, j);
      WriteMaps(m, k, e, v, Absent);
    } else {
      NamedIs(m, OfEntry(t, j));
    }
  }

  /** Changing the permissions of a mapping in place changes no count. */
  lemma {:induction false} PermKeeps(m: Mem, t: nat, j: nat, perm: Perm)
    requires Inv(m) && t < |m.frames| && j < |Ents(m.frames[t])| && Ents(m.frames[t])[j].Present?
    ensures var k := PutEntry(m, t, j, Present(Ents(m.frames[t])[j].page, perm));
            Inv(k) && Named(k) == Named(m)
  {
    var k := PutEntry(m, t, j, Present(Ents(m.frames[t])[j].page, perm));
    NamedSame(m, k);
    forall x | 0 <= x < |k.frames| ensures FrameOk(k, x) {
      assert FrameOk(m, x);
    }
    forall s | s in Named(k) ensures Target(k, s).Some? && SlotOk(k, s) {
      NamedIs(m, s);
      TargetOk(m, s);
    }
  }

  /** Replacing the mapping of one page by that of another. */
  lemma {:induction false} SwapCounts(m: Mem, t: nat, j: nat, p: nat, perm: Perm)
    requires Inv(m) && CanUnlink(m, t, j) && m.frames[t].Table?
    requires p < |m.frames| && (m.frames[p].Loose? || m.frames[p].User?) && Ents(m.frames[t])[j].page != p
    ensures var k := LinkEntry(UnlinkEntry(m, t, j), t, j, p, perm);
            Inv(k) && Named(k) == Named(m)[OfEntry(t, j) := p]
  {
    UnlinkKeeps(m, t, j);
    UnlinkNamed(m, t, j);
    var r := UnlinkEntry(m, t, j);
    UnlinkFrames(m, t, j);
    LinkKeeps(r, t, j, p, perm);
    PutAgain(Named(m), OfEntry(t, j), p);
  }

  lemma {:induction false} PutAgain(n: map<Slot, nat>, s: Slot, p: nat)
    ensures (n - {s})[s := p] == n[s := p]
  {
  }

  lemma {:induction false} InsertFrames(m: Mem, t: nat, j: nat, p: nat, perm: Perm)
    requires Inv(m) && t < |m.frames| && m.frames[t].Table? && j < |Ents(m.frames[t])|
    requires Ents(m.frames[t])[j].Present? ==> CanUnlink(m, t, j)
    requires p < |m.frames| && (m.frames[p].Loose? || m.frames[p].User?)
    ensures OneEntryDiffers(m, InsertAt(m, t, j, p, perm), t, j, Present(p, WithP(perm)))
    ensures forall q :: 0 <= q < |m.frames| && !m.frames[q].Loose? ==> !InsertAt(m, t, j, p, perm).frames[q].Loose?
    ensures InsertAt(m, t, j, p, perm).frames[p].User?
    ensures DataKept(m, InsertAt(m, t, j, p, perm), if m.frames[p].User? then {} else {p})
  {
    if Ents(m.frames[t])[j].Present? {
      Removable(m, t, j);
    }
  }

  lemma {:induction false} InsertCounts(m: Mem, t: nat, j: nat, p: nat, perm: Perm)
    requires Inv(m) && t < |m.frames| && m.frames[t].Table? && j < |Ents(m.frames[t])|
    requires p < |m.frames| && (m.frames[p].Loose? || m.frames[p].User?)
    ensures Ents(m.frames[t])[j].Present? ==> CanUnlink(m, t, j)
    ensures Inv(InsertAt(m, t, j, p, perm)) && Named(InsertAt(m, t, j, p, perm)) == Named(m)[OfEntry(t, j) := p]
  {
    var x := Ents(m.frames[t])[j];
    NamedIs(m, OfEntry(t, j));
    if x.Present? {
      Removable(m, t, j);
    }
    if x.Present? && x.page == p {
      PermKeeps(m, t, j, WithP(perm));
      assert Named(m)[OfEntry(t, j) := p] == Named(m);
    } else if x.Present? {
      SwapCounts(m, t, j, p, WithP(perm));
    } else {
      LinkKeeps(m, t, j, p, WithP(perm));
    }
  }

  /** page_insert maps v in e to p and changes no other mapping. */
  lemma {:induction false} InsertKeeps(m: Mem, e: nat, v: nat, p: nat, perm: Perm)
    requires Inv(m) && TableOf(m, e, v).Some? && p < |m.frames| && (m.frames[p].Loose? || m.frames[p].User?)
    ensures var t, j := TableOf(m, e, v).value, v % NPT;
            && t < |m.frames| && j < |Ents(m.frames[t])| && (Ents(m.frames[t])[j].Present? ==> CanUnlink(m, t, j))
               && p != t
            && var k := InsertAt(m, t, j, p, perm);
               && Inv(k) && MapsOnly(m, k, e, v, Present(p, WithP(perm)))
               && Named(k) == Named(m)[OfEntry(t, j) := p]
  {
    TableOk(m, e, v);
    var t, j := TableOf(m, e, v).value, v % NPT;
    InsertCounts(m, t, j, p, perm);
    InsertFrames(m, t, j, p, perm);
    WriteMaps(m, InsertAt(m, t, j, p, perm), e, v, Present(p, WithP(perm)));
  }

  /** The state after pgdir_walk with create, when that succeeds. */
  function Walked(m: Mem, e: nat, v: nat): Mem
    requires Inv(m) && e < |m.dirs| && m.dirs[e].Some? && v < UVPN && (TableOf(m, e, v).Some? || m.free != [])
  {
    if TableOf(m, e, v).Some? then m else NewTable(m, e, v)
  }

  /** All of page_insert, from before pgdir_walk. */
  lemma {:induction false} InsertWhole(m: Mem, e: nat, v: nat, p: nat, perm: Perm)
    requires Inv(m) && e < |m.dirs| && m.dirs[e].Some? && v < UVPN && (TableOf(m, e, v).Some? || m.free != [])
    requires p < |m.frames| && (m.frames[p].Loose? || m.frames[p].User?)
    ensures var w := Walked(m, e, v);
            && Inv(w) && TableOf(w, e, v).Some? && p < |w.frames| && w.frames[p] == m.frames[p]
            && var t, j := TableOf(w, e, v).value, v % NPT;
               && t < |w.frames| && w.frames[t].Table? && |Ents(w.frames[t])| == NPT && p != t
               && (Ents(w.frames[t])[j].Present? ==> CanUnlink(w, t, j))
               && var k := InsertAt(w, t, j, p, perm);
                  && Inv(k) && MapsOnly(m, k, e, v, Present(p, WithP(perm)))
                  && |k.frames| == |m.frames| && k.dirs == m.dirs && k.frames[p].User?
                  && forall q :: 0 <= q < |k.frames| && k.frames[q].Loose? ==> q != p && m.frames[q].Loose?
  {
    if TableOf(m, e, v).None? {
      assert FrameOk(m, m.free[0]);
      NewTableKeeps(m, e, v);
    }
    var w := Walked(m, e, v);
    TableOk(w, e, v);
    InsertKeeps(w, e, v, p, perm);
    InsertFrames(w, TableOf(w, e, v).value, v % NPT, p, perm);
  }

  /** pgdir_walk leaves the contents of pages. */
  lemma {:induction false} WalkData(m: Mem, e: nat, v: nat)
    requires Inv(m) && e < |m.dirs| && m.dirs[e].Some? && v < UVPN && (TableOf(m, e, v).Some? || m.free != [])
    ensures DataKept(m, Walked(m, e, v), {})
  {
    if TableOf(m, e, v).None? {
      NewTableKeeps(m, e, v);
      DirOk(m, e);
    }
  }

  /** So does writing the entry, apart from a page that is new. */
  lemma {:induction false} InsertData(m: Mem, w: Mem, t: nat, j: nat, p: nat, perm: Perm)
    requires Inv(w) && t < |w.frames| && w.frames[t].Table? && j < |Ents(w.frames[t])|
    requires Ents(w.frames[t])[j].Present? ==> CanUnlink(w, t, j)
    requires p < |w.frames| && (w.frames[p].Loose? || w.frames[p].User?) && DataKept(m, w, {})
    ensures DataKept(m, InsertAt(w, t, j, p, perm), if w.frames[p].User? then {} else {p})
  {
    InsertFrames(w, t, j, p, perm);
  }

  /** Giving a page straight back after taking it changes nothing at all. */
  lemma {:induction false} TakeGive(m: Mem)
    requires Inv(m) && m.free != []
    ensures GivePage(TakePage(m), m.free[0]) == m
  {
    assert FrameOk(m, m.free[0]);
    CountZero(m, m.free[0]);
  }

  /** A new directory maps nothing, so no mapping changes. */
  lemma {:induction false} NewDirMaps(m: Mem, e: nat)
    requires Inv(m) && m.free != [] && e < |m.dirs| && m.dirs[e].None?
    ensures SameMaps(m, LinkEnv(TakePage(m), e, m.free[0]))
  {
    var k := LinkEnv(TakePage(m), e, m.free[0]);
    assert FrameOk(m, m.free[0]);
    forall f: nat, w: nat ensures Lookup(k, f, w) == Lookup(m, f, w) {
      if f < |m.dirs| && m.dirs[f].Some? {
        DirOk(m, f);
        if TableOf(m, f, w).Some? { TableOk(m, f, w); }
      }
    }
  }

  /** Writing to a user page touches neither mappings nor counts. */
  lemma {:induction false} DataKeeps(m: Mem, p: nat, data: Option<seq<Byte>>)
    requires Inv(m) && p < |m.frames| && m.frames[p].User?
    ensures var k := m.(frames := m.frames[p := User(data)]);
            Inv(k) && SameMaps(m, k) && Named(k) == Named(m)
  {
    var k := m.(frames := m.frames[p := User(data)]);
    NamedSame(m, k);
    QuietMaps(m, k);
    forall x | 0 <= x < |k.frames| ensures FrameOk(k, x) {
      assert FrameOk(m, x);
    }
    forall s | s in Named(k) ensures Target(k, s).Some? && SlotOk(k, s) {
      NamedIs(m, s);
      TargetOk(m, s);
    }
  }

  lemma {:induction false} RemoveSettled(m: Mem, t: nat, j: nat)
    requires t < |m.frames| && j < |Ents(m.frames[t])| && (Ents(m.frames[t])[j].Present? ==> CanUnlink(m, t, j))
    ensures Settled(m) ==> Settled(RemoveAt(m, t, j))
  {
  }

  /** The state at boot. */
  lemma {:induction false} FreshInv(m: Mem)
    requires |m.refs| == |m.frames|
    requires forall p :: 0 <= p < |m.frames| ==> m.refs[p] == 0 && (m.frames[p].Reserved? || m.frames[p].Unused?)
    requires forall p :: 0 <= p < |m.frames| ==> (p in m.free <==> m.frames[p].Unused?)
    requires forall i :: 0 <= i < |m.free| ==> m.free[i] < |m.frames|
    requires forall i, j :: 0 <= i < j < |m.free| ==> m.free[i] != m.free[j]
    requires forall e :: 0 <= e < |m.dirs| ==> m.dirs[e].None?
    ensures Inv(m)
  {
    assert Named(m) == map[];
    forall p | 0 <= p < |m.frames| ensures FrameOk(m, p) {
      assert Namers(Named(m), p) == {};
    }
  }

  /** Virtual page numbers: PGADDR puts together what PDX and PTX take apart. */
  lemma {:induction false} VpnSplit(i: nat, j: nat)
    requires j < NPT
    ensures (i * NPT + j) / NPT == i && (i * NPT + j) % NPT == j
    ensures i < UPDE ==> i * NPT + j < UVPN
  {
  }

  // ---------------------------------------------------------------- teardown

  /** Slot s is one of environment e's: its directory, a table of it, a mapping in such a table. */
  predicate Owns(m: Mem, e: nat, s: Slot) {
    match s
    case OfEnv(f) => f == e
    case OfEntry(q, i) =>
      e < |m.dirs| && m.dirs[e].Some? && (q == m.dirs[e].value || IsTableOf(m, e, q))
  }

  predicate IsTableOf(m: Mem, e: nat, q: nat) {
    exists i :: 0 <= i < UPDE && DirEntry(m, e, i).Present? && DirEntry(m, e, i).page == q
  }

  /** The references environment e holds. */
  ghost function Own(m: Mem, e: nat): set<Slot> {
    set s | s in Named(m) && Owns(m, e, s)
  }

  /** Pages may have been released, and nothing else has become of any. */
  ghost predicate Released(m: Mem, k: Mem) {
    && DataKept(m, k, {})
    && forall p :: 0 <= p < |m.frames| ==> (k.frames[p].Reserved? <==> m.frames[p].Reserved?) && !k.frames[p].Loose?
  }

  lemma {:induction false} ReleasedMore(m: Mem, k: Mem, z: Mem)
    requires Released(m, k) && |z.frames| == |k.frames|
    requires forall q :: 0 <= q < |k.frames| ==>
               || z.frames[q] == k.frames[q]
               || (z.frames[q].Unused? && !k.frames[q].Reserved?)
               || (k.frames[q].Table? && z.frames[q].Table?) || (k.frames[q].Dir? && z.frames[q].Dir?)
    ensures Released(m, z)
  {
  }

  /** The state after env_free(e): e's references are gone and no others. */
  ghost predicate TornDown(m: Mem, k: Mem, e: nat) {
    && Inv(k) && Named(k) == Named(m) - Own(m, e)
    && (forall f: nat, v: nat :: f != e ==> Lookup(k, f, v) == Lookup(m, f, v))
    && |k.frames| == |m.frames|
    && Released(m, k)
  }

  /**
    Each page loses exactly the references e held to it, and the pages returned to the free
    list are those nobody but e referred to.
   */
  lemma {:induction false} TeardownCounts(m: Mem, k: Mem, e: nat, p: nat)
    requires Inv(m) && Settled(m) && TornDown(m, k, e) && p < |m.frames|
    ensures k.refs[p] == m.refs[p] - |Namers(Named(m), p) * Own(m, e)|
    ensures p in k.free <==> p in m.free || (m.refs[p] > 0 && Namers(Named(m), p) <= Own(m, e))
  {
    assert FrameOk(m, p) && FrameOk(k, p);
    SplitNamers(Named(m), Own(m, e), p);
    CountZero(m, p);
    CountZero(k, p);
  }

  lemma {:induction false} SplitNamers(n: map<Slot, nat>, b: set<Slot>, p: nat)
    ensures |Namers(n - b, p)| == |Namers(n, p)| - |Namers(n, p) * b|
    ensures |Namers(n - b, p)| == 0 <==> Namers(n, p) <= b
  {
    var a := Namers(n, p);
    assert Namers(n - b, p) == a - b;
    assert a == (a - b) + (a * b);
    if a <= b {
      assert a - b == {};
    } else {
      var s :| s in a && s !in b;
      assert s in a - b;
    }
  }

  /** Directory entry x of e, as env_free finds it (at or above i) or leaves it (below i). */
  ghost predicate EntryFreed(m: Mem, k: Mem, e: nat, i: nat, x: nat) {
    if x < i then
      && DirEntry(k, e, x).Absent?
      && (DirEntry(m, e, x).Present? ==>
         DirEntry(m, e, x).page < |k.frames| && Ents(k.frames[DirEntry(m, e, x).page]) == [])
    else DirEntry(k, e, x) == DirEntry(m, e, x)
  }

  /** env_free(e) is under way: it started in m, the entries below i are done, `gone` is released. */
  ghost predicate Freeing(m: Mem, k: Mem, e: nat, i: nat, gone: set<Slot>) {
    && Inv(k) && k.dirs == m.dirs && |k.frames| == |m.frames|
    && Named(k) == Named(m) - gone && gone <= Own(m, e)
    && (forall x :: 0 <= x < UPDE ==> EntryFreed(m, k, e, i, x))
    && (forall f: nat, v: nat :: f != e ==> Lookup(k, f, v) == Lookup(m, f, v))
    && Released(m, k)
  }

  lemma {:induction false} FreeingStarts(m: Mem, e: nat)
    requires Inv(m) && Settled(m)
    ensures Freeing(m, m, e, 0, {})
  {
    assert Named(m) == Named(m) - {};
  }

  /** Which frames removing a mapping from table t touches. */
  lemma {:induction false} UnlinkFrames(k: Mem, t: nat, j: nat)
    requires Inv(k) && CanUnlink(k, t, j) && k.frames[t].Table?
    ensures var z := UnlinkEntry(k, t, j);
            && |z.frames| == |k.frames| && z.dirs == k.dirs && z.frames[t] == Table(Ents(k.frames[t])[j := Absent])
            && forall q :: 0 <= q < |k.frames| && q != t ==>
               z.frames[q] == k.frames[q] || (k.frames[q].User? && z.frames[q].Unused?)
  {
    Removable(k, t, j);
  }

  /** A removed mapping of the table in hand: k is the state before, z after. */
  lemma {:induction false} FreeingMapping(m: Mem, k: Mem, z: Mem, e: nat, i: nat, gone: set<Slot>, t: nat, j: nat)
    requires Freeing(m, k, e, i, gone) && i < UPDE && e < |k.dirs| && k.dirs[e].Some?
    requires DirEntry(k, e, i).Present? && DirEntry(k, e, i).page == t
    requires t < |k.frames| && k.frames[t].Table? && OfEntry(t, j) in Named(k)
    requires Inv(z) && Named(z) == Named(k) - {OfEntry(t, j)} && MapsOnly(k, z, e, i * NPT + j, Absent)
    requires |z.frames| == |k.frames| && z.dirs == k.dirs && z.frames[t].Table?
    requires forall q :: 0 <= q < |k.frames| && q != t ==>
             z.frames[q] == k.frames[q] || (k.frames[q].User? && z.frames[q].Unused?)
    ensures Freeing(m, z, e, i, gone + {OfEntry(t, j)})
    ensures DirEntry(z, e, i) == DirEntry(k, e, i)
  {
    assert IsTableOf(m, e, t) by { assert EntryFreed(m, k, e, i, i); }
    OneMoreGone(Named(m), Named(k), Named(z), gone, OfEntry(t, j));
    NamedIs(m, OfEntry(t, j));
    SameEntries(k, z, e, i, t);
    KeepEntries(m, k, z, e, i);
    ReleasedMore(m, k, z);
  }

  /** Clearing an entry of a table leaves the directory alone. */
  lemma {:induction false} SameEntries(k: Mem, z: Mem, e: nat, i: nat, t: nat)
    requires Inv(k) && i < UPDE && e < |k.dirs| && k.dirs[e].Some? && DirEntry(k, e, i).Present?
    requires DirEntry(k, e, i).page == t
    requires t < |k.frames| && k.frames[t].Table? && |z.frames| == |k.frames| && z.dirs == k.dirs && z.frames[t].Table?
    requires forall q :: 0 <= q < |k.frames| && q != t ==>
             z.frames[q] == k.frames[q] || (k.frames[q].User? && z.frames[q].Unused?)
    ensures forall x :: 0 <= x < UPDE ==> DirEntry(z, e, x) == DirEntry(k, e, x)
    ensures Ents(k.frames[t]) != []
  {
    DirOk(k, e);
    VpnSplit(i, 0);
    TableOk(k, e, i * NPT);
  }

  lemma {:induction false} KeepEntries(m: Mem, k: Mem, z: Mem, e: nat, i: nat)
    requires |z.frames| == |k.frames| && z.dirs == k.dirs
    requires forall x :: 0 <= x < UPDE ==> EntryFreed(m, k, e, i, x)
    requires forall x :: 0 <= x < UPDE ==> DirEntry(z, e, x) == DirEntry(k, e, x)
    requires forall q :: 0 <= q < |k.frames| ==>
             z.frames[q] == k.frames[q] || Ents(k.frames[q]) != [] || Ents(z.frames[q]) == []
    ensures forall x :: 0 <= x < UPDE ==> EntryFreed(m, z, e, i, x)
  {
    forall x | 0 <= x < UPDE ensures EntryFreed(m, z, e, i, x) {
      assert EntryFreed(m, k, e, i, x);
    }
  }

  /** The emptied table itself. */
  lemma {:induction false} FreeingTable(m: Mem, k: Mem, e: nat, i: nat, gone: set<Slot>, t: nat)
    requires Freeing(m, k, e, i, gone) && i < UPDE && e < |k.dirs| && k.dirs[e].Some?
    requires DirEntry(k, e, i).Present? && DirEntry(k, e, i).page == t
    requires t < |k.frames| && AllAbsent(k.frames[t])
    ensures var d := k.dirs[e].value;
            && d < |k.frames| && k.frames[d].Dir? && |Ents(k.frames[d])| == UPDE && CanUnlink(k, d, i)
            && Freeing(m, UnlinkEntry(k, d, i), e, i + 1, gone + {OfEntry(d, i)})
  {
    var d := k.dirs[e].value;
    TableDropped(k, e, i, t);
    var z := UnlinkEntry(k, d, i);
    assert EntryFreed(m, k, e, i, i);
    OneMoreGone(Named(m), Named(k), Named(z), gone, OfEntry(d, i));
    assert OfEntry(d, i) in Own(m, e) by { NamedIs(k, OfEntry(d, i)); }
    FreeingEntries(m, k, e, i, t);
    ReleasedMore(m, k, z);
  }

  /** Giving up an empty table. */
  lemma {:induction false} TableDropped(k: Mem, e: nat, i: nat, t: nat)
    requires Inv(k) && i < UPDE && e < |k.dirs| && k.dirs[e].Some?
    requires DirEntry(k, e, i).Present? && DirEntry(k, e, i).page == t && t < |k.frames| && AllAbsent(k.frames[t])
    ensures var d := k.dirs[e].value;
            && d < |k.frames| && k.frames[d].Dir? && |Ents(k.frames[d])| == UPDE && CanUnlink(k, d, i) && k.refs[t] == 1
            && var z := UnlinkEntry(k, d, i);
               && Inv(z) && Named(z) == Named(k) - {OfEntry(d, i)} && SameMaps(k, z) && z.dirs == k.dirs
               && |z.frames| == |k.frames| && z.frames[t].Unused? && z.frames[d].Dir? && k.frames[t].Table?
               && forall q :: 0 <= q < |k.frames| && q != d && q != t ==> z.frames[q] == k.frames[q]
  {
    var d := k.dirs[e].value;
    DirOk(k, e);
    VpnSplit(i, 0);
    TableOk(k, e, i * NPT);
    var z := UnlinkEntry(k, d, i);
    UnlinkKeeps(k, d, i);
    UnlinkNamed(k, d, i);
    DropFrames(k, d, i, t);
    TableMaps(k, z, e, i, t);
  }

  /** The frames that giving up table t of directory d touches. */
  lemma {:induction false} DropFrames(k: Mem, d: nat, i: nat, t: nat)
    requires CanUnlink(k, d, i) && k.frames[d].Dir? && Ents(k.frames[d])[i].page == t && k.refs[t] == 1
    ensures var z := UnlinkEntry(k, d, i);
            && |z.frames| == |k.frames| && z.frames[t].Unused? && z.frames[d].Dir?
            && forall q :: 0 <= q < |k.frames| && q != d && q != t ==> z.frames[q] == k.frames[q]
  {
  }

  lemma {:induction false} OneMoreGone(n: map<Slot, nat>, k: map<Slot, nat>, z: map<Slot, nat>, gone: set<Slot>,
      s: Slot)
    requires k == n - gone && z == k - {s}
    ensures z == n - (gone + {s})
  {
  }

  lemma {:induction false} FreeingEntries(m: Mem, k: Mem, e: nat, i: nat, t: nat)
    requires i < UPDE && e < |k.dirs| && k.dirs[e].Some? && forall x :: 0 <= x < UPDE ==> EntryFreed(m, k, e, i, x)
    requires DirEntry(k, e, i).Present? && DirEntry(k, e, i).page == t
    requires CanUnlink(k, k.dirs[e].value, i) && k.frames[k.dirs[e].value].Dir?
    requires |Ents(k.frames[k.dirs[e].value])| == UPDE && k.refs[t] == 1
    ensures var n := i + 1; forall x :: 0 <= x < UPDE ==> EntryFreed(m, UnlinkEntry(k, k.dirs[e].value, i), e, n, x)
  {
    var n, z := i + 1, UnlinkEntry(k, k.dirs[e].value, i);
    forall x | 0 <= x < UPDE ensures EntryFreed(m, z, e, n, x) {
      assert EntryFreed(m, k, e, i, x);
      assert EntryFreed(m, k, e, i, i);
    }
  }

  lemma {:induction false} FreeingSkip(m: Mem, k: Mem, e: nat, i: nat, gone: set<Slot>)
    requires Freeing(m, k, e, i, gone) && i < UPDE && DirEntry(k, e, i).Absent?
    ensures Freeing(m, k, e, i + 1, gone)
  {
    var n := i + 1;
    forall x | 0 <= x < UPDE ensures EntryFreed(m, k, e, n, x) {
      assert EntryFreed(m, k, e, i, x);
    }
  }

  /** Nothing the environment owned is left. */
  lemma {:induction false} OwnGone(m: Mem, k: Mem, e: nat, gone: set<Slot>, s: Slot)
    requires Freeing(m, k, e, UPDE, gone) && e < |k.dirs| && k.dirs[e].Some? && k.dirs[e].value < |k.frames|
    requires k.refs[k.dirs[e].value] > 0
    requires AllAbsent(k.frames[k.dirs[e].value]) && s in Own(m, e)
    ensures s !in Named(UnlinkEnv(k, e))
  {
    NamedIs(UnlinkEnv(k, e), s);
    if s.OfEntry? && s.q != k.dirs[e].value {
      var x :| 0 <= x < UPDE && DirEntry(m, e, x).Present? && DirEntry(m, e, x).page == s.q;
      assert EntryFreed(m, k, e, UPDE, x);
    }
  }

  lemma {:induction false} AllOwnGone(n: map<Slot, nat>, k: map<Slot, nat>, z: map<Slot, nat>, gone: set<Slot>,
      own: set<Slot>, s: Slot)
    requires k == n - gone && z == k - {s} && gone <= own && s in own && forall x :: x in own ==> x !in z
    ensures z == n - own
  {
  }

  /** With all entries done, giving up the directory completes the teardown. */
  lemma {:induction false} FreeingEnds(m: Mem, k: Mem, e: nat, gone: set<Slot>)
    requires Inv(m) && Freeing(m, k, e, UPDE, gone) && e < |k.dirs| && k.dirs[e].Some?
    ensures var d := k.dirs[e].value;
            && d < |k.frames| && k.refs[d] > 0
            && TornDown(m, UnlinkEnv(k, e), e)
  {
    var d := k.dirs[e].value;
    DirOk(k, e);
    DirOk(m, e);
    forall x | 0 <= x < |Ents(k.frames[d])| ensures Ents(k.frames[d])[x].Absent? {
      assert EntryFreed(m, k, e, UPDE, x);
    }
    assert AllAbsent(k.frames[d]);
    var z := UnlinkEnv(k, e);
    UnlinkEnvKeeps(k, e);
    forall s | s in Own(m, e) ensures s !in Named(z) {
      OwnGone(m, k, e, gone, s);
    }
    NamedIs(m, OfEnv(e));
    AllOwnGone(Named(m), Named(k), Named(z), gone, Own(m, e), OfEnv(e));
    forall f: nat, v: nat | f != e ensures Lookup(z, f, v) == Lookup(m, f, v) {
      OtherLookup(k, e, f, v);
    }
  }

  lemma {:induction false} OtherLookup(k: Mem, e: nat, f: nat, v: nat)
    requires Inv(k) && e < |k.dirs| && k.dirs[e].Some? && k.dirs[e].value < |k.frames| && k.refs[k.dirs[e].value] > 0
    requires f != e
    ensures Lookup(UnlinkEnv(k, e), f, v) == Lookup(k, f, v)
  {
    DirOk(k, e);
    if f < |k.dirs| && k.dirs[f].Some? {
      DirOk(k, f);
      if k.dirs[f] == k.dirs[e] { SameDir(k, e, f); }
      if TableOf(k, f, v).Some? { TableOk(k, f, v); }
    }
  }
}
