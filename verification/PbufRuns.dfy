/** Whole runs of calls to net/lwip/core/pbuf.c, and pools on which totals go wrong. */
module PbufRuns {
  import opened PbufState
  import opened Pbuf

  datatype Call =
    | Alloc(length: nat, offset: nat)
    | Ref(p: nat)
    | Free(p: nat)
    | Cat(h: nat, t: nat)
    | Chain(h: nat, t: nat)
    | Dechain(p: nat)
    | Realloc(p: nat, length: nat)

  /** Whether a call leaves right totals right. */
  ghost predicate Exact(pool: Pool, chain: Chains, call: Call)
    requires |chain| == |pool|
  {
    match call
    case Cat(h, t) => h == 0 || t == 0 || Tot(pool, t) == 0 || !Entered(pool, At(chain, h))
    case Chain(h, t) => h == 0 || t == 0 || Tot(pool, t) == 0 || !Entered(pool, At(chain, h))
    case Dechain(p) => p >= |pool| || Tot(pool, pool[p].next) == 0 || !Entered(pool, [p])
    case Realloc(p, n) => n >= Tot(pool, p) || !Entered(pool, Prefix(pool, At(chain, p), n))
    case _ => true
  }

  /** What a caller may do with the references it has. */
  ghost predicate Legal(pool: Pool, chain: Chains, held: Held, bufsize: nat, call: Call) {
    && |pool| == |chain| == |held|
    && match call
       case Alloc(_, offset) => offset < bufsize
       case Ref(p) => p == 0 || Live(pool, p)
       case Free(p) => p == 0 || (p < |held| && held[p] > 0)
       case Cat(h, t) => h == 0 || t == 0 || (Joinable(pool, chain, h, t) && held[t] > 0)
       case Chain(h, t) => t == 0 || (t < |held| && held[t] > 0 && (h == 0 || Joinable(pool, chain, h, t)))
       case Dechain(p) => Live(pool, p) && TotOkAt(pool, p) && |chain[p]| <= 256
       case Realloc(p, _) => Live(pool, p) && TotAlong(pool, chain[p])
  }

  lemma {:induction false} RefTotals(pool: Pool, p: nat)
    requires Live(pool, p)
    ensures TotOk(OneMore(pool, p)) <==> TotOk(pool)
  {
    var now := OneMore(pool, p);
    assert forall x :: 0 <= x < |pool| ==> TotOkAt(now, x) == TotOkAt(pool, x);
  }

  datatype Snap = Snap(pool: Pool, chain: Chains, held: Held)

  /** pbuf_alloc: p is a new chain of length bytes, or 0 because there are too few buffers. */
  ghost predicate Alloced(s: Snap, bufsize: nat, length: nat, offset: nat, p: nat, t: Snap)
    requires 0 < bufsize && offset < bufsize
  {
    && TotalsKept(s.pool, t.pool) && KeepsOld(s.pool, s.chain, t.pool, t.chain)
    && (p == 0 <==> Spare(s.pool) < Segments(length, bufsize, offset))
    && if p == 0 then t.held == s.held && forall x: nat :: Live(t.pool, x) ==> Live(s.pool, x)
       else
         && p < |s.held| && p < |t.chain| && Live(t.pool, p) && !Live(s.pool, p) && t.held == Raise(s.held, p)
         && |Bytes(t.pool, t.chain[p])| == length && |t.chain[p]| == Segments(length, bufsize, offset)
  }

  /** What a call does. */
  ghost predicate Did(s: Snap, bufsize: nat, call: Call, t: Snap)
    requires 0 < bufsize && Legal(s.pool, s.chain, s.held, bufsize, call)
  {
    match call
    case Alloc(length, offset) => exists p :: Alloced(s, bufsize, length, offset, p, t)
    case Ref(p) =>
      if p == 0 then t == s else t == s.(pool := OneMore(s.pool, p), held := Raise(s.held, p))
    case Free(p) =>
      && t.held == (if p == 0 then s.held else Lower(s.held, p))
      && t.pool == Freed(s.pool, At(s.chain, p)) && Survives(s.pool, s.chain, t.pool, t.chain)
    case Cat(h, c) =>
      if h == 0 || c == 0 then t == s
      else Catted(s.pool, s.chain, t.pool, t.chain, h, c) && t.held == Lower(s.held, c)
    case Chain(h, c) =>
      if c == 0 then t == s
      else if h == 0 then t == s.(pool := OneMore(s.pool, c), held := Raise(s.held, c))
      else Catted(s.pool, s.chain, t.pool, t.chain, h, c) && t.held == s.held
    case Dechain(p) => t.held == s.held && exists rest :: Dechained(s.pool, s.chain, t.pool, t.chain, p, rest)
    case Realloc(p, n) =>
      if n >= s.pool[p].tot then t == s
      else t.held == s.held && Shrunk(s.pool, s.chain, t.pool, t.chain, p, n)
  }

  /** One call: the invariant is kept, and right totals stay right exactly under the condition. */
  method Do(b: Buffers, mine: Held, call: Call) returns (now: Held)
    requires b.Valid() && mine == b.held && Legal(b.pool, b.chain, b.held, b.bufsize, call)
    modifies b
    ensures b.Valid() && now == b.held
    ensures Did(old(Snap(b.pool, b.chain, b.held)), b.bufsize, call, Snap(b.pool, b.chain, b.held))
    ensures TotOk(old(b.pool)) ==> (TotOk(b.pool) <==> Exact(old(b.pool), old(b.chain), call))
  {
    now := mine;
    ghost var s := Snap(b.pool, b.chain, b.held);
    match call {
      case Alloc(length, offset) =>
        var p := b.Alloc(length, offset);
        if p != 0 { now := Raise(now, p); }
        assert Alloced(s, b.bufsize, length, offset, p, Snap(b.pool, b.chain, b.held));
      case Ref(p) =>
        if p != 0 {
          RefTotals(b.pool, p);
          now := Raise(now, p);
        }
        b.Ref(p);
      case Free(p) =>
        if p != 0 { now := Lower(now, p); }
        var gone := b.Free(p);
      case Cat(h, t) =>
        if h != 0 && t != 0 { now := Lower(now, t); }
        b.Cat(h, t);
      case Chain(h, t) =>
        if h == 0 && t != 0 {
          assert RefOk(b.pool, b.held, 0, t);
          RefTotals(b.pool, t);
          now := Raise(now, t);
        }
        b.Chain(h, t);
      case Dechain(p) =>
        var rest := b.Dechain(p);
        assert Dechained(s.pool, s.chain, b.pool, b.chain, p, rest);
      case Realloc(p, n) =>
        b.Realloc(p, n);
    }
  }

  /** Joining h and t, both live, would close no circle. */
  method MayJoin(b: Buffers, h: nat, t: nat) returns (ok: bool)
    requires b.Valid()
    ensures ok == Joinable(b.pool, b.chain, h, t)
  {
    if !Live(b.pool, h) || !Live(b.pool, t) {
      return false;
    }
    var c := b.Follow(h);
    var d := b.Follow(t);
    return Last(c) !in d;
  }

  method MayDo(b: Buffers, mine: Held, call: Call) returns (ok: bool)
    requires b.Valid() && mine == b.held
    ensures ok == Legal(b.pool, b.chain, b.held, b.bufsize, call)
  {
    match call {
      case Alloc(_, offset) =>
        ok := offset < b.bufsize;
      case Ref(p) =>
        ok := p == 0 || Live(b.pool, p);
      case Free(p) =>
        ok := p == 0 || (p < |mine| && mine[p] > 0);
      case Cat(h, t) =>
        var join := MayJoin(b, h, t);
        ok := h == 0 || t == 0 || (join && mine[t] > 0);
      case Chain(h, t) =>
        var join := MayJoin(b, h, t);
        ok := t == 0 || (t < |mine| && mine[t] > 0 && (h == 0 || join));
      case Dechain(p) =>
        if !Live(b.pool, p) {
          return false;
        }
        var c := b.Follow(p);
        ok := TotOkAt(b.pool, p) && |c| <= 256;
      case Realloc(p, _) =>
        if !Live(b.pool, p) {
          return false;
        }
        var c := b.Follow(p);
        ok := TotAlong(b.pool, c);
    }
  }

  /** A call nobody had a right to make is left out. */
  ghost predicate StepAt(ss: seq<Snap>, bufsize: nat, calls: seq<Call>, i: nat)
    requires i < |calls| && |ss| > |calls| && 0 < bufsize
  {
    if Legal(ss[i].pool, ss[i].chain, ss[i].held, bufsize, calls[i])
    then Did(ss[i], bufsize, calls[i], ss[i + 1]) else ss[i + 1] == ss[i]
  }

  ghost predicate ExactAt(s: Snap, bufsize: nat, call: Call) {
    Legal(s.pool, s.chain, s.held, bufsize, call) ==> Exact(s.pool, s.chain, call)
  }

  ghost predicate AllExact(ss: seq<Snap>, bufsize: nat, calls: seq<Call>, n: nat) {
    forall i :: 0 <= i < n && i < |ss| && i < |calls| ==> ExactAt(ss[i], bufsize, calls[i])
  }

  ghost predicate IsRun(ss: seq<Snap>, bufsize: nat, calls: seq<Call>) {
    |ss| == |calls| + 1 && 0 < bufsize && forall i :: 0 <= i < |calls| ==> StepAt(ss, bufsize, calls, i)
  }

  lemma {:induction false} RunOn(ss: seq<Snap>, bufsize: nat, calls: seq<Call>, n: nat, t: Snap)
    requires n < |calls| && IsRun(ss, bufsize, calls[..n])
    requires if Legal(ss[n].pool, ss[n].chain, ss[n].held, bufsize, calls[n]) then Did(ss[n], bufsize, calls[n], t)
             else t == ss[n]
    ensures IsRun(ss + [t], bufsize, calls[..n + 1])
    ensures AllExact(ss + [t], bufsize, calls, n + 1) <==>
            AllExact(ss, bufsize, calls, n) && ExactAt(ss[n], bufsize, calls[n])
  {
    var tt, done := ss + [t], calls[..n + 1];
    forall i | 0 <= i < |done| ensures StepAt(tt, bufsize, done, i) {
      if i < n { assert StepAt(ss, bufsize, calls[..n], i); }
    }
    assert forall i :: 0 <= i <= n ==> tt[i] == ss[i];
  }

  /**
    Any calls in any order, those left out that the caller has no right to make: counts stay exact, so that
    nothing is left when all references are given up, and totals are right while every call was exact.
   */
  method Run(b: Buffers, start: Held, calls: seq<Call>) returns (mine: Held, ghost ss: seq<Snap>)
    requires b.Valid() && start == b.held
    modifies b
    ensures b.Valid() && mine == b.held && IsRun(ss, b.bufsize, calls)
    ensures ss[0] == old(Snap(b.pool, b.chain, b.held)) && ss[|calls|] == Snap(b.pool, b.chain, b.held)
    ensures TotOk(old(b.pool)) && AllExact(ss, b.bufsize, calls, |calls|) ==> TotOk(b.pool)
    ensures (forall x :: 0 <= x < |mine| ==> mine[x] == 0) ==> forall p: nat :: !Live(b.pool, p)
  {
    mine, ss := start, [Snap(b.pool, b.chain, b.held)];
    for i := 0 to |calls|
      invariant b.Valid() && mine == b.held && IsRun(ss, b.bufsize, calls[..i])
      invariant ss[0] == old(Snap(b.pool, b.chain, b.held)) && ss[i] == Snap(b.pool, b.chain, b.held)
      invariant TotOk(old(b.pool)) && AllExact(ss, b.bufsize, calls, i) ==> TotOk(b.pool)
    {
      var ok := MayDo(b, mine, calls[i]);
      if ok {
        mine := Do(b, mine, calls[i]);
      }
      RunOn(ss, b.bufsize, calls, i, Snap(b.pool, b.chain, b.held));
      ss := ss + [Snap(b.pool, b.chain, b.held)];
    }
    assert calls[..|calls|] == calls;
    if forall x :: 0 <= x < |mine| ==> mine[x] == 0 {
      forall p: nat ensures !Live(b.pool, p) {
        AllGone(b.pool, b.held, b.chain, p);
      }
    }
  }

  // ---------------------------------------------------------------- where totals go wrong

  /** Two packets that share their last buffer, number 2, and one apart. */
  function Shared(): Pool {
    [Buf(0, [], 0, 0), Buf(2, [7], 2, 1), Buf(0, [8], 1, 2), Buf(0, [9], 1, 1)]
  }

  lemma {:induction false} SharedOk()
    ensures Inv(Shared(), [0, 1, 1, 1], [[], [1, 2], [2], [3]]) && TotOk(Shared()) && Entered(Shared(), [2])
  {
    var pool := Shared();
    assert Preds(pool, 1) == {} && Preds(pool, 2) == {1} && Preds(pool, 3) == {};
    assert Live(pool, 1) && pool[1].next in [2];
  }

  /** pbuf_cat of 2 and 3 leaves the total of 1 as it was. */
  lemma {:induction false} CatWrong()
    ensures Legal(Shared(), [[], [1, 2], [2], [3]], [0, 1, 1, 1], 1, Cat(2, 3))
    ensures !TotOk(Joined(Shared(), [2], 2, 3))
  {
    SharedOk();
    JoinTotals(Shared(), [[], [1, 2], [2], [3]], 2, 3);
  }

  /** So does pbuf_realloc of 2 to length 0. */
  lemma {:induction false} ReallocWrong()
    ensures Legal(Shared(), [[], [1, 2], [2], [3]], [0, 1, 1, 1], 1, Realloc(2, 0))
    ensures Prefix(Shared(), [2], 0) == [2]
    ensures Freed(Trimmed(Shared(), [2], 0), []) == Shared()[2 := Buf(0, [], 0, 2)]
    ensures !TotOk(Freed(Trimmed(Shared(), [2], 0), []))
  {
    SharedOk();
    var pool := Shared();
    assert [2][..0] == [];
    var now := Trimmed(pool, [2], 0);
    assert now == pool[2 := Buf(0, [], 0, 2)] by {
      assert Raised(pool, [2][..0], 0 - pool[2].tot) == pool;
    }
    assert !TotOkAt(now, 1);
  }

  /** One packet of three buffers, with the second held on its own as well. */
  function Middle(): Pool {
    [Buf(0, [], 0, 0), Buf(2, [7], 3, 1), Buf(3, [8], 2, 2), Buf(0, [9], 1, 1)]
  }

  /** pbuf_dechain of 2 leaves the total of 1 as it was. */
  lemma {:induction false} DechainWrong()
    ensures Inv(Middle(), [0, 1, 1, 0], [[], [1, 2, 3], [2, 3], [3]]) && TotOk(Middle())
    ensures Legal(Middle(), [[], [1, 2, 3], [2, 3], [3]], [0, 1, 1, 0], 1, Dechain(2))
    ensures !TotOk(Freed(Unlinked(Middle(), 2), [3]))
  {
    var pool := Middle();
    assert Preds(pool, 1) == {} && Preds(pool, 2) == {1} && Preds(pool, 3) == {2};
    var now := Unlinked(pool, 2);
    var last := Freed(now, [3]);
    assert last == Less(now, 3);
    assert !TotOkAt(last, 1);
  }
}
