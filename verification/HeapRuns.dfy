/** What the calls of mem.c promise, one by one and over whole runs. */
module HeapRuns {
  import opened Base
  import opened HeapLayout

  // ---------------------------------------------------------------- exactness of the search

  /** For every well-formed block, asking for the rounded size is asking for the size. */
  lemma {:induction false} RoundedFit(b: Block, n: nat)
    requires BlockOk(b) && n + ALIGN - 1 < U32
    ensures Fits(b, n) <==> Fits(b, Request(n))
  {
  }

  /** The answer the documentation of mem_malloc promises for a request of n bytes. */
  ghost predicate Answers(s: Layout, n: nat, r: Option<nat>) {
    match r
    case None => forall i :: 0 <= i < |s| ==> !Fits(s[i], n)
    case Some(p) => exists i :: 0 <= i < |s| && Fits(s[i], n) && p == s[i].start + HDR
                             && forall j :: 0 <= j < i ==> !Fits(s[j], n)
  }

  predicate AllUsed(s: Layout) {
    forall i :: 0 <= i < |s| ==> s[i].used
  }

  /**
    mem_malloc finds the lowest block that holds n bytes, and fails only when none does,
    exactly when rounding n up stays inside mem_size_t or nothing is free at all.
   */
  lemma {:induction false} MallocExact(s: Layout, size: nat, n: nat)
    requires Inv(s, size) && size < U32 && 0 < n < U32
    ensures var r := Malloc(s, size, n); Answers(s, n, r.1) <==> (n + ALIGN - 1 < U32 || AllUsed(s))
  {
    AllOrdered(s, 0, size);
    if n + ALIGN - 1 < U32 {
      forall i | 0 <= i < |s| ensures Fits(s[i], n) <==> Fits(s[i], Request(n)) {
        RoundedFit(s[i], n);
      }
      assert Request(n) > size ==> forall i :: 0 <= i < |s| ==> !Fits(s[i], n);
      assert Request(n) <= size ==> var i := FirstFit(s, Request(n)); i < |s| ==> Fits(s[i], n);
    } else {
      assert Request(n) == MIN;
      assert forall i :: 0 <= i < |s| ==> !Fits(s[i], n);
      assert MIN <= size by { assert BlockOk(s[0]); }
      if i :| 0 <= i < |s| && !s[i].used {
        assert Fits(s[i], MIN) by { assert BlockOk(s[i]); }
        assert FirstFit(s, MIN) < |s|;
      }
    }
  }

  /** A request just below 2^32 is answered with a block of the minimal size. */
  lemma {:induction false} MallocWraps()
    ensures var s := [Block(0, 24, false)];
            Inv(s, 24) && Malloc(s, 24, 0xFFFF_FFFD) == ([Block(0, 24, true)], Some(HDR))
  {
    var s := [Block(0, 24, false)];
    assert Request(0xFFFF_FFFD) == MIN;
    assert Fits(s[0], MIN) && FirstFit(s, MIN) == 0;
    assert Take(s, 0, MIN) == [Block(0, 24, true)];
  }

  /**
    mem_realloc fails exactly when the block has fewer than n bytes, exactly when rounding n
    up stays inside mem_size_t.
   */
  lemma {:induction false} ReallocExact(s: Layout, size: nat, i: nat, n: nat)
    requires Inv(s, size) && size < U32 && i < |s| && s[i].used && n < U32
    ensures var r := Realloc(s, size, i, n); (r.1 <==> n <= s[i].Payload()) <==> n + ALIGN - 1 < U32
  {
    assert BlockOk(s[i]) && BlockOk(s[|s| - 1]);
    if i + 1 < |s| { Ordered(s, 0, size, i, |s| - 1); }
    if n + ALIGN - 1 < U32 { RoundedFit(s[i].(used := false), n); }
  }

  // ---------------------------------------------------------------- what a success is

  /** The allocation b instead of the allocations in gone; the free bytes are those, and no others, outside. */
  ghost predicate Exchanged(s: Layout, t: Layout, size: nat, gone: set<Block>, b: Block) {
    && Live(t) == (Live(s) - gone) + {b}
    && forall x :: 0 <= x < size ==>
         (FreeByte(t, x) <==> (FreeByte(s, x) || exists c :: c in gone && Holds(c, x)) && !Holds(b, x))
  }

  lemma {:induction false} ExchangedBytes(s: Layout, t: Layout, size: nat, gone: set<Block>, b: Block)
    requires Inv(s, size) && Inv(t, size) && gone <= Live(s) && Live(t) == (Live(s) - gone) + {b}
    ensures Exchanged(s, t, size, gone, b)
  {
    forall x | 0 <= x < size
      ensures FreeByte(t, x) <==> (FreeByte(s, x) || exists c :: c in gone && Holds(c, x)) && !Holds(b, x)
    {
      NoneLost(s, size, x);
      NoneLost(t, size, x);
      if c :| c in gone && Holds(c, x) {
        forall d | d in Live(s) - gone ensures !Holds(d, x) {
          LiveApart(s, size, c, d);
        }
      }
    }
  }

  /** Room for n bytes and no more than what cannot be a block of its own. */
  predicate Snug(b: Block, n: nat) {
    n <= b.Payload() < n + HDR + MIN
  }

  /** b is an allocation of m bytes from block i, the lowest that fits. */
  ghost predicate Given(s: Layout, t: Layout, size: nat, m: nat, i: nat, b: Block) {
    && i < |s| && Fits(s[i], m) && (forall j :: 0 <= j < i ==> !Fits(s[j], m))
    && b.start == s[i].start && Snug(b, m) && (b.Payload() == m || b.next == s[i].next)
    && Exchanged(s, t, size, {}, b)
  }

  /** b is what the allocation in block i has become. */
  ghost predicate CutDown(s: Layout, t: Layout, size: nat, m: nat, i: nat, b: Block)
    requires i < |s|
  {
    && b.start == s[i].start && b.next <= s[i].next && Snug(b, m) && (b == s[i] || b.Payload() == m)
    && (i + 1 < |s| && !s[i + 1].used ==> b.Payload() == m)
    && Exchanged(s, t, size, {s[i]}, b)
  }

  /**
    A success of mem_malloc is one more allocation, at the lowest address that fits and no longer than
    it must be; every other byte that was free still is. A failure changes nothing.
   */
  lemma {:induction false} MallocGives(s: Layout, size: nat, n: nat)
    requires Inv(s, size) && size < U32 && n < U32
    ensures var (t, r) := Malloc(s, size, n);
            match r
            case None => t == s
            case Some(p) => exists i: nat, b :: Given(s, t, size, Request(n), i, b) && p == b.start + HDR
  {
    var (t, r) := Malloc(s, size, n);
    if r.Some? {
      var m := Request(n);
      var i := FirstFit(s, m);
      TakeKeeps(s, size, i, m);
      ExchangedBytes(s, t, size, {}, Carved(s[i], m));
      assert Given(s, t, size, m, i, Carved(s[i], m));
    }
  }

  /**
    A success of mem_realloc leaves the allocation where it is with room for n bytes, and no more than it
    must: exactly n rounded up when a free block follows. What it gives back is free. A failure changes nothing.
   */
  lemma {:induction false} ReallocGives(s: Layout, size: nat, i: nat, n: nat)
    requires Inv(s, size) && size < U32 && i < |s| && s[i].used && n < U32
    ensures var (t, ok) := Realloc(s, size, i, n);
            if !ok then t == s
            else exists b :: CutDown(s, t, size, Request(n), i, b)
  {
    var (t, ok) := Realloc(s, size, i, n);
    if ok {
      ShrinkKeeps(s, size, i, Request(n));
      ExchangedBytes(s, t, size, {s[i]}, Shrunk(s, i, Request(n)));
      assert CutDown(s, t, size, Request(n), i, Shrunk(s, i, Request(n)));
    }
  }

  // ---------------------------------------------------------------- the calls and their runs

  /** Index of the block in use whose payload starts at p, or |s|. */
  function Owner(s: Layout, p: nat): (i: nat)
    ensures i <= |s|
    ensures i < |s| ==> s[i].used && s[i].start + HDR == p
    ensures i == |s| ==> forall j :: 0 <= j < |s| && s[j].used ==> s[j].start + HDR != p
  {
    if s == [] || (s[0].used && s[0].start + HDR == p) then 0 else 1 + Owner(s[1..], p)
  }

  lemma {:induction false} OwnerIs(s: Layout, size: nat, i: nat)
    requires Inv(s, size) && i < |s| && s[i].used
    ensures Owner(s, s[i].start + HDR) == i
  {
    AllOrdered(s, 0, size);
  }

  datatype Call = CMalloc(n: nat) | CFree(p: nat) | CRealloc(p: nat, n: nat)

  /** What a caller owes: sizes that mem_size_t can hold and pointers it was given. */
  predicate Legal(s: Layout, c: Call) {
    match c
    case CMalloc(n) => n < U32
    case CFree(p) => Owner(s, p) < |s|
    case CRealloc(p, n) => Owner(s, p) < |s| && n < U32
  }

  function Step(s: Layout, size: nat, c: Call): Layout
    requires Legal(s, c)
  {
    match c
    case CMalloc(n) => Malloc(s, size, n).0
    case CFree(p) => Free(s, Owner(s, p))
    case CRealloc(p, n) => Realloc(s, size, Owner(s, p), n).0
  }

  predicate LegalRun(s: Layout, size: nat, cs: seq<Call>)
    decreases |cs|
  {
    cs == [] || (Legal(s, cs[0]) && LegalRun(Step(s, size, cs[0]), size, cs[1..]))
  }

  function Run(s: Layout, size: nat, cs: seq<Call>): Layout
    requires LegalRun(s, size, cs)
    decreases |cs|
  {
    if cs == [] then s else Run(Step(s, size, cs[0]), size, cs[1..])
  }

  function Fresh(size: nat): Layout {
    [Block(0, size, false)]
  }

  /** One call keeps the invariant and every allocation it was not given. */
  lemma {:induction false} StepKeeps(s: Layout, size: nat, c: Call)
    requires Inv(s, size) && size < U32 && Legal(s, c)
    ensures Inv(Step(s, size, c), size)
    ensures forall b :: b in Live(s) && (c.CMalloc? || b.start + HDR != c.p) ==> b in Live(Step(s, size, c))
  {
    match c
    case CMalloc(n) =>
      var i := FirstFit(s, Request(n));
      if n != 0 && Request(n) <= size && i < |s| {
        TakeKeeps(s, size, i, Request(n));
      }
    case CFree(p) =>
      FreeKeeps(s, size, Owner(s, p));
    case CRealloc(p, n) =>
      var i := Owner(s, p);
      if Request(n) <= size && Request(n) <= s[i].Payload() {
        ShrinkKeeps(s, size, i, Request(n));
      }
  }

  /** Every run of legal calls keeps the invariant; once all is released the heap is as new. */
  lemma {:induction false} RunKeeps(s: Layout, size: nat, cs: seq<Call>)
    requires Inv(s, size) && size < U32 && LegalRun(s, size, cs)
    ensures Inv(Run(s, size, cs), size)
    ensures Live(Run(s, size, cs)) == {} ==> Run(s, size, cs) == Fresh(size)
    decreases |cs|
  {
    if cs == [] {
      if Live(s) == {} {
        AllOrdered(s, 0, size);
        assert Live(Fresh(size)) == {};
        assert BlockOk(s[0]) && BlockOk(s[|s| - 1]);
        Canonical(s, Fresh(size), 0, size);
      }
    } else {
      StepKeeps(s, size, cs[0]);
      RunKeeps(Step(s, size, cs[0]), size, cs[1..]);
    }
  }

  lemma {:induction false} FreeUndoesTake(s: Layout, t: Layout, size: nat, k: nat, b: Block)
    requires Inv(s, size) && Inv(t, size) && k < |s| && !s[k].used
    requires b.used && b.start == s[k].start && Live(t) == Live(s) + {b}
    ensures Owner(t, b.start + HDR) < |t| && Free(t, Owner(t, b.start + HDR)) == s
  {
    assert b in Live(t);
    var i :| 0 <= i < |t| && t[i] == b;
    OwnerIs(t, size, i);
    FreeKeeps(t, size, i);
    assert b !in Live(s) by { AllOrdered(s, 0, size); }
    Canonical(Free(t, i), s, 0, size);
  }

  /** mem_free undoes mem_malloc down to the last header. */
  lemma {:induction false} FreeUndoesMalloc(s: Layout, size: nat, n: nat)
    requires Inv(s, size) && size < U32 && n < U32
    ensures var (t, r) := Malloc(s, size, n);
            r.Some? ==> Owner(t, r.value) < |t| && Free(t, Owner(t, r.value)) == s
  {
    var (t, r) := Malloc(s, size, n);
    if r.Some? {
      var m := Request(n);
      var k := FirstFit(s, m);
      TakeKeeps(s, size, k, m);
      FreeUndoesTake(s, t, size, k, Carved(s[k], m));
    }
  }

  /** Two allocations never overlap. */
  lemma {:induction false} LiveApart(s: Layout, size: nat, a: Block, b: Block)
    requires Inv(s, size) && a in Live(s) && b in Live(s) && a != b
    ensures a.next <= b.start || b.next <= a.start
  {
    AllOrdered(s, 0, size);
  }
}
