/** net/lwip/core/pbuf.c: buffers of type PBUF_POOL, chained and shared by reference count. */
module Pbuf {
  import opened Base
  import opened PbufState

  class Buffers {
    const bufsize: nat                  // PBUF_POOL_BUFSIZE_ALIGNED
    var pool: Pool
    ghost var held: Held
    ghost var chain: Chains

    ghost predicate Valid()
      reads this
    {
      |pool| > 0 && bufsize > 0 && Inv(pool, held, chain)
    }

    constructor (count: nat, size: nat)
      requires size > 0
      ensures Valid() && |pool| == count + 1 && bufsize == size
              && forall p :: 0 <= p <= count ==> !Live(pool, p) && held[p] == 0
    {
      bufsize := size;
      pool := seq(count + 1, _ => Buf(0, [], 0, 0));
      held, chain := seq(count + 1, _ => 0), seq(count + 1, _ => []);
    }

    /** The loop of pbuf_free: one reference to p is dropped. */
    method Release(p: nat) returns (count: nat)
      requires Wf(pool, chain) && Counted(pool, held, p) && Live(pool, p)
      modifies this`pool, this`chain
      ensures Inv(pool, held, chain) && pool == Freed(old(pool), old(chain)[p]) && Kept(old(chain), pool, chain)
      ensures count == Wrapped(|Lead(old(pool), old(chain)[p])|)
    {
      ghost var d := chain[p];
      ghost var end, n := Freed(pool, d), |Lead(pool, d)|;
      var cur: nat, k: nat := p, 0;
      while cur != 0
        invariant |pool| == |old(pool)| && Owed(pool, held, chain, cur, d) && Kept(old(chain), pool, chain)
        invariant Freed(pool, d) == end && k + |Lead(pool, d)| == n
        decreases |d|
      {
        cur, k, d := ReleaseOne(old(chain), cur, k, d);
      }
      assert NodeOk(pool, chain, 0);
      return Wrapped(k);
    }

    /** One round: cur loses a reference; if that was its last, it goes and its successor is next. */
    method ReleaseOne(ghost first: Chains, cur: nat, k: nat, ghost d: seq<nat>)
      returns (next: nat, more: nat, ghost rest: seq<nat>)
      requires Live(pool, cur) && Owed(pool, held, chain, cur, d) && Kept(first, pool, chain)
      modifies this`pool, this`chain
      ensures |pool| == |old(pool)| && Owed(pool, held, chain, next, rest) && Kept(first, pool, chain)
      ensures Freed(pool, rest) == Freed(old(pool), d) && |rest| < |d|
      ensures more + |Lead(pool, rest)| == k + |Lead(old(pool), d)|
    {
      Round(pool, held, chain, cur, Less(pool, cur), chain[cur := []]);
      var last, q := pool[cur].ref == 1, pool[cur].next;
      pool := pool[cur := pool[cur].(ref := pool[cur].ref - 1)];
      if last {
        chain := chain[cur := []];
        return q, k + 1, At(chain, q);
      }
      return 0, k, [];
    }

    /** pbuf_free: an outside reference is given up. */
    method Free(p: nat) returns (count: nat)
      requires Valid() && (p != 0 ==> p < |pool| && held[p] > 0)
      modifies this`pool, this`chain, this`held
      ensures Valid() && held == (if p == 0 then old(held) else Lower(old(held), p))
      ensures pool == Freed(old(pool), At(old(chain), p)) && count == Wrapped(|Lead(old(pool), At(old(chain), p))|)
      ensures Survives(old(pool), old(chain), pool, chain)
    {
      ghost var before, links := pool, chain;
      assert NodeOk(pool, chain, 0);
      if p == 0 {
        return 0;
      }
      Owing(pool, held, p);
      held := Lower(held, p);
      count := Release(p);
      FreedSurvives(before, pool, links, chain, p);
    }

    /** pbuf_ref */
    method Ref(p: nat)
      requires Valid() && (p != 0 ==> Live(pool, p))
      modifies this`pool, this`held
      ensures Valid() && held == (if p == 0 then old(held) else Raise(old(held), p))
      ensures pool == if p == 0 then old(pool) else OneMore(old(pool), p)
    {
      if p != 0 {
        MoreRef(pool, held, chain, p);
        pool := OneMore(pool, p);
        held := Raise(held, p);
      }
    }

    /** The loop of pbuf_cat: totals are raised up to the last buffer, which is returned. */
    method RaiseChain(h: nat, more: int) returns (p: nat)
      requires Wf(pool, chain) && Live(pool, h)
      modifies this`pool
      ensures chain[h] != [] && p == Last(chain[h]) && p < |pool| == |old(pool)| && pool[p] == old(pool)[p]
      ensures IsRaised(old(pool), pool, chain[h][..|chain[h]| - 1], more)
    {
      ghost var before, links, c, i: nat := pool, chain, chain[h], 0;
      p := h;
      RaisedNone(before, links, h, more);
      while pool[p].next != 0
        invariant p < |pool| && Raising(before, pool, c, i, more, p)
        decreases |c| - i
      {
        p := RaiseOne(before, links, h, i, more, p);
        i := i + 1;
      }
      RaisedEnd(before, pool, links, h, i, more, p);
    }

    /** One round: the total of p is raised. */
    method RaiseOne(ghost before: Pool, ghost links: Chains, ghost h: nat, ghost i: nat, more: int, p: nat)
      returns (q: nat)
      requires Wf(before, links) && Live(before, h) && Raising(before, pool, links[h], i, more, p) && pool[p].next != 0
      modifies this`pool
      ensures Raising(before, pool, links[h], i + 1, more, q)
    {
      RaisedMore(before, pool, pool[p := pool[p].(tot := pool[p].tot + more)], links, h, i, more, p);
      q := pool[p].next;
      pool := pool[p := pool[p].(tot := pool[p].tot + more)];
    }

    /** pbuf_cat: t goes to the end of the chain of h, which takes over the caller's reference. */
    method Cat(h: nat, t: nat)
      requires Valid() && (h != 0 && t != 0 ==> Joinable(pool, chain, h, t) && held[t] > 0)
      modifies this`pool, this`held, this`chain
      ensures Valid() && (h == 0 || t == 0 ==> pool == old(pool) && held == old(held) && chain == old(chain))
      ensures h != 0 && t != 0 ==> Catted(old(pool), old(chain), pool, chain, h, t) && held == Lower(old(held), t)
      ensures h != 0 && t != 0 ==>
                var p := Last(old(chain)[h]);
                p < |old(pool)| && pool == Joined(old(pool), old(chain)[h], p, t)
    {
      if h != 0 && t != 0 {
        ghost var before, links := pool, chain;
        var more := pool[t].tot;
        var p := RaiseChain(h, more);
        ghost var now := pool;
        pool := pool[p := pool[p].(tot := pool[p].tot + more, next := t)];
        chain := JoinedChains(links, p, t);
        JoinedOnce(before, now, pool, links[h], p, t);
        JoinKeeps(before, held, links, pool, chain, h, p, t);
        held := Lower(held, t);
      }
    }

    /** pbuf_chain: the caller keeps its reference to t. */
    method Chain(h: nat, t: nat)
      requires Valid() && (t != 0 ==> t < |pool| && held[t] > 0) && (h != 0 && t != 0 ==> Joinable(pool, chain, h, t))
      modifies this`pool, this`held, this`chain
      ensures Valid() && held == if h == 0 && t != 0 then Raise(old(held), t) else old(held)
      ensures h != 0 && t != 0 ==> Catted(old(pool), old(chain), pool, chain, h, t)
      ensures h != 0 && t != 0 ==>
                var p := Last(old(chain)[h]);
                p < |old(pool)| && pool == OneMore(Joined(old(pool), old(chain)[h], p, t), t)
      ensures h == 0 || t == 0 ==> chain == old(chain)
      ensures t == 0 ==> pool == old(pool)
      ensures h == 0 && t != 0 ==> pool == OneMore(old(pool), t)
    {
      assert t != 0 ==> RefOk(pool, held, 0, t);
      ghost var before, links := pool, chain;
      if h != 0 && t != 0 { RaiseLower(held, t); }
      Cat(h, t);
      ghost var now, all := pool, chain;
      Ref(t);
      if h != 0 && t != 0 {
        RefSame(before, links, now, pool, all, h, t);
      }
    }

    /** pbuf_dechain: p is on its own; the rest is returned, or NULL if nobody else refers to it. */
    method Dechain(p: nat) returns (rest: nat)
      requires Valid() && Live(pool, p) && TotOkAt(pool, p) && |chain[p]| <= 256
      modifies this`pool, this`chain
      ensures Valid() && held == old(held) && Dechained(old(pool), old(chain), pool, chain, p, rest)
    {
      ghost var before, links := pool, chain;
      var q := pool[p].next;
      assert NodeOk(pool, chain, p) && NodeOk(pool, chain, 0);
      rest := 0;
      if q != 0 {
        assert pool[q].tot == pool[p].tot - |pool[p].payload|;        // the assertion of pbuf_dechain
        pool := pool[q := pool[q].(tot := pool[p].tot - |pool[p].payload|)];
        pool := pool[p := pool[p].(next := 0, tot := |pool[p].payload|)];
        assert pool == Unlinked(before, p);
        CutKeeps(before, Unlinked(before, p), held, links, p);
        chain := CutChains(links, p);
        var gone := Release(q);
        rest := if gone > 0 then 0 else q;
        DechainEnds(before, links, pool, chain, p, rest);
      }
    }

    /** The loop of pbuf_realloc: q is the buffer the packet will end in, rem what it keeps. */
    method WalkTo(p: nat, newLen: nat) returns (q: nat, rem: nat, ghost i: nat)
      requires Wf(pool, chain) && Live(pool, p) && TotAlong(pool, chain[p]) && newLen < pool[p].tot
      modifies this`pool
      ensures Walking(old(pool), pool, chain[p], i, newLen - old(pool)[p].tot, q, rem, newLen)
      ensures Live(old(pool), q) && rem <= |pool[q].payload|
    {
      ghost var before, c, links := pool, chain[p], chain;
      var g := newLen - pool[p].tot;
      q, rem, i := p, newLen, 0;
      RaisedNone(before, links, p, g);
      while rem > |pool[q].payload|
        invariant q < |pool| && Walking(before, pool, c, i, g, q, rem, newLen)
        decreases |c| - i
      {
        q, rem := WalkOne(before, links, p, i, g, q, rem, newLen);
        i := i + 1;
      }
      Suffix(before, links, p, i);
    }

    /** One round: the total of q changes by g, and the packet goes on behind it. */
    method WalkOne(ghost before: Pool, ghost links: Chains, ghost p: nat, ghost i: nat, g: int, q: nat, rem: nat,
        ghost newLen: nat)
      returns (next: nat, less: nat)
      requires Wf(before, links) && Live(before, p) && TotAlong(before, links[p])
      requires Walking(before, pool, links[p], i, g, q, rem, newLen)
      requires |pool[q].payload| < rem && g < 0
      modifies this`pool
      ensures Walking(before, pool, links[p], i + 1, g, next, less, newLen)
    {
      WalkStep(before, pool, pool[q := pool[q].(tot := pool[q].tot + g)], links, p, i, g, q, rem, newLen);
      next, less := pool[q].next, rem - |pool[q].payload|;
      pool := pool[q := pool[q].(tot := pool[q].tot + g)];
    }

    /** pbuf_realloc: the packet is cut to newLen bytes; it never grows. */
    method Realloc(p: nat, newLen: nat)
      requires Valid() && Live(pool, p) && TotAlong(pool, chain[p])
      modifies this`pool, this`chain
      ensures Valid() && held == old(held)
      ensures newLen >= old(pool)[p].tot ==> pool == old(pool) && chain == old(chain)
      ensures newLen < old(pool)[p].tot ==> Shrunk(old(pool), old(chain), pool, chain, p, newLen)
    {
      if newLen >= pool[p].tot {
        return;
      }
      ghost var before, links := pool, chain;
      ghost var i;
      var q, rem;
      q, rem, i := WalkTo(p, newLen);
      var n := pool[q].next;
      pool := pool[q := pool[q].(payload := pool[q].payload[..rem], tot := rem, next := 0)];
      ghost var now := pool;
      ShrinkCut(before, held, links, now, p, i, rem, newLen);
      chain := CutChains(links, q);
      if n != 0 {
        var gone := Release(n);
      }
      ShrinkDone(before, held, links, now, pool, chain, p, i, rem, newLen);
    }

    /** The buffers from p on, by following the links. */
    method Follow(p: nat) returns (c: seq<nat>)
      requires Wf(pool, chain) && (p == 0 || Live(pool, p)) && |pool| > 0
      ensures c == At(chain, p)
    {
      c := [];
      assert NodeOk(pool, chain, 0);
      var q: nat := p;
      while q != 0
        invariant (q == 0 || Live(pool, q)) && c + At(chain, q) == At(chain, p)
        decreases |At(chain, q)|
      {
        assert NodeOk(pool, chain, q);
        c, q := c + [q], pool[q].next;
      }
    }

    /** pbuf_copy_partial: at most len bytes of the packet from offset on. */
    method CopyPartial(p: nat, len: nat, offset: nat) returns (data: seq<Byte>)
      requires Valid() && (p != 0 ==> Live(pool, p))
      ensures data == Slice(Bytes(pool, At(chain, p)), offset, len)
    {
      data := [];
      assert NodeOk(pool, chain, 0);
      ghost var b := Bytes(pool, At(chain, p));
      ghost var goal := Slice(b, offset, len);
      var q: nat, left: nat, off: nat := p, len, offset;
      while left != 0 && q != 0
        invariant (q == 0 || Live(pool, q)) && b == Bytes(pool, At(chain, q)) && Yields(data, b, off, left, goal)
        decreases |At(chain, q)|
      {
        ghost var rest := Bytes(pool, At(chain, pool[q].next));
        BytesNext(pool, chain, q);
        PartStep(data, pool[q].payload, rest, off, left, goal);
        var part := Part(pool[q].payload, off, left);
        data, off, left := data + part.0, part.1, part.2;
        q, b := pool[q].next, rest;
      }
    }

    /** pbuf_copy: the packet of from is copied over the start of the packet of to. */
    method Copy(to: nat, from: nat) returns (err: Err)
      requires Valid() && (to != 0 ==> Live(pool, to)) && (from != 0 ==> Live(pool, from))
      requires TotAlong(pool, At(chain, to)) && TotAlong(pool, At(chain, from))
      requires Filled(pool, At(chain, to)) && Filled(pool, At(chain, from))
      requires (forall x :: x in At(chain, to) ==> x !in At(chain, from))
      modifies this`pool
      ensures Valid() && (err == Arg <==> to == 0 || from == 0 || old(pool)[to].tot < old(pool)[from].tot)
      ensures err == Arg ==> pool == old(pool)
      ensures err != Arg ==> err == Ok && SameShape(old(pool), pool, chain[to])
      ensures err != Arg ==> var f, t := Bytes(old(pool), chain[from]), Bytes(old(pool), chain[to]);
                             |f| <= |t| && Bytes(pool, chain[to]) == f + t[|f|..] && Bytes(pool, chain[from]) == f
    {
      if to == 0 || from == 0 || pool[to].tot < pool[from].tot {
        return Arg;
      }
      ghost var before, ct, cf, w, r := pool, chain[to], chain[from], Spot(0, 0), Spot(0, 0);
      CopyStarts(before, chain, to, from);
      var pt, pf, ot, of := to, from, 0, 0;
      while pf != 0
        invariant Copying(before, pool, ct, cf, w, r) && pt == At0(ct, w.i) && pf == At0(cf, r.i) && ot == w.off
        invariant of == r.off
        decreases |cf| - r.i, |ct| - w.i
      {
        NoQueue(before, pool, chain, ct, to, w.i);
        NoQueue(before, pool, chain, ct, from, r.i);
        pt, pf, ot, of, w, r := CopyOnce(before, ct, cf, pt, pf, ot, of, w, r);
        NoQueue(before, pool, chain, ct, to, w.i);
        NoQueue(before, pool, chain, ct, from, r.i);
        assert pf != 0 && |pool[pf].payload| == pool[pf].tot ==> pool[pf].next == 0;    // so no ERR_VAL
        assert pt != 0 && |pool[pt].payload| == pool[pt].tot ==> pool[pt].next == 0;    // here either
      }
      NoQueue(before, pool, chain, ct, from, r.i);
      CopyEnds(before, pool, held, chain, to, from, w, r);
      return Ok;
    }

    /** One round of pbuf_copy, which writes at w and reads at r. */
    method CopyOnce(ghost before: Pool, ghost ct: seq<nat>, ghost cf: seq<nat>, pt: nat, pf: nat, ot: nat, of: nat,
        ghost w: Spot, ghost r: Spot)
      returns (pt': nat, pf': nat, ot': nat, of': nat, ghost w': Spot, ghost r': Spot)
      requires Copying(before, pool, ct, cf, w, r) && r.i < |cf| && OnWay(pool, ct, w.i) && OnWay(pool, cf, r.i)
      requires pt == At0(ct, w.i) && pf == cf[r.i] && ot == w.off && of == r.off
      modifies this`pool
      ensures Copying(before, pool, ct, cf, w', r')
      ensures pt' == At0(ct, w'.i) && pf' == At0(cf, r'.i) && ot' == w'.off && of' == r'.off
      ensures r'.i > r.i || (r'.i == r.i && w'.i > w.i)
    {
      ghost var now := pool;
      CopyReady(before, now, ct, cf, w, r);
      var x, y := pool[pt].payload, pool[pf].payload;
      var len := if |x| - ot >= |y| - of then |y| - of else |x| - ot;
      var src := y[of..of + len];
      pool := pool[pt := pool[pt].(payload := Over(x, ot, src))];
      CopyStep(before, now, pool, ct, cf, w, r, len, src);
      w', r' := On(before, ct, w, len), On(before, cf, r, len);
      pt', ot' := if ot + len == |x| then pool[pt].next else pt, if ot + len == |x| then 0 else ot + len;
      pf', of' := if of + len >= |y| then pool[pf].next else pf, if of + len >= |y| then 0 else of + len;
    }

    /** memp_malloc: some free buffer of the pool. */
    method Take() returns (q: nat)
      requires |pool| > 0
      ensures if q == 0 then forall x: nat :: 0 < x < |pool| ==> pool[x].ref > 0 else q < |pool| && pool[q].ref == 0
    {
      q := 1;
      while q < |pool|
        invariant 0 < q && forall x: nat :: 0 < x < q && x < |pool| ==> pool[x].ref > 0
      {
        if pool[q].ref == 0 {
          return;
        }
        q := q + 1;
      }
      return 0;
    }

    /** The next buffer of a chain under way. */
    method AddBuffer(ghost before: Pool, ghost links: Chains, ghost p: nat, r: nat, q: nat, len: nat, rem: nat,
        ghost length: nat)
      requires Valid() && Wf(before, links) && Growing(before, links, pool, chain, p, r, rem, length)
      requires 0 < q < |pool| && pool[q].ref == 0 && len <= rem
      modifies this`pool, this`chain
      ensures Valid() && Growing(before, links, pool, chain, p, q, rem - len, length)
      ensures |chain[p]| == |old(chain)[p]| + 1
    {
      LinkNew(pool, held, chain, r, q, len, rem);
      StillGrowing(before, links, pool, chain, p, r, q, len, rem, length);
      pool := pool[q := Buf(0, Zero(len), rem, 1)];
      pool := pool[r := pool[r].(next := q)];
      chain := JoinedChains(chain[q := [q]], r, q);
    }

    /** The pool has run out: what was allocated is freed. */
    method GiveUp(ghost before: Pool, ghost links: Chains, ghost owners: Held, p: nat, ghost r: nat, ghost rem: nat,
        ghost length: nat)
      requires Valid() && Wf(before, links) && |owners| == |before| && p < |owners| && held == Raise(owners, p)
      requires Growing(before, links, pool, chain, p, r, rem, length)
               && forall x: nat :: 0 < x < |pool| ==> pool[x].ref > 0
      modifies this`pool, this`chain, this`held
      ensures Valid() && held == owners && TotalsKept(before, pool) && KeepsOld(before, links, pool, chain)
      ensures Spare(before) == |old(chain)[p]| && forall x: nat :: Live(pool, x) ==> Live(before, x)
    {
      ghost var now, all := pool, chain;
      var gone := Free(p);
      Abandoned(before, links, now, all, pool, chain, p, r, rem, length);
      LowerRaise(owners, p);
    }

    /** The loop of pbuf_alloc: the chain of p grows until it has room for everything, or is freed again. */
    method Grow(ghost before: Pool, ghost links: Chains, ghost owners: Held, p: nat, missing: nat, ghost length: nat)
        returns (ok: bool)
      requires Valid() && Wf(before, links) && |owners| == |before| && p < |owners| && held == Raise(owners, p)
      requires Growing(before, links, pool, chain, p, p, missing, length)
      modifies this`pool, this`chain, this`held
      ensures Valid() && TotalsKept(before, pool) && |pool| == |before| && KeepsOld(before, links, pool, chain)
      ensures ok ==> held == Raise(owners, p) && Live(pool, p) && !Live(before, p) && |Bytes(pool, chain[p])| == length
      ensures ok ==> |chain[p]| == |old(chain)[p]| + Tail(missing, bufsize) <= Spare(before)
      ensures !ok ==>
              held == owners && (forall x: nat :: Live(pool, x) ==> Live(before, x))
              && Spare(before) < |old(chain)[p]| + Tail(missing, bufsize)
    {
      var r: nat, rem: nat := p, missing;
      while rem > 0
        invariant Valid() && held == Raise(owners, p) && Growing(before, links, pool, chain, p, r, rem, length)
        invariant |chain[p]| + Tail(rem, bufsize) == |old(chain)[p]| + Tail(missing, bufsize)
      {
        var q := Take();
        if q == 0 {
          GiveUp(before, links, owners, p, r, rem, length);
          return false;
        }
        var len := if rem < bufsize then rem else bufsize;
        AddBuffer(before, links, p, r, q, len, rem, length);
        rem := rem - len;
        r := q;
      }
      AllThere(before, links, pool, chain, p, r, length);
      return true;
    }

    /** pbuf_alloc for PBUF_POOL: a chain with room for length bytes, or nothing at all. */
    method Alloc(length: nat, offset: nat) returns (p: nat)
      requires Valid() && offset < bufsize
      modifies this`pool, this`chain, this`held
      ensures Valid() && TotalsKept(old(pool), pool) && |pool| == |old(pool)|
      ensures KeepsOld(old(pool), old(chain), pool, chain)
      ensures p == 0 <==> Spare(old(pool)) < Segments(length, bufsize, offset)
      ensures p == 0 ==> held == old(held) && forall x: nat :: Live(pool, x) ==> Live(old(pool), x)
      ensures p != 0 ==> Live(pool, p) && !Live(old(pool), p) && held == Raise(old(held), p)
      ensures p != 0 ==> |Bytes(pool, chain[p])| == length && |chain[p]| == Segments(length, bufsize, offset)
    {
      ghost var before, links, owners := pool, chain, held;
      p := Take();
      if p == 0 {
        NoneSpare(before);
        return;
      }
      var len := if length < bufsize - offset then length else bufsize - offset;
      NewBuffer(before, owners, links, p, len, length);
      FirstBuffer(before, links, p, len, length);
      pool := pool[p := Buf(0, Zero(len), length, 1)];
      chain, held := chain[p := [p]], Raise(held, p);
      var ok := Grow(before, links, owners, p, length - len, length);
      if !ok {
        p := 0;
      }
    }
  }

  /** Every buffer that was live is as it was. */
  ghost predicate KeepsOld(pool: Pool, chain: Chains, now: Pool, all: Chains) {
    |now| == |all| == |pool| == |chain|
        && forall x: nat :: Live(pool, x) ==> Live(now, x) && now[x] == pool[x] && all[x] == chain[x]
  }

  /** Byte off of buffer i of a packet. */
  datatype Spot = Spot(i: nat, off: nat)

  /** The spot n bytes on: in the same buffer, or at the start of the next one. */
  ghost function On(pool: Pool, c: seq<nat>, s: Spot, n: nat): Spot
    requires s.i < |c| && c[s.i] < |pool|
  {
    if s.off + n >= |pool[c[s.i]].payload| then Spot(s.i + 1, 0) else Spot(s.i, s.off + n)
  }

  /** Buffer i of c, NULL behind the last. */
  function At0(c: seq<nat>, i: nat): nat {
    if i < |c| then c[i] else 0
  }

  datatype Err = Ok | Arg | Val

  /** No buffer of c is empty. */
  ghost predicate Filled(pool: Pool, c: seq<nat>) {
    forall x :: x in c && x < |pool| ==> |pool[x].payload| > 0
  }

  /** Only bytes of the buffers of c may differ. */
  ghost predicate SameShape(pool: Pool, now: Pool, c: seq<nat>) {
    && |now| == |pool|
    && forall x :: 0 <= x < |pool| ==>
       |now[x].payload| == |pool[x].payload| && now[x] == pool[x].(payload := now[x].payload)
                                       && (x !in c ==> now[x] == pool[x])
  }

  /** Inside a buffer of c, or behind the last one. */
  ghost predicate SpotIn(pool: Pool, c: seq<nat>, s: Spot) {
    if s.i < |c| then c[s.i] < |pool| && s.off < |pool[c[s.i]].payload| else s.i == |c| && s.off == 0
  }

  ghost function Position(pool: Pool, c: seq<nat>, s: Spot): nat
    requires s.i <= |c|
  {
    |Bytes(pool, c[..s.i])| + s.off
  }

  /** Two packets of filled buffers with none in common. */
  ghost predicate CanCopy(pool: Pool, ct: seq<nat>, cf: seq<nat>) {
    && (forall x :: x in ct ==> x !in cf && x < |pool|) && (forall x :: x in cf ==> x < |pool|)
    && (forall a, b :: 0 <= a < b < |ct| ==> ct[a] != ct[b]) && Filled(pool, ct) && Filled(pool, cf)
    && |Bytes(pool, cf)| <= |Bytes(pool, ct)|
  }

  /** The first pos bytes have been copied. */
  ghost predicate CopiedTo(pool: Pool, now: Pool, ct: seq<nat>, cf: seq<nat>, pos: nat) {
    && SameShape(pool, now, ct) && pos <= |Bytes(pool, cf)| <= |Bytes(pool, ct)|
    && Bytes(now, ct) == Bytes(pool, cf)[..pos] + Bytes(pool, ct)[pos..]
  }

  /** pbuf_copy is under way: it writes at w and reads at r. */
  ghost predicate Copying(pool: Pool, now: Pool, ct: seq<nat>, cf: seq<nat>, w: Spot, r: Spot) {
    && CanCopy(pool, ct, cf) && SpotIn(pool, ct, w) && SpotIn(pool, cf, r)
    && Position(pool, ct, w) == Position(pool, cf, r) && CopiedTo(pool, now, ct, cf, Position(pool, cf, r))
  }

  lemma {:induction false} BytesNext(pool: Pool, chain: Chains, q: nat)
    requires Wf(pool, chain) && Live(pool, q)
    ensures Bytes(pool, chain[q]) == pool[q].payload + Bytes(pool, At(chain, pool[q].next))
    ensures |At(chain, pool[q].next)| < |chain[q]| && (pool[q].next == 0 || Live(pool, pool[q].next))
  {
    assert NodeOk(pool, chain, q);
    assert chain[q][1..] == At(chain, pool[q].next);
  }

  /** What was copied and what is still wanted of b make up the goal. */
  ghost predicate Yields(data: seq<Byte>, b: seq<Byte>, off: nat, n: nat, goal: seq<Byte>) {
    data + Slice(b, off, n) == goal
  }

  /** What pbuf_copy_partial takes of one buffer, and the offset and length it goes on with. */
  function Part(x: seq<Byte>, off: nat, n: nat): (seq<Byte>, nat, nat) {
    if off != 0 && off >= |x| then ([], off - |x|, n)
    else
      var k := if |x| - off > n then n else |x| - off;
      (x[off..off + k], 0, n - k)
  }

  lemma {:induction false} PartStep(data: seq<Byte>, x: seq<Byte>, rest: seq<Byte>, off: nat, n: nat, goal: seq<Byte>)
    requires Yields(data, x + rest, off, n, goal)
    ensures var part := Part(x, off, n); Yields(data + part.0, rest, part.1, part.2, goal)
  {
    if off != 0 && off >= |x| {
      SliceSkip(x, rest, off, n);
      assert data + [] == data;
    } else {
      SliceTake(x, rest, off, n);
      var k := if |x| - off > n then n else |x| - off;
      Associates(data, x[off..off + k], Slice(rest, 0, n - k));
    }
  }

  lemma {:induction false} Associates(a: seq<Byte>, b: seq<Byte>, c: seq<Byte>)
    ensures (a + b) + c == a + (b + c)
  {
  }

  /** pbuf_realloc is at buffer i of c, which is q; the packet keeps rem bytes from here on. */
  ghost predicate Walking(pool: Pool, now: Pool, c: seq<nat>, i: nat, g: int, q: nat, rem: nat, n: nat) {
    && Raising(pool, now, c, i, g, q) && rem == pool[q].tot + g && |Bytes(pool, c[..i])| + rem == n
       && (rem > 0 || i == 0)
  }

  /** The packet goes on behind q as long as bytes are missing. */
  lemma {:induction false} WalkStep(pool: Pool, now: Pool, next: Pool, chain: Chains, p: nat, i: nat, g: int, q: nat,
      rem: nat, n: nat)
    requires Wf(pool, chain) && Live(pool, p) && TotAlong(pool, chain[p])
    requires Walking(pool, now, chain[p], i, g, q, rem, n)
    requires |pool[q].payload| < rem && g < 0 && next == now[q := now[q].(tot := now[q].tot + g)]
    ensures Walking(pool, next, chain[p], i + 1, g, now[q].next, rem - |pool[q].payload|, n)
  {
    Suffix(pool, chain, p, i);
    ReadThrough(pool, chain[p], i);
    assert TotOkAt(pool, q) && NodeOk(pool, chain, q);
    RaisedMore(pool, now, next, chain, p, i, g, q);
  }

  /** p has the first n bytes of its packet left; packets that share nothing with it are as they were. */
  ghost predicate Shrunk(pool: Pool, chain: Chains, now: Pool, left: Chains, p: nat, n: nat)
    requires p < |pool| == |chain|
  {
    && |now| == |left| == |pool| && Live(now, p) && now[p].ref == pool[p].ref
    && PacketCut(pool, chain[p], now, left[p], n) && OthersKept(pool, chain, now, left, chain[p])
    && |left[p]| <= |chain[p]| && now == Freed(Trimmed(pool, left[p], n), chain[p][|left[p]|..])
    && TotAlong(now, left[p])
    && (TotOk(pool) ==> (TotOk(now) <==> !Entered(pool, Prefix(pool, chain[p], n))))
  }

  /** The packet c has become d: its first n bytes, in the buffers that held them. */
  ghost predicate PacketCut(pool: Pool, c: seq<nat>, now: Pool, d: seq<nat>, n: nat) {
    && n <= |Bytes(pool, c)| && Bytes(now, d) == Bytes(pool, c)[..n] && d == Prefix(pool, c, n)
  }

  /** Packets that share no buffer with c are as they were. */
  ghost predicate OthersKept(pool: Pool, chain: Chains, now: Pool, left: Chains, c: seq<nat>)
    requires |pool| == |chain| == |now| == |left|
  {
    forall x :: 0 <= x < |now| && Live(now, x) && Disjoint(chain[x], c) ==>
      left[x] == chain[x] && Bytes(now, left[x]) == Bytes(pool, chain[x])
  }

  /** now is pool with the chain of p cut in its buffer i, which keeps rem bytes, n in all. */
  ghost predicate IsCut(pool: Pool, chain: Chains, now: Pool, p: nat, i: nat, rem: nat, n: nat) {
    && |chain| == |pool| && Live(pool, p) && i < |chain[p]| && n < pool[p].tot
    && var q := chain[p][i];
    && q < |pool| == |now| && rem <= |pool[q].payload| && rem == pool[q].tot + n - pool[p].tot
    && |Bytes(pool, chain[p][..i])| + rem == n && (rem > 0 || i == 0)
    && now[q] == pool[q].(payload := pool[q].payload[..rem], tot := rem, next := 0)
    && IsRaised(pool, now[q := pool[q]], chain[p][..i], n - pool[p].tot)
  }

  /** With the tail released, if there is one, the packet is shrunk. */
  lemma {:induction false} ShrinkDone(pool: Pool, held: Held, chain: Chains, now: Pool, last: Pool, left: Chains,
      p: nat, i: nat, rem: nat, n: nat)
    requires Inv(pool, held, chain) && IsCut(pool, chain, now, p, i, rem, n) && TotAlong(pool, chain[p])
    requires var q := chain[p][i]; var all, t := CutChains(chain, q), pool[q].next;
             if t == 0 then last == now && left == all
             else t < |pool| && last == Freed(now, all[t]) && Wf(last, left) && Kept(all, last, left)
    ensures Shrunk(pool, chain, last, left, p, n)
  {
    var q, g := chain[p][i], n - pool[p].tot;
    ShrinkCut(pool, held, chain, now, p, i, rem, n);
    assert q in chain[p];
    ShrinkLeft(pool, chain, now, last, left, p, q, g);
    IsCutPayload(pool, chain, now, p, i, rem, n);
    assert last == Freed(Trimmed(pool, chain[p][..i + 1], n), chain[p][i + 1..]) by {
      assert NodeOk(pool, chain, p);
      CutIsTrimmed(pool, chain[p], now, i, rem, n);
      CutTail(pool, chain, p, i);
    }
    ShrinkEnds(pool, chain, now, last, left, p, q, i, rem, n);
  }

  /** The loop and the trimming of pbuf_realloc give just this pool. */
  lemma {:induction false} CutIsTrimmed(pool: Pool, c: seq<nat>, now: Pool, i: nat, rem: nat, n: nat)
    requires i < |c| && c[0] < |pool| && c[i] < |pool| == |now| && rem <= |pool[c[i]].payload|
    requires |Bytes(pool, c[..i])| + rem == n
    requires var b := pool[c[i]]; now[c[i]] == b.(payload := b.payload[..rem], tot := rem, next := 0)
    requires IsRaised(pool, now[c[i] := pool[c[i]]], c[..i], n - pool[c[0]].tot)
    ensures now == Trimmed(pool, c[..i + 1], n)
  {
    RaisedIs(pool, now, c[..i], c[i], n - pool[c[0]].tot);
    CutPrefix(c, i);
    TrimmedLast(pool, c[..i + 1], c[..i], c[i], rem, n);
  }

  lemma {:induction false} TrimmedLast(pool: Pool, d: seq<nat>, e: seq<nat>, q: nat, rem: nat, n: nat)
    requires d != [] && d[..|d| - 1] == e && Last(d) == q && d[0] < |pool| && q < |pool|
    requires rem <= |pool[q].payload| && |Bytes(pool, e)| + rem == n
    ensures var b := pool[q].(payload := pool[q].payload[..rem], tot := rem, next := 0);
            Trimmed(pool, d, n) == Raised(pool, e, n - pool[d[0]].tot)[q := b]
  {
  }

  lemma {:induction false} RaisedIs(pool: Pool, now: Pool, d: seq<nat>, q: nat, g: int)
    requires q < |pool| == |now| && IsRaised(pool, now[q := pool[q]], d, g)
    ensures now == Raised(pool, d, g)[q := now[q]]
  {
    var r := Raised(pool, d, g);
    assert now[q := pool[q]] == r;
    forall x | 0 <= x < |now| ensures now[x] == r[q := now[q]][x] {
      if x != q { assert now[q := pool[q]][x] == now[x]; }
    }
  }

  lemma {:induction false} CutPrefix(c: seq<nat>, i: nat)
    requires i < |c|
    ensures var d := c[..i + 1]; d != [] && d[..|d| - 1] == c[..i] && Last(d) == c[i]
  {
    var d := c[..i + 1];
    assert |d| == i + 1 && d[..i] == c[..i];
  }

  /** What is linked behind the buffer the packet is cut in. */
  lemma {:induction false} CutTail(pool: Pool, chain: Chains, p: nat, i: nat)
    requires Wf(pool, chain) && p < |pool| && i < |chain[p]|
    ensures var q := chain[p][i];
            && q < |pool|
            && if pool[q].next == 0 then chain[p][i + 1..] == []
               else pool[q].next < |pool| && CutChains(chain, q)[pool[q].next] == chain[p][i + 1..]
  {
    var q := chain[p][i];
    Suffix(pool, chain, p, i);
    assert NodeOk(pool, chain, q) && NodeOk(pool, chain, 0);
    assert chain[q][1..] == chain[p][i + 1..];
    if pool[q].next != 0 { NoReturn(pool, chain, q); }
  }

  lemma {:induction false} ShrinkEnds(pool: Pool, chain: Chains, now: Pool, last: Pool, left: Chains, p: nat, q: nat,
      i: nat, rem: nat, n: nat)
    requires Wf(pool, chain) && p < |pool| && i < |chain[p]| && (rem > 0 || i == 0)
    requires |Bytes(pool, chain[p][..i])| + rem == n
    requires q == chain[p][i] && CutPayload(pool, now, q, rem) && Survives(now, CutChains(chain, q), last, left)
    requires Live(last, p) && last[p].ref == pool[p].ref && left[p] == chain[p][..i + 1]
    requires Bytes(last, left[p]) == Bytes(now, left[p])
    requires TotOk(pool) ==> (TotOk(last) <==> !Entered(pool, left[p]))
    requires TotAlong(last, left[p]) && last == Freed(Trimmed(pool, left[p], n), chain[p][i + 1..])
    ensures Shrunk(pool, chain, last, left, p, n)
  {
    ShrinkPacket(pool, chain, now, last, left[p], p, i, rem, n);
    assert q in chain[p];
    CutOthers(pool, chain, now, last, left, q, chain[p]);
  }

  lemma {:induction false} ShrinkPacket(pool: Pool, chain: Chains, now: Pool, last: Pool, d: seq<nat>, p: nat, i: nat,
      rem: nat, n: nat)
    requires Wf(pool, chain) && p < |pool| && i < |chain[p]| && (rem > 0 || i == 0)
    requires |Bytes(pool, chain[p][..i])| + rem == n
    requires CutPayload(pool, now, chain[p][i], rem) && d == chain[p][..i + 1] && Bytes(last, d) == Bytes(now, d)
    ensures PacketCut(pool, chain[p], last, d, n)
  {
    PrefixIs(pool, chain[p], i, rem);
    CutBytes(pool, chain, now, p, i, rem);
  }

  /** Whether or not there is a tail: what is left, and its totals. */
  lemma {:induction false} ShrinkLeft(pool: Pool, chain: Chains, now: Pool, last: Pool, left: Chains, p: nat, q: nat,
      g: int)
    requires Wf(pool, chain) && Live(pool, p) && Live(pool, q) && q in chain[p] && Relinked(pool, now, q, 0) && g < 0
    requires var all, t := CutChains(chain, q), pool[q].next;
             && Wf(now, all) && CutTotals(pool, now, all[p], g)
             && (if t == 0 then last == now && left == all
                 else t < |pool| && last == Freed(now, all[t]) && Wf(last, left) && Kept(all, last, left))
    ensures var all := CutChains(chain, q);
            && Survives(now, all, last, left) && Live(last, p) && last[p].ref == pool[p].ref && left[p] == all[p]
            && Bytes(last, left[p]) == Bytes(now, all[p]) && TotAlong(last, left[p])
            && (TotOk(pool) ==> (TotOk(last) <==> !Entered(pool, all[p])))
  {
    var all := CutChains(chain, q);
    assert NodeOk(now, all, p) && p in all[p];
    if pool[q].next == 0 {
      if TotOk(pool) { RaiseTotals(pool, now, all[p], g); }
    } else {
      TailGone(pool, now, chain, last, left, p, q, g);
    }
    StaysRight(now, all, last, p);
  }

  /** Buffers that are as they were, with all that follows them, have the totals they had. */
  lemma {:induction false} StaysRight(now: Pool, all: Chains, last: Pool, p: nat)
    requires Wf(now, all) && p < |now| == |last|
    requires forall x :: x in all[p] ==> x < |now| && last[x] == now[x] && TotOkAt(now, x)
    ensures TotAlong(last, all[p])
  {
    forall i | 0 <= i < |all[p]| ensures all[p][i] < |last| && TotOkAt(last, all[p][i]) {
      var x := all[p][i];
      Suffix(now, all, p, i);
      if i + 1 < |all[p]| { assert all[p][i + 1] in all[p]; }
    }
  }

  /** The cut itself: links, counts and totals. */
  lemma {:induction false} ShrinkCut(pool: Pool, held: Held, chain: Chains, now: Pool, p: nat, i: nat, rem: nat, n: nat)
    requires Inv(pool, held, chain) && IsCut(pool, chain, now, p, i, rem, n) && TotAlong(pool, chain[p])
    ensures var q := chain[p][i]; var all := CutChains(chain, q);
            && Live(pool, q) && Relinked(pool, now, q, 0) && Wf(now, all) && Counted(now, held, pool[q].next)
            && (pool[q].next != 0 ==> Live(now, pool[q].next))
            && all[p] == chain[p][..i + 1] && CutTotals(pool, now, all[p], n - pool[p].tot)
  {
    var q := chain[p][i];
    Suffix(pool, chain, p, i);
    assert NodeOk(pool, chain, q);
    assert Relinked(pool, now, q, 0);
    CutWf(pool, now, chain, q);
    CutCounts(pool, now, held, q);
    CutEnds(pool, chain, p, q);
    ShrinkTotals(pool, chain, now, chain[p][..i + 1], p, i, rem, n);
  }

  lemma {:induction false} ShrinkTotals(pool: Pool, chain: Chains, now: Pool, d: seq<nat>, p: nat, i: nat, rem: nat,
      n: nat)
    requires Wf(pool, chain) && IsCut(pool, chain, now, p, i, rem, n) && TotAlong(pool, chain[p])
    requires |d| == i + 1 && forall j :: 0 <= j <= i ==> d[j] == chain[p][j]
    ensures CutTotals(pool, now, d, n - pool[p].tot)
  {
    forall x | x in d ensures Live(pool, x) && now[x].tot == pool[x].tot + (n - pool[p].tot) && TotOkAt(now, x) {
      var j :| 0 <= j < |d| && d[j] == x;
      ShrinkTotal(pool, chain, now, p, i, rem, n, j);
    }
    forall x | 0 <= x < |pool| ensures now[x].ref == pool[x].ref && (x !in d ==> now[x] == pool[x]) {
      ShrinkOther(pool, chain, now, d, p, i, rem, n, x);
    }
  }

  lemma {:induction false} ShrinkOther(pool: Pool, chain: Chains, now: Pool, d: seq<nat>, p: nat, i: nat, rem: nat,
      n: nat, x: nat)
    requires IsCut(pool, chain, now, p, i, rem, n) && x < |pool|
    requires |d| == i + 1 && forall j :: 0 <= j <= i ==> d[j] == chain[p][j]
    ensures |now| == |pool| && now[x].ref == pool[x].ref && (x !in d ==> now[x] == pool[x])
  {
    assert d[i] == chain[p][i];
  }

  lemma {:induction false} ShrinkTotal(pool: Pool, chain: Chains, now: Pool, p: nat, i: nat, rem: nat, n: nat, j: nat)
    requires Wf(pool, chain) && IsCut(pool, chain, now, p, i, rem, n) && TotAlong(pool, chain[p]) && j <= i
    ensures var x := chain[p][j]; Live(pool, x) && now[x].tot == pool[x].tot + n - pool[p].tot && TotOkAt(now, x)
  {
    var c, x := chain[p], chain[p][j];
    Suffix(pool, chain, p, j);
    assert TotOkAt(pool, x);
    if j < i {
      Distinct(pool, chain, p, j, i);
      Suffix(pool, chain, p, j + 1);
      assert c[j] in c[..i] && (j + 1 < i ==> c[j + 1] in c[..i]);
      if j + 1 < i { Distinct(pool, chain, p, j + 1, i); }
    }
  }

  /** The payload of now is that of pool, but for buffer q, which keeps rem bytes. */
  ghost predicate CutPayload(pool: Pool, now: Pool, q: nat, rem: nat) {
    && q < |pool| == |now| && rem <= |pool[q].payload| && now[q].payload == pool[q].payload[..rem]
    && (forall x :: 0 <= x < |pool| && x != q ==> now[x].payload == pool[x].payload)
  }

  /** The bytes up to the cut. */
  lemma {:induction false} CutBytes(pool: Pool, chain: Chains, now: Pool, p: nat, i: nat, rem: nat)
    requires Wf(pool, chain) && p < |pool| && i < |chain[p]| && CutPayload(pool, now, chain[p][i], rem)
    ensures var n := |Bytes(pool, chain[p][..i])| + rem;
            n <= |Bytes(pool, chain[p])| && Bytes(now, chain[p][..i + 1]) == Bytes(pool, chain[p])[..n]
  {
    var q, c := chain[p][i], chain[p];
    ReadThrough(pool, c, i);
    var d := c[..i + 1];
    assert d[..i] == c[..i] && d[i] == q && d[i + 1..] == [];
    ReadThrough(now, d, i);
    forall j | 0 <= j < i ensures c[j] != q { Distinct(pool, chain, p, j, i); }
    SameBytes(pool, now, c[..i]);
  }

  lemma {:induction false} IsCutPayload(pool: Pool, chain: Chains, now: Pool, p: nat, i: nat, rem: nat, n: nat)
    requires IsCut(pool, chain, now, p, i, rem, n)
    ensures CutPayload(pool, now, chain[p][i], rem)
  {
  }

  /** Packets without q keep their bytes. */
  lemma {:induction false} CutOthers(pool: Pool, chain: Chains, now: Pool, last: Pool, left: Chains, q: nat,
      c: seq<nat>)
    requires |chain| == |pool| && q < |pool| == |now| == |last| == |left| && q in c
    requires forall y :: 0 <= y < |pool| && y != q ==> now[y].payload == pool[y].payload
    requires Survives(now, CutChains(chain, q), last, left)
    ensures OthersKept(pool, chain, last, left, c)
  {
    forall x | 0 <= x < |last| && Live(last, x) && Disjoint(chain[x], c)
      ensures left[x] == chain[x] && Bytes(last, left[x]) == Bytes(pool, chain[x])
    {
      SameBytes(pool, now, chain[x]);
    }
  }

  function Unlinked(pool: Pool, p: nat): Pool
    requires p < |pool|
  {
    pool[p := pool[p].(next := 0, tot := |pool[p].payload|)]
  }

  /** p is a packet of its own. The totals are right unless other buffers lead to p. */
  ghost predicate Dechained(pool: Pool, chain: Chains, now: Pool, left: Chains, p: nat, rest: nat)
    requires p < |pool| == |chain|
  {
    var q := pool[p].next;
    && |now| == |left| == |pool| && Live(now, p) && left[p] == [p] && now[p].payload == pool[p].payload
       && now[p].ref == pool[p].ref
    && rest == (if Live(pool, q) && pool[q].ref > 1 then q else 0)
    && (rest != 0 ==> Live(now, q) && left[q] == chain[q] && Bytes(now, left[q]) == Bytes(pool, chain[q]))
    && now == Freed(Unlinked(pool, p), At(chain, q))
    && OthersKept(pool, chain, now, left, [p])
    && TotOkAt(now, p) && (TotOk(pool) ==> (TotOk(now) <==> Tot(pool, q) == 0 || !Entered(pool, [p])))
  }

  lemma {:induction false} DechainEnds(pool: Pool, chain: Chains, last: Pool, left: Chains, p: nat, rest: nat)
    requires Wf(pool, chain) && Live(pool, p) && TotOkAt(pool, p) && pool[p].next != 0 && |chain[p]| <= 256
    requires Live(pool, pool[p].next)
    requires var now, all, q := Unlinked(pool, p), CutChains(chain, p), pool[p].next;
             && Wf(now, all) && last == Freed(now, all[q]) && Wf(last, left) && Kept(all, last, left)
             && rest == if Wrapped(|Lead(now, all[q])|) > 0 then 0 else q
    ensures Dechained(pool, chain, last, left, p, rest)
  {
    var now, all, q := Unlinked(pool, p), CutChains(chain, p), pool[p].next;
    assert NodeOk(pool, chain, p);
    NoReturn(pool, chain, p);
    AnyGone(now, all, q);
    CutNode(pool, chain, p, p);
    UnlinkTotals(pool, chain, p);
    TailGone(pool, now, chain, last, left, p, p, -pool[q].tot);
    assert p in all[p];
    CutOthers(pool, chain, now, last, left, p, [p]);
    SameBytes(pool, now, chain[q]);
  }

  lemma {:induction false} UnlinkTotals(pool: Pool, chain: Chains, p: nat)
    requires Wf(pool, chain) && Live(pool, p) && TotOkAt(pool, p) && Live(pool, pool[p].next)
    ensures CutTotals(pool, Unlinked(pool, p), [p], -pool[pool[p].next].tot)
  {
  }

  function Lower(held: Held, p: nat): Held
    requires p < |held| && held[p] > 0
  {
    held[p := held[p] - 1]
  }

  function Raise(held: Held, p: nat): Held
    requires p < |held|
  {
    held[p := held[p] + 1]
  }

  lemma {:induction false} RaiseLower(held: Held, p: nat)
    requires p < |held| && held[p] > 0
    ensures Raise(Lower(held, p), p) == held
  {
  }

  lemma {:induction false} LowerRaise(held: Held, p: nat)
    requires p < |held|
    ensures Lower(Raise(held, p), p) == held
  {
  }

  /** A counter of type u8_t after n increments. */
  function Wrapped(n: nat): nat {
    if n < 256 then n else Wrapped(n - 256)
  }

  /** Live buffers have the chains they had. */
  ghost predicate Kept(chain: Chains, pool: Pool, left: Chains) {
    |left| == |chain| == |pool| && forall x :: 0 <= x < |chain| && Live(pool, x) ==> left[x] == chain[x]
  }

  /** pbuf_free is under way: cur, the first of d, has to lose a reference. */
  ghost predicate Owed(pool: Pool, held: Held, chain: Chains, cur: nat, d: seq<nat>) {
    Wf(pool, chain) && Counted(pool, held, cur) && (cur == 0 || Live(pool, cur)) && d == At(chain, cur)
  }

  /** One round of pbuf_free: what is left to do leads to the same end. */
  lemma {:induction false} Round(pool: Pool, held: Held, chain: Chains, p: nat, now: Pool, less: Chains)
    requires Live(pool, p) && Owed(pool, held, chain, p, At(chain, p)) && now == Less(pool, p) && less == chain[p := []]
    ensures chain[p] != [] && |At(chain, 0)| == 0 == |At(less, 0)|
    ensures pool[p].ref > 1 ==>
            Owed(now, held, chain, 0, []) && Freed(pool, chain[p]) == now && Lead(pool, chain[p]) == []
    ensures pool[p].ref == 1 ==>
              var q := pool[p].next; var d := At(less, q);
              && Owed(now, held, less, q, d) && |d| < |chain[p]|
              && Freed(now, d) == Freed(pool, chain[p]) && |Lead(now, d)| + 1 == |Lead(pool, chain[p])|
  {
    assert NodeOk(pool, chain, p) && NodeOk(pool, chain, 0);
    if pool[p].ref > 1 {
      DropRef(pool, held, chain, p);
    } else {
      DropNode(pool, held, chain, p);
      var q := pool[p].next;
      if q != 0 { NoReturn(pool, chain, p); }
      assert chain[p][1..] == At(less, q);
      LeadSame(pool, now, chain[p][1..]);
    }
  }

  lemma {:induction false} Owing(pool: Pool, held: Held, p: nat)
    requires Counted(pool, held, 0) && 0 < p < |pool| && held[p] > 0
    ensures Counted(pool, Lower(held, p), p) && Live(pool, p)
  {
    var fewer := Lower(held, p);
    assert RefOk(pool, held, 0, p);
    forall x | 0 <= x < |pool| ensures RefOk(pool, fewer, p, x) {
      assert RefOk(pool, held, 0, x);
    }
  }

  lemma {:induction false} MoreRef(pool: Pool, held: Held, chain: Chains, p: nat)
    requires Inv(pool, held, chain) && Live(pool, p)
    ensures Inv(OneMore(pool, p), Raise(held, p), chain)
  {
    var now, more := OneMore(pool, p), Raise(held, p);
    forall x | 0 <= x < |now| ensures NodeOk(now, chain, x) && RefOk(now, more, 0, x) {
      assert NodeOk(pool, chain, x) && RefOk(pool, held, 0, x);
      assert Preds(now, x) == Preds(pool, x);
    }
  }

  /** Live buffers have the packets they had, and right totals stay right. */
  ghost predicate Survives(pool: Pool, chain: Chains, now: Pool, left: Chains) {
    && |pool| == |chain| == |now| == |left|
    && (forall x :: 0 <= x < |now| && Live(now, x) ==>
          Live(pool, x) && left[x] == chain[x] && now[x].tot == pool[x].tot
              && Bytes(now, left[x]) == Bytes(pool, chain[x]))
    && (TotOk(pool) ==> TotOk(now))
  }

  lemma {:induction false} FreedSurvives(pool: Pool, now: Pool, chain: Chains, left: Chains, p: nat)
    requires Wf(pool, chain) && p < |pool| && now == Freed(pool, chain[p]) && Wf(now, left) && Kept(chain, now, left)
    ensures Survives(pool, chain, now, left)
  {
    var c := chain[p];
    forall i, j | 0 <= i < j < |c| ensures c[i] != c[j] { Distinct(pool, chain, p, i, j); }
    FreedIs(pool, c);
    forall x | 0 <= x < |now| && Live(now, x) ensures Bytes(now, left[x]) == Bytes(pool, chain[x]) {
      SameBytes(pool, now, left[x]);
    }
    if TotOk(pool) {
      forall x | 0 <= x < |now| ensures TotOkAt(now, x) {
        assert TotOkAt(pool, x) && NodeOk(now, left, x);
      }
    }
  }

  // ---------------------------------------------------------------- joining

  /** The chain of h now holds the bytes of both; its totals are right unless another chain leads into it. */
  ghost predicate Catted(pool: Pool, chain: Chains, now: Pool, all: Chains, h: nat, t: nat) {
    && |pool| == |chain| == |now| == |all| && h < |pool| && Live(now, t) && t < |pool|
    && all[h] == chain[h] + chain[t] && Bytes(now, all[h]) == Bytes(pool, chain[h]) + Bytes(pool, chain[t])
    && all == JoinedChains(chain, Last(chain[h]), t) && OthersKept(pool, chain, now, all, chain[h])
    && (TotOk(pool) ==> (TotOk(now) <==> pool[t].tot == 0 || !Entered(pool, chain[h])))
  }

  /** The totals of the buffers of c before number i, which is p, have been raised by n. */
  ghost predicate Raising(pool: Pool, now: Pool, c: seq<nat>, i: nat, n: int, p: nat) {
    && i < |c| && p == c[i] && 0 < p < |pool| == |now| && IsRaised(pool, now, c[..i], n) && now[p] == pool[p]
    && now[p].next == if i + 1 < |c| then c[i + 1] else 0
  }

  lemma {:induction false} RaisedNone(pool: Pool, chain: Chains, h: nat, n: int)
    requires Wf(pool, chain) && Live(pool, h)
    ensures Raising(pool, pool, chain[h], 0, n, h)
  {
    assert NodeOk(pool, chain, h);
    Suffix(pool, chain, h, 0);
  }

  /** One round of the loop. */
  lemma {:induction false} RaisedMore(pool: Pool, now: Pool, next: Pool, chain: Chains, h: nat, i: nat, n: int, p: nat)
    requires Wf(pool, chain) && Live(pool, h) && Raising(pool, now, chain[h], i, n, p) && now[p].next != 0
    requires next == now[p := now[p].(tot := now[p].tot + n)]
    ensures Raising(pool, next, chain[h], i + 1, n, now[p].next)
  {
    var c, q := chain[h], now[p].next;
    Suffix(pool, chain, h, i + 1);
    forall j | 0 <= j <= i ensures c[j] != q { Distinct(pool, chain, h, j, i + 1); }
    assert c[..i + 1] == c[..i] + [p];
    assert IsRaised(pool, next, c[..i + 1], n);
  }

  lemma {:induction false} RaisedEnd(pool: Pool, now: Pool, chain: Chains, h: nat, i: nat, n: int, p: nat)
    requires Wf(pool, chain) && Live(pool, h) && Raising(pool, now, chain[h], i, n, p) && now[p].next == 0
    ensures chain[h] != [] && p == Last(chain[h]) && IsRaised(pool, now, chain[h][..|chain[h]| - 1], n)
  {
    if i + 1 < |chain[h]| { Suffix(pool, chain, h, i + 1); }
    assert i == |chain[h]| - 1;
  }

  lemma {:induction false} JoinedOnce(pool: Pool, now: Pool, last: Pool, c: seq<nat>, p: nat, t: nat)
    requires c != [] && p == Last(c) && p < |pool| == |now| && t < |pool| && now[p] == pool[p]
    requires IsRaised(pool, now, c[..|c| - 1], pool[t].tot)
    requires last == now[p := now[p].(tot := now[p].tot + pool[t].tot, next := t)]
    ensures last == Joined(pool, c, p, t)
  {
    assert c == c[..|c| - 1] + [p];
    var want := Joined(pool, c, p, t);
    forall x | 0 <= x < |pool| ensures last[x] == want[x] {
      assert x in c <==> x in c[..|c| - 1] || x == p;
    }
  }

  lemma {:induction false} JoinKeeps(pool: Pool, held: Held, chain: Chains, last: Pool, all: Chains, h: nat, p: nat,
      t: nat)
    requires Inv(pool, held, chain) && Joinable(pool, chain, h, t) && held[t] > 0 && p == Last(chain[h]) && p < |pool|
    requires last == Joined(pool, chain[h], p, t) && all == JoinedChains(chain, p, t)
    ensures Inv(last, Lower(held, t), all) && Catted(pool, chain, last, all, h, t)
  {
    LastIs(pool, chain, h);
    JoinedIs(pool, chain[h], p, t);
    JoinWf(pool, last, chain, p, t);
    JoinCounts(pool, last, held, p, t);
    JoinBytes(pool, last, chain, h, p, t);
    if TotOk(pool) { JoinTotals(pool, chain, h, t); }
    JoinOthers(pool, chain, last, all, h, p, t);
  }

  /** Packets that do not share the last buffer of the head are as they were. */
  lemma {:induction false} JoinOthers(pool: Pool, chain: Chains, last: Pool, all: Chains, h: nat, p: nat, t: nat)
    requires |chain| == |pool| && h < |pool| && t < |pool| && p in chain[h] && all == JoinedChains(chain, p, t)
    requires RaisedBy(pool, last, chain[h], pool[t].tot)
    ensures OthersKept(pool, chain, last, all, chain[h])
  {
    forall x | 0 <= x < |last| && Live(last, x) && Disjoint(chain[x], chain[h])
      ensures all[x] == chain[x] && Bytes(last, all[x]) == Bytes(pool, chain[x])
    {
      SameBytes(pool, last, chain[x]);
    }
  }

  /** Counting one more reference changes neither bytes nor totals. */
  lemma {:induction false} RefSame(pool: Pool, chain: Chains, now: Pool, last: Pool, all: Chains, h: nat, t: nat)
    requires Catted(pool, chain, now, all, h, t) && last == OneMore(now, t)
    ensures Catted(pool, chain, last, all, h, t)
  {
    SameBytes(now, last, all[h]);
    forall x | 0 <= x < |last| && Live(last, x) && Disjoint(chain[x], chain[h])
      ensures all[x] == chain[x] && Bytes(last, all[x]) == Bytes(pool, chain[x])
    {
      SameBytes(now, last, all[x]);
    }
    forall x | 0 <= x < |now| ensures TotOkAt(last, x) <==> TotOkAt(now, x) {
    }
    assert TotOk(last) <==> TotOk(now);
  }

  // ---------------------------------------------------------------- cutting

  /** p cut off behind: its tail is owed the reference p had. */
  lemma {:induction false} CutKeeps(pool: Pool, now: Pool, held: Held, chain: Chains, q: nat)
    requires Inv(pool, held, chain) && Live(pool, q) && pool[q].next != 0 && Relinked(pool, now, q, 0)
    ensures Wf(now, CutChains(chain, q)) && Counted(now, held, pool[q].next) && Live(now, pool[q].next)
    ensures CutChains(chain, q)[q] == [q] && CutChains(chain, q)[pool[q].next] == chain[pool[q].next]
  {
    CutWf(pool, now, chain, q);
    CutCounts(pool, now, held, q);
    NoReturn(pool, chain, q);
  }

  /** A chain that ends in q has no buffer in common with one that does not contain q. */
  lemma {:induction false} Apart(pool: Pool, chain: Chains, p: nat, q: nat, n: nat, x: nat)
    requires Wf(pool, chain) && p < |pool| && n < |pool| && chain[p] != [] && Last(chain[p]) == q && q !in chain[n]
    requires x in chain[p]
    ensures x !in chain[n]
  {
    if x in chain[n] {
      Ends(pool, chain, p, x);
      Ends(pool, chain, n, x);
      assert false;
    }
  }

  /** Counting the freed buffers in eight bits tells whether there were any. */
  lemma {:induction false} AnyGone(pool: Pool, chain: Chains, q: nat)
    requires Wf(pool, chain) && Live(pool, q) && |chain[q]| < 256
    ensures Wrapped(|Lead(pool, chain[q])|) > 0 <==> pool[q].ref == 1
    ensures pool[q].ref > 1 ==> Freed(pool, chain[q]) == Less(pool, q)
  {
    assert NodeOk(pool, chain, q);
  }

  /** What a cut and the release of the tail leave: the chain up to the cut as it was, and exact totals. */
  lemma {:induction false} TailGone(pool: Pool, now: Pool, chain: Chains, last: Pool, left: Chains, p: nat, q: nat,
      g: int)
    requires Wf(pool, chain) && p < |pool| && q in chain[p] && Live(pool, q) && pool[q].next != 0
    requires Relinked(pool, now, q, 0)
    requires var all := CutChains(chain, q);
             && Wf(now, all) && pool[q].next < |pool| && last == Freed(now, all[pool[q].next]) && Wf(last, left)
                && Kept(all, last, left)
    ensures var all := CutChains(chain, q);
            && |last| == |pool| && Survives(now, all, last, left)
            && (forall x :: x in all[p] ==> Live(last, x) && last[x] == now[x] && left[x] == all[x])
            && all[p] != [] && all[p][0] == p && left[p] == all[p]
            && (CutTotals(pool, now, all[p], g) && TotOk(pool) ==> (TotOk(last) <==> g == 0 || !Entered(pool, all[p])))
  {
    var all, n := CutChains(chain, q), pool[q].next;
    NoReturn(pool, chain, q);
    FreedSurvives(now, last, all, left, n);
    CutEnds(pool, chain, p, q);
    forall i, j | 0 <= i < j < |all[n]| ensures all[n][i] != all[n][j] { Distinct(now, all, n, i, j); }
    FreedIs(now, all[n]);
    forall x | x in all[p] ensures Live(now, x) && x !in all[n] && last[x] == now[x] {
      Ends(now, all, p, x);
      Apart(now, all, p, q, n, x);
    }
    assert NodeOk(now, all, p);
    if CutTotals(pool, now, all[p], g) && TotOk(pool) {
      RaiseTotals(pool, now, all[p], g);
      if g != 0 && Entered(pool, all[p]) {
        StaysWrong(pool, now, all, last, p, q, n, g);
      }
    }
  }

  /** The totals along c have changed by g, and nothing else. */
  ghost predicate CutTotals(pool: Pool, now: Pool, c: seq<nat>, g: int) {
    && |now| == |pool| && (forall x: nat :: Live(now, x) <==> Live(pool, x))
       && (forall x :: x in c ==> Live(pool, x))
    && (forall x :: 0 <= x < |pool| && x !in c ==> now[x] == pool[x])
    && (forall x :: x in c && x < |pool| ==> now[x].tot == pool[x].tot + g && TotOkAt(now, x))
  }

  lemma {:induction false} CutEnds(pool: Pool, chain: Chains, p: nat, q: nat)
    requires Wf(pool, chain) && p < |pool| && q in chain[p] && q < |pool|
    ensures var c := CutAt(chain[p], q, |chain[q]|);
            c != [] && Last(c) == q && c == chain[p][..|c|] && |c| == |chain[p]| - |chain[q]| + 1
  {
    Ends(pool, chain, p, q);
    assert NodeOk(pool, chain, q);
    assert chain[p][|chain[p]| - |chain[q]|] == chain[p][|chain[p]| - |chain[q]|..][0] == q;
  }

  /** A buffer that leads into the cut chain from outside is still there, and its total is wrong. */
  lemma {:induction false} StaysWrong(pool: Pool, now: Pool, all: Chains, last: Pool, p: nat, q: nat, n: nat, g: int)
    requires Wf(now, all) && p < |now| == |last| && n < |now| && Entered(pool, all[p])
    requires CutTotals(pool, now, all[p], g) && g != 0 && TotOk(pool)
    requires all[p] != [] && Last(all[p]) == q && q !in all[n] && Live(now, q) && now[q].next == 0
    requires forall x :: 0 <= x < |now| && x !in all[n] ==> last[x] == now[x]
    requires forall x :: 0 <= x < |now| && x !in all[p] ==> now[x].next == pool[x].next
    ensures !TotOk(last)
  {
    var x: nat :| Live(pool, x) && x !in all[p] && pool[x].next in all[p];
    var y := pool[x].next;
    Apart(now, all, p, q, n, y);
    Ends(now, all, p, y);
    if x in all[n] {
      var i :| 0 <= i < |all[n]| && all[n][i] == x;
      Suffix(now, all, n, i);
      assert false;
    }
    assert TotOkAt(pool, x) && last[x] == now[x] == pool[x] && last[y] == now[y];
    assert !TotOkAt(last, x);
  }

  // ---------------------------------------------------------------- copying

  lemma {:induction false} CopyStarts(pool: Pool, chain: Chains, to: nat, from: nat)
    requires Wf(pool, chain) && Live(pool, to) && Live(pool, from) && pool[to].tot >= pool[from].tot
    requires TotAlong(pool, chain[to]) && TotAlong(pool, chain[from])
    requires Filled(pool, chain[to]) && Filled(pool, chain[from]) && (forall x :: x in chain[to] ==> x !in chain[from])
    ensures Copying(pool, pool, chain[to], chain[from], Spot(0, 0), Spot(0, 0))
    ensures chain[to] != [] && chain[to][0] == to && chain[from] != [] && chain[from][0] == from
  {
    var ct, cf := chain[to], chain[from];
    assert NodeOk(pool, chain, to) && NodeOk(pool, chain, from);
    Totals(pool, chain, to);
    Totals(pool, chain, from);
    forall a, b | 0 <= a < b < |ct| ensures ct[a] != ct[b] { Distinct(pool, chain, to, a, b); }
    forall x | x in ct ensures x < |pool| { Ends(pool, chain, to, x); }
    forall x | x in cf ensures x < |pool| { Ends(pool, chain, from, x); }
    assert to in ct && from in cf;
  }

  /** Buffer i of a packet of filled buffers: its successor, and that it does not look like a packet queue. */
  ghost predicate OnWay(pool: Pool, c: seq<nat>, i: nat) {
    i < |c| ==>
        0 < c[i] < |pool| && pool[c[i]].next == At0(c, i + 1)
        && (|pool[c[i]].payload| == pool[c[i]].tot ==> pool[c[i]].next == 0)
  }

  /** As long as there is something to read, there is room to write it. */
  lemma {:induction false} CopyReady(pool: Pool, now: Pool, ct: seq<nat>, cf: seq<nat>, w: Spot, r: Spot)
    requires Copying(pool, now, ct, cf, w, r) && r.i < |cf|
    ensures w.i < |ct| && |now| == |pool| && ct[w.i] < |pool| && cf[r.i] < |pool| && ct[w.i] != cf[r.i]
    ensures |now[ct[w.i]].payload| == |pool[ct[w.i]].payload| > w.off && now[cf[r.i]] == pool[cf[r.i]]
    ensures |pool[cf[r.i]].payload| > r.off
  {
    SpotEnd(pool, ct, w);
    SpotEnd(pool, cf, r);
    assert cf[r.i] in cf && ct[w.i] in ct && cf[r.i] !in ct;
  }

  lemma {:induction false} SameLength(pool: Pool, now: Pool, c: seq<nat>, d: seq<nat>)
    requires SameShape(pool, now, c)
    ensures |Bytes(now, d)| == |Bytes(pool, d)|
  {
    if d != [] {
      SameLength(pool, now, c, d[1..]);
    }
  }

  /** The n bytes from a spot on, within its buffer. */
  lemma {:induction false} SpotBytes(pool: Pool, c: seq<nat>, s: Spot, n: nat)
    requires s.i < |c| && c[s.i] < |pool| && s.off + n <= |pool[c[s.i]].payload|
    ensures var pos, b := Position(pool, c, s), Bytes(pool, c);
            pos + n <= |b| && pool[c[s.i]].payload[s.off..s.off + n] == b[pos..pos + n]
  {
    ReadThrough(pool, c, s.i);
    MiddlePart(Bytes(pool, c[..s.i]), pool[c[s.i]].payload, Bytes(pool, c[s.i + 1..]), s.off, n);
  }

  lemma {:induction false} MiddlePart(a: seq<Byte>, x: seq<Byte>, z: seq<Byte>, off: nat, n: nat)
    requires off + n <= |x|
    ensures x[off..off + n] == (a + x + z)[|a| + off..|a| + off + n]
  {
  }

  lemma {:induction false} SpotOn(pool: Pool, c: seq<nat>, s: Spot, n: nat)
    requires SpotIn(pool, c, s) && s.i < |c| && s.off + n <= |pool[c[s.i]].payload| && Filled(pool, c)
             && forall x :: x in c ==> x < |pool|
    ensures SpotIn(pool, c, On(pool, c, s, n)) && Position(pool, c, On(pool, c, s, n)) == Position(pool, c, s) + n
  {
    ReadThrough(pool, c, s.i);
    if s.i + 1 < |c| {
      assert c[s.i + 1] in c;
    }
  }

  /** A spot before the end is inside some buffer; the end is behind the last. */
  lemma {:induction false} SpotEnd(pool: Pool, c: seq<nat>, s: Spot)
    requires SpotIn(pool, c, s) && Filled(pool, c) && forall x :: x in c ==> x < |pool|
    ensures s.i == |c| <==> Position(pool, c, s) == |Bytes(pool, c)|
    ensures Position(pool, c, s) <= |Bytes(pool, c)|
  {
    if s.i == |c| {
      assert c[..s.i] == c;
    } else {
      ReadThrough(pool, c, s.i);
    }
  }

  /** One memcpy of pbuf_copy. */
  lemma {:induction false} CopyPiece(pool: Pool, now: Pool, ct: seq<nat>, cf: seq<nat>, w: Spot, r: Spot, len: nat,
      last: Pool, src: seq<Byte>)
    requires Copying(pool, now, ct, cf, w, r) && w.i < |ct| && r.i < |cf| && |now| == |pool|
    requires w.off + len <= |pool[ct[w.i]].payload| == |now[ct[w.i]].payload|
    requires r.off + len <= |pool[cf[r.i]].payload| && src == pool[cf[r.i]].payload[r.off..r.off + len]
    requires last == now[ct[w.i] := now[ct[w.i]].(payload := Over(now[ct[w.i]].payload, w.off, src))]
    ensures CopiedTo(pool, last, ct, cf, Position(pool, cf, r) + len)
  {
    assert ct[w.i] in ct;
    StillShape(pool, now, last, ct, ct[w.i]);
    SpotBytes(pool, cf, r, len);
    SameLength(pool, now, ct, ct[..w.i]);
    CopyBytes(now, last, ct, w, src, Position(pool, cf, r), Bytes(pool, ct), Bytes(pool, cf));
  }

  lemma {:induction false} CopyBytes(now: Pool, last: Pool, c: seq<nat>, w: Spot, src: seq<Byte>, pos: nat,
      t: seq<Byte>, f: seq<Byte>)
    requires w.i < |c| && c[w.i] < |now| && w.off + |src| <= |now[c[w.i]].payload| && pos == Position(now, c, w)
    requires forall j, k :: 0 <= j < k < |c| ==> c[j] != c[k]
    requires last == now[c[w.i] := now[c[w.i]].(payload := Over(now[c[w.i]].payload, w.off, src))]
    requires pos + |src| <= |f| <= |t| && src == f[pos..pos + |src|] && Bytes(now, c) == f[..pos] + t[pos..]
    ensures Bytes(last, c) == f[..pos + |src|] + t[pos + |src|..]
  {
    PieceBytes(now, c, w, src, pos);
    CopyFlat(t, f, Bytes(now, c), pos, |src|);
  }

  lemma {:induction false} StillShape(pool: Pool, now: Pool, last: Pool, c: seq<nat>, p: nat)
    requires SameShape(pool, now, c) && p in c && p < |now| == |last|
    requires last == now[p := now[p].(payload := last[p].payload)] && |last[p].payload| == |now[p].payload|
    ensures SameShape(pool, last, c)
  {
  }

  lemma {:induction false} PieceBytes(now: Pool, c: seq<nat>, w: Spot, src: seq<Byte>, pos: nat)
    requires w.i < |c| && c[w.i] < |now| && w.off + |src| <= |now[c[w.i]].payload| && pos == Position(now, c, w)
    requires forall j, k :: 0 <= j < k < |c| ==> c[j] != c[k]
    ensures pos + |src| <= |Bytes(now, c)|
    ensures Bytes(now[c[w.i] := now[c[w.i]].(payload := Over(now[c[w.i]].payload, w.off, src))], c) ==
            Over(Bytes(now, c), pos, src)
  {
    WriteThrough(now, c, w.i, w.off, src);
  }

  lemma {:induction false} CopyStep(pool: Pool, now: Pool, last: Pool, ct: seq<nat>, cf: seq<nat>, w: Spot, r: Spot,
      len: nat, src: seq<Byte>)
    requires Copying(pool, now, ct, cf, w, r) && w.i < |ct| && r.i < |cf| && |now| == |pool|
    requires w.off + len <= |pool[ct[w.i]].payload| == |now[ct[w.i]].payload|
    requires r.off + len <= |pool[cf[r.i]].payload| && src == pool[cf[r.i]].payload[r.off..r.off + len]
    requires last == now[ct[w.i] := now[ct[w.i]].(payload := Over(now[ct[w.i]].payload, w.off, src))]
    ensures Copying(pool, last, ct, cf, On(pool, ct, w, len), On(pool, cf, r, len))
  {
    CopyPiece(pool, now, ct, cf, w, r, len, last, src);
    SpotOn(pool, ct, w, len);
    SpotOn(pool, cf, r, len);
  }

  lemma {:induction false} CopyFlat(t: seq<Byte>, f: seq<Byte>, b: seq<Byte>, pos: nat, n: nat)
    requires pos + n <= |f| <= |t| && b == f[..pos] + t[pos..]
    ensures Over(b, pos, f[pos..pos + n]) == f[..pos + n] + t[pos + n..]
  {
  }

  lemma {:induction false} NoQueue(pool: Pool, now: Pool, chain: Chains, c: seq<nat>, h: nat, i: nat)
    requires Wf(pool, chain) && h < |pool| && TotAlong(pool, chain[h])
    requires SameShape(pool, now, c) && Filled(pool, chain[h])
    ensures OnWay(now, chain[h], i)
  {
    if i < |chain[h]| {
      Suffix(pool, chain, h, i);
      var p := chain[h][i];
      assert TotOkAt(pool, p);
      if i + 1 < |chain[h]| {
        Suffix(pool, chain, h, i + 1);
        var q := chain[h][i + 1];
        assert q in chain[h];
        Totals(pool, chain, q);
        BytesNext(pool, chain, q);
      }
    }
  }

  lemma {:induction false} CopyEnds(pool: Pool, now: Pool, held: Held, chain: Chains, to: nat, from: nat, w: Spot,
      r: Spot)
    requires Inv(pool, held, chain) && Live(pool, to) && Live(pool, from)
    requires Copying(pool, now, chain[to], chain[from], w, r) && r.i >= |chain[from]|
    ensures Inv(now, held, chain)
    ensures var f, t := Bytes(pool, chain[from]), Bytes(pool, chain[to]);
            |f| <= |t| && Bytes(now, chain[to]) == f + t[|f|..] && Bytes(now, chain[from]) == f
  {
    forall x | 0 <= x < |now| ensures NodeOk(now, chain, x) && RefOk(now, held, 0, x) {
      assert NodeOk(pool, chain, x) && RefOk(pool, held, 0, x);
      assert Preds(now, x) == Preds(pool, x);
    }
    SameBytes(pool, now, chain[from]);
    assert chain[from][..|chain[from]|] == chain[from];
    var f := Bytes(pool, chain[from]);
    assert f[..|f|] == f;
  }

  // ---------------------------------------------------------------- allocation

  function Zero(n: nat): seq<Byte> {
    seq(n, _ => 0)
  }

  /** Buffers behind the first one that rem bytes need. */
  function Tail(rem: nat, size: nat): nat
    requires size > 0
  {
    if rem <= size then (if rem == 0 then 0 else 1) else 1 + Tail(rem - size, size)
  }

  function Segments(length: nat, size: nat, offset: nat): nat
    requires offset < size
  {
    1 + Tail(if length < size - offset then 0 else length - (size - offset), size)
  }

  ghost function FreeOnes(pool: Pool): set<nat> {
    set x | 0 < x < |pool| && pool[x].ref == 0
  }

  ghost function Spare(pool: Pool): nat {
    |FreeOnes(pool)|
  }

  lemma {:induction false} NoneSpare(pool: Pool)
    requires forall x: nat :: 0 < x < |pool| ==> pool[x].ref > 0
    ensures Spare(pool) == 0
  {
    assert FreeOnes(pool) == {};
  }

  /** The buffers of c are new, with one reference each; nothing else has changed. */
  ghost predicate OnlyNew(pool: Pool, chain: Chains, now: Pool, all: Chains, c: seq<nat>) {
    && |now| == |pool| == |chain| == |all|
    && (forall x :: x in c ==> 0 < x < |pool| && pool[x].ref == 0 && now[x].ref == 1)
    && (forall x :: 0 <= x < |pool| && x !in c ==> now[x] == pool[x] && all[x] == chain[x])
  }

  /** Totals that were right still are, and those of new buffers will be once rem more bytes follow r. */
  ghost predicate TotalsBut(pool: Pool, now: Pool, r: nat, rem: nat) {
    && r < |now| == |pool| && now[r].next == 0 && now[r].tot == |now[r].payload| + rem
    && forall x :: 0 <= x < |now| && x != r && TotOkAt(pool, x) ==> TotOkAt(now, x)
  }

  /** No total has become wrong. */
  ghost predicate TotalsKept(pool: Pool, now: Pool) {
    |now| == |pool| && forall x :: 0 <= x < |pool| && TotOkAt(pool, x) ==> TotOkAt(now, x)
  }

  /** The new chain of p so far: r is its last buffer, and rem bytes are missing. */
  ghost predicate Growing(pool: Pool, chain: Chains, now: Pool, all: Chains, p: nat, r: nat, rem: nat, length: nat) {
    && p < |all| && Live(now, p) && Live(now, r) && r == Last(all[p]) && OnlyNew(pool, chain, now, all, all[p])
       && TotalsBut(pool, now, r, rem)
    && |Bytes(now, all[p])| + rem == length && Spare(now) + |all[p]| == Spare(pool)
  }

  /** When nothing is missing the packet is complete. */
  lemma {:induction false} AllThere(pool: Pool, chain: Chains, now: Pool, all: Chains, p: nat, r: nat, length: nat)
    requires Growing(pool, chain, now, all, p, r, 0, length) && Wf(now, all)
    ensures TotalsKept(pool, now) && |Bytes(now, all[p])| == length && Spare(pool) >= |all[p]| && !Live(pool, p)
    ensures forall x: nat :: Live(pool, x) ==> Live(now, x) && now[x] == pool[x] && all[x] == chain[x]
  {
    assert NodeOk(now, all, p);
    assert p in all[p];
  }

  /** A buffer taken from the pool is a packet of its own, held by the caller. */
  lemma {:induction false} NewBuffer(pool: Pool, held: Held, chain: Chains, p: nat, len: nat, tot: int)
    requires Inv(pool, held, chain) && 0 < p < |pool| && pool[p].ref == 0
    ensures Inv(pool[p := Buf(0, Zero(len), tot, 1)], Raise(held, p), chain[p := [p]])
  {
    var now, more, all := pool[p := Buf(0, Zero(len), tot, 1)], Raise(held, p), chain[p := [p]];
    assert RefOk(pool, held, 0, p) && NodeOk(pool, chain, 0);
    forall x | 0 <= x < |now| ensures NodeOk(now, all, x) && RefOk(now, more, 0, x) {
      assert NodeOk(pool, chain, x) && RefOk(pool, held, 0, x);
      if x == p {
        forall y | 0 < y < |now| && Live(now, y) ensures now[y].next != p { assert NodeOk(pool, chain, y); }
        assert Preds(now, p) == {};
      } else if x != 0 {
        assert Preds(now, x) == Preds(pool, x);
      }
    }
  }

  lemma {:induction false} FirstBuffer(pool: Pool, chain: Chains, p: nat, len: nat, length: nat)
    requires Wf(pool, chain) && 0 < p < |pool| && pool[p].ref == 0 && len <= length
    ensures Growing(pool, chain, pool[p := Buf(0, Zero(len), length, 1)], chain[p := [p]], p, p, length - len, length)
  {
    var now, all := pool[p := Buf(0, Zero(len), length, 1)], chain[p := [p]];
    forall x | 0 <= x < |pool| && x != p && TotOkAt(pool, x) ensures TotOkAt(now, x) {
      assert NodeOk(pool, chain, x);
    }
    assert Bytes(now, [p]) == Zero(len) + Bytes(now, []);
    assert FreeOnes(now) == FreeOnes(pool) - {p};
  }

  /** The next buffer is linked to the last one. */
  lemma {:induction false} LinkNew(now: Pool, held: Held, all: Chains, r: nat, q: nat, len: nat, tot: int)
    requires Inv(now, held, all) && Live(now, r) && now[r].next == 0 && 0 < q < |now| && now[q].ref == 0
    ensures var one := now[q := Buf(0, Zero(len), tot, 1)];
            Inv(one[r := one[r].(next := q)], held, JoinedChains(all[q := [q]], r, q))
  {
    var one, more, a1 := now[q := Buf(0, Zero(len), tot, 1)], Raise(held, q), all[q := [q]];
    NewBuffer(now, held, all, q, len, tot);
    var two := one[r := one[r].(next := q)];
    assert NodeOk(one, a1, r) && NodeOk(one, a1, 0);
    JoinWf(one, two, a1, r, q);
    JoinCounts(one, two, more, r, q);
    assert Lower(more, q) == held;
  }

  lemma {:induction false} StillGrowing(pool: Pool, chain: Chains, now: Pool, all: Chains, p: nat, r: nat, q: nat,
      len: nat, rem: nat, length: nat)
    requires Growing(pool, chain, now, all, p, r, rem, length) && Wf(pool, chain) && Wf(now, all) && 0 < q < |now|
    requires now[q].ref == 0 && len <= rem
    ensures var one := now[q := Buf(0, Zero(len), rem, 1)];
            Growing(pool, chain, one[r := one[r].(next := q)], JoinedChains(all[q := [q]], r, q), p, q, rem - len,
                length)
  {
    var one, a1 := now[q := Buf(0, Zero(len), rem, 1)], all[q := [q]];
    var two, a2 := one[r := one[r].(next := q)], JoinedChains(a1, r, q);
    assert q !in all[p];
    LastIs(now, all, p);
    assert a2[p] == all[p] + [q];
    StillTotals(pool, now, all, two, r, q, len, rem);
    StillNew(pool, chain, now, all, two, a2, p, r, q);
    SameBytes(now, two, all[p]);
    BytesJoin(two, all[p], [q]);
    assert Bytes(two, [q]) == Zero(len) + Bytes(two, []);
    assert FreeOnes(two) == FreeOnes(now) - {q};
  }

  lemma {:induction false} StillTotals(pool: Pool, now: Pool, all: Chains, two: Pool, r: nat, q: nat, len: nat,
      rem: nat)
    requires Wf(now, all) && TotalsBut(pool, now, r, rem) && Live(now, r) && 0 < q < |now| && now[q].ref == 0
    requires len <= rem
    requires var one := now[q := Buf(0, Zero(len), rem, 1)]; two == one[r := one[r].(next := q)]
    ensures TotalsBut(pool, two, q, rem - len)
  {
    forall x | 0 <= x < |two| && x != q && TotOkAt(pool, x) ensures TotOkAt(two, x) {
      assert NodeOk(now, all, x) && (x != r ==> TotOkAt(now, x));
    }
  }

  lemma {:induction false} StillNew(pool: Pool, chain: Chains, now: Pool, all: Chains, two: Pool, a2: Chains, p: nat,
      r: nat, q: nat)
    requires p < |all| && Wf(pool, chain) && OnlyNew(pool, chain, now, all, all[p]) && 0 < q < |now| && now[q].ref == 0
    requires r in all[p]
    requires |two| == |now| && two[q].ref == 1 && two[r].ref == now[r].ref
    requires (forall x :: 0 <= x < |now| && x != q && x != r ==> two[x] == now[x])
    requires a2 == JoinedChains(all[q := [q]], r, q)
    ensures OnlyNew(pool, chain, two, a2, all[p] + [q])
  {
    forall x | 0 <= x < |pool| && x !in all[p] + [q] ensures two[x] == pool[x] && a2[x] == chain[x] {
      assert x !in all[p] && x != q;
      assert r !in chain[x] by {
        if r in chain[x] { Ends(pool, chain, x, r); }
      }
    }
  }

  /** Freeing the unfinished chain leaves the pool as it was. */
  lemma {:induction false} Abandoned(pool: Pool, chain: Chains, now: Pool, all: Chains, last: Pool, left: Chains,
      p: nat, r: nat, rem: nat, length: nat)
    requires Growing(pool, chain, now, all, p, r, rem, length) && Wf(now, all) && Wf(pool, chain)
    requires last == Freed(now, all[p]) && Kept(all, last, left) && (forall x: nat :: 0 < x < |now| ==> now[x].ref > 0)
    ensures |last| == |pool| && TotalsKept(pool, last) && Spare(pool) == |all[p]|
    ensures forall x: nat :: Live(last, x) <==> Live(pool, x)
    ensures forall x: nat :: Live(pool, x) ==> last[x] == pool[x] && left[x] == chain[x]
  {
    var c := all[p];
    forall i, j | 0 <= i < j < |c| ensures c[i] != c[j] { Distinct(now, all, p, i, j); }
    FreedIs(now, c);
    AllHit(now, c);
    NoneSpare(now);
    forall x | 0 <= x < |pool| ensures Live(last, x) <==> Live(pool, x) {
    }
    forall x | 0 <= x < |pool| && TotOkAt(pool, x) ensures TotOkAt(last, x) {
      assert NodeOk(pool, chain, x);
    }
  }

  lemma {:induction false} AllHit(pool: Pool, c: seq<nat>)
    requires forall x :: x in c ==> Live(pool, x) && pool[x].ref == 1
    ensures Hit(pool, c) == c
  {
    if c != [] {
      assert c[0] in c;
      AllHit(pool, c[1..]);
    }
  }
}
