/**
  Packet buffers as values: the buffers of the pool by number, the references from outside to
  each, and the chain that starts at each. Number 0 is NULL; a buffer nobody refers to is free.
 */
module PbufState {
  import opened Base

  /** len is the length of the payload. */
  datatype Buf = Buf(next: nat, payload: seq<Byte>, tot: int, ref: nat)

  type Pool = seq<Buf>
  type Held = seq<nat>
  type Chains = seq<seq<nat>>

  predicate Live(pool: Pool, p: nat) {
    0 < p < |pool| && pool[p].ref > 0
  }

  function At(chain: Chains, p: nat): seq<nat> {
    if p < |chain| then chain[p] else []
  }

  ghost predicate NodeOk(pool: Pool, chain: Chains, p: nat)
    requires p < |pool| == |chain|
  {
    if Live(pool, p)
    then (pool[p].next == 0 || Live(pool, pool[p].next)) && chain[p] == [p] + At(chain, pool[p].next)
    else chain[p] == []
  }

  /** Links lead from live buffers to live buffers, and never round in a circle. */
  ghost predicate Wf(pool: Pool, chain: Chains) {
    |chain| == |pool| && forall p :: 0 <= p < |pool| ==> NodeOk(pool, chain, p)
  }

  ghost function Preds(pool: Pool, p: nat): set<nat> {
    set q | 0 < q < |pool| && Live(pool, q) && pool[q].next == p
  }

  /** ref counts outside holders and links; one more for owed, which is about to lose one. */
  ghost predicate RefOk(pool: Pool, held: Held, owed: nat, p: nat)
    requires p < |pool| == |held|
  {
    if Live(pool, p) then pool[p].ref == held[p] + |Preds(pool, p)| + (if p == owed then 1 else 0) else held[p] == 0
  }

  ghost predicate Counted(pool: Pool, held: Held, owed: nat) {
    |held| == |pool| && forall p :: 0 <= p < |pool| ==> RefOk(pool, held, owed, p)
  }

  ghost predicate Inv(pool: Pool, held: Held, chain: Chains) {
    Wf(pool, chain) && Counted(pool, held, 0)
  }

  function Tot(pool: Pool, p: nat): int {
    if Live(pool, p) then pool[p].tot else 0
  }

  predicate TotOkAt(pool: Pool, p: nat)
    requires p < |pool|
  {
    Live(pool, p) ==> pool[p].tot == |pool[p].payload| + Tot(pool, pool[p].next)
  }

  /** tot_len == len + next->tot_len */
  predicate TotOk(pool: Pool) {
    forall p :: 0 <= p < |pool| ==> TotOkAt(pool, p)
  }

  /** The totals of the buffers of c are right. */
  predicate TotAlong(pool: Pool, c: seq<nat>) {
    forall i :: 0 <= i < |c| ==> c[i] < |pool| && TotOkAt(pool, c[i])
  }

  /** Two packets that share no buffer. */
  ghost predicate Disjoint(c: seq<nat>, d: seq<nat>) {
    forall y :: y in c ==> y !in d
  }

  /** The bytes of the packet whose buffers are c. */
  function Bytes(pool: Pool, c: seq<nat>): seq<Byte> {
    if c == [] then [] else (if c[0] < |pool| then pool[c[0]].payload else []) + Bytes(pool, c[1..])
  }

  // ---------------------------------------------------------------- chains

  /** The rest of a chain is the chain of its first buffer. */
  lemma {:induction false} Suffix(pool: Pool, chain: Chains, p: nat, i: nat)
    requires Wf(pool, chain) && p < |pool| && i < |chain[p]|
    ensures Live(pool, chain[p][i]) && chain[chain[p][i]] == chain[p][i..]
    ensures pool[chain[p][i]].next == if i + 1 < |chain[p]| then chain[p][i + 1] else 0
    decreases i
  {
    var q := pool[p].next;
    assert NodeOk(pool, chain, p) && NodeOk(pool, chain, 0);
    var d := At(chain, q);
    assert chain[p] == [p] + d;
    if i == 0 {
      assert q != 0 ==> NodeOk(pool, chain, q);
      assert chain[p][0..] == chain[p];
    } else {
      ConsDrop(p, d, i);
      Suffix(pool, chain, q, i - 1);
    }
  }

  lemma {:induction false} ConsDrop(x: nat, d: seq<nat>, i: nat)
    requires 0 < i <= |d|
    ensures ([x] + d)[i] == d[i - 1] && ([x] + d)[i..] == d[i - 1..]
  {
  }

  lemma {:induction false} Distinct(pool: Pool, chain: Chains, p: nat, i: nat, j: nat)
    requires Wf(pool, chain) && p < |pool| && i < j < |chain[p]|
    ensures chain[p][i] != chain[p][j]
  {
    Suffix(pool, chain, p, i);
    Suffix(pool, chain, p, j);
  }

  /** Everything on a chain starts the rest of the chain. */
  lemma {:induction false} Ends(pool: Pool, chain: Chains, p: nat, q: nat)
    requires Wf(pool, chain) && p < |pool| && q in chain[p]
    ensures Live(pool, q) && 0 < |chain[q]| <= |chain[p]| && chain[q] == chain[p][|chain[p]| - |chain[q]|..]
  {
    var i :| 0 <= i < |chain[p]| && chain[p][i] == q;
    Suffix(pool, chain, p, i);
  }

  /** The total of a buffer is the number of bytes from it on. */
  lemma {:induction false} Totals(pool: Pool, chain: Chains, p: nat)
    requires Wf(pool, chain) && Live(pool, p) && TotAlong(pool, chain[p])
    ensures pool[p].tot == |Bytes(pool, chain[p])|
    decreases |chain[p]|
  {
    assert NodeOk(pool, chain, p) && chain[p][0] == p && TotOkAt(pool, p);
    var q := pool[p].next;
    assert chain[p][1..] == At(chain, q);
    if q != 0 {
      AlongRest(pool, p, chain[q]);
      Totals(pool, chain, q);
    } else {
      assert NodeOk(pool, chain, 0);
    }
  }

  lemma {:induction false} AlongRest(pool: Pool, p: nat, d: seq<nat>)
    requires TotAlong(pool, [p] + d)
    ensures TotAlong(pool, d)
  {
    forall i | 0 <= i < |d| ensures d[i] < |pool| && TotOkAt(pool, d[i]) {
      assert ([p] + d)[i + 1] == d[i];
    }
  }

  lemma {:induction false} SameBytes(pool: Pool, now: Pool, c: seq<nat>)
    requires |now| == |pool| && forall x :: x in c && x < |pool| ==> now[x].payload == pool[x].payload
    ensures Bytes(now, c) == Bytes(pool, c)
  {
    if c != [] {
      SameBytes(pool, now, c[1..]);
    }
  }

  lemma {:induction false} BytesJoin(pool: Pool, c: seq<nat>, d: seq<nat>)
    ensures Bytes(pool, c + d) == Bytes(pool, c) + Bytes(pool, d)
  {
    if c == [] {
      assert c + d == d;
    } else {
      assert (c + d)[1..] == c[1..] + d;
      BytesJoin(pool, c[1..], d);
    }
  }

  // ---------------------------------------------------------------- letting go

  function Less(pool: Pool, p: nat): Pool
    requires Live(pool, p)
  {
    pool[p := pool[p].(ref := pool[p].ref - 1)]
  }

  /** pool after one reference to the first buffer of c is dropped. */
  function Freed(pool: Pool, c: seq<nat>): Pool
    decreases |c|
  {
    if c == [] || !Live(pool, c[0]) then pool
    else if pool[c[0]].ref > 1 then Less(pool, c[0])
    else Freed(Less(pool, c[0]), c[1..])
  }

  /** The buffers at the start of c that have a single reference. */
  function Lead(pool: Pool, c: seq<nat>): (l: seq<nat>)
    ensures l <= c
    ensures forall i :: 0 <= i < |l| ==> Live(pool, l[i]) && pool[l[i]].ref == 1
    ensures |l| < |c| && Live(pool, c[|l|]) ==> pool[c[|l|]].ref > 1
  {
    if c == [] || !Live(pool, c[0]) || pool[c[0]].ref > 1 then [] else [c[0]] + Lead(pool, c[1..])
  }

  /** The leading run and the buffer after it. */
  function Hit(pool: Pool, c: seq<nat>): (r: seq<nat>)
    ensures forall x :: x in r ==> x in c
  {
    if c == [] || !Live(pool, c[0]) then [] else [c[0]] + if pool[c[0]].ref > 1 then [] else Hit(pool, c[1..])
  }

  /** The run itself, and the buffer after it if there is one. */
  lemma {:induction false} HitIs(pool: Pool, c: seq<nat>)
    ensures Hit(pool, c) <= c
    ensures var n := |Lead(pool, c)|; |Hit(pool, c)| == if n < |c| && Live(pool, c[n]) then n + 1 else n
  {
    if c != [] && Live(pool, c[0]) && pool[c[0]].ref == 1 {
      var d := c[1..];
      HitIs(pool, d);
      ConsPrefix(c[0], Hit(pool, d), d);
      assert c == [c[0]] + d;
      var n := |Lead(pool, d)|;
      assert |Lead(pool, c)| == n + 1 && (n < |d| ==> d[n] == c[n + 1]);
    }
  }

  lemma {:induction false} ConsPrefix(x: nat, h: seq<nat>, d: seq<nat>)
    requires h <= d
    ensures [x] + h <= [x] + d
  {
  }

  /** Exactly the leading run of single-reference buffers goes, and the next one loses one reference. */
  lemma {:induction false} FreedIs(pool: Pool, c: seq<nat>)
    requires forall i, j :: 0 <= i < j < |c| ==> c[i] != c[j]
    ensures |Freed(pool, c)| == |pool|
    ensures forall x :: 0 <= x < |pool| ==> Freed(pool, c)[x] == Dropped(pool, Hit(pool, c), x)
    decreases |c|
  {
    if c != [] && Live(pool, c[0]) && pool[c[0]].ref == 1 {
      var rest, d := Less(pool, c[0]), c[1..];
      FreedIs(rest, d);
      assert forall x :: x in d ==> x != c[0];
      HitSame(pool, rest, d);
    }
  }

  function Dropped(pool: Pool, hit: seq<nat>, x: nat): Buf
    requires x < |pool|
  {
    if x in hit && pool[x].ref > 0 then pool[x].(ref := pool[x].ref - 1) else pool[x]
  }

  lemma {:induction false} HitSame(pool: Pool, now: Pool, c: seq<nat>)
    requires |now| == |pool| && forall x :: x in c && x < |pool| ==> now[x] == pool[x]
    ensures Hit(now, c) == Hit(pool, c)
  {
    if c != [] {
      HitSame(pool, now, c[1..]);
    }
  }

  lemma {:induction false} LeadSame(pool: Pool, now: Pool, c: seq<nat>)
    requires |now| == |pool| && forall x :: x in c && x < |pool| ==> now[x] == pool[x]
    ensures Lead(now, c) == Lead(pool, c)
  {
    if c != [] {
      LeadSame(pool, now, c[1..]);
    }
  }

  /** One round of pbuf_free that deallocates p; its successor is now the one to lose a reference. */
  lemma {:induction false} DropNode(pool: Pool, held: Held, chain: Chains, p: nat)
    requires Wf(pool, chain) && Counted(pool, held, p) && Live(pool, p) && pool[p].ref == 1
    ensures Wf(Less(pool, p), chain[p := []]) && Counted(Less(pool, p), held, pool[p].next)
    ensures pool[p].next == 0 || Live(Less(pool, p), pool[p].next)
  {
    var now, q := Less(pool, p), pool[p].next;
    assert RefOk(pool, held, p, p) && Preds(pool, p) == {};
    assert NodeOk(pool, chain, p);
    assert q == p ==> p in Preds(pool, p);
    var left := chain[p := []];
    forall x | 0 <= x < |now| ensures NodeOk(now, left, x) {
      assert NodeOk(pool, chain, x) && x !in Preds(pool, p);
    }
    forall x | 0 <= x < |now| ensures RefOk(now, held, q, x) {
      assert RefOk(pool, held, p, x);
      if x == q {
        assert q != 0 ==> p in Preds(pool, x) && Preds(now, x) == Preds(pool, x) - {p};
      } else {
        assert Preds(now, x) == Preds(pool, x);
      }
    }
  }

  lemma {:induction false} DropRef(pool: Pool, held: Held, chain: Chains, p: nat)
    requires Wf(pool, chain) && Counted(pool, held, p) && Live(pool, p) && pool[p].ref > 1
    ensures Wf(Less(pool, p), chain) && Counted(Less(pool, p), held, 0)
  {
    var now := Less(pool, p);
    forall x | 0 <= x < |now| ensures NodeOk(now, chain, x) {
      assert NodeOk(pool, chain, x);
    }
    forall x | 0 <= x < |now| ensures RefOk(now, held, 0, x) {
      assert RefOk(pool, held, p, x);
      assert Preds(now, x) == Preds(pool, x);
    }
  }

  /** What a holder can reach is alive. */
  lemma {:induction false} Reachable(pool: Pool, held: Held, chain: Chains, p: nat, q: nat)
    requires Inv(pool, held, chain) && p < |pool| && held[p] > 0 && q in chain[p]
    ensures Live(pool, p) && Live(pool, q)
  {
    assert RefOk(pool, held, 0, p);
    Ends(pool, chain, p, q);
  }

  /** A chain has no more buffers than there are. */
  lemma {:induction false} ChainFits(pool: Pool, chain: Chains, p: nat)
    requires Wf(pool, chain) && p < |pool|
    ensures |chain[p]| <= |pool|
  {
    var c := chain[p];
    forall i, j | 0 <= i < j < |c| ensures c[i] != c[j] {
      Distinct(pool, chain, p, i, j);
    }
    forall i | 0 <= i < |c| ensures 0 <= c[i] < |pool| {
      Suffix(pool, chain, p, i);
    }
    Pigeons(c, |pool|);
  }

  lemma {:induction false} Pigeons(c: seq<nat>, n: nat)
    requires forall i, j :: 0 <= i < j < |c| ==> c[i] != c[j]
    requires forall i :: 0 <= i < |c| ==> c[i] < n
    ensures |c| <= n
    decreases n
  {
    if c != [] {
      assert c[0] < n;
      if k :| 0 <= k < |c| && c[k] == n - 1 {
        var d := c[..k] + c[k + 1..];
        forall i, j | 0 <= i < j < |d| ensures d[i] != d[j] && d[i] < n - 1 && d[j] < n - 1 {
        }
        assert forall i :: 0 <= i < |d| ==> d[i] < n - 1;
        Pigeons(d, n - 1);
      } else {
        Pigeons(c, n - 1);
      }
    }
  }

  /** No leaks: every live buffer is on the chain of some holder. */
  lemma {:induction false} Holder(pool: Pool, held: Held, chain: Chains, p: nat) returns (h: nat)
    requires Inv(pool, held, chain) && Live(pool, p)
    ensures h < |pool| && held[h] > 0 && p in chain[h]
    decreases |pool| - |chain[p]|
  {
    assert NodeOk(pool, chain, p);
    if held[p] > 0 {
      h := p;
    } else {
      assert RefOk(pool, held, 0, p);
      assert Preds(pool, p) != {};
      var q :| q in Preds(pool, p);
      assert NodeOk(pool, chain, q);
      ChainFits(pool, chain, q);
      h := Holder(pool, held, chain, q);
      Ends(pool, chain, h, q);
      assert p == chain[q][1];
    }
  }

  /** Once all holders have let go, nothing is left. */
  lemma {:induction false} AllGone(pool: Pool, held: Held, chain: Chains, p: nat)
    requires Inv(pool, held, chain) && forall x :: 0 <= x < |held| ==> held[x] == 0
    ensures !Live(pool, p)
  {
    if Live(pool, p) {
      var h := Holder(pool, held, chain, p);
      assert false;
    }
  }

  // ---------------------------------------------------------------- joining chains

  /** now is pool with the totals of the buffers of c raised by n. */
  ghost predicate IsRaised(pool: Pool, now: Pool, c: seq<nat>, n: int) {
    && |now| == |pool|
    && forall x :: 0 <= x < |pool| ==> now[x] == if x in c then pool[x].(tot := pool[x].tot + n) else pool[x]
  }

  /** The totals of the buffers of c raised by n. */
  function Raised(pool: Pool, c: seq<nat>, n: int): (now: Pool)
    ensures |now| == |pool|
    ensures forall x :: 0 <= x < |pool| ==> now[x] == if x in c then pool[x].(tot := pool[x].tot + n) else pool[x]
  {
    if pool == [] then []
    else
      var k := |pool| - 1;
      Raised(pool[..k], c, n) + [if k in c then pool[k].(tot := pool[k].tot + n) else pool[k]]
  }

  function Last(c: seq<nat>): nat {
    if c == [] then 0 else c[|c| - 1]
  }

  /** pbuf_ref. */
  function OneMore(pool: Pool, p: nat): Pool
    requires p < |pool|
  {
    pool[p := pool[p].(ref := pool[p].ref + 1)]
  }

  /** pbuf_cat: c is the head chain, which ends in p. */
  function Joined(pool: Pool, c: seq<nat>, p: nat, t: nat): Pool
    requires p < |pool| && t < |pool|
  {
    var now := Raised(pool, c, pool[t].tot);
    now[p := now[p].(next := t)]
  }

  /** A chain that goes through p goes on with d. */
  function JoinAt(c: seq<nat>, p: nat, d: seq<nat>): seq<nat> {
    if p in c then c + d else c
  }

  lemma {:induction false} JoinCons(x: nat, c: seq<nat>, p: nat, d: seq<nat>)
    requires x != p
    ensures JoinAt([x] + c, p, d) == [x] + JoinAt(c, p, d)
  {
    assert p in [x] + c <==> p in c;
    assert ([x] + c) + d == [x] + (c + d);
  }

  function JoinAll(chain: Chains, p: nat, d: seq<nat>): (all: Chains)
    ensures |all| == |chain| && forall x :: 0 <= x < |chain| ==> all[x] == JoinAt(chain[x], p, d)
  {
    if chain == [] then [] else JoinAll(chain[..|chain| - 1], p, d) + [JoinAt(chain[|chain| - 1], p, d)]
  }

  function JoinedChains(chain: Chains, p: nat, t: nat): (all: Chains)
    requires t < |chain|
    ensures |all| == |chain| && forall x :: 0 <= x < |chain| ==> all[x] == JoinAt(chain[x], p, chain[t])
  {
    JoinAll(chain, p, chain[t])
  }

  /** Joining h and t does not close a circle. */
  ghost predicate Joinable(pool: Pool, chain: Chains, h: nat, t: nat) {
    Live(pool, h) && Live(pool, t) && |chain| == |pool| && Last(chain[h]) !in chain[t]
  }

  lemma {:induction false} LastIs(pool: Pool, chain: Chains, h: nat)
    requires Wf(pool, chain) && Live(pool, h)
    ensures var p := Last(chain[h]);
            Live(pool, p) && p in chain[h] && pool[p].next == 0 && chain[p] == [p]
  {
    assert NodeOk(pool, chain, h);
    Suffix(pool, chain, h, |chain[h]| - 1);
  }

  /** Only the link of p differs, apart from totals and payloads. */
  ghost predicate Relinked(pool: Pool, now: Pool, p: nat, t: nat) {
    |now| == |pool| && forall x :: 0 <= x < |pool| ==>
        now[x].ref == pool[x].ref && now[x].next == if x == p then t else pool[x].next
  }

  /** Of totals and payloads, only the totals along c differ. */
  ghost predicate RaisedBy(pool: Pool, now: Pool, c: seq<nat>, n: int) {
    && |now| == |pool|
    && forall x :: 0 <= x < |pool| ==>
       now[x].payload == pool[x].payload && now[x].tot == pool[x].tot + if x in c then n else 0
  }

  lemma {:induction false} JoinedIs(pool: Pool, c: seq<nat>, p: nat, t: nat)
    requires p < |pool| && t < |pool|
    ensures Relinked(pool, Joined(pool, c, p, t), p, t) && RaisedBy(pool, Joined(pool, c, p, t), c, pool[t].tot)
  {
    var now := Joined(pool, c, p, t);
    forall x | 0 <= x < |pool| ensures JoinedBuf(pool[x], now[x], if x == p then t else pool[x].next, if x in c
        then pool[t].tot else 0) {
    }
  }

  predicate JoinedBuf(x: Buf, y: Buf, next: nat, more: int) {
    y == x.(next := next, tot := x.tot + more)
  }

  lemma {:induction false} JoinWf(pool: Pool, now: Pool, chain: Chains, p: nat, t: nat)
    requires Wf(pool, chain) && Live(pool, p) && Live(pool, t) && chain[p] == [p] && p !in chain[t] && pool[p].next == 0
    requires Relinked(pool, now, p, t)
    ensures Wf(now, JoinedChains(chain, p, t))
  {
    forall x | 0 <= x < |now| ensures NodeOk(now, JoinedChains(chain, p, t), x) {
      assert NodeOk(pool, chain, x);
      if Live(pool, x) { JoinNode(pool, chain, p, t, x); }
    }
  }

  lemma {:induction false} JoinNode(pool: Pool, chain: Chains, p: nat, t: nat, x: nat)
    requires Wf(pool, chain) && Live(pool, t) && Live(pool, x) && Live(pool, p)
    requires chain[p] == [p] && p !in chain[t] && pool[p].next == 0
    ensures var q := if x == p then t else pool[x].next;
            q < |pool| && JoinedChains(chain, p, t)[x] == [x] + JoinedChains(chain, p, t)[q]
  {
    var all, q := JoinedChains(chain, p, t), pool[x].next;
    assert NodeOk(pool, chain, x) && NodeOk(pool, chain, 0);
    if x == p {
      assert all[p] == [p] + chain[t] && all[t] == chain[t];
    } else {
      JoinCons(x, chain[q], p, chain[t]);
    }
  }

  lemma {:induction false} JoinCounts(pool: Pool, now: Pool, held: Held, p: nat, t: nat)
    requires Counted(pool, held, 0) && Live(pool, p) && Live(pool, t) && held[t] > 0 && pool[p].next == 0
    requires Relinked(pool, now, p, t)
    ensures Counted(now, held[t := held[t] - 1], 0)
  {
    var fewer: Held := held[t := held[t] - 1];
    forall x | 0 <= x < |now| ensures RefOk(now, fewer, 0, x) {
      assert RefOk(pool, held, 0, x);
      if x == t {
        assert Preds(now, x) == Preds(pool, x) + {p};
      } else if x != 0 {
        assert Preds(now, x) == Preds(pool, x);
      }
    }
  }

  /** The packet is the concatenation of the two. */
  lemma {:induction false} JoinBytes(pool: Pool, now: Pool, chain: Chains, h: nat, p: nat, t: nat)
    requires |chain| == |pool| && h < |pool| && t < |pool| && p in chain[h]
    requires RaisedBy(pool, now, chain[h], pool[t].tot)
    ensures Bytes(now, JoinedChains(chain, p, t)[h]) == Bytes(pool, chain[h]) + Bytes(pool, chain[t])
  {
    SameBytes(pool, now, chain[h] + chain[t]);
    BytesJoin(pool, chain[h], chain[t]);
  }

  /** Some live buffer outside c links into c. */
  ghost predicate Entered(pool: Pool, c: seq<nat>) {
    exists x: nat :: Live(pool, x) && x !in c && pool[x].next in c
  }

  /** Changing the totals along c by n and nowhere else is right exactly if nothing links into c from outside. */
  lemma {:induction false} RaiseTotals(pool: Pool, now: Pool, c: seq<nat>, n: int)
    requires TotOk(pool) && |now| == |pool| && (forall x: nat :: Live(now, x) <==> Live(pool, x))
    requires (forall x :: x in c ==> Live(pool, x))
    requires forall x :: 0 <= x < |pool| && x !in c ==> now[x] == pool[x]
    requires forall x :: x in c && x < |pool| ==> now[x].tot == pool[x].tot + n && TotOkAt(now, x)
    ensures TotOk(now) <==> n == 0 || !Entered(pool, c)
  {
    if n != 0 && Entered(pool, c) {
      var x: nat :| Live(pool, x) && x !in c && pool[x].next in c;
      assert TotOkAt(pool, x) && !TotOkAt(now, x);
    } else {
      forall x | 0 <= x < |now| ensures TotOkAt(now, x) {
        assert TotOkAt(pool, x);
      }
    }
  }

  /** All totals are right afterwards exactly if no other chain leads into the head chain, or nothing was added. */
  lemma {:induction false} JoinTotals(pool: Pool, chain: Chains, h: nat, t: nat)
    requires Wf(pool, chain) && Joinable(pool, chain, h, t) && TotOk(pool)
    ensures Live(pool, Last(chain[h]))
    ensures TotOk(Joined(pool, chain[h], Last(chain[h]), t)) <==> pool[t].tot == 0 || !Entered(pool, chain[h])
  {
    LastIs(pool, chain, h);
    var c, p := chain[h], Last(chain[h]);
    var now := Joined(pool, c, p, t);
    assert t !in c by {
      if t in c { Ends(pool, chain, h, t); }
    }
    JoinedIs(pool, c, p, t);
    forall x | x in c ensures Live(pool, x) && now[x].tot == pool[x].tot + pool[t].tot && TotOkAt(now, x) {
      var i :| 0 <= i < |c| && c[i] == x;
      JoinTotalAt(pool, now, chain, h, t, i);
    }
    RaiseTotals(pool, now, c, pool[t].tot);
  }

  lemma {:induction false} JoinTotalAt(pool: Pool, now: Pool, chain: Chains, h: nat, t: nat, i: nat)
    requires Wf(pool, chain) && Joinable(pool, chain, h, t) && TotOk(pool) && i < |chain[h]| && t !in chain[h]
    requires Relinked(pool, now, Last(chain[h]), t) && RaisedBy(pool, now, chain[h], pool[t].tot)
    ensures Live(pool, chain[h][i]) && TotOkAt(now, chain[h][i])
  {
    var x := chain[h][i];
    Suffix(pool, chain, h, i);
    assert TotOkAt(pool, x);
    if i + 1 < |chain[h]| {
      Distinct(pool, chain, h, i, |chain[h]| - 1);
      Suffix(pool, chain, h, i + 1);
      assert pool[x].next in chain[h];
    }
  }

  // ---------------------------------------------------------------- cutting a chain

  /** c up to and including its buffer q, whose own chain has n buffers. */
  function CutAt(c: seq<nat>, q: nat, n: nat): seq<nat> {
    if q in c && 1 <= n <= |c| then c[..|c| - n + 1] else c
  }

  function CutAll(chain: Chains, q: nat, n: nat): (all: Chains)
    ensures |all| == |chain| && forall x :: 0 <= x < |chain| ==> all[x] == CutAt(chain[x], q, n)
  {
    if chain == [] then [] else CutAll(chain[..|chain| - 1], q, n) + [CutAt(chain[|chain| - 1], q, n)]
  }

  function CutChains(chain: Chains, q: nat): (all: Chains)
    requires q < |chain|
    ensures |all| == |chain| && forall x :: 0 <= x < |chain| ==> all[x] == CutAt(chain[x], q, |chain[q]|)
  {
    CutAll(chain, q, |chain[q]|)
  }

  lemma {:induction false} CutWf(pool: Pool, now: Pool, chain: Chains, q: nat)
    requires Wf(pool, chain) && Live(pool, q) && Relinked(pool, now, q, 0)
    ensures Wf(now, CutChains(chain, q)) && CutChains(chain, q)[q] == [q]
  {
    forall x | 0 <= x < |now| ensures NodeOk(now, CutChains(chain, q), x) {
      assert NodeOk(pool, chain, x) && NodeOk(pool, chain, 0);
      if Live(pool, x) { CutNode(pool, chain, q, x); }
    }
    CutNode(pool, chain, q, q);
  }

  lemma {:induction false} CutNode(pool: Pool, chain: Chains, q: nat, x: nat)
    requires Wf(pool, chain) && Live(pool, q) && Live(pool, x)
    ensures pool[x].next < |pool| && CutChains(chain, q)[x] == [x] + if x == q then []
            else CutChains(chain, q)[pool[x].next]
  {
    var all, y := CutChains(chain, q), pool[x].next;
    assert NodeOk(pool, chain, x) && NodeOk(pool, chain, q);
    if x == q {
      assert q in chain[q] && all[q] == chain[q][..1];
    } else {
      assert q in chain[y] ==> |chain[q]| <= |chain[y]| by {
        if q in chain[y] { Ends(pool, chain, y, q); }
      }
      CutCons(x, chain[y], q, |chain[q]|);
    }
  }

  lemma {:induction false} CutCons(x: nat, d: seq<nat>, q: nat, n: nat)
    requires x != q && n >= 1 && (q in d ==> n <= |d|)
    ensures CutAt([x] + d, q, n) == [x] + CutAt(d, q, n)
  {
    assert q in [x] + d <==> q in d;
    if q in d {
      assert ([x] + d)[..1 + |d| - n + 1] == [x] + d[..|d| - n + 1];
    }
  }

  /** The tail of the cut has lost the link from q. */
  lemma {:induction false} CutCounts(pool: Pool, now: Pool, held: Held, q: nat)
    requires Counted(pool, held, 0) && Live(pool, q) && Relinked(pool, now, q, 0)
    ensures Counted(now, held, pool[q].next)
  {
    var n := pool[q].next;
    forall x | 0 <= x < |now| ensures RefOk(now, held, n, x) {
      assert RefOk(pool, held, 0, x);
      if x == n {
        assert q in Preds(pool, x) && (x != 0 ==> Preds(now, x) == Preds(pool, x) - {q});
      } else if x != 0 {
        assert Preds(now, x) == Preds(pool, x);
      }
    }
  }

  /** What comes after q does not lead back to q. */
  lemma {:induction false} NoReturn(pool: Pool, chain: Chains, q: nat)
    requires Wf(pool, chain) && Live(pool, q) && pool[q].next != 0
    ensures Live(pool, pool[q].next) && q !in chain[pool[q].next]
    ensures CutChains(chain, q)[pool[q].next] == chain[pool[q].next]
  {
    var n := pool[q].next;
    assert NodeOk(pool, chain, q);
    if q in chain[n] {
      Ends(pool, chain, n, q);
      assert false;
    }
  }

  /** The buffers of c up to the one in which its first n bytes end. */
  function Prefix(pool: Pool, c: seq<nat>, n: nat): seq<nat> {
    if c == [] then []
    else
      var len := if c[0] < |pool| then |pool[c[0]].payload| else 0;
      [c[0]] + if n <= len then [] else Prefix(pool, c[1..], n - len)
  }

  lemma {:induction false} PrefixIs(pool: Pool, c: seq<nat>, i: nat, rem: nat)
    requires i < |c| && c[i] < |pool| && rem <= |pool[c[i]].payload| && (rem > 0 || i == 0)
    ensures Prefix(pool, c, |Bytes(pool, c[..i])| + rem) == c[..i + 1]
  {
    if i > 0 {
      PrefixIs(pool, c[1..], i - 1, rem);
      assert c[1..][..i - 1] == c[1..i] == c[..i][1..];
      assert c[1..][..i] == c[1..i + 1];
      assert c[..i + 1] == [c[0]] + c[1..i + 1];
    } else {
      assert c[..1] == [c[0]];
    }
  }

  /** A packet cut to n bytes, d the buffers of it that stay, its tail not released yet. */
  function Trimmed(pool: Pool, d: seq<nat>, n: nat): Pool {
    if d == [] || d[0] >= |pool| || Last(d) >= |pool| then pool
    else
      var q, rem := Last(d), n - |Bytes(pool, d[..|d| - 1])|;
      if !(0 <= rem <= |pool[q].payload|) then pool
      else
        var b := pool[q].(payload := pool[q].payload[..rem], tot := rem, next := 0);
        Raised(pool, d[..|d| - 1], n - pool[d[0]].tot)[q := b]
  }

  // ---------------------------------------------------------------- flat bytes

  /** At most n bytes of b from offset on. */
  function Slice(b: seq<Byte>, offset: nat, n: nat): seq<Byte> {
    if offset >= |b| then [] else if offset + n <= |b| then b[offset..offset + n] else b[offset..]
  }

  /** A buffer before the offset is skipped. */
  lemma {:induction false} SliceSkip(x: seq<Byte>, rest: seq<Byte>, offset: nat, n: nat)
    requires offset >= |x|
    ensures Slice(x + rest, offset, n) == Slice(rest, offset - |x|, n)
  {
  }

  /** What is wanted of this buffer, and then of those that follow. */
  lemma {:induction false} SliceTake(x: seq<Byte>, rest: seq<Byte>, offset: nat, n: nat)
    requires offset <= |x|
    ensures var k := if |x| - offset > n then n else |x| - offset;
            Slice(x + rest, offset, n) == x[offset..offset + k] + Slice(rest, 0, n - k)
  {
  }

  /** src written over b at pos. */
  function Over(b: seq<Byte>, pos: nat, src: seq<Byte>): seq<Byte>
    requires pos + |src| <= |b|
  {
    b[..pos] + src + b[pos + |src|..]
  }

  /** Writing into buffer i of chain c writes at the matching place of its bytes. */
  lemma {:induction false} WriteThrough(pool: Pool, c: seq<nat>, i: nat, off: nat, src: seq<Byte>)
    requires i < |c| && c[i] < |pool| && off + |src| <= |pool[c[i]].payload|
    requires forall j, k :: 0 <= j < k < |c| ==> c[j] != c[k]
    ensures var now := pool[c[i] := pool[c[i]].(payload := Over(pool[c[i]].payload, off, src))];
            && |Bytes(pool, c[..i])| + off + |src| <= |Bytes(pool, c)|
            && Bytes(now, c) == Over(Bytes(pool, c), |Bytes(pool, c[..i])| + off, src)
            && Bytes(now, c[..i]) == Bytes(pool, c[..i])
  {
    var x := pool[c[i]].payload;
    var now := pool[c[i] := pool[c[i]].(payload := Over(x, off, src))];
    ReadThrough(pool, c, i);
    ReadThrough(now, c, i);
    WriteRest(pool, now, c, i);
    OverMiddle(Bytes(pool, c[..i]), x, Bytes(pool, c[i + 1..]), off, src);
  }

  lemma {:induction false} WriteRest(pool: Pool, now: Pool, c: seq<nat>, i: nat)
    requires i < |c| && c[i] < |pool| == |now| && now == pool[c[i] := now[c[i]]]
    requires forall j, k :: 0 <= j < k < |c| ==> c[j] != c[k]
    ensures Bytes(now, c[..i]) == Bytes(pool, c[..i]) && Bytes(now, c[i + 1..]) == Bytes(pool, c[i + 1..])
  {
    SameBytes(pool, now, c[..i]);
    SameBytes(pool, now, c[i + 1..]);
  }

  lemma {:induction false} OverMiddle(a: seq<Byte>, x: seq<Byte>, z: seq<Byte>, off: nat, src: seq<Byte>)
    requires off + |src| <= |x|
    ensures Over(a + x + z, |a| + off, src) == a + Over(x, off, src) + z
  {
  }

  /** Where buffer i of c lies in its bytes. */
  lemma {:induction false} ReadThrough(pool: Pool, c: seq<nat>, i: nat)
    requires i < |c| && c[i] < |pool|
    ensures Bytes(pool, c[..i + 1]) == Bytes(pool, c[..i]) + pool[c[i]].payload
    ensures Bytes(pool, c) == Bytes(pool, c[..i]) + pool[c[i]].payload + Bytes(pool, c[i + 1..])
  {
    assert c[..i + 1] == c[..i] + [c[i]];
    BytesJoin(pool, c[..i], [c[i]]);
    assert Bytes(pool, [c[i]]) == pool[c[i]].payload;
    assert c == c[..i + 1] + c[i + 1..];
    BytesJoin(pool, c[..i + 1], c[i + 1..]);
  }
}
