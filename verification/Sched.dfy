/** kern/sched.c: round robin over the environments, number 0 being the idle one. */
module Sched {
  import opened Base

  /** The environment after p, skipping number 0. */
  function After(n: nat, p: nat): nat {
    if p + 1 >= n then 1 else p + 1
  }

  /** Where sched_yield starts to look. */
  function First(n: nat, cur: Option<nat>): nat {
    if cur.None? then 1 else After(n, cur.value)
  }

  /** How many steps of After lead from p to e. */
  function Distance(n: nat, p: nat, e: nat): int {
    if e >= p then e - p else e - p + n - 1
  }

  /** Environment e waits to run. */
  predicate Ready(runnable: seq<bool>, e: nat) {
    0 < e < |runnable| && runnable[e]
  }

  /** r is the first environment in turn that can run; idle runs only if none can. */
  ghost predicate Fair(runnable: seq<bool>, cur: Option<nat>, r: Option<nat>) {
    var n := |runnable|;
    match r
    case None => forall e: nat :: e < n ==> !runnable[e]
    case Some(c) =>
      && c < n && runnable[c]
      && (c == 0 ==> forall e: nat :: !Ready(runnable, e))
      && (c != 0 ==>
         forall e: nat :: Ready(runnable, e) ==> Distance(n, First(n, cur), c) <= Distance(n, First(n, cur), e))
  }

  /** sched_yield; None is the end in the kernel monitor. */
  method Yield(runnable: seq<bool>, cur: Option<nat>) returns (r: Option<nat>)
    requires |runnable| >= 2 && (cur.Some? ==> cur.value < |runnable|)
    ensures Fair(runnable, cur, r)
  {
    var n := |runnable|;
    var start := First(n, cur);
    var p, i := start, 0;
    while true
      invariant 0 < p < n && 0 <= i <= n - 1 && (if i < n - 1 then Distance(n, start, p) == i else p == start)
      invariant forall e: nat :: Ready(runnable, e) ==> Distance(n, start, e) >= i
      decreases n - i
    {
      i := i + 1;
      if p == start && i > 1 {
        break;
      }
      if runnable[p] {
        return Some(p);
      }
      p := After(n, p);
    }
    if runnable[0] {
      return Some(0);
    }
    assert forall e: nat :: 0 < e < n && runnable[e] ==> Ready(runnable, e);
    return None;
  }

  /** A choice brings every environment that is left out closer to its turn. */
  lemma {:induction false} Closer(runnable: seq<bool>, cur: Option<nat>, r: Option<nat>, e: nat)
    requires |runnable| >= 2 && (cur.Some? ==> cur.value < |runnable|) && Fair(runnable, cur, r) && Ready(runnable, e)
    ensures r.Some? && Ready(runnable, r.value)
    ensures r.value != e ==>
            Distance(|runnable|, First(|runnable|, r), e) < Distance(|runnable|, First(|runnable|, cur), e)
  {
    assert runnable[e];
    if r.value != 0 && r.value != e {
      var n := |runnable|;
      assert Distance(n, First(n, cur), r.value) <= Distance(n, First(n, cur), e);
    }
  }

  /** The environment that ran last at yield t, and before all of them cur0. */
  function Last(cur0: Option<nat>, picks: seq<nat>, t: nat): Option<nat>
    requires t <= |picks|
  {
    if t == 0 then cur0 else Some(picks[t - 1])
  }

  /** curenv at yield t: NULL if the environment that ran last was destroyed, which is what led to this yield. */
  function Cur(cur0: Option<nat>, kill: seq<bool>, picks: seq<nat>, t: nat): Option<nat>
    requires t <= |picks| && t < |kill|
  {
    if kill[t] then None else Last(cur0, picks, t)
  }

  /** One yield; env_destroy has freed the environment it takes from curenv. */
  ghost predicate YieldAt(n: nat, cur0: Option<nat>, kill: seq<bool>, picks: seq<nat>, t: nat, state: seq<bool>, c: nat)
    requires t <= |picks| && t < |kill|
  {
    && |state| == n && Fair(state, Cur(cur0, kill, picks, t), Some(c))
    && (kill[t] && Last(cur0, picks, t).Some? ==>
          Last(cur0, picks, t).value < n && !state[Last(cur0, picks, t).value])
  }

  ghost predicate YieldOk(n: nat, cur0: Option<nat>, kill: seq<bool>, states: seq<seq<bool>>, picks: seq<nat>, t: nat)
    requires t < |picks| == |states| <= |kill|
  {
    YieldAt(n, cur0, kill, picks, t, states[t], picks[t])
  }

  /** Successive yields, those in kill after a destruction. */
  ghost predicate Yields(n: nat, cur0: Option<nat>, kill: seq<bool>, states: seq<seq<bool>>, picks: seq<nat>) {
    && |states| == |picks| <= |kill| && n >= 2 && (cur0.Some? ==> cur0.value < n)
    && forall t :: 0 <= t < |picks| ==> YieldOk(n, cur0, kill, states, picks, t)
  }

  /** e is ready at every yield and never chosen. */
  ghost predicate PassedOver(states: seq<seq<bool>>, picks: seq<nat>, e: nat) {
    |states| == |picks| && forall t :: 0 <= t < |picks| ==> Ready(states[t], e) && picks[t] != e
  }

  /** With destructions before just the yields in kill, e can be passed over every time. */
  ghost predicate CanWait(n: nat, cur0: Option<nat>, kill: seq<bool>, e: nat) {
    exists states, picks :: |picks| == |kill| && Yields(n, cur0, kill, states, picks) && PassedOver(states, picks, e)
  }

  /** The first environment a scan at yield t can choose: not 1 if that is the one destroyed before all yields. */
  function ScanFrom(n: nat, cur0: Option<nat>, kill: seq<bool>, t: nat): nat
    requires t < |kill|
  {
    if !kill[t] then First(n, cur0) else if t == 0 && cur0 == Some(1) then 2 else 1
  }

  /** e itself was destroyed before the first yield. */
  predicate Gone(cur0: Option<nat>, kill: seq<bool>, e: nat) {
    |kill| > 0 && kill[0] && cur0 == Some(e)
  }

  /** Yields t to s, none after the first following a destruction, are enough to come round to e. */
  ghost predicate Stretch(n: nat, cur0: Option<nat>, kill: seq<bool>, e: nat, t: nat, s: nat) {
    && t <= s < |kill| && (t == 0 || kill[t]) && (forall u :: t < u <= s ==> !kill[u])
    && s - t >= Distance(n, ScanFrom(n, cur0, kill, t), e)
  }

  /** After a destruction the scan starts at 1 or 2, so e yields are enough; otherwise n - 1 always are. */
  lemma {:induction false} StretchLength(n: nat, cur0: Option<nat>, kill: seq<bool>, e: nat, t: nat, s: nat)
    requires 0 < e < n && (cur0.Some? ==> cur0.value < n)
    requires t <= s < |kill| && (t == 0 || kill[t]) && (forall u :: t < u <= s ==> !kill[u])
    ensures kill[t] && (t > 0 || (cur0 != Some(1) && cur0 != Some(e))) ==>
            (Stretch(n, cur0, kill, e, t, s) <==> s - t + 1 >= e)
    ensures t == 0 && kill[0] && cur0 == Some(1) && e > 1 ==> (Stretch(n, cur0, kill, e, t, s) <==> s + 1 >= e - 1)
    ensures s - t + 1 >= n - 1 && !Gone(cur0, kill, e) ==> Stretch(n, cur0, kill, e, t, s)
  {
  }

  /** What choice u leaves of the way to e. */
  function Left(n: nat, picks: seq<nat>, e: nat, u: nat): int
    requires u < |picks|
  {
    Distance(n, First(n, Some(picks[u])), e)
  }

  /** A yield that passes e over brings it closer. */
  lemma {:induction false} CloserAt(n: nat, cur0: Option<nat>, kill: seq<bool>, states: seq<seq<bool>>, picks: seq<nat>,
                                    e: nat, u: nat)
    requires Yields(n, cur0, kill, states, picks) && u < |picks| && Ready(states[u], e)
    requires Cur(cur0, kill, picks, u).Some? ==> Cur(cur0, kill, picks, u).value < n
    ensures 0 < picks[u] < n
    ensures picks[u] != e ==> 0 <= Left(n, picks, e, u) < Distance(n, First(n, Cur(cur0, kill, picks, u)), e)
  {
    assert YieldOk(n, cur0, kill, states, picks, u);
    Closer(states[u], Cur(cur0, kill, picks, u), Some(picks[u]), e);
  }

  /** Choice u is e or leads closer to it. */
  predicate Nears(n: nat, picks: seq<nat>, e: nat, u: nat) {
    0 < u < |picks| && (picks[u] == e || 0 <= Left(n, picks, e, u) < Left(n, picks, e, u - 1))
  }

  /** A way to e of at most s - t more choices, each closer, gets there. */
  lemma {:induction false} Arrives(n: nat, picks: seq<nat>, e: nat, t: nat, s: nat) returns (u: nat)
    requires t <= s < |picks| && (picks[t] == e || 0 <= Left(n, picks, e, t) < s - t)
    requires forall u :: t < u <= s ==> Nears(n, picks, e, u)
    ensures t <= u <= s && picks[u] == e
  {
    u := t;
    while picks[u] != e
      invariant t <= u <= s && (picks[u] == e || 0 <= Left(n, picks, e, u) < s - u)
      decreases s - u
    {
      u := u + 1;
      assert Nears(n, picks, e, u);
    }
  }

  /** Without a destruction in between, the choice leads on from the last one. */
  lemma {:induction false} NearsAt(n: nat, cur0: Option<nat>, kill: seq<bool>, states: seq<seq<bool>>, picks: seq<nat>,
                                   e: nat, u: nat)
    requires Yields(n, cur0, kill, states, picks) && 0 < u < |picks| && !kill[u]
    requires Ready(states[u - 1], e) && Ready(states[u], e)
    ensures Nears(n, picks, e, u)
  {
    assert YieldOk(n, cur0, kill, states, picks, u - 1);
    CloserAt(n, cur0, kill, states, picks, e, u);
  }

  /** The first choice of a scan leaves less of the way than there was from where it can begin. */
  lemma {:induction false} StretchStarts(n: nat, cur0: Option<nat>, kill: seq<bool>, states: seq<seq<bool>>,
                                         picks: seq<nat>, e: nat, t: nat)
    requires Yields(n, cur0, kill, states, picks) && 0 < e < n && t < |picks| && (t == 0 || kill[t])
    requires Ready(states[t], e)
    ensures 0 < picks[t] < n
    ensures picks[t] != e ==> 0 <= Left(n, picks, e, t) < Distance(n, ScanFrom(n, cur0, kill, t), e)
  {
    assert YieldOk(n, cur0, kill, states, picks, t);
    CloserAt(n, cur0, kill, states, picks, e, t);
    if kill[t] {
      FromStart(states[t], picks[t], e);
    }
  }

  /** Bounded waiting: an environment that stays ready is chosen by the end of every stretch. */
  lemma {:induction false} RunsSoon(n: nat, cur0: Option<nat>, kill: seq<bool>, states: seq<seq<bool>>, picks: seq<nat>,
                                    e: nat, t: nat, s: nat) returns (u: nat)
    requires Yields(n, cur0, kill, states, picks) && 0 < e < n && Stretch(n, cur0, kill, e, t, s) && s < |picks|
    requires forall u :: t <= u <= s ==> Ready(states[u], e)
    ensures t <= u <= s && picks[u] == e
  {
    StretchStarts(n, cur0, kill, states, picks, e, t);
    forall u | t < u <= s ensures Nears(n, picks, e, u) {
      assert Ready(states[u - 1], e) && Ready(states[u], e);
      NearsAt(n, cur0, kill, states, picks, e, u);
    }
    u := Arrives(n, picks, e, t, s);
  }

  /** A scan from the start chooses none beyond e. */
  lemma {:induction false} FromStart(runnable: seq<bool>, c: nat, e: nat)
    requires |runnable| >= 2 && Fair(runnable, None, Some(c)) && Ready(runnable, e)
    ensures 0 < c <= e && runnable[c]
  {
    Closer(runnable, None, Some(c), e);
    assert Distance(|runnable|, 1, c) <= Distance(|runnable|, 1, e);
  }

  /** Environments 1 and 2 cannot be starved by destructions: n - 1 yields are always enough. */
  lemma {:induction false} FirstTwoRun(n: nat, cur0: Option<nat>, kill: seq<bool>, states: seq<seq<bool>>,
                                       picks: seq<nat>, e: nat) returns (u: nat)
    requires Yields(n, cur0, kill, states, picks) && 0 < e < n && e <= 2 && |picks| >= n - 1
    requires forall u :: 0 <= u < |picks| ==> Ready(states[u], e)
    ensures u < n - 1 && picks[u] == e
  {
    u := 0;
    FirstTwoStep(n, cur0, kill, states, picks, e, u);
    while picks[u] != e
      invariant u < n - 1 && 0 < picks[u] < n
      invariant picks[u] != e ==> 0 <= Distance(n, First(n, Some(picks[u])), e) <= n - 3 - u
      decreases n - u
    {
      u := u + 1;
      FirstTwoStep(n, cur0, kill, states, picks, e, u);
    }
  }

  lemma {:induction false} FirstTwoStep(n: nat, cur0: Option<nat>, kill: seq<bool>, states: seq<seq<bool>>,
                                        picks: seq<nat>, e: nat, u: nat)
    requires Yields(n, cur0, kill, states, picks) && 0 < e < n && e <= 2 && u < |picks| && Ready(states[u], e)
    requires u > 0 ==> picks[u - 1] != e && 0 < picks[u - 1] < n
    requires u > 0 ==> 0 <= Distance(n, First(n, Some(picks[u - 1])), e) <= n - 2 - u
    ensures 0 < picks[u] < n
    ensures picks[u] != e ==> 0 <= Distance(n, First(n, Some(picks[u])), e) <= n - 3 - u
  {
    assert YieldOk(n, cur0, kill, states, picks, u);
    if kill[u] {
      FromStart(states[u], picks[u], e);
    } else {
      Closer(states[u], Cur(cur0, kill, picks, u), Some(picks[u]), e);
    }
  }

  /** Whom to choose at a yield to pass e over: the next in turn, but the one before e if it is destroyed next. */
  function Dodge(n: nat, cur0: Option<nat>, kill: seq<bool>, picks: seq<nat>, e: nat): nat
    requires |picks| < |kill| && e >= 4
  {
    var t := |picks|;
    if t + 1 < |kill| && kill[t + 1] then
      if kill[t] && Last(cur0, picks, t) == Some(e - 1) then e - 2 else e - 1
    else if t == 0 || kill[t] then ScanFrom(n, cur0, kill, t)
    else First(n, Last(cur0, picks, t))
  }

  /** Just c and e are ready. */
  function Pair(n: nat, c: nat, e: nat): seq<bool> {
    seq(n, i => i == c || i == e)
  }

  /** The choices so far; t is where the last scan without a restart began. */
  ghost predicate Dodging(n: nat, cur0: Option<nat>, kill: seq<bool>, picks: seq<nat>, e: nat, t: nat) {
    var k := |picks|;
    && k <= |kill| && (forall u :: 0 <= u < k ==> 0 < picks[u] < n && picks[u] != e)
    && (k > 0 ==>
          && t < k && (t == 0 || kill[t]) && (forall u :: t < u < k ==> !kill[u])
          && (k < |kill| ==> if kill[k] then picks[k - 1] == e - 1 || picks[k - 1] == e - 2
                             else Distance(n, First(n, Some(picks[k - 1])), e) ==
                                  Distance(n, ScanFrom(n, cur0, kill, t), e) - (k - t)))
  }

  /** Where the scan at yield |picks| began and how far it still is to e. */
  lemma {:induction false} DodgeWay(n: nat, cur0: Option<nat>, kill: seq<bool>, picks: seq<nat>, e: nat, t: nat)
    returns (t': nat, left: int)
    requires 4 <= e < n && (cur0.Some? ==> cur0.value < n) && |picks| < |kill|
    requires forall t, s :: !Stretch(n, cur0, kill, e, t, s)
    requires Dodging(n, cur0, kill, picks, e, t)
    ensures t' <= |picks| && (t' == 0 || kill[t']) && (forall u :: t' < u <= |picks| ==> !kill[u])
    ensures left == Distance(n, ScanFrom(n, cur0, kill, t'), e) - (|picks| - t') > 0
    ensures |picks| == 0 || kill[|picks|] ==> t' == |picks|
    ensures |picks| > 0 && !kill[|picks|] ==> left == Distance(n, First(n, Last(cur0, picks, |picks|)), e)
  {
    var k := |picks|;
    t' := if k == 0 || kill[k] then k else t;
    left := Distance(n, ScanFrom(n, cur0, kill, t'), e) - (k - t');
    assert !Stretch(n, cur0, kill, e, t', k);
  }

  /** The choice is before e in turn and was not destroyed just now. */
  lemma {:induction false} DodgeNear(n: nat, cur0: Option<nat>, kill: seq<bool>, picks: seq<nat>, e: nat, c: nat,
                                     t: nat, t': nat, left: int)
    requires 4 <= e < n && (cur0.Some? ==> cur0.value < n) && |picks| < |kill| && Dodging(n, cur0, kill, picks, e, t)
    requires !Gone(cur0, kill, e) && c == Dodge(n, cur0, kill, picks, e) && t' <= |picks|
    requires left == Distance(n, ScanFrom(n, cur0, kill, t'), e) - (|picks| - t') > 0
    requires |picks| == 0 || kill[|picks|] ==> t' == |picks|
    requires |picks| > 0 && !kill[|picks|] ==> left == Distance(n, First(n, Last(cur0, picks, |picks|)), e)
    ensures 0 < c < n && c != e && (kill[|picks|] ==> Last(cur0, picks, |picks|) != Some(c))
    ensures var from := First(n, Cur(cur0, kill, picks, |picks|)); Distance(n, from, c) < Distance(n, from, e)
    ensures !(|picks| + 1 < |kill| && kill[|picks| + 1]) ==> Distance(n, First(n, Some(c)), e) == left - 1
  {
  }

  lemma {:induction false} DodgeOn(n: nat, cur0: Option<nat>, kill: seq<bool>, picks: seq<nat>, e: nat, c: nat,
                                   t: nat, t': nat, left: int)
    requires 4 <= e < n && (cur0.Some? ==> cur0.value < n) && |picks| < |kill| && Dodging(n, cur0, kill, picks, e, t)
    requires t' <= |picks| && (t' == 0 || kill[t']) && (forall u :: t' < u <= |picks| ==> !kill[u])
    requires left == Distance(n, ScanFrom(n, cur0, kill, t'), e) - (|picks| - t')
    requires !(|picks| + 1 < |kill| && kill[|picks| + 1]) ==> Distance(n, First(n, Some(c)), e) == left - 1
    requires c == Dodge(n, cur0, kill, picks, e) && 0 < c < n && c != e
    ensures Dodging(n, cur0, kill, picks + [c], e, t')
  {
  }

  lemma {:induction false} DodgeKeeps(n: nat, cur0: Option<nat>, kill: seq<bool>, picks: seq<nat>, e: nat, t: nat)
    returns (t': nat)
    requires 4 <= e < n && (cur0.Some? ==> cur0.value < n) && |picks| < |kill|
    requires !Gone(cur0, kill, e) && forall t, s :: !Stretch(n, cur0, kill, e, t, s)
    requires Dodging(n, cur0, kill, picks, e, t)
    ensures var c, from := Dodge(n, cur0, kill, picks, e), First(n, Cur(cur0, kill, picks, |picks|));
            && Dodging(n, cur0, kill, picks + [c], e, t') && 0 < c < n && c != e
            && (kill[|picks|] ==> Last(cur0, picks, |picks|) != Some(c))
            && Distance(n, from, c) < Distance(n, from, e)
  {
    var left;
    t', left := DodgeWay(n, cur0, kill, picks, e, t);
    var c := Dodge(n, cur0, kill, picks, e);
    DodgeNear(n, cur0, kill, picks, e, c, t, t', left);
    DodgeOn(n, cur0, kill, picks, e, c, t, t', left);
  }

  lemma {:induction false} PairFair(n: nat, cur: Option<nat>, c: nat, e: nat)
    requires 0 < e < n && 0 < c < n && Distance(n, First(n, cur), c) < Distance(n, First(n, cur), e)
    ensures Fair(Pair(n, c, e), cur, Some(c)) && Ready(Pair(n, c, e), e)
  {
  }

  /** When no stretch comes round to e >= 4, some run with these destructions passes it over every time. */
  lemma {:induction false} Dodged(n: nat, cur0: Option<nat>, kill: seq<bool>, e: nat)
    returns (states: seq<seq<bool>>, picks: seq<nat>)
    requires 4 <= e < n && (cur0.Some? ==> cur0.value < n)
    requires !Gone(cur0, kill, e) && forall t, s :: !Stretch(n, cur0, kill, e, t, s)
    ensures |picks| == |kill| && Yields(n, cur0, kill, states, picks) && PassedOver(states, picks, e)
  {
    states, picks := [], [];
    var t := 0;
    while |picks| < |kill|
      invariant |states| == |picks| && Dodging(n, cur0, kill, picks, e, t)
      invariant Yields(n, cur0, kill, states, picks) && PassedOver(states, picks, e)
    {
      t := DodgeKeeps(n, cur0, kill, picks, e, t);
      var c := Dodge(n, cur0, kill, picks, e);
      PairFair(n, Cur(cur0, kill, picks, |picks|), c, e);
      OneMore(n, cur0, kill, states, picks, Pair(n, c, e), c, e);
      states, picks := states + [Pair(n, c, e)], picks + [c];
    }
  }

  /** A run grows by a yield that chooses c and not e. */
  lemma {:induction false} OneMore(n: nat, cur0: Option<nat>, kill: seq<bool>, states: seq<seq<bool>>, picks: seq<nat>,
                                   state: seq<bool>, c: nat, e: nat)
    requires |picks| < |kill| && Yields(n, cur0, kill, states, picks) && PassedOver(states, picks, e)
    requires YieldAt(n, cur0, kill, picks, |picks|, state, c) && Ready(state, e) && c != e
    ensures Yields(n, cur0, kill, states + [state], picks + [c])
    ensures PassedOver(states + [state], picks + [c], e)
  {
    forall t | 0 <= t <= |picks|
      ensures YieldOk(n, cur0, kill, states + [state], picks + [c], t)
    {
      assert Last(cur0, picks + [c], t) == Last(cur0, picks, t);
      if t < |picks| {
        assert YieldOk(n, cur0, kill, states, picks, t);
      }
    }
  }

  /**
    For every e >= 4 and every pattern of destructions that leaves e itself alone: e may never be
    chosen if and only if there is no stretch.
   */
  lemma {:induction false} WaitExact(n: nat, cur0: Option<nat>, kill: seq<bool>, e: nat)
    requires 4 <= e < n && (cur0.Some? ==> cur0.value < n)
    ensures CanWait(n, cur0, kill, e) <==> !Gone(cur0, kill, e) && forall t, s :: !Stretch(n, cur0, kill, e, t, s)
  {
    if !Gone(cur0, kill, e) && forall t, s :: !Stretch(n, cur0, kill, e, t, s) {
      var states, picks := Dodged(n, cur0, kill, e);
    } else if CanWait(n, cur0, kill, e) {
      var states, picks :| |picks| == |kill| && Yields(n, cur0, kill, states, picks) && PassedOver(states, picks, e);
      NotGone(n, cur0, kill, states, picks, e);
      var t, s :| Stretch(n, cur0, kill, e, t, s);
      var u := RunsSoon(n, cur0, kill, states, picks, e, t, s);
      assert false;
    }
  }

  /** Whoever is ready at the first yield was not destroyed before it. */
  lemma {:induction false} NotGone(n: nat, cur0: Option<nat>, kill: seq<bool>, states: seq<seq<bool>>, picks: seq<nat>,
                                   e: nat)
    requires |picks| == |kill| && Yields(n, cur0, kill, states, picks) && PassedOver(states, picks, e)
    ensures !Gone(cur0, kill, e)
  {
    if |kill| > 0 {
      assert YieldOk(n, cur0, kill, states, picks, 0) && Ready(states[0], e);
    }
  }

  // ---------------------------------------------------------------- environment 3

  /** How many yields in a row, from t on, follow a destruction. */
  function Kills(kill: seq<bool>, t: nat): (j: nat)
    ensures forall u :: t <= u < t + j ==> u < |kill| && kill[u]
    ensures t + j < |kill| ==> !kill[t + j]
    ensures t <= |kill| ==> t + j <= |kill|
    decreases |kill| - t
  {
    if t < |kill| && kill[t] then 1 + Kills(kill, t + 1) else 0
  }

  /**
    A scan from yield t has just come round to 3 at yield p, and an even number of destructions
    leads to a yield without one. Number 2 ran last, so 1 and 2 run in turn and 2 does again.
   */
  ghost predicate Trap(n: nat, cur0: Option<nat>, kill: seq<bool>, t: nat, p: nat) {
    && t <= p < |kill| && (t == 0 || kill[t]) && (forall u :: t < u < p ==> !kill[u])
    && p - t == Distance(n, First(n, if kill[t] then None else cur0), 3)
    && p + Kills(kill, p) < |kill| && Kills(kill, p) % 2 == 0
  }

  /** The same from the start: the destructions begin with that of 2, or with that of 1 and so one earlier. */
  ghost predicate StartTrap(cur0: Option<nat>, kill: seq<bool>) {
    && |kill| > 0 && kill[0] && Kills(kill, 0) < |kill|
    && ((cur0 == Some(2) && Kills(kill, 0) % 2 == 0) || (cur0 == Some(1) && Kills(kill, 0) % 2 == 1))
  }

  /** A stretch for number 3 is a trap with no destruction in it, or the end of one at the start. */
  lemma {:induction false} StretchTraps(n: nat, cur0: Option<nat>, kill: seq<bool>, t: nat, s: nat)
    requires n > 3 && (cur0.Some? ==> cur0.value < n) && Stretch(n, cur0, kill, 3, t, s)
    ensures (t == 0 && StartTrap(cur0, kill))
            || Trap(n, cur0, kill, t, t + Distance(n, First(n, if kill[t] then None else cur0), 3))
  {
    var p := t + Distance(n, First(n, if kill[t] then None else cur0), 3);
    if t == 0 && kill[0] && cur0 == Some(1) {
      assert !kill[1] && Kills(kill, 0) == 1 + Kills(kill, 1) == 1;
    } else {
      assert !kill[p];
    }
  }

  /** When it had p - t choices and e was never made, it is next at p. */
  lemma {:induction false} WayEnds(n: nat, picks: seq<nat>, e: nat, t: nat, p: nat)
    requires t < p <= |picks| && 0 <= Left(n, picks, e, t) < p - t
    requires forall u :: t < u < p ==> Nears(n, picks, e, u)
    requires e !in picks[t..p]
    ensures Left(n, picks, e, p - 1) == 0
  {
    var u := t;
    while u < p - 1
      invariant t <= u < p && 0 <= Left(n, picks, e, u) < p - u
    {
      u := u + 1;
      assert Nears(n, picks, e, u) && picks[u] in picks[t..p];
    }
  }

  /** When a scan has come round to 3 without choosing it, 2 was chosen last. */
  lemma {:induction false} TwoLast(n: nat, cur0: Option<nat>, kill: seq<bool>, states: seq<seq<bool>>, picks: seq<nat>,
                                   t: nat, p: nat)
    requires n > 3 && Yields(n, cur0, kill, states, picks) && PassedOver(states, picks, 3) && t < p <= |picks|
    requires (t == 0 || kill[t]) && (forall u :: t < u < p ==> !kill[u])
    requires p - t == Distance(n, First(n, if kill[t] then None else cur0), 3)
    ensures picks[p - 1] == 2
  {
    assert Cur(cur0, kill, picks, t) == if kill[t] then None else cur0;
    CloserAt(n, cur0, kill, states, picks, 3, t);
    forall u | t < u < p ensures Nears(n, picks, 3, u) {
      assert Ready(states[u - 1], 3) && Ready(states[u], 3);
      NearsAt(n, cur0, kill, states, picks, 3, u);
    }
    WayEnds(n, picks, 3, t, p);
    assert YieldOk(n, cur0, kill, states, picks, p - 1) && Ready(states[p - 1], 3);
  }

  /** 3 is ready and not chosen: of 1 and 2, the one that was not destroyed runs. */
  lemma {:induction false} OtherOne(state: seq<bool>, last: nat, c: nat)
    requires |state| > 3 && Fair(state, None, Some(c)) && Ready(state, 3) && c != 3
    requires (last == 1 || last == 2) && !state[last]
    ensures c == 3 - last
  {
    FromStart(state, c, 3);
  }

  /** At yield u the other one of 1 and 2 is chosen. */
  predicate Swaps(picks: seq<nat>, u: nat) {
    0 < u < |picks| && (picks[u - 1] == 1 || picks[u - 1] == 2 ==> picks[u] == 3 - picks[u - 1])
  }

  lemma {:induction false} OtherAt(n: nat, cur0: Option<nat>, kill: seq<bool>, states: seq<seq<bool>>, picks: seq<nat>,
                                   u: nat)
    requires n > 3 && Yields(n, cur0, kill, states, picks) && PassedOver(states, picks, 3) && 0 < u < |picks| && kill[u]
    ensures Swaps(picks, u)
  {
    assert YieldOk(n, cur0, kill, states, picks, u) && Ready(states[u], 3) && picks[u] != 3;
    if picks[u - 1] == 1 || picks[u - 1] == 2 {
      OtherOne(states[u], picks[u - 1], picks[u]);
    }
  }

  /** 1 and 2 in turn: after an even number of choices it is the same one again. */
  lemma {:induction false} InTurn(picks: seq<nat>, p: nat, j: nat)
    requires 0 < p <= p + j <= |picks| && picks[p - 1] == 2 && forall u :: p <= u < p + j ==> Swaps(picks, u)
    ensures picks[p + j - 1] == if j % 2 == 0 then 2 else 1
  {
    if j > 0 {
      InTurn(picks, p, j - 1);
      assert Swaps(picks, p + j - 1);
    }
  }

  /** An even number of destructions, starting with that of 2, ends with 2. */
  lemma {:induction false} Swapping(n: nat, cur0: Option<nat>, kill: seq<bool>, states: seq<seq<bool>>, picks: seq<nat>,
                                    p: nat, j: nat)
    requires n > 3 && Yields(n, cur0, kill, states, picks) && PassedOver(states, picks, 3)
    requires 0 < p <= p + j <= |picks| && picks[p - 1] == 2 && j % 2 == 0 && forall u :: p <= u < p + j ==> kill[u]
    ensures picks[p + j - 1] == 2
  {
    forall u | p <= u < p + j ensures Swaps(picks, u) {
      OtherAt(n, cur0, kill, states, picks, u);
    }
    InTurn(picks, p, j);
  }

  lemma {:induction false} TwoAgain(n: nat, cur0: Option<nat>, kill: seq<bool>, states: seq<seq<bool>>, picks: seq<nat>,
                                    t: nat, p: nat)
    requires n > 3 && Yields(n, cur0, kill, states, picks) && PassedOver(states, picks, 3) && |picks| == |kill|
    requires Trap(n, cur0, kill, t, p)
    ensures Cur(cur0, kill, picks, p + Kills(kill, p)) == Some(2)
  {
    if t < p {
      TwoLast(n, cur0, kill, states, picks, t, p);
      Swapping(n, cur0, kill, states, picks, p, Kills(kill, p));
    } else {
      assert t == 0 && !kill[t] && Kills(kill, p) == 0;
    }
  }

  lemma {:induction false} Trapped(n: nat, cur0: Option<nat>, kill: seq<bool>, states: seq<seq<bool>>, picks: seq<nat>,
                                   t: nat, p: nat)
    requires n > 3 && Yields(n, cur0, kill, states, picks) && PassedOver(states, picks, 3) && |picks| == |kill|
    ensures !Trap(n, cur0, kill, t, p)
  {
    if Trap(n, cur0, kill, t, p) {
      TwoAgain(n, cur0, kill, states, picks, t, p);
      assert Distance(n, First(n, Some(2)), 3) == 0;
      CloserAt(n, cur0, kill, states, picks, 3, p + Kills(kill, p));
      assert false;
    }
  }

  /** At the start of a run, whoever of 1 and 2 was destroyed, the other one is chosen; so 2 comes last. */
  lemma {:induction false} StartSwaps(n: nat, cur0: Option<nat>, kill: seq<bool>, states: seq<seq<bool>>,
                                      picks: seq<nat>, j: nat)
    requires n > 3 && Yields(n, cur0, kill, states, picks) && PassedOver(states, picks, 3) && 0 < j <= |picks|
    requires (cur0 == Some(2) && j % 2 == 0) || (cur0 == Some(1) && j % 2 == 1)
    requires forall u :: 0 <= u < j ==> kill[u]
    ensures picks[j - 1] == 2
  {
    assert YieldOk(n, cur0, kill, states, picks, 0) && Ready(states[0], 3) && picks[0] != 3;
    OtherOne(states[0], cur0.value, picks[0]);
    if cur0 == Some(1) {
      Swapping(n, cur0, kill, states, picks, 1, j - 1);
    } else {
      OtherAt(n, cur0, kill, states, picks, 1);
      Swapping(n, cur0, kill, states, picks, 2, j - 2);
    }
  }

  lemma {:induction false} StartTrapped(n: nat, cur0: Option<nat>, kill: seq<bool>, states: seq<seq<bool>>,
                                        picks: seq<nat>)
    requires n > 3 && Yields(n, cur0, kill, states, picks) && PassedOver(states, picks, 3) && |picks| == |kill|
    ensures !StartTrap(cur0, kill)
  {
    if StartTrap(cur0, kill) {
      var j := Kills(kill, 0);
      StartSwaps(n, cur0, kill, states, picks, j);
      assert Cur(cur0, kill, picks, j) == Some(2);
      assert Distance(n, First(n, Some(2)), 3) == 0;
      CloserAt(n, cur0, kill, states, picks, 3, j);
      assert false;
    }
  }

  /** Whom to choose to pass 3 over: 1 and 2 in turn under destructions, ending with 2. */
  function Hop(n: nat, cur0: Option<nat>, kill: seq<bool>, picks: seq<nat>): nat
    requires |picks| < |kill|
  {
    var t := |picks|;
    var j := Kills(kill, t + 1);
    if t + 1 + j < |kill| then
      if j == 0 then First(n, Cur(cur0, kill, picks, t)) else if j % 2 == 1 then 2 else 1
    else if kill[t] && Last(cur0, picks, t) == Some(2) then 1
    else 2
  }

  /** The choices so far; t is where the last scan without a restart began. */
  ghost predicate Hopping(n: nat, cur0: Option<nat>, kill: seq<bool>, picks: seq<nat>, t: nat) {
    var k := |picks|;
    && k <= |kill| && (forall u :: 0 <= u < k ==> 0 < picks[u] < n && picks[u] != 3)
    && (k > 0 ==>
          && t < k && (t == 0 || kill[t]) && (forall u :: t < u < k ==> !kill[u])
          && (k < |kill| ==>
                var j := Kills(kill, k);
                if j == 0 then Distance(n, First(n, Some(picks[k - 1])), 3) ==
                               Distance(n, First(n, if kill[t] then None else cur0), 3) - (k - t)
                else if k + j == |kill| then picks[k - 1] == 1 || picks[k - 1] == 2
                else picks[k - 1] == if j % 2 == 1 then 2 else 1))
  }

  /** Where the scan at yield |picks| began and how far it still is to 3. */
  lemma {:induction false} HopWay(n: nat, cur0: Option<nat>, kill: seq<bool>, picks: seq<nat>, t: nat)
    returns (t': nat, left: int)
    requires 3 < n && (cur0.Some? ==> cur0.value < n) && |picks| < |kill|
    requires forall t, p :: !Trap(n, cur0, kill, t, p)
    requires Hopping(n, cur0, kill, picks, t)
    ensures t' <= |picks| && (t' == 0 || kill[t']) && (forall u :: t' < u <= |picks| ==> !kill[u])
    ensures left == Distance(n, First(n, Cur(cur0, kill, picks, |picks|)), 3) > 0
    ensures left == Distance(n, First(n, if kill[t'] then None else cur0), 3) - (|picks| - t')
    ensures var j := Kills(kill, |picks| + 1);
            left == 1 && |picks| + 1 + j < |kill| ==> j % 2 == 1
  {
    var k := |picks|;
    t' := if k == 0 || kill[k] then k else t;
    left := Distance(n, First(n, Cur(cur0, kill, picks, k)), 3);
    assert !Trap(n, cur0, kill, t', k);
    assert !Trap(n, cur0, kill, t', k + 1);
  }

  /** The choice is before 3 in turn and was not destroyed just now. */
  lemma {:induction false} HopNear(n: nat, cur0: Option<nat>, kill: seq<bool>, picks: seq<nat>, t: nat, left: int)
    requires 3 < n && (cur0.Some? ==> cur0.value < n) && |picks| < |kill|
    requires Hopping(n, cur0, kill, picks, t) && !StartTrap(cur0, kill)
    requires left == Distance(n, First(n, Cur(cur0, kill, picks, |picks|)), 3) > 0
    requires var j := Kills(kill, |picks| + 1);
             left == 1 && |picks| + 1 + j < |kill| ==> j % 2 == 1
    ensures kill[|picks|] ==> Last(cur0, picks, |picks|) != Some(Hop(n, cur0, kill, picks))
    ensures 0 < Hop(n, cur0, kill, picks) < n
    ensures Distance(n, First(n, Cur(cur0, kill, picks, |picks|)), Hop(n, cur0, kill, picks)) < left
  {
    var k := |picks|;
    if kill[k] {
      assert Kills(kill, k) == 1 + Kills(kill, k + 1);
    }
  }

  lemma {:induction false} HopKeeps(n: nat, cur0: Option<nat>, kill: seq<bool>, picks: seq<nat>, t: nat)
    returns (t': nat)
    requires 3 < n && (cur0.Some? ==> cur0.value < n) && |picks| < |kill|
    requires !StartTrap(cur0, kill) && forall t, p :: !Trap(n, cur0, kill, t, p)
    requires Hopping(n, cur0, kill, picks, t)
    ensures Hopping(n, cur0, kill, picks + [Hop(n, cur0, kill, picks)], t')
    ensures kill[|picks|] ==> Last(cur0, picks, |picks|) != Some(Hop(n, cur0, kill, picks))
    ensures 0 < Hop(n, cur0, kill, picks) < n
    ensures var cur := Cur(cur0, kill, picks, |picks|);
            Distance(n, First(n, cur), Hop(n, cur0, kill, picks)) < Distance(n, First(n, cur), 3)
  {
    var left;
    t', left := HopWay(n, cur0, kill, picks, t);
    HopNear(n, cur0, kill, picks, t, left);
    HopOn(n, cur0, kill, picks, Hop(n, cur0, kill, picks), t, t', left);
  }

  lemma {:induction false} HopOn(n: nat, cur0: Option<nat>, kill: seq<bool>, picks: seq<nat>, c: nat, t: nat, t': nat,
      left: int)
    requires 3 < n && (cur0.Some? ==> cur0.value < n) && |picks| < |kill| && Hopping(n, cur0, kill, picks, t)
    requires t' <= |picks| && (t' == 0 || kill[t']) && (forall u :: t' < u <= |picks| ==> !kill[u])
    requires left == Distance(n, First(n, Cur(cur0, kill, picks, |picks|)), 3) > 0
    requires left == Distance(n, First(n, if kill[t'] then None else cur0), 3) - (|picks| - t')
    requires c == Hop(n, cur0, kill, picks) && 0 < c < n && c != 3
    ensures Hopping(n, cur0, kill, picks + [c], t')
  {
    var k := |picks|;
    if k + 1 < |kill| && Kills(kill, k + 1) == 0 {
      assert Distance(n, First(n, Some(c)), 3) == left - 1;
    }
  }

  /** When there is no trap, some run with these destructions passes 3 over every time. */
  lemma {:induction false} Hopped(n: nat, cur0: Option<nat>, kill: seq<bool>)
    returns (states: seq<seq<bool>>, picks: seq<nat>)
    requires 3 < n && (cur0.Some? ==> cur0.value < n) && !Gone(cur0, kill, 3) && !StartTrap(cur0, kill)
    requires forall t, p :: !Trap(n, cur0, kill, t, p)
    ensures |picks| == |kill| && Yields(n, cur0, kill, states, picks) && PassedOver(states, picks, 3)
  {
    states, picks := [], [];
    var t := 0;
    while |picks| < |kill|
      invariant |states| == |picks| && Hopping(n, cur0, kill, picks, t)
      invariant Yields(n, cur0, kill, states, picks) && PassedOver(states, picks, 3)
    {
      t := HopKeeps(n, cur0, kill, picks, t);
      var c := Hop(n, cur0, kill, picks);
      PairFair(n, Cur(cur0, kill, picks, |picks|), c, 3);
      OneMore(n, cur0, kill, states, picks, Pair(n, c, 3), c, 3);
      states, picks := states + [Pair(n, c, 3)], picks + [c];
    }
  }

  /** The pattern lets number 3 wait: it is not destroyed itself, and there is no trap. */
  ghost predicate NoTrap(n: nat, cur0: Option<nat>, kill: seq<bool>) {
    && !Gone(cur0, kill, 3) && !StartTrap(cur0, kill)
    && forall t, p :: !Trap(n, cur0, kill, t, p)
  }

  /** For number 3 and every pattern of destructions: it may never be chosen if and only if there is no trap. */
  lemma {:induction false} WaitExactThree(n: nat, cur0: Option<nat>, kill: seq<bool>)
    requires 3 < n && (cur0.Some? ==> cur0.value < n)
    ensures CanWait(n, cur0, kill, 3) <==> NoTrap(n, cur0, kill)
  {
    if NoTrap(n, cur0, kill) {
      var states, picks := Hopped(n, cur0, kill);
    } else if CanWait(n, cur0, kill, 3) {
      var states, picks :| |picks| == |kill| && Yields(n, cur0, kill, states, picks) && PassedOver(states, picks, 3);
      NotGone(n, cur0, kill, states, picks, 3);
      StartTrapped(n, cur0, kill, states, picks);
      var t, p :| Trap(n, cur0, kill, t, p);
      Trapped(n, cur0, kill, states, picks, t, p);
    }
  }

  // ---------------------------------------------------------------- a run that starves

  /** Every other yield follows a destruction. */
  function Alternating(k: nat): seq<bool> {
    seq(k, t => t % 2 == 1)
  }

  /** Number 1, always ready, makes 2 and yields, 2 exits, and so on for ever: nobody from 3 on runs. */
  lemma {:induction false} Starves(n: nat, e: nat, k: nat)
    requires 3 <= e < n
    ensures CanWait(n, Some(1), Alternating(k), e)
  {
    var kill := Alternating(k);
    var picks := seq(k, t => if t % 2 == 0 then 2 else 1);
    var states := seq(k, t => Trio(n, t % 2 == 0, e));
    forall t | 0 <= t < k ensures YieldOk(n, Some(1), kill, states, picks, t) && Ready(states[t], e) {
      TrioFair(n, t % 2 == 0, e);
    }
    assert Yields(n, Some(1), kill, states, picks) && PassedOver(states, picks, e);
  }

  /** 1 and e are ready, and 2 if it is there. */
  function Trio(n: nat, two: bool, e: nat): seq<bool> {
    seq(n, i => i == 1 || (i == 2 && two) || i == e)
  }

  lemma {:induction false} TrioFair(n: nat, two: bool, e: nat)
    requires 3 <= e < n
    ensures Ready(Trio(n, two, e), e)
    ensures two ==> Fair(Trio(n, two, e), Some(1), Some(2))
    ensures !two ==> Fair(Trio(n, two, e), None, Some(1)) && !Trio(n, two, e)[2]
  {
  }
}
