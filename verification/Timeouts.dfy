/** net/lwip/core/sys.c: timeouts kept as a list of differences, and the waits that run them. */
module Timeouts {
  import opened Base

  const U32: nat := 0x1_0000_0000
  const NOWAIT: nat := 0xffff_fffe        // SYS_ARCH_NOWAIT

  /** time is counted from the entry before; id tells registrations apart. h == 0 is NULL. */
  datatype Timer = Timer(time: nat, h: nat, arg: nat, id: nat)

  /** The same timeout with the time it is due in. */
  datatype Entry = Entry(due: nat, h: nat, arg: nat, id: nat)

  function Sum(q: seq<Timer>): nat {
    if q == [] then 0 else q[0].time + Sum(q[1..])
  }

  function At(q: seq<Timer>, i: nat): Entry
    requires i < |q|
  {
    Entry(Sum(q[..i + 1]), q[i].h, q[i].arg, q[i].id)
  }

  /** What the list of differences stands for. */
  function Abs(q: seq<Timer>): (s: seq<Entry>)
    ensures |s| == |q|
  {
    seq(|q|, i requires 0 <= i < |q| => At(q, i))
  }

  // ---------------------------------------------------------------- the reference: lists of deadlines

  /** e goes behind everything that is due no later. */
  function Put(s: seq<Entry>, e: Entry): seq<Entry> {
    if s == [] || s[0].due > e.due then [e] + s else [s[0]] + Put(s[1..], e)
  }

  /** The first entry for h and arg is taken out. */
  function Remove(s: seq<Entry>, h: nat, arg: nat): seq<Entry> {
    if s == [] then [] else if s[0].h == h && s[0].arg == arg then s[1..] else [s[0]] + Remove(s[1..], h, arg)
  }

  ghost predicate Sorted(s: seq<Entry>) {
    forall i, j :: 0 <= i < j < |s| ==> s[i].due <= s[j].due
  }

  lemma {:induction false} PutAt(s: seq<Entry>, e: Entry, k: nat)
    requires k <= |s| && (forall i :: 0 <= i < k ==> s[i].due <= e.due) && (k < |s| ==> s[k].due > e.due)
    ensures Put(s, e) == s[..k] + [e] + s[k..]
  {
    if k > 0 {
      PutAt(s[1..], e, k - 1);
      assert s[1..][..k - 1] == s[1..k] && s[1..][k - 1..] == s[k..];
      assert s[..k] == [s[0]] + s[1..k];
    }
  }

  lemma {:induction false} RemoveAt(s: seq<Entry>, h: nat, arg: nat, k: nat)
    requires k < |s| && s[k].h == h && s[k].arg == arg && forall i :: 0 <= i < k ==> s[i].h != h || s[i].arg != arg
    ensures Remove(s, h, arg) == s[..k] + s[k + 1..]
  {
    if k > 0 {
      RemoveAt(s[1..], h, arg, k - 1);
      assert s[1..][..k - 1] == s[1..k] && s[1..][k..] == s[k + 1..];
      assert s[..k] == [s[0]] + s[1..k];
    }
  }

  lemma {:induction false} RemoveNone(s: seq<Entry>, h: nat, arg: nat)
    requires forall i :: 0 <= i < |s| ==> s[i].h != h || s[i].arg != arg
    ensures Remove(s, h, arg) == s
  {
    if s != [] {
      RemoveNone(s[1..], h, arg);
    }
  }

  /** Cancelling what was just registered gives the list back, unless an earlier one matches first. */
  lemma {:induction false} RemovePut(s: seq<Entry>, e: Entry)
    requires forall i :: 0 <= i < |s| ==> s[i].h != e.h || s[i].arg != e.arg
    ensures Remove(Put(s, e), e.h, e.arg) == s
  {
    if s != [] && s[0].due <= e.due {
      RemovePut(s[1..], e);
    }
  }

  // ---------------------------------------------------------------- differences and deadlines

  lemma {:induction false} SumSplit(a: seq<Timer>, b: seq<Timer>)
    ensures Sum(a + b) == Sum(a) + Sum(b)
  {
    if a == [] {
      assert a + b == b;
    } else {
      assert (a + b)[1..] == a[1..] + b;
      SumSplit(a[1..], b);
    }
  }

  lemma {:induction false} SumStep(q: seq<Timer>, i: nat)
    requires i < |q|
    ensures Sum(q[..i + 1]) == Sum(q[..i]) + q[i].time
  {
    assert q[..i + 1] == q[..i] + [q[i]];
    SumSplit(q[..i], [q[i]]);
    assert Sum([q[i]]) == q[i].time + Sum([]);
  }

  lemma {:induction false} SumOrder(q: seq<Timer>, i: nat, j: nat)
    requires i <= j <= |q|
    ensures Sum(q[..i]) <= Sum(q[..j])
  {
    assert q[..j] == q[..i] + q[i..j];
    SumSplit(q[..i], q[i..j]);
  }

  /** Deadlines never decrease along the list. */
  lemma {:induction false} AbsSorted(q: seq<Timer>)
    ensures Sorted(Abs(q))
  {
    forall i, j | 0 <= i < j < |q| ensures Abs(q)[i].due <= Abs(q)[j].due {
      SumOrder(q, i + 1, j + 1);
    }
  }

  /** The first difference changed by d: all deadlines change by d. */
  function Shift(q: seq<Timer>, d: int): seq<Timer>
    requires q != [] ==> q[0].time + d >= 0
  {
    if q == [] then [] else [q[0].(time := q[0].time + d)] + q[1..]
  }

  lemma {:induction false} SumShift(q: seq<Timer>, d: int, j: nat)
    requires (q != [] ==> q[0].time + d >= 0) && 0 < j <= |q|
    ensures Sum(Shift(q, d)[..j]) == Sum(q[..j]) + d
  {
    assert Shift(q, d)[..j][1..] == q[..j][1..];
  }

  /** Dividing a difference in two adds a deadline and keeps all others. */
  lemma {:induction false} Inserted(a: seq<Timer>, b: seq<Timer>, x: Timer)
    requires b != [] ==> b[0].time >= x.time
    ensures var q, k, p := a + b, |a|, a + [x] + Shift(b, 0 - x.time);
            Abs(p) == Abs(q)[..k] + [Entry(Sum(a) + x.time, x.h, x.arg, x.id)] + Abs(q)[k..]
  {
    var q, k, p := a + b, |a|, a + [x] + Shift(b, 0 - x.time);
    var want := Abs(q)[..k] + [Entry(Sum(a) + x.time, x.h, x.arg, x.id)] + Abs(q)[k..];
    assert |p| == |q| + 1 == |want|;
    forall i | 0 <= i < |p| ensures At(p, i) == want[i] {
      InsertedAt(a, b, x, i);
      assert i < k ==> want[i] == At(q, i);
      assert i > k ==> want[i] == At(q, i - 1);
    }
    assert Abs(p) == want;
  }

  lemma {:induction false} InsertedNow(a: seq<Timer>, x: Timer, c: seq<Timer>)
    ensures At(a + [x] + c, |a|) == Entry(Sum(a) + x.time, x.h, x.arg, x.id)
  {
    assert (a + [x] + c)[..|a| + 1] == a + [x];
    SumOne(a, x);
  }

  lemma {:induction false} InsertedAt(a: seq<Timer>, b: seq<Timer>, x: Timer, i: nat)
    requires (b != [] ==> b[0].time >= x.time) && i <= |a + b|
    ensures var q, p := a + b, a + [x] + Shift(b, 0 - x.time);
            |p| == |q| + 1 && At(p, i) == if i < |a| then At(q, i) else if i == |a|
                then Entry(Sum(a) + x.time, x.h, x.arg, x.id) else At(q, i - 1)
  {
    var q, k, p := a + b, |a|, a + [x] + Shift(b, 0 - x.time);
    if i < k {
      assert p[..i + 1] == q[..i + 1];
    } else if i == k {
      InsertedNow(a, x, Shift(b, 0 - x.time));
    } else {
      InsertedLater(a, b, x, i - k);
    }
  }

  lemma {:induction false} SumOne(a: seq<Timer>, x: Timer)
    ensures Sum(a + [x]) == Sum(a) + x.time
  {
    SumSplit(a, [x]);
    assert Sum([x]) == x.time + Sum([]);
  }

  lemma {:induction false} InsertedLater(a: seq<Timer>, b: seq<Timer>, x: Timer, j: nat)
    requires (b != [] ==> b[0].time >= x.time) && 0 < j <= |b|
    ensures Sum((a + [x] + Shift(b, 0 - x.time))[..|a| + j + 1]) == Sum((a + b)[..|a| + j])
  {
    var c := Shift(b, 0 - x.time);
    assert (a + [x] + c)[..|a| + j + 1] == a + [x] + c[..j] && (a + b)[..|a| + j] == a + b[..j];
    SumSplit(a + [x], c[..j]);
    SumOne(a, x);
    SumSplit(a, b[..j]);
    SumShift(b, 0 - x.time, j);
  }

  /** Joining two differences removes a deadline and keeps all others. */
  lemma {:induction false} Deleted(a: seq<Timer>, x: Timer, b: seq<Timer>)
    ensures var q, k, p := a + [x] + b, |a|, a + Shift(b, x.time);
            Abs(p) == Abs(q)[..k] + Abs(q)[k + 1..]
  {
    var c := Shift(b, x.time);
    Inserted(a, c, x);
    assert Shift(c, 0 - x.time) == b;
    var q, k, p := a + [x] + b, |a|, a + c;
    assert Abs(q)[..k] == Abs(p)[..k] && Abs(q)[k + 1..] == Abs(p)[k..];
    assert Abs(p) == Abs(p)[..k] + Abs(p)[k..];
  }

  // ---------------------------------------------------------------- the list in memory

  /** All deadlines fit in 32 bits. */
  ghost predicate Bounded(q: seq<Timer>) {
    forall i :: 0 <= i < |q| ==> Abs(q)[i].due < U32
  }

  /** sys_timeout: the result stands for one more deadline, msecs from now. */
  method AddTimeout(q: seq<Timer>, msecs: nat, h: nat, arg: nat, id: nat) returns (p: seq<Timer>)
    requires msecs < U32 && Bounded(q)
    ensures Abs(p) == Put(Abs(q), Entry(msecs, h, arg, id)) && Bounded(p)
  {
    ghost var e := Entry(msecs, h, arg, id);
    var t := Timer(msecs, h, arg, id);
    if q == [] {
      p := [t];
      PutHere([], q, t, e);
      assert [] + [t] + Shift(q, 0 - t.time) == p;
      return;
    }
    if q[0].time > msecs {
      p := [t, q[0].(time := q[0].time - msecs)] + q[1..];
      assert [] + q == q;
      PutHere([], q, t, e);
      assert [] + [t] + Shift(q, 0 - t.time) == p;
      return;
    }
    var i := 0;
    while i < |q|
      invariant i < |q| && t.time + Sum(q[..i]) == msecs && t == Timer(t.time, h, arg, id) && q[i].time <= t.time
      decreases |q| - i
    {
      SumStep(q, i);
      t := t.(time := t.time - q[i].time);
      i := i + 1;
      if i == |q| || q[i].time > t.time {
        break;
      }
    }
    var next := if i < |q| then [q[i].(time := q[i].time - t.time)] + q[i + 1..] else [];
    p := q[..i] + [t] + next;
    assert q == q[..i] + q[i..];
    assert next == Shift(q[i..], 0 - t.time);
    PutHere(q[..i], q[i..], t, e);
  }

  lemma {:induction false} PutHere(a: seq<Timer>, b: seq<Timer>, t: Timer, e: Entry)
    requires Bounded(a + b) && e == Entry(Sum(a) + t.time, t.h, t.arg, t.id) && e.due < U32
    requires (b != [] ==> b[0].time > t.time)
    ensures Abs(a + [t] + Shift(b, 0 - t.time)) == Put(Abs(a + b), e) && Bounded(a + [t] + Shift(b, 0 - t.time))
  {
    var q, k, p := a + b, |a|, a + [t] + Shift(b, 0 - t.time);
    Inserted(a, b, t);
    forall i | 0 <= i < k ensures Abs(q)[i].due <= e.due {
      assert q[..i + 1] == a[..i + 1] && a[..k] == a;
      SumOrder(a, i + 1, k);
    }
    if b != [] {
      assert q[..k + 1] == a + [b[0]];
      SumOne(a, b[0]);
    }
    PutAt(Abs(q), e, k);
    StillBounded(Abs(q), Abs(p), e, k);
  }

  lemma {:induction false} StillBounded(s: seq<Entry>, t: seq<Entry>, e: Entry, k: nat)
    requires k <= |s| && t == s[..k] + [e] + s[k..] && e.due < U32 && forall i :: 0 <= i < |s| ==> s[i].due < U32
    ensures forall i :: 0 <= i < |t| ==> t[i].due < U32
  {
  }

  /** sys_untimeout: the first match goes, every other deadline stays. */
  method DropTimeout(q: seq<Timer>, h: nat, arg: nat) returns (p: seq<Timer>)
    requires Bounded(q)
    ensures Abs(p) == Remove(Abs(q), h, arg) && Bounded(p)
  {
    var i := 0;
    while i < |q|
      invariant i <= |q| && forall j :: 0 <= j < i ==> q[j].h != h || q[j].arg != arg
    {
      if q[i].h == h && q[i].arg == arg {
        p := q[..i] + Shift(q[i + 1..], q[i].time);
        RemoveHere(q, i);
        return;
      }
      i := i + 1;
    }
    RemoveNowhere(q, h, arg);
    return q;
  }

  lemma {:induction false} RemoveHere(q: seq<Timer>, k: nat)
    requires k < |q| && Bounded(q) && forall j :: 0 <= j < k ==> q[j].h != q[k].h || q[j].arg != q[k].arg
    ensures var p := q[..k] + Shift(q[k + 1..], q[k].time);
            Abs(p) == Remove(Abs(q), q[k].h, q[k].arg) && Bounded(p)
  {
    assert q == q[..k] + [q[k]] + q[k + 1..];
    Deleted(q[..k], q[k], q[k + 1..]);
    RemoveAt(Abs(q), q[k].h, q[k].arg, k);
    StillBoundedLess(Abs(q), Abs(q[..k] + Shift(q[k + 1..], q[k].time)), k);
  }

  lemma {:induction false} RemoveNowhere(q: seq<Timer>, h: nat, arg: nat)
    requires forall j :: 0 <= j < |q| ==> q[j].h != h || q[j].arg != arg
    ensures Remove(Abs(q), h, arg) == Abs(q)
  {
    RemoveNone(Abs(q), h, arg);
  }

  lemma {:induction false} StillBoundedLess(s: seq<Entry>, t: seq<Entry>, k: nat)
    requires k < |s| && t == s[..k] + s[k + 1..] && forall i :: 0 <= i < |s| ==> s[i].due < U32
    ensures forall i :: 0 <= i < |t| ==> t[i].due < U32
  {
  }

  // ---------------------------------------------------------------- time passes

  /** d milliseconds less until every deadline. */
  function Sooner(s: seq<Entry>, d: nat): seq<Entry>
    requires forall i :: 0 <= i < |s| ==> s[i].due >= d
  {
    seq(|s|, i requires 0 <= i < |s| => s[i].(due := s[i].due - d))
  }

  /** Every deadline is at least the first difference away. */
  lemma {:induction false} FirstIsLeast(q: seq<Timer>)
    requires q != []
    ensures forall i :: 0 <= i < |q| ==> Abs(q)[i].due >= q[0].time
  {
    SumStep(q, 0);
    forall i | 0 <= i < |q| ensures Abs(q)[i].due >= q[0].time {
      SumOrder(q, 1, i + 1);
    }
  }

  /** Taking d off the first difference brings all deadlines d closer. */
  lemma {:induction false} ShiftSooner(q: seq<Timer>, d: nat)
    requires q != [] && d <= q[0].time
    ensures forall i :: 0 <= i < |q| ==> Abs(q)[i].due >= d
    ensures Abs(Shift(q, 0 - d)) == Sooner(Abs(q), d)
  {
    FirstIsLeast(q);
    forall i | 0 <= i < |q| ensures Abs(Shift(q, 0 - d))[i] == Sooner(Abs(q), d)[i] {
      SumShift(q, 0 - d, i + 1);
    }
  }

  /** When the first timeout is taken off, the others are due that much sooner. */
  lemma {:induction false} PopSooner(q: seq<Timer>)
    requires q != []
    ensures forall i :: 0 <= i < |q| ==> Abs(q)[i].due >= q[0].time
    ensures Abs(q[1..]) == Sooner(Abs(q), q[0].time)[1..] && Abs(q)[0].due == q[0].time
  {
    FirstIsLeast(q);
    SumStep(q, 0);
    forall i | 0 <= i < |q| - 1 ensures Abs(q[1..])[i] == Sooner(Abs(q), q[0].time)[i + 1] {
      assert q[..i + 2] == [q[0]] + q[1..][..i + 1];
      SumSplit([q[0]], q[1..][..i + 1]);
      assert Sum([q[0]]) == q[0].time + Sum([]);
    }
  }

  // ---------------------------------------------------------------- registrations

  datatype Firing = Firing(id: nat, when: nat)

  ghost predicate EntryOk(s: seq<Entry>, waited: nat, due: seq<nat>, i: nat)
    requires i < |s|
  {
    s[i].id < |due| && waited + s[i].due >= due[s[i].id]
  }

  ghost predicate Apart(s: seq<Entry>, i: nat, j: nat)
    requires i < |s| && j < |s|
  {
    s[i].id != s[j].id
  }

  /** No pending timeout is due before its time; registrations are apart. */
  ghost predicate Pending(s: seq<Entry>, waited: nat, due: seq<nat>) {
    && (forall i :: 0 <= i < |s| ==> EntryOk(s, waited, due, i))
    && (forall i, j :: 0 <= i < j < |s| ==> Apart(s, i, j))
  }

  ghost predicate Once(fired: seq<Firing>, j: nat, k: nat)
    requires j < |fired| && k < |fired|
  {
    fired[j].id != fired[k].id
  }

  ghost predicate Late(fired: seq<Firing>, due: seq<nat>, k: nat)
    requires k < |fired|
  {
    fired[k].id < |due| && fired[k].when >= due[fired[k].id]
  }

  ghost predicate Waiting(fired: seq<Firing>, s: seq<Entry>, i: nat, k: nat)
    requires i < |s| && k < |fired|
  {
    s[i].id != fired[k].id
  }

  /** Handlers ran no earlier than asked for, and once per registration at most. */
  ghost predicate Fired(fired: seq<Firing>, s: seq<Entry>, due: seq<nat>) {
    && (forall k :: 0 <= k < |fired| ==> Late(fired, due, k))
    && (forall j, k :: 0 <= j < k < |fired| ==> Once(fired, j, k))
    && (forall i, k :: 0 <= i < |s| && 0 <= k < |fired| ==> Waiting(fired, s, i, k))
  }

  lemma {:induction false} PutWhere(s: seq<Entry>, e: Entry) returns (k: nat)
    ensures k <= |s| && Put(s, e) == s[..k] + [e] + s[k..]
  {
    k := 0;
    while k < |s| && s[k].due <= e.due
      invariant k <= |s| && forall i :: 0 <= i < k ==> s[i].due <= e.due
    {
      k := k + 1;
    }
    PutAt(s, e, k);
  }

  lemma {:induction false} PutKeeps(s: seq<Entry>, e: Entry, waited: nat, due: seq<nat>, fired: seq<Firing>)
    requires Pending(s, waited, due) && Fired(fired, s, due) && e.id == |due|
    ensures Pending(Put(s, e), waited, due + [waited + e.due]) && Fired(fired, Put(s, e), due + [waited + e.due])
  {
    var k := PutWhere(s, e);
    var t, more := Put(s, e), due + [waited + e.due];
    forall i | 0 <= i < |t| ensures EntryOk(t, waited, more, i) {
      if i < k { assert EntryOk(s, waited, due, i); }
      if i > k { assert EntryOk(s, waited, due, i - 1); }
    }
    forall i, j | 0 <= i < j < |t| ensures Apart(t, i, j) {
      var x, y := if i <= k then i else i - 1, if j <= k then j else j - 1;
      if i == k { assert EntryOk(s, waited, due, y); } else if j == k { assert EntryOk(s, waited, due, x); }
          else { assert Apart(s, x, y); }
    }
    forall j | 0 <= j < |fired| ensures Late(fired, more, j) { assert Late(fired, due, j); }
    forall i, j | 0 <= i < |t| && 0 <= j < |fired| ensures Waiting(fired, t, i, j) {
      assert Late(fired, due, j);
      if i < k { assert Waiting(fired, s, i, j); }
      if i > k { assert Waiting(fired, s, i - 1, j); }
    }
  }

  lemma {:induction false} RemoveWhere(s: seq<Entry>, h: nat, arg: nat) returns (k: nat)
    ensures k <= |s| && Remove(s, h, arg) == if k < |s| then s[..k] + s[k + 1..] else s
  {
    k := 0;
    while k < |s| && (s[k].h != h || s[k].arg != arg)
      invariant k <= |s| && forall i :: 0 <= i < k ==> s[i].h != h || s[i].arg != arg
    {
      k := k + 1;
    }
    if k < |s| { RemoveAt(s, h, arg, k); } else { RemoveNone(s, h, arg); }
  }

  lemma {:induction false} RemoveKeeps(s: seq<Entry>, h: nat, arg: nat, waited: nat, due: seq<nat>, fired: seq<Firing>)
    requires Pending(s, waited, due) && Fired(fired, s, due)
    ensures Pending(Remove(s, h, arg), waited, due) && Fired(fired, Remove(s, h, arg), due)
  {
    var k := RemoveWhere(s, h, arg);
    Fewer(s, Remove(s, h, arg), k, waited, due, fired);
  }

  /** Timeouts that are left are as they were. */
  lemma {:induction false} Fewer(s: seq<Entry>, t: seq<Entry>, k: nat, waited: nat, due: seq<nat>, fired: seq<Firing>)
    requires Pending(s, waited, due) && Fired(fired, s, due) && k <= |s|
             && t == if k < |s| then s[..k] + s[k + 1..] else s
    ensures Pending(t, waited, due) && Fired(fired, t, due)
  {
    forall i | 0 <= i < |t| ensures EntryOk(t, waited, due, i) {
      assert EntryOk(s, waited, due, if i < k then i else i + 1);
    }
    forall i, j | 0 <= i < j < |t| ensures Apart(t, i, j) {
      assert Apart(s, if i < k then i else i + 1, if j < k then j else j + 1);
    }
    forall i, j | 0 <= i < |t| && 0 <= j < |fired| ensures Waiting(fired, t, i, j) {
      assert Waiting(fired, s, if i < k then i else i + 1, j);
    }
  }

  /** Time has passed, and no more than that was taken off the deadlines. */
  lemma {:induction false} SoonerKeeps(s: seq<Entry>, d: nat, passed: nat, waited: nat, due: seq<nat>,
      fired: seq<Firing>)
    requires Pending(s, waited, due) && Fired(fired, s, due) && d <= passed
             && forall i :: 0 <= i < |s| ==> s[i].due >= d
    ensures Pending(Sooner(s, d), waited + passed, due) && Fired(fired, Sooner(s, d), due)
  {
    var t, now := Sooner(s, d), waited + passed;
    forall i | 0 <= i < |t| ensures EntryOk(t, now, due, i) {
      assert EntryOk(s, waited, due, i);
    }
    forall i, j | 0 <= i < j < |t| ensures Apart(t, i, j) {
      assert Apart(s, i, j);
    }
    forall i, j | 0 <= i < |t| && 0 <= j < |fired| ensures Waiting(fired, t, i, j) {
      assert Waiting(fired, s, i, j);
    }
  }

  /** The first timeout, due now, may run; it is pending no longer. */
  lemma {:induction false} FireKeeps(s: seq<Entry>, waited: nat, due: seq<nat>, fired: seq<Firing>, run: bool)
    requires Pending(s, waited, due) && Fired(fired, s, due) && s != [] && s[0].due == 0
    ensures Pending(s[1..], waited, due)
    ensures Fired(if run then fired + [Firing(s[0].id, waited)] else fired, s[1..], due)
  {
    var t, more := s[1..], fired + [Firing(s[0].id, waited)];
    assert t == s[..0] + s[0 + 1..];
    Fewer(s, t, 0, waited, due, fired);
    assert EntryOk(s, waited, due, 0);
    forall k | 0 <= k < |more| ensures Late(more, due, k) {
      if k < |fired| { assert Late(fired, due, k); }
    }
    forall j, k | 0 <= j < k < |more| ensures Once(more, j, k) {
      if k < |fired| { assert Once(fired, j, k); } else { assert Waiting(fired, s, 0, j); }
    }
    forall i, k | 0 <= i < |t| && 0 <= k < |more| ensures Waiting(more, t, i, k) {
      if k < |fired| { assert Waiting(fired, t, i, k); } else { assert Apart(s, 0, i + 1); }
    }
  }

  ghost predicate Ok(q: seq<Timer>, waited: nat, due: seq<nat>, fired: seq<Firing>) {
    Bounded(q) && Pending(Abs(q), waited, due) && Fired(fired, Abs(q), due)
  }

  // ---------------------------------------------------------------- sys_arch_sem_wait

  /** One round of the loop: the semaphore is up or not; if not, how long the sleep took and whether it was freed. */
  datatype Round = Round(up: bool, slept: nat, freed: bool)

  /** The result; StillWaiting when the observed rounds do not end the call. */
  datatype Answer = Signal(waited: nat) | TimedOut | StillWaiting

  /** What the call answers, and the milliseconds it took: waited has 32 bits, took has not. */
  function WaitFor(tm: nat, rounds: seq<Round>, waited: nat, took: nat): (r: (Answer, nat))
    ensures r.1 >= took
  {
    if tm != 0 && waited >= tm then (TimedOut, took)
    else if rounds == [] then (StillWaiting, took)
    else if rounds[0].up then (Signal(waited), took)
    else if tm == NOWAIT then (TimedOut, took)
    else if rounds[0].freed then (TimedOut, took + rounds[0].slept)
    else WaitFor(tm, rounds[1..], (waited + rounds[0].slept) % U32, took + rounds[0].slept)
  }

  predicate NoneFreed(rounds: seq<Round>) {
    forall i :: 0 <= i < |rounds| ==> !rounds[i].freed
  }

  /** The milliseconds of all sleeps. */
  function Slept(rounds: seq<Round>): nat {
    if rounds == [] then 0 else rounds[0].slept + Slept(rounds[1..])
  }

  /** The loop gets to round k: it has found the semaphore down and not freed, and time left, until then. */
  ghost predicate GetsTo(tm: nat, rounds: seq<Round>, waited: nat, k: nat) {
    && k <= |rounds|
    && forall i :: 0 <= i < k ==>
         !rounds[i].up && !rounds[i].freed && tm != NOWAIT && (tm == 0 || (waited + Slept(rounds[..i])) % U32 < tm)
  }

  /** How a wait that has got to round k ends there, its count being now; more is what that adds to the sleeps. */
  ghost predicate Ends(tm: nat, rounds: seq<Round>, k: nat, now: nat, a: Answer, more: int) {
    if tm != 0 && now >= tm then a == TimedOut && more == 0
    else if k >= |rounds| then a == StillWaiting && more == 0
    else if rounds[k].up then a == Signal(now) && more == 0
    else if tm == NOWAIT then a == TimedOut && more == 0
    else rounds[k].freed && a == TimedOut && more == rounds[k].slept
  }

  /**
    What the wait comes to, and when: it ends in the first round that finds the limit reached, the semaphore up, no
    time allowed, or the semaphore freed; it has taken the sleeps until then, and a signal reports just them.
   */
  lemma {:induction false} WaitIs(tm: nat, rounds: seq<Round>, waited: nat, took: nat) returns (k: nat)
    requires waited < U32
    ensures GetsTo(tm, rounds, waited, k) && EndsAt(tm, rounds, waited, took, k)
  {
    if (tm != 0 && waited >= tm) || rounds == [] || rounds[0].up || tm == NOWAIT || rounds[0].freed {
      k := 0;
      assert rounds[..0] == [];
    } else {
      var next := (waited + rounds[0].slept) % U32;
      var j := WaitIs(tm, rounds[1..], next, took + rounds[0].slept);
      k := j + 1;
      assert GetsTo(tm, rounds, waited, 1) by { assert rounds[..0] == []; }
      GetsFurther(tm, rounds, waited, next, j);
      EndsLater(tm, rounds, waited, took, next, j);
    }
  }

  ghost predicate EndsAt(tm: nat, rounds: seq<Round>, waited: nat, took: nat, k: nat)
    requires k <= |rounds|
  {
    var r, spent := WaitFor(tm, rounds, waited, took), Slept(rounds[..k]);
    Ends(tm, rounds, k, (waited + spent) % U32, r.0, r.1 - took - spent)
  }

  lemma {:induction false} EndsLater(tm: nat, rounds: seq<Round>, waited: nat, took: nat, next: nat, j: nat)
    requires rounds != [] && (tm == 0 || waited < tm) && !rounds[0].up && tm != NOWAIT && !rounds[0].freed
    requires next == (waited + rounds[0].slept) % U32 && j < |rounds|
    requires EndsAt(tm, rounds[1..], next, took + rounds[0].slept, j)
    ensures EndsAt(tm, rounds, waited, took, j + 1)
  {
    var rest, later := rounds[1..], took + rounds[0].slept;
    var r := WaitFor(tm, rest, next, later);
    assert WaitFor(tm, rounds, waited, took) == r;
    SleptOn(rounds, waited, next, j);
    EndsFurther(tm, rounds, j, (next + Slept(rest[..j])) % U32, r.0, r.1 - later - Slept(rest[..j]));
  }

  lemma {:induction false} EndsFurther(tm: nat, rounds: seq<Round>, j: nat, now: nat, a: Answer, more: int)
    requires rounds != [] && Ends(tm, rounds[1..], j, now, a, more)
    ensures Ends(tm, rounds, j + 1, now, a, more)
  {
  }

  lemma {:induction false} GetsFurther(tm: nat, rounds: seq<Round>, waited: nat, next: nat, j: nat)
    requires rounds != [] && waited < U32 && next == (waited + rounds[0].slept) % U32
    requires GetsTo(tm, rounds[1..], next, j) && GetsTo(tm, rounds, waited, 1)
    ensures GetsTo(tm, rounds, waited, j + 1)
  {
    forall i | 0 <= i < j + 1
      ensures !rounds[i].up && !rounds[i].freed && tm != NOWAIT && (tm == 0 || (waited + Slept(rounds[..i])) % U32 < tm)
    {
      if i > 0 {
        SleptOn(rounds, waited, next, i - 1);
        assert rounds[1..][i - 1] == rounds[i];
      }
    }
  }

  lemma {:induction false} SleptOn(rounds: seq<Round>, waited: nat, next: nat, j: nat)
    requires j < |rounds| && next == (waited + rounds[0].slept) % U32
    ensures Slept(rounds[..j + 1]) == rounds[0].slept + Slept(rounds[1..][..j])
    ensures (next + Slept(rounds[1..][..j])) % U32 == (waited + Slept(rounds[..j + 1])) % U32
  {
    assert rounds[..j + 1][1..] == rounds[1..][..j];
  }

  /** A signal reports the time it took, in 32 bits, and that is less than the limit. */
  lemma {:induction false} SignalReports(tm: nat, rounds: seq<Round>, waited: nat, took: nat)
    requires waited == took % U32
    ensures var (a, t) := WaitFor(tm, rounds, waited, took);
            a.Signal? ==> a.waited == t % U32 && (tm != 0 ==> a.waited < tm)
  {
    if (tm == 0 || waited < tm) && rounds != [] && !rounds[0].up && tm != NOWAIT && !rounds[0].freed {
      SignalReports(tm, rounds[1..], (waited + rounds[0].slept) % U32, took + rounds[0].slept);
    }
  }

  /** Without a limit of NOWAIT, and unless the semaphore is freed, a timeout is no early one. */
  lemma {:induction false} TimeoutTakes(tm: nat, rounds: seq<Round>, waited: nat, took: nat)
    requires waited <= took && tm != NOWAIT && NoneFreed(rounds)
    ensures WaitFor(tm, rounds, waited, took).0 == TimedOut ==> tm != 0 && WaitFor(tm, rounds, waited, took).1 >= tm
  {
    if (tm == 0 || waited < tm) && rounds != [] && !rounds[0].up {
      assert !rounds[0].freed;
      TimeoutTakes(tm, rounds[1..], (waited + rounds[0].slept) % U32, took + rounds[0].slept);
    }
  }

  /** A timeout comes no earlier than asked for if and only if the limit is not NOWAIT. */
  lemma {:induction false} TimeoutExact(tm: nat, rounds: seq<Round>)
    requires 0 < tm < U32 && NoneFreed(rounds) && WaitFor(tm, rounds, 0, 0).0 == TimedOut
    ensures WaitFor(tm, rounds, 0, 0).1 >= tm <==> tm != NOWAIT
  {
    if tm != NOWAIT {
      TimeoutTakes(tm, rounds, 0, 0);
    }
  }

  method SemWait(tm: nat, rounds: seq<Round>) returns (a: Answer, ghost took: nat)
    ensures (a, took) == WaitFor(tm, rounds, 0, 0)
  {
    var waited: nat := 0;
    took := 0;
    var i := 0;
    while tm == 0 || waited < tm
      invariant i <= |rounds| && WaitFor(tm, rounds[i..], waited, took) == WaitFor(tm, rounds, 0, 0)
      decreases |rounds| - i
    {
      if i == |rounds| {
        return StillWaiting, took;
      }
      assert rounds[i..][1..] == rounds[i + 1..];
      if rounds[i].up {
        return Signal(waited), took;
      } else if tm == NOWAIT {
        return TimedOut, took;
      }
      took := took + rounds[i].slept;
      if rounds[i].freed {
        return TimedOut, took;
      }
      waited := (waited + rounds[i].slept) % U32;
      i := i + 1;
    }
    return TimedOut, took;
  }

  // ---------------------------------------------------------------- the waits of sys.c

  /** What a handler may do to the timeouts. */
  datatype Command = Arm(msecs: nat, h: nat, arg: nat) | Cancel(h: nat, arg: nat)

  /** One turn of sys_mbox_fetch or sys_sem_wait: how the wait goes, and what the handler does if one runs. */
  datatype Turn = Turn(rounds: seq<Round>, handler: seq<Command>)

  datatype Outcome = Done | Again | Blocked

  datatype Step = Do(command: Command) | Wait(turns: seq<Turn>)

  /** How a turn waits: for ever without timeouts, not at all if the first is due, and else until it is. */
  function Answered(q: seq<Timer>, rounds: seq<Round>): (Answer, nat) {
    if q == [] then WaitFor(0, rounds, 0, 0)
    else if q[0].time == 0 then (TimedOut, 0)
    else WaitFor(q[0].time, rounds, 0, 0)
  }

  // Nothing registered for NOWAIT milliseconds or more, and no semaphore freed under a waiter.

  predicate CalmCommand(c: Command) {
    c.Arm? ==> c.msecs < NOWAIT
  }

  predicate CalmCommands(cs: seq<Command>) {
    forall i :: 0 <= i < |cs| ==> CalmCommand(cs[i])
  }

  predicate CalmTurn(t: Turn) {
    NoneFreed(t.rounds) && CalmCommands(t.handler)
  }

  predicate CalmTurns(ts: seq<Turn>) {
    forall i :: 0 <= i < |ts| ==> CalmTurn(ts[i])
  }

  predicate CalmStep(s: Step) {
    match s
    case Do(c) => CalmCommand(c)
    case Wait(ts) => CalmTurns(ts)
  }

  /** Everything pending is due in less than NOWAIT milliseconds. */
  ghost predicate Small(q: seq<Timer>) {
    forall i :: 0 <= i < |q| ==> Abs(q)[i].due < NOWAIT
  }

  lemma {:induction false} SmallPut(q: seq<Timer>, p: seq<Timer>, e: Entry)
    requires Small(q) && e.due < NOWAIT && Abs(p) == Put(Abs(q), e)
    ensures Small(p)
  {
    var k := PutWhere(Abs(q), e);
    forall i | 0 <= i < |p| ensures Abs(p)[i].due < NOWAIT {
      if i < k { assert Abs(p)[i] == Abs(q)[i]; }
      if i > k { assert Abs(p)[i] == Abs(q)[i - 1]; }
    }
  }

  lemma {:induction false} SmallRemove(q: seq<Timer>, p: seq<Timer>, h: nat, arg: nat)
    requires Small(q) && Abs(p) == Remove(Abs(q), h, arg)
    ensures Small(p)
  {
    var k := RemoveWhere(Abs(q), h, arg);
    forall i | 0 <= i < |p| ensures Abs(p)[i].due < NOWAIT {
      assert Abs(p)[i] == Abs(q)[if i < k then i else i + 1];
    }
  }

  lemma {:induction false} SmallSooner(q: seq<Timer>, p: seq<Timer>, d: nat)
    requires Small(q) && (forall i :: 0 <= i < |q| ==> Abs(q)[i].due >= d) && Abs(p) == Sooner(Abs(q), d)
    ensures Small(p)
  {
    forall i | 0 <= i < |p| ensures Abs(p)[i].due < NOWAIT {
      assert Abs(q)[i].due < NOWAIT;
    }
  }

  lemma {:induction false} SmallPop(q: seq<Timer>)
    requires Small(q) && q != []
    ensures Small(q[1..]) && q[0].time < NOWAIT
  {
    PopSooner(q);
    forall i | 0 <= i < |q[1..]| ensures Abs(q[1..])[i].due < NOWAIT {
      assert Abs(q)[i + 1].due < NOWAIT;
    }
    assert Abs(q)[0].due < NOWAIT && q[..1] == [q[0]];
  }

  /**
    A turn with timeouts waits for the first and no longer: if it times out, that is at once when the first is due,
    and otherwise in the first round that finds its time reached, no time allowed, or the semaphore freed.
   */
  lemma {:induction false} TurnPrompt(q: seq<Timer>, rounds: seq<Round>) returns (k: nat)
    requires q != [] && Answered(q, rounds).0 == TimedOut
    ensures if q[0].time == 0 then k == 0 && Answered(q, rounds).1 == 0
            else
              && GetsTo(q[0].time, rounds, 0, k)
              && (Slept(rounds[..k]) % U32 >= q[0].time || q[0].time == NOWAIT || (k < |rounds| && rounds[k].freed))
              && Answered(q, rounds).1 >= Slept(rounds[..k])
  {
    k := 0;
    if q[0].time > 0 {
      k := WaitIs(q[0].time, rounds, 0, 0);
    }
  }

  /** The timeouts of a thread as deadlines, and when all that were ever registered are due. */
  datatype Book = Book(entries: seq<Entry>, due: seq<nat>)

  /** sys_timeout or sys_untimeout at the time now, with room for cap timeouts. */
  function Carry(b: Book, cap: nat, now: nat, c: Command): Book {
    match c
    case Arm(msecs, h, arg) =>
      if msecs >= U32 || |b.entries| >= cap then b
      else Book(Put(b.entries, Entry(msecs, h, arg, |b.due|)), b.due + [now + msecs])
    case Cancel(h, arg) => b.(entries := Remove(b.entries, h, arg))
  }

  function CarryAll(b: Book, cap: nat, now: nat, cs: seq<Command>): Book {
    if cs == [] then b else Carry(CarryAll(b, cap, now, cs[..|cs| - 1]), cap, now, cs[|cs| - 1])
  }

  /** A thread between two steps. */
  datatype Snap = Snap(list: seq<Timer>, due: seq<nat>, waited: nat, skipped: nat, fired: seq<Firing>)

  ghost function BookOf(s: Snap): Book {
    Book(Abs(s.list), s.due)
  }

  /** A wait that times out takes the first timeout off; its handler runs, and does what cs says. */
  ghost predicate TurnedOver(s: Snap, cap: nat, took: nat, cs: seq<Command>, t: Snap) {
    && s.list != [] && t.waited == s.waited + took
    && t.skipped == s.skipped + (if took < s.list[0].time then s.list[0].time - took else 0)
    && if s.list[0].h == 0 then t.fired == s.fired && t.list == s.list[1..] && t.due == s.due
       else
         && t.fired == s.fired + [Firing(s.list[0].id, t.waited + t.skipped)]
         && BookOf(t) == CarryAll(Book(Abs(s.list[1..]), s.due), cap, t.waited + t.skipped, cs)
  }

  /** A wait that ends otherwise brings the deadlines closer by what it reports. */
  ghost predicate Passed(s: Snap, reported: nat, took: nat, t: Snap) {
    && t.waited == s.waited + took && t.skipped == s.skipped && t.fired == s.fired && t.due == s.due
    && t.list == if s.list == [] then [] else Shift(s.list, 0 - Min(reported, s.list[0].time))
  }

  /** One turn of sys_mbox_fetch or sys_sem_wait. */
  ghost predicate Turned(s: Snap, cap: nat, turn: Turn, r: Outcome, t: Snap) {
    var (a, took) := Answered(s.list, turn.rounds);
    if s.list != [] && a == TimedOut then r == Again && TurnedOver(s, cap, took, turn.handler, t)
    else
      && r == (if a == StillWaiting then Blocked else Done)
      && Passed(s, if a.Signal? then a.waited else 0, took, t)
  }

  /**
    All of sys_mbox_fetch, turn by turn: it goes round again after a timeout, and only then. It is done with the
    turn that brings a signal, or that had no timeout to wait for; otherwise it needs more turns, or blocks.
   */
  ghost predicate Fetched(ss: seq<Snap>, cap: nat, turns: seq<Turn>, r: Outcome) {
    && 0 < |ss| <= |turns| + 1
    && (forall i :: 0 <= i < |ss| - 1 ==>
          Turned(ss[i], cap, turns[i], if i == |ss| - 2 then r else Again, ss[i + 1]))
    && (r == Again <==> |ss| == |turns| + 1 && forall i :: 0 <= i < |ss| - 1 ==>
          Turned(ss[i], cap, turns[i], Again, ss[i + 1]))
  }

  /** One step of a thread. */
  ghost predicate Stepped(s: Snap, cap: nat, step: Step, t: Snap) {
    match step
    case Do(c) =>
      && BookOf(t) == Carry(BookOf(s), cap, s.waited + s.skipped, c)
      && t.waited == s.waited && t.skipped == s.skipped && t.fired == s.fired
    case Wait(turns) =>
      exists ss, r :: Fetched(ss, cap, turns, r) && ss[0] == s && ss[|ss| - 1] == t
  }

  ghost predicate IsRun(ss: seq<Snap>, cap: nat, steps: seq<Step>) {
    |ss| == |steps| + 1 && forall i :: 0 <= i < |steps| ==> Stepped(ss[i], cap, steps[i], ss[i + 1])
  }

  lemma {:induction false} RunOn(ss: seq<Snap>, cap: nat, steps: seq<Step>, n: nat, t: Snap)
    requires n < |steps| && IsRun(ss, cap, steps[..n]) && Stepped(ss[n], cap, steps[n], t)
    ensures IsRun(ss + [t], cap, steps[..n + 1])
  {
    var tt, done := ss + [t], steps[..n + 1];
    forall i | 0 <= i < |done| ensures Stepped(tt[i], cap, done[i], tt[i + 1]) {
      if i < n { assert Stepped(ss[i], cap, steps[..n][i], ss[i + 1]); }
    }
  }

  /** One more turn after timeouts only. */
  lemma {:induction false} FetchOn(ss: seq<Snap>, cap: nat, turns: seq<Turn>, n: nat, r: Outcome, t: Snap)
    requires n < |turns| && |ss| == n + 1 && Turned(ss[n], cap, turns[n], r, t)
    requires forall i :: 0 <= i < n ==> Turned(ss[i], cap, turns[i], Again, ss[i + 1])
    ensures r == Again ==> forall i :: 0 <= i < n + 1 ==> Turned((ss + [t])[i], cap, turns[i], Again, (ss + [t])[i + 1])
    ensures r != Again ==> Fetched(ss + [t], cap, turns, r)
  {
    var tt := ss + [t];
    forall i | 0 <= i < n + 1 ensures Turned(tt[i], cap, turns[i], if i == n then r else Again, tt[i + 1]) {
    }
    if r != Again {
      assert !Turned(tt[n], cap, turns[n], Again, tt[n + 1]);
    }
  }

  class Thread {
    const capacity: nat                 // entries of MEMP_SYS_TIMEOUT
    var list: seq<Timer>
    var registered: nat
    ghost var waited: nat               // milliseconds spent waiting
    ghost var skipped: nat              // what timeouts that came too early have left out
    ghost var large: bool               // NOWAIT milliseconds or more have been asked for
    ghost var due: seq<nat>             // by registration, in terms of Counted()
    ghost var fired: seq<Firing>

    /** The time the list goes by; that is the time waited as long as nothing was skipped. */
    ghost function Counted(): nat
      reads this
    {
      waited + skipped
    }

    ghost predicate Valid()
      reads this
    {
      registered == |due| && Ok(list, Counted(), due, fired) && (!large ==> Small(list))
    }

    ghost function S(): Snap
      reads this
    {
      Snap(list, due, waited, skipped, fired)
    }

    constructor (entries: nat)
      ensures Valid() && list == [] && fired == [] && due == [] && capacity == entries
      ensures waited == skipped == 0 && !large
    {
      capacity, list, registered := entries, [], 0;
      waited, skipped, large, due, fired := 0, 0, false, [], [];
    }

    /** sys_timeout; nothing happens when the pool of entries is empty. */
    method Timeout(msecs: nat, h: nat, arg: nat)
      requires Valid() && msecs < U32
      modifies this`list, this`registered, this`due, this`large
      ensures Valid() && large == (old(large) || (|old(list)| < capacity && msecs >= NOWAIT))
      ensures |old(list)| >= capacity ==> list == old(list) && due == old(due)
      ensures |old(list)| < capacity ==> due == old(due) + [Counted() + msecs]
                                         && Abs(list) == Put(Abs(old(list)), Entry(msecs, h, arg, |old(due)|))
    {
      if |list| < capacity {
        ghost var q, e := list, Entry(msecs, h, arg, registered);
        PutKeeps(Abs(list), e, Counted(), due, fired);
        list := AddTimeout(list, msecs, h, arg, registered);
        registered := registered + 1;
        due := due + [Counted() + msecs];
        large := large || msecs >= NOWAIT;
        if !large { SmallPut(q, list, e); }
      }
    }

    /** sys_untimeout */
    method Untimeout(h: nat, arg: nat)
      requires Valid()
      modifies this`list
      ensures Valid() && Abs(list) == Remove(Abs(old(list)), h, arg)
    {
      ghost var q := list;
      RemoveKeeps(Abs(list), h, arg, Counted(), due, fired);
      list := DropTimeout(list, h, arg);
      if !large { SmallRemove(q, list, h, arg); }
    }

    method Handle(commands: seq<Command>)
      requires Valid()
      modifies this`list, this`registered, this`due, this`large
      ensures Valid() && old(due) <= due && (CalmCommands(commands) ==> large == old(large))
      ensures commands == [] ==> list == old(list) && due == old(due)
      ensures BookOf(S()) == CarryAll(old(BookOf(S())), capacity, Counted(), commands)
    {
      for i := 0 to |commands|
        invariant Valid() && old(due) <= due && (CalmCommands(commands) ==> large == old(large))
        invariant i == 0 ==> list == old(list) && due == old(due)
        invariant BookOf(S()) == CarryAll(old(BookOf(S())), capacity, Counted(), commands[..i])
      {
        assert CalmCommands(commands) ==> CalmCommand(commands[i]);
        assert commands[..i + 1][..i] == commands[..i];
        match commands[i] {
          case Arm(msecs, h, arg) => if msecs < U32 { Timeout(msecs, h, arg); }
          case Cancel(h, arg) => Untimeout(h, arg);
        }
      }
      assert commands[..|commands|] == commands;
    }

    /** A message came; the wait took so many milliseconds and reports elapsed. */
    method Got(elapsed: nat, ghost took: nat)
      requires Valid() && elapsed <= took
      modifies this`list, this`waited
      ensures Valid() && Passed(old(S()), elapsed, took, S())
      ensures old(list) != [] ==>
                var d := Min(elapsed, old(list)[0].time);
                (forall i :: 0 <= i < |old(list)| ==> Abs(old(list))[i].due >= d)
                    && Abs(list) == Sooner(Abs(old(list)), d)
    {
      ghost var q := list;
      if list != [] {
        var d := Min(elapsed, list[0].time);
        ShiftSooner(q, d);
        SoonerKeeps(Abs(q), d, took, Counted(), due, fired);
        list := Shift(list, -(d as int));
        if !large { SmallSooner(q, list, d); }
      } else {
        NothingLeft(Counted(), due, fired, took);
      }
      waited := waited + took;
    }

    /** No message came: the first timeout is taken off, and its handler runs if there is one. */
    method Expire(ghost took: nat, commands: seq<Command>)
      requires Valid() && list != []
      modifies this`list, this`registered, this`due, this`waited, this`skipped, this`fired, this`large
      ensures Valid() && old(due) <= due && TurnedOver(old(S()), capacity, took, commands, S())
      ensures CalmCommands(commands) ==> large == old(large)
      ensures commands == [] ==> due == old(due) && list == old(list)[1..]
    {
      var h := Pop(took);
      if h != 0 {
        Handle(commands);
      }
    }

    /** The first timeout is taken off after a wait. */
    method Pop(ghost took: nat) returns (h: nat)
      requires Valid() && list != []
      modifies this`list, this`waited, this`skipped, this`fired
      ensures Valid() && list == old(list)[1..] && h == old(list)[0].h && waited == old(waited) + took
      ensures skipped == old(skipped) + if took < old(list)[0].time then old(list)[0].time - took else 0
      ensures fired == if h != 0 then old(fired) + [Firing(old(list)[0].id, Counted())] else old(fired)
    {
      ghost var q, before, runs := list, Counted(), fired;
      if !large { SmallPop(q); }
      h := list[0].h;
      list := list[1..];
      waited := waited + took;
      skipped := skipped + if took < q[0].time then q[0].time - took else 0;
      fired := if h != 0 then fired + [Firing(q[0].id, Counted())] else fired;
      Expired(q, before, due, runs, Counted() - before - q[0].time, list, Counted(), fired);
    }

    /**
      One turn of sys_mbox_fetch, and of sys_sem_wait alike. The handler of the first timeout runs
      no earlier than it is due if and only if the first difference is not NOWAIT, unless the
      semaphore is freed.
     */
    method TakeTurn(turn: Turn) returns (r: Outcome)
      requires Valid()
      modifies this`list, this`registered, this`due, this`waited, this`skipped, this`fired, this`large
      ensures Valid() && old(due) <= due && old(fired) <= fired && waited >= old(waited) && skipped >= old(skipped)
      ensures Turned(old(S()), capacity, turn, r, S())
      ensures r == Again && turn.handler == [] ==> due == old(due)
      ensures r == Again && NoneFreed(turn.rounds) ==>
                (waited >= old(waited) + old(list)[0].time <==> old(list)[0].time != NOWAIT)
      ensures r != Again ==> fired == old(fired) && due == old(due) && skipped == old(skipped) && large == old(large)
      ensures CalmTurn(turn) && !old(large) ==> !large && skipped == old(skipped)
    {
      ghost var q := list;
      var limit := if list == [] then 0 else list[0].time;
      var a := TimedOut;
      ghost var took := 0;
      if list == [] || limit > 0 {
        a, took := SemWait(limit, turn.rounds);
        SignalReports(limit, turn.rounds, 0, 0);
      }
      if list != [] && a == TimedOut {
        FirstIs(q);
        if limit > 0 && NoneFreed(turn.rounds) { TimeoutExact(limit, turn.rounds); }
        if !large { SmallPop(q); }
        Expire(took, turn.handler);
        return Again;
      }
      Got(if a.Signal? then a.waited else 0, took);
      return if a == StillWaiting then Blocked else Done;
    }

    /** sys_mbox_fetch, and sys_sem_wait: timeouts run until a message comes. */
    method Fetch(turns: seq<Turn>) returns (r: Outcome, ghost ss: seq<Snap>)
      requires Valid()
      modifies this`list, this`registered, this`due, this`waited, this`skipped, this`fired, this`large
      ensures Valid() && old(due) <= due && old(fired) <= fired && waited >= old(waited) && skipped >= old(skipped)
      ensures Fetched(ss, capacity, turns, r) && ss[0] == old(S()) && ss[|ss| - 1] == S()
      ensures CalmTurns(turns) && !old(large) ==> !large && skipped == old(skipped)
    {
      r, ss := Again, [S()];
      for i := 0 to |turns|
        invariant Valid() && old(due) <= due && old(fired) <= fired && waited >= old(waited) && skipped >= old(skipped)
        invariant CalmTurns(turns) && !old(large) ==> !large && skipped == old(skipped)
        invariant r == Again && |ss| == i + 1 && ss[0] == old(S()) && ss[i] == S()
        invariant forall k :: 0 <= k < i ==> Turned(ss[k], capacity, turns[k], Again, ss[k + 1])
      {
        assert CalmTurns(turns) ==> CalmTurn(turns[i]);
        ghost var us := ss;
        r := TakeTurn(turns[i]);
        ss := ss + [S()];
        FetchOn(us, capacity, turns, i, r, S());
        if r != Again {
          return;
        }
      }
    }

    method TakeStep(step: Step)
      requires Valid()
      modifies this`list, this`registered, this`due, this`waited, this`skipped, this`fired, this`large
      ensures Valid() && old(due) <= due && old(fired) <= fired && skipped >= old(skipped)
      ensures Stepped(old(S()), capacity, step, S())
      ensures CalmStep(step) && !old(large) ==> !large && skipped == old(skipped)
    {
      match step {
        case Do(command) =>
          Handle([command]);
          assert [command][..0] == [];
        case Wait(turns) =>
          ghost var ss;
          var r;
          r, ss := Fetch(turns);
      }
    }

    /**
      Over every run a handler runs once per registration at most, and never before its time as the
      list counts it. That is the time waited as long as nobody asks for NOWAIT milliseconds or more
      and no semaphore is freed under a waiter.
     */
    method Run(steps: seq<Step>) returns (ghost ss: seq<Snap>)
      requires Valid()
      modifies this`list, this`registered, this`due, this`waited, this`skipped, this`fired, this`large
      ensures Valid() && old(due) <= due && old(fired) <= fired && skipped >= old(skipped)
      ensures forall k :: 0 <= k < |fired| ==> fired[k].id < |due| && fired[k].when >= due[fired[k].id]
      ensures forall j, k :: 0 <= j < k < |fired| ==> fired[j].id != fired[k].id
      ensures !old(large) && (forall i :: 0 <= i < |steps| ==> CalmStep(steps[i])) ==>
                !large && skipped == old(skipped)
      ensures IsRun(ss, capacity, steps) && ss[0] == old(S()) && ss[|steps|] == S()
    {
      ss := [S()];
      ghost var calm := forall i :: 0 <= i < |steps| ==> CalmStep(steps[i]);
      for i := 0 to |steps|
        invariant Valid() && old(due) <= due && old(fired) <= fired && skipped >= old(skipped)
        invariant calm && !old(large) ==> !large && skipped == old(skipped)
        invariant IsRun(ss, capacity, steps[..i]) && ss[0] == old(S()) && ss[i] == S()
      {
        assert calm ==> CalmStep(steps[i]);
        TakeStep(steps[i]);
        RunOn(ss, capacity, steps, i, S());
        ss := ss + [S()];
      }
      assert steps[..|steps|] == steps;
      forall k | 0 <= k < |fired| ensures fired[k].id < |due| && fired[k].when >= due[fired[k].id] {
        assert Late(fired, due, k);
      }
      forall j, k | 0 <= j < k < |fired| ensures fired[j].id != fired[k].id {
        assert Once(fired, j, k);
      }
    }
  }

  /** A timeout of 2^32 - 2 milliseconds runs at once; one of 2^32 - 1 does so after a message that took 1 ms. */
  method RunsAtOnce(extra: nat) returns (t: Thread)
    requires extra <= 1
    ensures t.Valid() && t.due == [NOWAIT + extra] && t.waited == extra && fresh(t)
    ensures |t.fired| == 1 && t.fired[0].id == 0
  {
    t := new Thread(1);
    t.Timeout(NOWAIT + extra, 1, 0);
    OneEntry(t.list, NOWAIT + extra, 1, 0, 0);
    if extra == 1 {
      var rounds := [Round(false, 1, false), Round(true, 0, false)];
      assert rounds[1..] == [Round(true, 0, false)];
      assert WaitFor(NOWAIT + 1, rounds[1..], 1, 1) == (Signal(1), 1);
      var r := t.TakeTurn(Turn(rounds, []));
    }
    assert t.list == [Timer(NOWAIT, 1, 0, 0)];
    var r := t.TakeTurn(Turn([Round(false, 0, false)], []));
  }

  lemma {:induction false} OneEntry(q: seq<Timer>, due: nat, h: nat, arg: nat, id: nat)
    requires Abs(q) == Put([], Entry(due, h, arg, id))
    ensures q == [Timer(due, h, arg, id)]
  {
    assert |q| == |Abs(q)| == 1;
    assert Abs(q)[0] == At(q, 0) && q[..1] == [q[0]];
    assert Sum([q[0]]) == q[0].time + Sum([]);
    assert q == [q[0]];
  }

  lemma {:induction false} FirstIs(q: seq<Timer>)
    requires Bounded(q) && q != []
    ensures q[0].time < U32
  {
    assert Abs(q)[0] == At(q, 0) && q[..1] == [q[0]];
  }

  lemma {:induction false} NothingLeft(now: nat, due: seq<nat>, fired: seq<Firing>, more: nat)
    requires Pending([], now, due) && Fired(fired, [], due)
    ensures Pending([], now + more, due)
  {
  }

  /** The first timeout's time is up, late milliseconds ago. */
  lemma {:induction false} Expired(q: seq<Timer>, waited: nat, due: seq<nat>, fired: seq<Firing>, late: nat,
                                   p: seq<Timer>, now: nat, more: seq<Firing>)
    requires q != [] && Ok(q, waited, due, fired) && p == q[1..] && now == waited + q[0].time + late
    requires more == if q[0].h != 0 then fired + [Firing(q[0].id, now)] else fired
    ensures Ok(p, now, due, more)
  {
    DueNow(q, waited, due, fired, late, now);
    var t := Sooner(Abs(q), q[0].time);
    FireKeeps(t, now, due, fired, q[0].h != 0);
    StillBoundedSooner(Abs(q), q[0].time, Abs(p));
    assert t[1..] == Abs(p);
  }

  lemma {:induction false} DueNow(q: seq<Timer>, waited: nat, due: seq<nat>, fired: seq<Firing>, late: nat, now: nat)
    requires q != [] && Pending(Abs(q), waited, due) && Fired(fired, Abs(q), due) && now == waited + q[0].time + late
    ensures forall i :: 0 <= i < |q| ==> Abs(q)[i].due >= q[0].time
    ensures var t := Sooner(Abs(q), q[0].time);
            Pending(t, now, due) && Fired(fired, t, due) && t != [] && t[0].due == 0 && t[0].id == q[0].id
                && t[1..] == Abs(q[1..])
  {
    PopSooner(q);
    SoonerKeeps(Abs(q), q[0].time, q[0].time + late, waited, due, fired);
  }

  lemma {:induction false} StillBoundedSooner(s: seq<Entry>, d: nat, t: seq<Entry>)
    requires s != [] && (forall i :: 0 <= i < |s| ==> d <= s[i].due < U32) && t == Sooner(s, d)[1..]
    ensures forall i :: 0 <= i < |t| ==> t[i].due < U32
  {
  }
}
