/**
  lib/fd.c and lib/pipe.c: how environments come to hold the two ends of a pipe, one map or
  unmap at a time, and how a reader or writer finds out that the other end is closed.
 */
module PipeEnd {

  const MAXFD: nat := 32

  /** The Fd pages of the two ends, the pipe page itself, and everything else. */
  datatype Page = ReadFd | WriteFd | Pipe | Other

  /** Slots are pages counted from FDTABLE: Fd pages first, their data pages MAXFD further up. */
  type Table = map<int, Page>

  predicate IsEnd(t: Table, k: int) {
    k in t && (t[k] == ReadFd || t[k] == WriteFd)
  }

  /** What an environment is in the middle of. */
  datatype Pc =
    | Idle
    | Closing(fd: nat)                            // Fd page unmapped, data page not yet
    | DupClosing(from: nat, to: nat)              // the same, for close(newfdnum) inside dup
    | DupData(from: nat, to: nat)                 // about to map the data page
    | DupFd(from: nat, to: nat)                   // about to map the Fd page
    | UndoFd(to: nat) | UndoData(to: nat)         // the error path of dup
    | CountFd(fd: nat, n: nat)                    // _pipeisclosed, env_runs was n
    | CountPipe(fd: nat, n: nat, a: nat)          // pageref(fd) was a
    | Recheck(fd: nat, n: nat, a: nat, b: nat)    // pageref(p) was b
    | Answer(closed: bool, fd: nat)

  datatype Env = Env(table: Table, pc: Pc, runs: nat)

  datatype State = State(envs: seq<Env>, cur: nat)

  /** ok: whether the kernel has memory for a page table when one is needed. */
  datatype Action = Close(fd: nat) | Dup(from: nat, to: nat) | Ask(fd: nat) | Go(ok: bool) | Switch(to: nat)

  ghost function Slots(s: State, page: Page): set<(nat, int)> {
    set p, k | 0 <= p < |s.envs| && k in s.envs[p].table && s.envs[p].table[k] == page :: (p, k)
  }

  /** pp_ref of a page. */
  ghost function Ref(s: State, page: Page): nat {
    |Slots(s, page)|
  }

  ghost predicate Enabled(s: State, a: Action) {
    && s.cur < |s.envs|
    && var e := s.envs[s.cur];
    match a
    case Close(fd) => e.pc.Idle? && fd < MAXFD && fd in e.table
    case Dup(from, to) => e.pc.Idle? && from < MAXFD && from in e.table && to < MAXFD
    case Ask(fd) => e.pc.Idle? && fd < MAXFD && IsEnd(e.table, fd)
    case Go(_) => !e.pc.Idle?
    case Switch(to) => to < |s.envs|
  }

  /** What the running environment does next; refs are read where pageref does. */
  ghost function Next(s: State, e: Env, a: Action): Env
    requires !a.Switch?
  {
    match a
    case Close(fd) => e.(table := e.table - {fd}, pc := if IsEnd(e.table, fd) then Closing(fd) else Idle)
    case Dup(from, to) =>
      if to in e.table
      then e.(table := e.table - {to}, pc := if IsEnd(e.table, to) then DupClosing(from, to) else DupData(from, to))
      else e.(pc := DupData(from, to))
    case Ask(fd) => e.(pc := CountFd(fd, e.runs))
    case Go(ok) => Continue(s, e, ok)
  }

  ghost function Continue(s: State, e: Env, ok: bool): Env {
    var t := e.table;
    match e.pc
    case Idle => e
    case Closing(fd) => e.(table := t - {fd + MAXFD}, pc := Idle)
    case DupClosing(from, to) => e.(table := t - {to + MAXFD}, pc := DupData(from, to))
    case DupData(from, to) =>
      if from + MAXFD !in t then e.(pc := DupFd(from, to))
      else if ok then e.(table := t[to + MAXFD := t[from + MAXFD]], pc := DupFd(from, to))
      else e.(pc := UndoFd(to))
    case DupFd(from, to) =>
      if from in t && ok then e.(table := t[to := t[from]], pc := Idle) else e.(pc := UndoFd(to))
    case UndoFd(to) => e.(table := t - {to}, pc := UndoData(to))
    case UndoData(to) => e.(table := t - {to + MAXFD}, pc := Idle)
    case CountFd(fd, n) => e.(pc := if fd in t then CountPipe(fd, n, Ref(s, t[fd])) else Idle)
    case CountPipe(fd, n, a) => e.(pc := Recheck(fd, n, a, Ref(s, Pipe)))
    case Recheck(fd, n, a, b) => e.(pc := if e.runs == n then Answer(a == b, fd) else CountFd(fd, e.runs))
    case Answer(_, _) => e.(pc := Idle)
  }

  /** env_run counts a run only when another environment ran before. */
  ghost function Step(s: State, a: Action): State
    requires Enabled(s, a)
  {
    if a.Switch? then
      if a.to == s.cur then s
      else State(s.envs[a.to := s.envs[a.to].(runs := s.envs[a.to].runs + 1)], a.to)
    else s.(envs := s.envs[s.cur := Next(s, s.envs[s.cur], a)])
  }

  // ---------------------------------------------------------------- the invariant

  /** An end that is mapped has the pipe page mapped with it. */
  ghost predicate Paired(t: Table) {
    forall k :: IsEnd(t, k) ==> k + MAXFD in t && t[k + MAXFD] == Pipe
  }

  /** Ends are mapped as Fd pages only. */
  ghost predicate Tidy(t: Table) {
    forall k :: IsEnd(t, k) ==> 0 <= k < MAXFD
  }

  /** In the middle of a call that makes or takes apart descriptor k. */
  predicate Amid(pc: Pc, k: int) {
    match pc
    case Closing(fd) => k == fd
    case DupClosing(_, to) => k == to
    case DupFd(_, to) => k == to
    case UndoFd(to) => k == to
    case UndoData(to) => k == to
    case _ => false
  }

  /** The pipe is mapped beside an end, or a call is under way there. */
  ghost predicate Backed(e: Env) {
    forall k :: k in e.table && e.table[k] == Pipe ==> IsEnd(e.table, k - MAXFD) || Amid(e.pc, k - MAXFD)
  }

  ghost predicate PcOk(e: Env) {
    var t := e.table;
    match e.pc
    case Closing(fd) => fd !in t && fd < MAXFD
    case DupClosing(from, to) => to !in t && from < MAXFD && to < MAXFD
    case DupData(from, to) => to !in t && from < MAXFD && to < MAXFD
    case DupFd(from, to) => to !in t && from < MAXFD && to < MAXFD
        && (IsEnd(t, from) <==> to + MAXFD in t && t[to + MAXFD] == Pipe)
    case UndoFd(to) => to !in t && to < MAXFD
    case UndoData(to) => to !in t && to < MAXFD
    case CountFd(fd, _) => IsEnd(t, fd)
    case CountPipe(fd, _, _) => IsEnd(t, fd)
    case Recheck(fd, _, _, _) => IsEnd(t, fd)
    case Answer(_, fd) => IsEnd(t, fd)
    case Idle => true
  }

  /** What env p has counted so far is true, if it has not been interrupted since. */
  ghost predicate CountOk(s: State, p: nat)
    requires p < |s.envs|
  {
    var e := s.envs[p];
    match e.pc
    case CountFd(_, n) => n <= e.runs
    case CountPipe(fd, n, a) => n <= e.runs && (s.cur == p && e.runs == n && fd in e.table ==> a == Ref(s, e.table[fd]))
    case Recheck(fd, n, a, b) =>
      n <= e.runs && (s.cur == p && e.runs == n && fd in e.table ==> a == Ref(s, e.table[fd]) && b == Ref(s, Pipe))
    case _ => true
  }

  ghost predicate EnvOk(s: State, p: nat)
    requires p < |s.envs|
  {
    Paired(s.envs[p].table) && Tidy(s.envs[p].table) && Backed(s.envs[p]) && PcOk(s.envs[p]) && CountOk(s, p)
  }

  ghost predicate Inv(s: State) {
    s.cur < |s.envs| && forall p :: 0 <= p < |s.envs| ==> EnvOk(s, p)
  }

  // ---------------------------------------------------------------- counting

  /** There is a pipe mapping for each mapping of an end, so the pipe's count is at least the sum of the ends'. */
  lemma {:induction false} CountsAddUp(s: State)
    requires forall p :: 0 <= p < |s.envs| ==> Paired(s.envs[p].table)
    ensures Ref(s, Pipe) >= Ref(s, ReadFd) + Ref(s, WriteFd)
  {
    var r, w, b := Slots(s, ReadFd), Slots(s, WriteFd), Slots(s, Pipe);
    assert r * w == {};
    assert |r + w| == |r| + |w|;
    forall x: (nat, int) | x in r + w ensures (x.0, x.1 + MAXFD) in b {
      assert IsEnd(s.envs[x.0].table, x.1);
    }
    Shifted(r + w, b);
  }

  lemma {:induction false} Shifted(a: set<(nat, int)>, b: set<(nat, int)>)
    requires forall x :: x in a ==> (x.0, x.1 + MAXFD) in b
    ensures |a| <= |b|
  {
    if x :| x in a {
      var y := (x.0, x.1 + MAXFD);
      forall z: (nat, int) | z in a - {x} ensures (z.0, z.1 + MAXFD) in b - {y} {
      }
      Shifted(a - {x}, b - {y});
    }
  }

  /** When no mapping of the pipe is without its end, the counts agree exactly. */
  lemma {:induction false} CountsAgree(s: State)
    requires forall p :: 0 <= p < |s.envs| ==> Paired(s.envs[p].table)
    requires forall x: (nat, int) :: x in Slots(s, Pipe) ==> IsEnd(s.envs[x.0].table, x.1 - MAXFD)
    ensures Ref(s, Pipe) == Ref(s, ReadFd) + Ref(s, WriteFd)
  {
    CountsAddUp(s);
    var r, w, b := Slots(s, ReadFd), Slots(s, WriteFd), Slots(s, Pipe);
    assert r * w == {};
    assert |r + w| == |r| + |w|;
    forall x: (nat, int) | x in b ensures (x.0, x.1 - MAXFD) in r + w {
      assert IsEnd(s.envs[x.0].table, x.1 - MAXFD);
    }
    ShiftedBack(b, r + w);
  }

  lemma {:induction false} ShiftedBack(b: set<(nat, int)>, a: set<(nat, int)>)
    requires forall x: (nat, int) :: x in b ==> (x.0, x.1 - MAXFD) in a
    ensures |b| <= |a|
  {
    if x :| x in b {
      var y := (x.0, x.1 - MAXFD);
      forall z: (nat, int) | z in b - {x} ensures (z.0, z.1 - MAXFD) in a - {y} {
      }
      ShiftedBack(b - {x}, a - {y});
    }
  }

  // ---------------------------------------------------------------- every step keeps the invariant

  lemma {:induction false} SameRefs(s: State, t: State, page: Page)
    requires |t.envs| == |s.envs| && forall p :: 0 <= p < |s.envs| ==> t.envs[p].table == s.envs[p].table
    ensures Ref(t, page) == Ref(s, page)
  {
    assert Slots(t, page) == Slots(s, page);
  }

  /** Starting a call keeps each end with its pipe mapping. */
  lemma {:induction false} StartKeeps(s: State, e: Env, a: Action)
    requires Paired(e.table) && Tidy(e.table) && Backed(e) && e.pc.Idle? && (a.Close? || a.Dup? || a.Ask?)
    requires a.Close? ==> a.fd < MAXFD && a.fd in e.table
    requires a.Dup? ==> a.from < MAXFD && a.to < MAXFD && a.from in e.table
    requires a.Ask? ==> a.fd < MAXFD && IsEnd(e.table, a.fd)
    ensures var f := Next(s, e, a); Paired(f.table) && Tidy(f.table) && Backed(f) && PcOk(f)
  {
    var f := Next(s, e, a);
    forall k | IsEnd(f.table, k) ensures 0 <= k < MAXFD && k + MAXFD in f.table && f.table[k + MAXFD] == Pipe {
      assert IsEnd(e.table, k);
    }
  }

  /** And so does going on with one. */
  lemma {:induction false} ContinueKeeps(s: State, e: Env, ok: bool)
    requires Paired(e.table) && Tidy(e.table) && Backed(e) && PcOk(e)
    ensures var f := Continue(s, e, ok); Paired(f.table) && Tidy(f.table) && Backed(f) && PcOk(f)
  {
    var f := Continue(s, e, ok);
    assert e.pc.DupData? ==> !IsEnd(e.table, e.pc.from + MAXFD);
    forall k | IsEnd(f.table, k) ensures 0 <= k < MAXFD && k + MAXFD in f.table && f.table[k + MAXFD] == Pipe {
      if e.pc.DupFd? && k == e.pc.to && f.pc.Idle? {
        assert IsEnd(e.table, e.pc.from);
      } else {
        assert IsEnd(e.table, k);
      }
    }
    if e.pc.DupData? && IsEnd(e.table, e.pc.from) {
      assert e.table[e.pc.from + MAXFD] == Pipe;
    }
  }

  lemma {:induction false} SwitchKeeps(s: State, to: nat)
    requires Inv(s) && to < |s.envs|
    ensures Inv(Step(s, Switch(to)))
  {
    var t := Step(s, Switch(to));
    forall p | 0 <= p < |t.envs| ensures EnvOk(t, p) {
      assert EnvOk(s, p);
    }
  }

  lemma {:induction false} StepKeeps(s: State, a: Action)
    requires Inv(s) && Enabled(s, a)
    ensures Inv(Step(s, a))
  {
    if a.Switch? {
      SwitchKeeps(s, a.to);
      return;
    }
    var t, c := Step(s, a), s.cur;
    assert EnvOk(s, c);
    if a.Go? { ContinueKeeps(s, s.envs[c], a.ok); } else { StartKeeps(s, s.envs[c], a); }
    forall p | 0 <= p < |t.envs| ensures EnvOk(t, p) {
      assert EnvOk(s, p);
      if p == c { CountKeeps(s, a); }
    }
  }

  /** Counting changes no mapping, so what was counted stays true until another environment runs. */
  lemma {:induction false} CountKeeps(s: State, a: Action)
    requires Inv(s) && Enabled(s, a) && !a.Switch?
    ensures CountOk(Step(s, a), s.cur)
  {
    var t, e := Step(s, a), s.envs[s.cur];
    assert EnvOk(s, s.cur);
    var f := t.envs[s.cur];
    if f.pc.CountPipe? || f.pc.Recheck? {
      assert f.table == e.table;
      SameRefs(s, t, ReadFd);
      SameRefs(s, t, WriteFd);
      SameRefs(s, t, Pipe);
    }
  }

  ghost predicate Possible(s: State, actions: seq<Action>)
    decreases |actions|
  {
    actions == [] || (Enabled(s, actions[0]) && Possible(Step(s, actions[0]), actions[1..]))
  }

  ghost function Run(s: State, actions: seq<Action>): State
    requires Possible(s, actions)
    decreases |actions|
  {
    if actions == [] then s else Run(Step(s, actions[0]), actions[1..])
  }

  /** Over every interleaving of dup, close and the checks, the pipe's count is at least the sum of the ends'. */
  lemma {:induction false} RunKeeps(s: State, actions: seq<Action>)
    requires Inv(s) && Possible(s, actions)
    ensures var t := Run(s, actions); Inv(t) && Ref(t, Pipe) >= Ref(t, ReadFd) + Ref(t, WriteFd)
    decreases |actions|
  {
    if actions == [] {
      forall p | 0 <= p < |s.envs| ensures Paired(s.envs[p].table) { assert EnvOk(s, p); }
      CountsAddUp(s);
    } else {
      StepKeeps(s, actions[0]);
      RunKeeps(Step(s, actions[0]), actions[1..]);
    }
  }

  /** No false end of file: the moment _pipeisclosed answers 1, the other end has no holder. */
  lemma {:induction false} NoFalseEof(s: State, ok: bool)
    requires Inv(s) && s.envs[s.cur].pc.Recheck? && Step(s, Go(ok)).envs[s.cur].pc == Answer(true, s.envs[s.cur].pc.fd)
    ensures var e := s.envs[s.cur];
            e.pc.fd in e.table && Ref(s, if e.table[e.pc.fd] == ReadFd then WriteFd else ReadFd) == 0
  {
    assert EnvOk(s, s.cur);
    forall p | 0 <= p < |s.envs| ensures Paired(s.envs[p].table) { assert EnvOk(s, p); }
    CountsAddUp(s);
  }

  /** Nobody is in the middle of making or closing a descriptor. */
  ghost predicate AtRest(s: State) {
    forall p, k :: 0 <= p < |s.envs| ==> !Amid(s.envs[p].pc, k)
  }

  /** Then the counts agree. */
  lemma {:induction false} RestAgrees(s: State)
    requires Inv(s) && AtRest(s)
    ensures Ref(s, Pipe) == Ref(s, ReadFd) + Ref(s, WriteFd)
  {
    forall p | 0 <= p < |s.envs| ensures Paired(s.envs[p].table) { assert EnvOk(s, p); }
    forall x: (nat, int) | x in Slots(s, Pipe) ensures IsEnd(s.envs[x.0].table, x.1 - MAXFD) {
      assert EnvOk(s, x.0);
    }
    CountsAgree(s);
  }

  /** The page of the other end. */
  function OtherEnd(page: Page): Page {
    if page == ReadFd then WriteFd else ReadFd
  }

  /**
    _pipeisclosed answers when it was not interrupted between its two looks at env_runs, and only then. The answer
    is 1 only if the other end has no holder, and exactly then while nobody is opening or closing descriptors.
   */
  lemma {:induction false} AnswerExact(s: State, ok: bool)
    requires Inv(s) && s.envs[s.cur].pc.Recheck?
    ensures var e, f := s.envs[s.cur], Step(s, Go(ok)).envs[s.cur];
            && e.pc.fd in e.table && (f.pc.Answer? <==> e.runs == e.pc.n)
            && (f.pc.Answer? ==> f.pc.fd == e.pc.fd)
            && (f.pc.Answer? && f.pc.closed ==> Ref(s, OtherEnd(e.table[e.pc.fd])) == 0)
            && (f.pc.Answer? && AtRest(s) ==> (f.pc.closed <==> Ref(s, OtherEnd(e.table[e.pc.fd])) == 0))
  {
    var e := s.envs[s.cur];
    assert EnvOk(s, s.cur);
    if e.runs == e.pc.n {
      if e.pc.a == e.pc.b { NoFalseEof(s, ok); }
      if AtRest(s) { RestAgrees(s); }
    }
  }

  /** Left alone, _pipeisclosed answers after three steps, and nobody's descriptors change. */
  lemma {:induction false} AskAnswers(s: State, fd: nat, s1: State, s2: State, s3: State, t: State)
    requires Inv(s) && Enabled(s, Ask(fd)) && s1 == Step(s, Ask(fd))
    requires Enabled(s1, Go(true)) && s2 == Step(s1, Go(true)) && Enabled(s2, Go(true)) && s3 == Step(s2, Go(true))
    requires Enabled(s3, Go(true)) && t == Step(s3, Go(true))
    ensures t.cur == s.cur && |t.envs| == |s.envs|
    ensures var e, f := s.envs[s.cur], t.envs[t.cur];
            && f.table == e.table && f.pc.Answer? && f.pc.fd == fd
            && (AtRest(s) ==> (f.pc.closed <==> Ref(s, OtherEnd(e.table[fd])) == 0))
  {
    var e := s.envs[s.cur];
    assert s1 == s.(envs := s.envs[s.cur := e.(pc := CountFd(fd, e.runs))]);
    SameRefs(s, s1, e.table[fd]);
    assert s2 == s.(envs := s.envs[s.cur := e.(pc := CountPipe(fd, e.runs, Ref(s, e.table[fd])))]);
    SameRefs(s, s2, Pipe);
    if AtRest(s) { RestAgrees(s); }
    assert EnvOk(s, s.cur);
  }

  /** A pipe its maker has just opened, and environments without descriptors. */
  lemma {:induction false} PipeOpened(n: nat, p: nat, fd0: nat, fd1: nat, runs: nat)
    requires p < n && fd0 < fd1 < MAXFD
    ensures var mine: Table := map[fd0 := ReadFd, fd0 + MAXFD := Pipe, fd1 := WriteFd, fd1 + MAXFD := Pipe];
            Inv(State(seq(n, i => if i == p then Env(mine, Idle, runs) else Env(map[], Idle, runs)), p))
  {
  }

  // ---------------------------------------------------------------- dup to a number that is no descriptor

  const FDPAGE: nat := 0xD0000              // FDTABLE / PGSIZE
  const UPAGE: nat := 0xEEC00               // UTOP / PGSIZE
  const PAGES: nat := 0x100000              // addresses have 32 bits

  /** The page INDEX2FD(i) names. */
  function Slot(i: int): int {
    (FDPAGE + i) % PAGES - FDPAGE
  }

  /** sys_page_map and sys_page_unmap refuse pages from UTOP on. */
  predicate User(k: int) {
    FDPAGE + k < UPAGE
  }

  function Unmapped(t: Table, k: int): Table {
    if User(k) then t - {k} else t
  }

  /** close: an end goes with its data page; what is no descriptor number is refused. */
  function Closed(t: Table, fd: int): Table {
    if 0 <= fd < MAXFD && fd in t then
      if IsEnd(t, fd) then t - {fd} - {fd + MAXFD} else t - {fd}
    else t
  }

  /** dup without interruption and with memory to spare, for any two numbers. */
  function Dupped(t: Table, from: int, to: int): Table {
    if !(0 <= from < MAXFD && from in t) then t
    else DupPages(Closed(t, to), from, Slot(to), Slot(Slot(to) + MAXFD))
  }

  function DupPages(t: Table, from: int, fd: int, data: int): Table {
    var hasData := from + MAXFD in t;
    if hasData && !User(data) then Unmapped(Unmapped(t, fd), data)
    else
      var t1 := if hasData then t[data := t[from + MAXFD]] else t;
      if from in t1 && User(fd) then t1[fd := t1[from]] else Unmapped(Unmapped(t1, fd), data)
  }

  /** To a descriptor number, the steps of dup in a row have just this effect. */
  lemma {:induction false} DupSteps(s: State, e: Env, from: nat, to: nat)
    requires e.pc.Idle? && from < MAXFD && from in e.table && to < MAXFD
    ensures var e1 := Next(s, e, Dup(from, to));
            var e2 := if e1.pc.DupClosing? then Continue(s, e1, true) else e1;
            var e4 := Continue(s, Continue(s, e2, true), true);
            var e5 := if e4.pc.UndoFd? then Continue(s, Continue(s, e4, true), true) else e4;
            e5 == e.(table := Dupped(e.table, from, to))
  {
    var e1 := Next(s, e, Dup(from, to));
    var e2 := if e1.pc.DupClosing? then Continue(s, e1, true) else e1;
    var t := Closed(e.table, to);
    assert e2 == e.(table := t, pc := DupData(from, to));
    assert Slot(to) == to && Slot(to + MAXFD) == to + MAXFD;
    DupLast(s, e, t, from, to);
  }

  lemma {:induction false} DupLast(s: State, e: Env, t: Table, from: nat, to: nat)
    requires e.pc.Idle? && from < MAXFD && to < MAXFD
    ensures var e4 := Continue(s, Continue(s, e.(table := t, pc := DupData(from, to)), true), true);
            var e5 := if e4.pc.UndoFd? then Continue(s, Continue(s, e4, true), true) else e4;
            e5 == e.(table := DupPages(t, from, to, to + MAXFD))
  {
    var e3 := Continue(s, e.(table := t, pc := DupData(from, to)), true);
    assert e3 == e.(table := if from + MAXFD in t then t[to + MAXFD := t[from + MAXFD]] else t, pc := DupFd(from, to));
  }

  /** close of a descriptor, both steps. */
  lemma {:induction false} CloseSteps(s: State, e: Env, fd: nat)
    requires e.pc.Idle? && fd < MAXFD && fd in e.table
    ensures var e1 := Next(s, e, Close(fd));
            var e2 := if e1.pc.Closing? then Continue(s, e1, true) else e1;
            e2 == e.(table := Closed(e.table, fd)) && fd !in e2.table
            && (IsEnd(e.table, fd) ==> fd + MAXFD !in e2.table)
            && forall k :: k != fd && k != fd + MAXFD && k in e.table ==> k in e2.table && e2.table[k] == e.table[k]
  {
  }

  /**
    dup to a descriptor number makes it one for the same file, with the same data page, and leaves the others alone,
    if and only if the numbers differ. Otherwise the descriptor is closed.
   */
  lemma {:induction false} DupDoes(t: Table, from: int, to: int)
    requires Paired(t) && Tidy(t) && 0 <= from < MAXFD && from in t && 0 <= to < MAXFD
    ensures var d := Dupped(t, from, to);
            && ((to in d && d[to] == t[from]) <==> from != to)
            && (from != to && from + MAXFD in t ==> to + MAXFD in d && d[to + MAXFD] == t[from + MAXFD])
            && (from == to ==> to !in d)
            && forall k :: k != to && k != to + MAXFD ==> (k in d <==> k in t) && (k in t ==> d[k] == t[k])
  {
    assert Slot(to) == to && Slot(to + MAXFD) == to + MAXFD;
  }

  /** newfdnum names the data page of an end, and the page that goes there is not the pipe. */
  predicate Clobbers(t: Table, from: int, to: int) {
    && 0 <= from < MAXFD && from in t && t[from] != Pipe
    && MAXFD <= Slot(to) < 2 * MAXFD && IsEnd(t, Slot(to) - MAXFD)
  }

  /** dup never checks newfdnum. For every pair of numbers, the pairing survives if and only if it clobbers no end. */
  lemma {:induction false} DupExact(t: Table, from: int, to: int)
    requires Paired(t) && Tidy(t)
    ensures Paired(Dupped(t, from, to)) <==> !Clobbers(t, from, to)
  {
    if 0 <= from < MAXFD && from in t {
      var t0, fd, data := Closed(t, to), Slot(to), Slot(Slot(to) + MAXFD);
      assert !IsEnd(t, from + MAXFD);
      ClosedKeeps(t, to);
      if 0 <= to < MAXFD {
        DupPagesKeep(t0, from, fd, data);
      } else if Clobbers(t, from, to) {
        assert IsEnd(t, fd - MAXFD) && IsEnd(Dupped(t, from, to), fd - MAXFD);
      } else {
        DupPagesKeep(t0, from, fd, data);
      }
    }
  }

  lemma {:induction false} ClosedKeeps(t: Table, fd: int)
    requires Paired(t) && Tidy(t)
    ensures Paired(Closed(t, fd)) && Tidy(Closed(t, fd))
  {
    forall k | IsEnd(Closed(t, fd), k)
      ensures 0 <= k < MAXFD && k + MAXFD in Closed(t, fd) && Closed(t, fd)[k + MAXFD] == Pipe
    {
      assert IsEnd(t, k);
    }
  }

  lemma {:induction false} DupPagesKeep(t: Table, from: int, fd: int, data: int)
    requires Paired(t) && Tidy(t) && 0 <= from < MAXFD
    requires 0 <= FDPAGE + fd < PAGES && data == Slot(fd + MAXFD)
    requires IsEnd(t, fd - MAXFD) ==> from in t && t[from] == Pipe
    ensures Paired(DupPages(t, from, fd, data))
  {
    var f := DupPages(t, from, fd, data);
    assert !IsEnd(t, from + MAXFD);
    assert IsEnd(t, from) ==> from + MAXFD in t && t[from + MAXFD] == Pipe;
    assert data == if FDPAGE + fd + MAXFD < PAGES then fd + MAXFD else fd + MAXFD - PAGES;
    forall k | IsEnd(f, k) ensures k + MAXFD in f && f[k + MAXFD] == Pipe {
      if k != fd {
        assert IsEnd(t, k) && k + MAXFD != data;
        assert k + MAXFD != fd || IsEnd(t, fd - MAXFD);
      } else {
        assert User(fd) || IsEnd(t, fd);
        assert User(fd) && data == fd + MAXFD && IsEnd(t, from);
        assert t[from + MAXFD] == Pipe && f[data] == Pipe;
      }
    }
  }

  /** A writer dups some file to MAXFD plus its end: the reader's counts are equal, and the writer is still there. */
  lemma {:induction false} DupFalseEof()
    ensures var reader: Table := map[0 := ReadFd, MAXFD := Pipe];
            var writer: Table := map[0 := WriteFd, MAXFD := Pipe, 1 := Other];
            var s := State([Env(reader, Idle, 0), Env(Dupped(writer, 1, MAXFD), Idle, 0)], 0);
            Paired(writer) && Tidy(writer) && IsEnd(s.envs[1].table, 0) && Ref(s, ReadFd) == Ref(s, Pipe) == 1
  {
    var reader: Table := map[0 := ReadFd, MAXFD := Pipe];
    var writer: Table := map[0 := WriteFd, MAXFD := Pipe, 1 := Other];
    var after := Dupped(writer, 1, MAXFD);
    assert after == map[0 := WriteFd, MAXFD := Other, 1 := Other];
    var s := State([Env(reader, Idle, 0), Env(after, Idle, 0)], 0);
    assert Slots(s, ReadFd) == {(0, 0)};
    assert Slots(s, Pipe) == {(0, MAXFD)};
  }
}
