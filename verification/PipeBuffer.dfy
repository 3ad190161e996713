/**
  lib/pipe.c: one reader and one writer sharing a ring buffer, interleaved load by load. What
  _pipeisclosed answers is in PipeEnd; here it is whether the other side has closed its end.
 */
module PipeBuffer {
  import opened Base

  const PIPEBUFSIZ: nat := 32

  /** devpipe_read, between two accesses to the shared page. */
  datatype Reader =
    | Returned(got: nat)
    | Check                     // about to load p_wpos
    | Compare(w: nat)           // about to compare it with p_rpos
    | Ask(w: nat)               // nothing there, about to ask whether the writers are gone
    | Load                      // about to load the byte
    | Keep(b: Byte)             // about to put it into the caller's buffer
    | Count                     // about to load p_rpos for p_rpos++
    | Store(pos: nat)           // about to store it back, one higher

  /** devpipe_write */
  datatype Writer =
    | Done(put: nat)
    | Look                      // about to load p_rpos
    | Weigh(r: nat)             // about to compare p_wpos with it
    | AskFull                   // no room, about to ask whether the readers are gone
    | Fill                      // about to store the byte
    | Tally(b: Byte)            // about to load p_wpos for p_wpos++
    | Publish(b: Byte, pos: nat) // about to store it back, one higher

  /**
    want and out: what the call of the reader asks for and has. src and i: what the call of the writer has to
    write, and how far it is. read, written and sent are all bytes so far, over all calls.
   */
  datatype State = State(rpos: nat, wpos: nat, buf: seq<Byte>,
      reader: Reader, want: nat, out: seq<Byte>, writer: Writer, src: seq<Byte>, i: nat,
      read: seq<Byte>, written: seq<Byte>, sent: seq<Byte>, rgone: bool, wgone: bool)

  /** A call, a close, or one access to the shared page in the middle of a call. */
  datatype Action = Receive(n: nat) | Read | CloseRead | Send(src: seq<Byte>) | Write | CloseWrite

  function Step(s: State, a: Action): (t: State)
    requires |s.buf| == PIPEBUFSIZ
    ensures |t.buf| == PIPEBUFSIZ
  {
    match a
    case Receive(n) =>
      if !s.reader.Returned? || s.rgone then s
      else s.(reader := if n == 0 then Returned(0) else Check, want := n, out := [])
    case Read => ReadStep(s)
    case CloseRead => if s.reader.Returned? then s.(rgone := true) else s
    case Send(src) =>
      if !s.writer.Done? || s.wgone then s
      else s.(writer := if src == [] then Done(0) else Look, src := src, i := 0, sent := s.sent + src)
    case Write => WriteStep(s)
    case CloseWrite => if s.writer.Done? then s.(wgone := true) else s
  }

  function ReadStep(s: State): (t: State)
    requires |s.buf| == PIPEBUFSIZ
    ensures |t.buf| == PIPEBUFSIZ
  {
    match s.reader
    case Returned(_) => s
    case Check => s.(reader := Compare(s.wpos))
    case Compare(w) =>
      s.(reader := if s.rpos != w then Load else if s.out != [] then Returned(|s.out|) else Ask(w))
    case Ask(_) => s.(reader := if s.wgone then Returned(0) else Check)
    case Load => s.(reader := Keep(s.buf[s.rpos % PIPEBUFSIZ]))
    case Keep(b) => s.(reader := Count, read := s.read + [b], out := s.out + [b])
    case Count => s.(reader := Store(s.rpos))
    case Store(pos) => s.(reader := if |s.out| >= s.want then Returned(|s.out|) else Check, rpos := pos + 1)
  }

  function WriteStep(s: State): (t: State)
    requires |s.buf| == PIPEBUFSIZ
    ensures |t.buf| == PIPEBUFSIZ
  {
    match s.writer
    case Done(_) => s
    case Look => s.(writer := Weigh(s.rpos))
    case Weigh(r) => s.(writer := if s.wpos >= r + PIPEBUFSIZ then AskFull else Fill)
    case AskFull => if s.rgone then s.(writer := Done(0), src := [], i := 0, sent := s.written) else s.(writer := Look)
    case Fill =>
      if s.i >= |s.src| then s
      else s.(writer := Tally(s.src[s.i]), buf := s.buf[s.wpos % PIPEBUFSIZ := s.src[s.i]])
    case Tally(x) => s.(writer := Publish(x, s.wpos))
    case Publish(x, pos) =>
      s.(writer := if s.i + 1 >= |s.src| then Done(s.i + 1) else Look, i := s.i + 1, wpos := pos + 1,
         written := s.written + [x])
  }

  // ---------------------------------------------------------------- the invariant

  predicate Held(s: State, k: nat)
    requires |s.buf| == PIPEBUFSIZ
  {
    k < |s.written| && s.buf[k % PIPEBUFSIZ] == s.written[k]
  }

  /** What the reader knows between its accesses. */
  predicate ReaderOk(s: State) {
    && |s.read| == s.rpos + (if s.reader.Count? || s.reader.Store? then 1 else 0)
    && |s.out| <= |s.read| && s.read[|s.read| - |s.out|..] == s.out && |s.out| <= s.want
    && (s.reader.Returned? ==> s.reader.got == |s.out|) && (s.rgone ==> s.reader.Returned?)
    && (s.reader.Returned? || s.reader.Count? || s.reader.Store? || |s.out| < s.want)
    && match s.reader
       case Compare(w) => s.rpos <= w <= s.wpos
       case Ask(w) => s.rpos == w <= s.wpos && s.out == []
       case Load => s.rpos < s.wpos
       case Keep(b) => s.rpos < s.wpos && s.rpos < |s.written| && b == s.written[s.rpos]
       case Count => s.rpos < s.wpos
       case Store(pos) => s.rpos < s.wpos && pos == s.rpos
       case _ => true
  }

  predicate WriterOk(s: State)
    requires |s.buf| == PIPEBUFSIZ
  {
    && s.i <= |s.src| && (s.writer.Done? <==> s.i == |s.src|) && s.sent == s.written + s.src[s.i..]
    && (s.writer.Done? ==> s.writer.put == s.i) && (s.wgone ==> s.writer.Done?)
    && match s.writer
       case Weigh(r) => r <= s.rpos
       case Fill => s.wpos < s.rpos + PIPEBUFSIZ
       case Tally(b) => s.wpos < s.rpos + PIPEBUFSIZ && s.buf[s.wpos % PIPEBUFSIZ] == b == s.src[s.i]
       case Publish(b, pos) =>
         s.wpos < s.rpos + PIPEBUFSIZ && s.buf[s.wpos % PIPEBUFSIZ] == b == s.src[s.i] && pos == s.wpos
       case _ => true
  }

  /**
    The buffer holds what was written and not read yet; what was read is a prefix of what was written, and that of
    what was handed to the writer.
   */
  predicate Inv(s: State) {
    Ring(s) && ReaderOk(s) && WriterOk(s) && s.read <= s.written
  }

  predicate Ring(s: State) {
    && |s.buf| == PIPEBUFSIZ && |s.written| == s.wpos && s.rpos <= s.wpos <= s.rpos + PIPEBUFSIZ
    && (forall k :: s.rpos <= k < s.wpos ==> Held(s, k))
  }

  function Start(buf: seq<Byte>): State {
    State(0, 0, buf, Returned(0), 0, [], Done(0), [], 0, [], [], [], false, false)
  }

  /** Positions less than a buffer apart have places of their own. */
  lemma {:induction false} PlacesApart(j: nat, k: nat)
    requires j < k < j + PIPEBUFSIZ
    ensures j % PIPEBUFSIZ != k % PIPEBUFSIZ
  {
    var q, r := j / 32, k / 32;
    assert j == 32 * q + j % 32 && k == 32 * r + k % 32;
  }

  lemma {:induction false} ReadRing(s: State)
    requires Ring(s) && ReaderOk(s)
    ensures Ring(ReadStep(s))
  {
    var t := ReadStep(s);
    forall k | t.rpos <= k < t.wpos ensures Held(t, k) {
      assert Held(s, k);
    }
  }

  lemma {:induction false} ReadReader(s: State)
    requires Ring(s) && ReaderOk(s) && s.read <= s.written
    ensures ReaderOk(ReadStep(s)) && ReadStep(s).read <= s.written
  {
    if s.reader.Load? {
      assert Held(s, s.rpos);
    } else if s.reader.Keep? {
      KeepReader(s);
    }
  }

  /** A byte more in the caller's buffer. */
  lemma {:induction false} KeepReader(s: State)
    requires |s.buf| == PIPEBUFSIZ && ReaderOk(s) && s.read <= s.written && s.reader.Keep?
    ensures ReaderOk(ReadStep(s)) && ReadStep(s).read <= s.written
  {
    var t := ReadStep(s);
    assert t.read[|t.read| - |t.out|..] == s.read[|s.read| - |s.out|..] + [s.reader.b];
  }

  lemma {:induction false} ReadKeeps(s: State)
    requires Inv(s)
    ensures Inv(ReadStep(s))
  {
    ReadRing(s);
    ReadReader(s);
    OtherSide(s, ReadStep(s));
  }

  /** The writer is left alone, and has no less room. */
  lemma {:induction false} OtherSide(s: State, t: State)
    requires |s.buf| == PIPEBUFSIZ && WriterOk(s) && t.rpos >= s.rpos && t.wpos == s.wpos && t.buf == s.buf
    requires t.writer == s.writer && t.src == s.src && t.i == s.i && t.written == s.written && t.sent == s.sent
    requires t.wgone == s.wgone
    ensures WriterOk(t)
  {
  }

  lemma {:induction false} WriteRing(s: State)
    requires Ring(s) && WriterOk(s)
    ensures Ring(WriteStep(s))
  {
    var t := WriteStep(s);
    forall k | t.rpos <= k < t.wpos ensures Held(t, k) {
      if k < s.wpos {
        assert Held(s, k);
        if s.writer.Fill? { PlacesApart(k, s.wpos); }
      }
    }
  }

  lemma {:induction false} WriteWriter(s: State)
    requires Ring(s) && WriterOk(s)
    ensures WriterOk(WriteStep(s)) && s.written <= WriteStep(s).written
  {
    var t := WriteStep(s);
    if s.writer.Publish? {
      assert s.src[s.i..] == [s.src[s.i]] + s.src[s.i + 1..];
      assert t.sent == t.written + t.src[t.i..];
    } else if s.writer.AskFull? && s.rgone {
      assert t.sent == t.written + t.src[t.i..];
    }
  }

  lemma {:induction false} WriteKeeps(s: State)
    requires Inv(s)
    ensures Inv(WriteStep(s))
  {
    WriteRing(s);
    WriteWriter(s);
    ReaderSide(s, WriteStep(s));
  }

  /** The reader is left alone, and has no less to read. */
  lemma {:induction false} ReaderSide(s: State, t: State)
    requires ReaderOk(s) && t.rpos == s.rpos && t.wpos >= s.wpos && s.written <= t.written && t.reader == s.reader
    requires t.want == s.want && t.out == s.out && t.read == s.read && t.rgone == s.rgone
    ensures ReaderOk(t)
  {
  }

  /** Calls and closes leave the buffer. */
  lemma {:induction false} RingStays(s: State, t: State)
    requires Ring(s) && t.buf == s.buf && t.rpos == s.rpos && t.wpos == s.wpos && t.written == s.written
    ensures Ring(t)
  {
    forall k | t.rpos <= k < t.wpos ensures Held(t, k) { assert Held(s, k); }
  }

  lemma {:induction false} ReceiveKeeps(s: State, n: nat)
    requires Inv(s)
    ensures Inv(Step(s, Receive(n)))
  {
    var t := Step(s, Receive(n));
    RingStays(s, t);
    OtherSide(s, t);
    assert s.read[|s.read|..] == [];
  }

  lemma {:induction false} SendKeeps(s: State, src: seq<Byte>)
    requires Inv(s)
    ensures Inv(Step(s, Send(src)))
  {
    var t := Step(s, Send(src));
    RingStays(s, t);
    ReaderSide(s, t);
    if t != s {
      assert s.src[s.i..] == [] && src[0..] == src;
      assert s.sent == s.written;
    }
  }

  lemma {:induction false} StepKeeps(s: State, a: Action)
    requires Inv(s)
    ensures Inv(Step(s, a))
  {
    match a
    case Read => ReadKeeps(s);
    case Write => WriteKeeps(s);
    case Receive(n) => ReceiveKeeps(s, n);
    case Send(src) => SendKeeps(s, src);
    case CloseRead =>
      RingStays(s, Step(s, a));
      OtherSide(s, Step(s, a));
    case CloseWrite =>
      RingStays(s, Step(s, a));
      ReaderSide(s, Step(s, a));
  }

  ghost predicate StepAt(ss: seq<State>, acts: seq<Action>, i: nat)
    requires i < |acts| && |ss| == |acts| + 1
  {
    |ss[i].buf| == PIPEBUFSIZ && ss[i + 1] == Step(ss[i], acts[i])
  }

  /** A run: calls and accesses in any order. */
  ghost predicate IsRun(ss: seq<State>, acts: seq<Action>) {
    |ss| == |acts| + 1 && forall i :: 0 <= i < |acts| ==> StepAt(ss, acts, i)
  }

  lemma {:induction false} RunKeeps(ss: seq<State>, acts: seq<Action>, n: nat)
    requires IsRun(ss, acts) && Inv(ss[0]) && n <= |acts|
    ensures Inv(ss[n])
  {
    if n > 0 {
      RunKeeps(ss, acts, n - 1);
      assert StepAt(ss, acts, n - 1);
      StepKeeps(ss[n - 1], acts[n - 1]);
    }
  }

  /** However calls and accesses are interleaved, bytes come out in the order they went in, and none twice. */
  lemma {:induction false} Fifo(ss: seq<State>, acts: seq<Action>, n: nat)
    requires IsRun(ss, acts) && |ss[0].buf| == PIPEBUFSIZ && ss[0] == Start(ss[0].buf) && n <= |acts|
    ensures var s := ss[n];
            Inv(s) && s.rpos <= s.wpos <= s.rpos + PIPEBUFSIZ && s.read <= s.written <= s.sent
  {
    RunKeeps(ss, acts, n);
  }

  // ---------------------------------------------------------------- what the calls return

  /**
    devpipe_read returns what it has put into the buffer: all that was asked for, or what there was before the
    pipe was found empty, or nothing because there are no writers.
   */
  lemma {:induction false} ReadReturns(s: State)
    requires Inv(s) && !s.reader.Returned? && ReadStep(s).reader.Returned?
    ensures var t := ReadStep(s);
            && t.reader.got == |t.out| <= |t.read| && t.read[|t.read| - |t.out|..] == t.out
            && (t.reader.got == s.want
                || (0 < t.reader.got < s.want && s.reader == Compare(s.rpos))
                || (t.reader.got == 0 && s.reader == Ask(s.rpos) && s.wgone))
  {
    ReadKeeps(s);
  }

  /** devpipe_write returns when everything is written, or with 0 because there are no readers. */
  lemma {:induction false} WriteReturns(s: State)
    requires Inv(s) && !s.writer.Done? && WriteStep(s).writer.Done?
    ensures var t := WriteStep(s);
            || (t.writer.put == |s.src| && t.written == t.sent == s.sent)
            || (t.writer.put == 0 && s.rgone && s.writer.AskFull?)
  {
    WriteKeeps(s);
  }

  // ---------------------------------------------------------------- one side on its own

  /** A run of nothing but a. */
  ghost predicate Alone(ss: seq<State>, acts: seq<Action>, a: Action) {
    IsRun(ss, acts) && forall i :: 0 <= i < |acts| ==> acts[i] == a
  }

  lemma {:induction false} Further(ss: seq<State>, acts: seq<Action>, a: Action, t: State)
    requires IsRun(ss, acts) && |ss[|acts|].buf| == PIPEBUFSIZ && t == Step(ss[|acts|], a)
    ensures IsRun(ss + [t], acts + [a])
  {
    var rr, bb := ss + [t], acts + [a];
    forall i | 0 <= i < |bb| ensures StepAt(rr, bb, i) {
      if i < |acts| { assert StepAt(ss, acts, i); }
    }
  }

  lemma {:induction false} Joined(ss: seq<State>, acts: seq<Action>, tt: seq<State>, more: seq<Action>)
    requires IsRun(ss, acts) && IsRun(tt, more) && tt[0] == ss[|acts|]
    ensures IsRun(ss + tt[1..], acts + more) && (ss + tt[1..])[0] == ss[0]
    ensures (ss + tt[1..])[|acts| + |more|] == tt[|more|]
  {
    var rr, bb := ss + tt[1..], acts + more;
    assert forall j :: 0 <= j < |tt| ==> rr[|acts| + j] == tt[j];
    forall i | 0 <= i < |bb| ensures StepAt(rr, bb, i) {
      if i < |acts| {
        assert StepAt(ss, acts, i);
      } else {
        assert StepAt(tt, more, i - |acts|);
      }
    }
  }

  /** A call of the reader that has k bytes more, and the position is k higher. */
  predicate Took(s: State, t: State, k: nat)
    requires s.rpos + k <= |s.written|
  {
    && t.written == s.written && t.wpos == s.wpos && t.rpos == s.rpos + k && t.want == s.want && t.wgone == s.wgone
    && t.out == s.out + s.written[s.rpos..s.rpos + k] && t.rgone == s.rgone
  }

  /** If there is a byte, the reader takes it. */
  lemma {:induction false} TakeOne(s: State) returns (ss: seq<State>, acts: seq<Action>)
    requires Inv(s) && s.reader == Check && s.rpos < s.wpos
    ensures Alone(ss, acts, Read) && ss[0] == s
    ensures var t := ss[|acts|];
            Inv(t) && Took(s, t, 1) && t.reader == if |s.out| + 1 == s.want then Returned(s.want) else Check
  {
    assert Held(s, s.rpos);
    var b := s.written[s.rpos];
    ss, acts := TakeSteps(s, b);
    RunKeeps(ss, acts, |acts|);
    assert s.written[s.rpos..s.rpos + 1] == [b];
  }

  lemma {:induction false} TakeSteps(s: State, b: Byte) returns (ss: seq<State>, acts: seq<Action>)
    requires |s.buf| == PIPEBUFSIZ && s.reader == Check && s.rpos < s.wpos && s.buf[s.rpos % PIPEBUFSIZ] == b
    requires |s.out| < s.want
    ensures Alone(ss, acts, Read) && ss[0] == s
    ensures ss[|acts|] == s.(reader := if |s.out| + 1 == s.want then Returned(s.want) else Check,
                             read := s.read + [b], out := s.out + [b], rpos := s.rpos + 1)
  {
    var s4 := s.(reader := Count, read := s.read + [b], out := s.out + [b]);
    ss, acts := [s], [];
    ss, acts := On(ss, acts, Read, s.(reader := Compare(s.wpos)));
    ss, acts := On(ss, acts, Read, s.(reader := Load));
    ss, acts := On(ss, acts, Read, s.(reader := Keep(b)));
    ss, acts := On(ss, acts, Read, s4);
    ss, acts := On(ss, acts, Read, s4.(reader := Store(s.rpos)));
    ss, acts := On(ss, acts, Read, ReadStep(s4.(reader := Store(s.rpos))));
  }

  lemma {:induction false} On(ss: seq<State>, acts: seq<Action>, a: Action, t: State)
      returns (tt: seq<State>, more: seq<Action>)
    requires Alone(ss, acts, a) && |ss[|acts|].buf| == PIPEBUFSIZ && t == Step(ss[|acts|], a)
    ensures Alone(tt, more, a) && tt[0] == ss[0] && tt[|more|] == t
  {
    Further(ss, acts, a, t);
    tt, more := ss + [t], acts + [a];
  }

  /**
    A reader that is not interrupted takes what there is, up to what it asks for, and returns; if there is nothing
    it asks whether the writers are gone.
   */
  lemma {:induction false} Drains(s: State) returns (ss: seq<State>, acts: seq<Action>)
    requires Inv(s) && s.reader == Check
    ensures Alone(ss, acts, Read) && ss[0] == s && Inv(ss[|acts|]) && Drained(s, ss[|acts|])
    decreases s.wpos - s.rpos
  {
    if s.rpos == s.wpos {
      ss, acts := DrainNone(s);
    } else {
      ss, acts := TakeOne(s);
      var t := ss[|acts|];
      if !t.reader.Returned? {
        var tt, more := Drains(t);
        DrainMore(s, t, tt[|more|]);
        Joined(ss, acts, tt, more);
        ss, acts := ss + tt[1..], acts + more;
      }
    }
  }

  lemma {:induction false} DrainNone(s: State) returns (ss: seq<State>, acts: seq<Action>)
    requires Inv(s) && s.reader == Check && s.rpos == s.wpos
    ensures Alone(ss, acts, Read) && ss[0] == s && Inv(ss[|acts|]) && Drained(s, ss[|acts|])
  {
    ss, acts := [s], [];
    ss, acts := On(ss, acts, Read, s.(reader := Compare(s.wpos)));
    ss, acts := On(ss, acts, Read, ReadStep(s.(reader := Compare(s.wpos))));
    RunKeeps(ss, acts, |acts|);
    assert s.written[s.rpos..s.rpos] == [];
  }

  lemma {:induction false} DrainMore(s: State, t: State, u: State)
    requires s.rpos < s.wpos == |s.written| && |s.out| + 1 < s.want && Took(s, t, 1) && Drained(t, u)
    ensures Drained(s, u)
  {
    TookMore(s, t, u, Min(t.want - |t.out|, t.wpos - t.rpos));
  }

  predicate Drained(s: State, t: State)
    requires s.rpos <= s.wpos == |s.written| && |s.out| <= s.want
  {
    var got := Min(s.want - |s.out|, s.wpos - s.rpos);
    Took(s, t, got) && t.reader == if |s.out| + got > 0 then Returned(|s.out| + got) else Ask(s.rpos)
  }

  lemma {:induction false} TookMore(s: State, t: State, u: State, k: nat)
    requires s.rpos + 1 + k <= |s.written| && Took(s, t, 1) && Took(t, u, k)
    ensures Took(s, u, 1 + k)
  {
    assert s.written[s.rpos..s.rpos + 1 + k] == s.written[s.rpos..s.rpos + 1] + s.written[s.rpos + 1..s.rpos + 1 + k];
  }

  /** A call of the writer that has put k bytes more. */
  predicate Gave(s: State, t: State, k: nat)
    requires s.i + k <= |s.src|
  {
    && t.written == s.written + s.src[s.i..s.i + k] && t.wpos == s.wpos + k && t.i == s.i + k && t.src == s.src
    && t.rpos == s.rpos && t.rgone == s.rgone
  }

  /** If there is room, the writer uses it. */
  lemma {:induction false} PutOne(s: State) returns (ss: seq<State>, acts: seq<Action>)
    requires Inv(s) && s.writer == Look && s.wpos < s.rpos + PIPEBUFSIZ
    ensures Alone(ss, acts, Write) && ss[0] == s
    ensures var t := ss[|acts|];
            Inv(t) && Gave(s, t, 1) && t.writer == if s.i + 1 == |s.src| then Done(|s.src|) else Look
  {
    ss, acts := PutSteps(s);
    RunKeeps(ss, acts, |acts|);
    assert s.src[s.i..s.i + 1] == [s.src[s.i]];
  }

  lemma {:induction false} PutSteps(s: State) returns (ss: seq<State>, acts: seq<Action>)
    requires |s.buf| == PIPEBUFSIZ && s.i < |s.src| && s.writer == Look && s.wpos < s.rpos + PIPEBUFSIZ
    ensures Alone(ss, acts, Write) && ss[0] == s
    ensures var b := s.src[s.i];
            ss[|acts|] == s.(writer := if s.i + 1 == |s.src| then Done(|s.src|) else Look, i := s.i + 1,
                             buf := s.buf[s.wpos % PIPEBUFSIZ := b], wpos := s.wpos + 1, written := s.written + [b])
  {
    var b := s.src[s.i];
    var s3 := s.(writer := Tally(b), buf := s.buf[s.wpos % PIPEBUFSIZ := b]);
    ss, acts := [s], [];
    ss, acts := On(ss, acts, Write, s.(writer := Weigh(s.rpos)));
    ss, acts := On(ss, acts, Write, s.(writer := Fill));
    ss, acts := On(ss, acts, Write, s3);
    ss, acts := On(ss, acts, Write, s3.(writer := Publish(b, s.wpos)));
    ss, acts := On(ss, acts, Write, WriteStep(s3.(writer := Publish(b, s.wpos))));
  }

  /**
    A writer that is not interrupted writes all it has if there is room for it, and returns; otherwise it fills the
    buffer and asks whether the readers are gone.
   */
  lemma {:induction false} Pours(s: State) returns (ss: seq<State>, acts: seq<Action>)
    requires Inv(s) && s.writer == Look
    ensures Alone(ss, acts, Write) && ss[0] == s && Inv(ss[|acts|]) && Poured(s, ss[|acts|])
    decreases |s.src| - s.i
  {
    if s.wpos == s.rpos + PIPEBUFSIZ {
      ss, acts := PourNone(s);
    } else {
      ss, acts := PutOne(s);
      var t := ss[|acts|];
      if !t.writer.Done? {
        var tt, more := Pours(t);
        PourMore(s, t, tt[|more|]);
        Joined(ss, acts, tt, more);
        ss, acts := ss + tt[1..], acts + more;
      }
    }
  }

  predicate Poured(s: State, t: State)
    requires s.i <= |s.src| && s.wpos <= s.rpos + PIPEBUFSIZ
  {
    var room := s.rpos + PIPEBUFSIZ - s.wpos;
    Gave(s, t, Min(|s.src| - s.i, room)) && t.writer == if |s.src| - s.i <= room then Done(|s.src|) else AskFull
  }

  lemma {:induction false} PourNone(s: State) returns (ss: seq<State>, acts: seq<Action>)
    requires Inv(s) && s.writer == Look && s.wpos == s.rpos + PIPEBUFSIZ
    ensures Alone(ss, acts, Write) && ss[0] == s && Inv(ss[|acts|]) && Poured(s, ss[|acts|])
  {
    ss, acts := [s], [];
    ss, acts := On(ss, acts, Write, s.(writer := Weigh(s.rpos)));
    ss, acts := On(ss, acts, Write, WriteStep(s.(writer := Weigh(s.rpos))));
    RunKeeps(ss, acts, |acts|);
    assert s.src[s.i..s.i] == [];
  }

  lemma {:induction false} PourMore(s: State, t: State, u: State)
    requires s.wpos < s.rpos + PIPEBUFSIZ && s.i + 1 < |s.src| && Gave(s, t, 1) && Poured(t, u)
    ensures Poured(s, u)
  {
    GaveMore(s, t, u, Min(|t.src| - t.i, t.rpos + PIPEBUFSIZ - t.wpos));
  }

  lemma {:induction false} GaveMore(s: State, t: State, u: State, k: nat)
    requires s.i + 1 + k <= |s.src| && Gave(s, t, 1) && Gave(t, u, k)
    ensures Gave(s, u, 1 + k)
  {
    assert s.src[s.i..s.i + 1 + k] == s.src[s.i..s.i + 1] + s.src[s.i + 1..s.i + 1 + k];
  }

  // ---------------------------------------------------------------- the end of the file

  /**
    devpipe_read answers 0 for the end of the file. Everything written has been read then if and only if no byte
    was published between its look at p_wpos, which was w, and the answer that the writers are gone.
   */
  lemma {:induction false} EofExact(s: State)
    requires Inv(s) && s.reader.Ask? && s.wgone
    ensures ReadStep(s).reader == Returned(0)
    ensures s.read == s.sent <==> s.wpos == s.reader.w
  {
    assert s.sent == s.written + s.src[s.i..] && s.src[s.i..] == [];
    if s.wpos == s.reader.w { assert s.read == s.written[..|s.read|]; }
  }

  /** The reader finds the pipe empty, the writer writes a byte and closes its end, the reader sees the end. */
  lemma {:induction false} EofLost(buf: seq<Byte>, b: Byte) returns (ss: seq<State>, acts: seq<Action>)
    requires |buf| == PIPEBUFSIZ
    ensures IsRun(ss, acts) && ss[0] == Start(buf)
    ensures var s := ss[|acts|];
            Inv(s) && s.reader == Returned(0) && s.want == 1 && s.read == [] && s.sent == s.written == [b]
  {
    var s := Start(buf);
    var s1 := s.(reader := Check, want := 1);
    var s4 := s.(reader := Ask(0), want := 1, writer := Look, src := [b], i := 0, sent := [b]);
    ss, acts := [s], [];
    ss, acts := Then(ss, acts, Receive(1), s1);
    ss, acts := Then(ss, acts, Read, s1.(reader := Compare(0)));
    ss, acts := Then(ss, acts, Read, s1.(reader := Ask(0)));
    ss, acts := Then(ss, acts, Send([b]), s4);
    var tt, more := PutSteps(s4);
    Joined(ss, acts, tt, more);
    ss, acts := ss + tt[1..], acts + more;
    var t := ss[|acts|];
    ss, acts := Then(ss, acts, CloseWrite, t.(wgone := true));
    ss, acts := Then(ss, acts, Read, t.(wgone := true, reader := Returned(0)));
    RunKeeps(ss, acts, |acts|);
  }

  lemma {:induction false} Then(ss: seq<State>, acts: seq<Action>, a: Action, t: State)
      returns (tt: seq<State>, more: seq<Action>)
    requires IsRun(ss, acts) && |ss[|acts|].buf| == PIPEBUFSIZ && t == Step(ss[|acts|], a)
    ensures IsRun(tt, more) && tt[0] == ss[0] && tt[|more|] == t
  {
    Further(ss, acts, a, t);
    tt, more := ss + [t], acts + [a];
  }
}
