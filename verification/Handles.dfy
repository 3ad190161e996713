/**
  add_handle_to_transaction of fs/jbd.c: a write is merged into an earlier handle for the same file
  if it fits there, and appended otherwise. The search counts down with an unsigned index.
 */
module Handles {
  import opened Base

  const U32: nat := 0x1_0000_0000
  const MAX_NHANDLES: nat := 1024
  const CAPACITY: nat := 3056              // sizeof p_data: BLKSIZE - HANDLE_HDRSIZE - 8

  datatype Oper = Creat | Write | Trunc | Delet

  /** off and dsize are used by writes only; data has room for CAPACITY bytes. */
  datatype Handle = Handle(oper: Oper, file: string, off: nat, dsize: nat, data: seq<Byte>)

  predicate HandleOk(h: Handle) {
    |h.data| == CAPACITY
  }

  predicate LogOk(log: seq<Handle>) {
    |log| <= MAX_NHANDLES && forall i :: 0 <= i < |log| ==> HandleOk(log[i])
  }

  datatype Outcome = Appended | Merged(i: nat) | Lost | Panicked

  /** An earlier write to the same file. */
  predicate Matches(x: Handle, h: Handle) {
    x.oper == Write && x.file == h.file
  }

  /** h is added to what x says. */
  function Merge(x: Handle, h: Handle): Handle
    requires HandleOk(x) && HandleOk(h) && h.off >= x.off && h.off - x.off + h.dsize <= CAPACITY
  {
    var at := h.off - x.off;
    x.(data := x.data[..at] + h.data[..h.dsize] + x.data[at + h.dsize..], dsize := x.dsize + h.dsize)
  }

  /** i is the last handle that matches. */
  ghost predicate LastMatch(log: seq<Handle>, h: Handle, i: nat) {
    i < |log| && Matches(log[i], h) && forall j :: i < j < |log| ==> !Matches(log[j], h)
  }

  ghost predicate NoMatch(log: seq<Handle>, h: Handle) {
    forall j :: 0 <= j < |log| ==> !Matches(log[j], h)
  }

  /** The append path; it needs an entry in the index and, where room says so, blocks. */
  ghost predicate AppendedTo(log: seq<Handle>, h: Handle, room: bool, r: Outcome, now: seq<Handle>) {
    if |log| < MAX_NHANDLES && room then r == Appended && now == log + [h] else r == Panicked && now == log
  }

  /** What the call does. */
  ghost predicate Added(log: seq<Handle>, h: Handle, room: bool, r: Outcome, now: seq<Handle>)
    requires LogOk(log) && HandleOk(h)
  {
    && (h.oper != Write || log == [] ==> AppendedTo(log, h, room, r, now))
    && (h.oper == Write && log != [] && NoMatch(log, h) ==> r == Lost && now == log)
    && forall i: nat :: h.oper == Write && LastMatch(log, h, i) ==>
         if h.off < log[i].off then r == Panicked && now == log
         else if h.off - log[i].off + h.dsize <= CAPACITY then r == Merged(i) && now == log[i := Merge(log[i], h)]
         else AppendedTo(log, h, room, r, now)
  }

  method AddHandle(log: seq<Handle>, h: Handle, room: bool) returns (r: Outcome, now: seq<Handle>)
    requires LogOk(log) && HandleOk(h)
    ensures Added(log, h, room, r, now)
  {
    if h.oper == Write && |log| > 0 {
      var hno: nat := |log| - 1;
      ghost var left: nat := |log|;
      while true
        invariant left <= |log| && hno == (left + U32 - 1) % U32
        invariant forall j :: left <= j < |log| ==> !Matches(log[j], h)
        decreases left
      {
        if hno >= MAX_NHANDLES {
          return Lost, log;                  // transaction_get_handle fails, and so does this call
        }
        if Matches(log[hno], h) {
          assert LastMatch(log, h, hno);
          if h.off < log[hno].off {
            return Panicked, log;            // the assertion
          }
          if h.off - log[hno].off + h.dsize <= CAPACITY {
            return Merged(hno), log[hno := Merge(log[hno], h)];
          }
          break;
        }
        left, hno := left - 1, (hno + U32 - 1) % U32;
      }
    }
    if |log| >= MAX_NHANDLES || !room {
      return Panicked, log;
    }
    return Appended, log + [h];
  }

  // ---------------------------------------------------------------- what is recorded

  /** What a write says about position p of its file. */
  function Says(x: Handle, p: nat): Option<Byte> {
    if x.off <= p < x.off + x.dsize then Some(if p - x.off < |x.data| then x.data[p - x.off] else 0) else None
  }

  /** m says what x says, with what h says in its place. */
  ghost predicate Both(x: Handle, h: Handle, m: Handle) {
    forall p: nat :: Says(m, p) == if Says(h, p).Some? then Says(h, p) else Says(x, p)
  }

  /** Merging is right if and only if the write goes on where the earlier one ends, or is empty. */
  lemma {:induction false} MergeExact(x: Handle, h: Handle)
    requires HandleOk(x) && HandleOk(h) && x.off <= h.off && h.off - x.off + h.dsize <= CAPACITY
    ensures Both(x, h, Merge(x, h)) <==> h.dsize == 0 || h.off == x.off + x.dsize
  {
    var m, at := Merge(x, h), h.off - x.off;
    if h.dsize == 0 {
      assert m.data == x.data;
    } else if h.off == x.off + x.dsize {
      forall p: nat ensures Says(m, p) == if Says(h, p).Some? then Says(h, p) else Says(x, p) {
      }
    } else if h.off < x.off + x.dsize {
      var p := x.off + x.dsize + h.dsize - 1;
      assert Says(m, p).Some? && Says(x, p).None? && Says(h, p).None?;
    } else {
      var p := h.off + h.dsize - 1;
      assert Says(m, p).None? && Says(h, p).Some?;
    }
  }

  /** The write h is in the log: as a handle of its own, or as part of one that says the same as both. */
  ghost predicate Recorded(log: seq<Handle>, h: Handle, r: Outcome, now: seq<Handle>) {
    match r
    case Appended => now == log + [h]
    case Merged(i) => i < |log| == |now| && now == log[i := now[i]] && Matches(log[i], h) && Both(log[i], h, now[i])
    case _ => false
  }

  /**
    A write handed to add_handle_to_transaction is recorded, given room, if and only if the transaction is empty, or
    the last write to the same file in it is not later in the file and is full, or ends where this one begins.
   */
  lemma {:induction false} RecordedExact(log: seq<Handle>, h: Handle, r: Outcome, now: seq<Handle>)
    requires LogOk(log) && HandleOk(h) && h.oper == Write && 0 < h.dsize <= CAPACITY && |log| < MAX_NHANDLES
    requires Added(log, h, true, r, now)
    ensures Recorded(log, h, r, now) <==> log == [] || exists i: nat :: LastMatch(log, h, i) && GoesOn(log[i], h)
  {
    if log != [] {
      var i := FindLast(log, h, |log|);
      if i < |log| && log[i].off <= h.off && h.off - log[i].off + h.dsize <= CAPACITY {
        MergeExact(log[i], h);
      }
      if k: nat :| LastMatch(log, h, k) && GoesOn(log[k], h) { assert k == i; }
    }
  }

  /** h is no earlier in the file than x, and finds x full or begins where x ends. */
  predicate GoesOn(x: Handle, h: Handle) {
    x.off <= h.off && (h.off - x.off + h.dsize > CAPACITY || h.off == x.off + x.dsize)
  }

  lemma {:induction false} FindLast(log: seq<Handle>, h: Handle, n: nat) returns (i: nat)
    requires n <= |log| && forall j :: n <= j < |log| ==> !Matches(log[j], h)
    ensures if i < |log| then LastMatch(log, h, i) else NoMatch(log, h)
  {
    if n == 0 {
      i := |log|;
    } else if Matches(log[n - 1], h) {
      i := n - 1;
    } else {
      i := FindLast(log, h, n - 1);
    }
  }

  /** A file is made and then written to: the write is lost. */
  lemma {:induction false} FirstWriteLost(file: string, h: Handle, data: seq<Byte>, r: Outcome, now: seq<Handle>)
    requires |data| == CAPACITY && HandleOk(h) && h.oper == Write && h.file == file
    requires Added([Handle(Creat, file, 0, 0, data)], h, true, r, now)
    ensures r == Lost && now == [Handle(Creat, file, 0, 0, data)]
  {
    assert NoMatch([Handle(Creat, file, 0, 0, data)], h);
  }
}
