/**
  The lwIP heap as the list of its blocks, in address order.

  A block owns the bytes [start, next): HDR bytes of `struct mem` and then its payload.
  The functions below say what mem_malloc, mem_free and mem_realloc do to that list; the
  class in Heap.dfy proves that the pointer code does exactly this.
 */
module HeapLayout {
  import opened Base

  const ALIGN: nat := 4                // MEM_ALIGNMENT
  const HDR: nat := 12                 // SIZEOF_STRUCT_MEM
  const MIN: nat := 12                 // MIN_SIZE_ALIGNED
  const U32: nat := 0x1_0000_0000      // mem_size_t is 32 bits wide: MEM_SIZE > 64000

  datatype Block = Block(start: nat, next: nat, used: bool) {
    function Payload(): int {
      next - start - HDR
    }
  }

  type Layout = seq<Block>

  /** LWIP_MEM_ALIGN_SIZE in mem_size_t arithmetic: the addition can wrap around. */
  function AlignUp(n: nat): nat {
    (n + ALIGN - 1) % U32 / ALIGN * ALIGN
  }

  /** The payload size the code looks for when asked for n bytes. */
  function Request(n: nat): nat {
    if AlignUp(n) < MIN then MIN else AlignUp(n)
  }

  predicate BlockOk(b: Block) {
    b.start % ALIGN == 0 && b.next % ALIGN == 0 && b.start + HDR + MIN <= b.next
  }

  /** Block i ends where the next one starts. */
  predicate Touch(s: Layout, i: nat)
    requires i + 1 < |s|
  {
    s[i].next == s[i + 1].start
  }

  /** Block i and the next one are not both free. */
  predicate Plugged(s: Layout, i: nat)
    requires i + 1 < |s|
  {
    s[i].used || s[i + 1].used
  }

  /** The blocks of `s` cover [lo, hi) without gap or overlap. */
  ghost predicate Chain(s: Layout, lo: nat, hi: nat) {
    && (s == [] ==> lo == hi)
    && (s != [] ==> s[0].start == lo && s[|s| - 1].next == hi)
    && (forall i :: 0 <= i < |s| ==> BlockOk(s[i]))
    && (forall i :: 0 <= i < |s| - 1 ==> Touch(s, i))
  }

  /** ... and free space is never split between neighbours. */
  ghost predicate Tiles(s: Layout, lo: nat, hi: nat) {
    Chain(s, lo, hi) && forall i :: 0 <= i < |s| - 1 ==> Plugged(s, i)
  }

  ghost predicate Inv(s: Layout, size: nat) {
    s != [] && Tiles(s, 0, size)
  }

  predicate Fits(b: Block, n: nat) {
    !b.used && b.Payload() >= n
  }

  /** Index of the lowest fitting block, or |s|. */
  function FirstFit(s: Layout, n: nat): (i: nat)
    ensures i <= |s|
    ensures i < |s| ==> Fits(s[i], n)
    ensures forall j :: 0 <= j < i ==> !Fits(s[j], n)
  {
    if s == [] || Fits(s[0], n) then 0 else 1 + FirstFit(s[1..], n)
  }

  /** Index of the lowest free block, or |s|. */
  function LowIndex(s: Layout): (i: nat)
    ensures i <= |s|
    ensures i < |s| ==> !s[i].used
    ensures forall j :: 0 <= j < i ==> s[j].used
  {
    if s == [] || !s[0].used then 0 else 1 + LowIndex(s[1..])
  }

  /** Offset of block i; the end marker stands after the last block. */
  function StartOf(s: Layout, size: nat, i: nat): nat {
    if i < |s| then s[i].start else size
  }

  /** Where lfree must point: the lowest free block, or the end of the heap. */
  function LowFree(s: Layout, size: nat): nat {
    StartOf(s, size, LowIndex(s))
  }

  function PrevStart(s: Layout, i: nat): nat
    requires i < |s|
  {
    if i == 0 then 0 else s[i - 1].start
  }

  /** The blocks [i, j) replaced by others. */
  function Replace(s: Layout, i: nat, j: nat, mid: Layout): Layout
    requires i <= j <= |s|
  {
    s[..i] + mid + s[j..]
  }

  /** The block that holds an allocation of n bytes carved out of b. */
  function Carved(b: Block, n: nat): Block {
    Block(b.start, if b.Payload() >= n + HDR + MIN then b.start + HDR + n else b.next, true)
  }

  /** Occupy n bytes of block i, splitting off the rest when a minimal block still fits. */
  function Take(s: Layout, i: nat, n: nat): Layout
    requires i < |s|
  {
    var b := s[i];
    if b.Payload() >= n + HDR + MIN then
      Replace(s, i, i + 1, [Carved(b, n), Block(b.start + HDR + n, b.next, false)])
    else
      Replace(s, i, i + 1, [Carved(b, n)])
  }

  function Malloc(s: Layout, size: nat, n: nat): (Layout, Option<nat>) {
    if n == 0 || Request(n) > size then (s, None)
    else
      var i := FirstFit(s, Request(n));
      if i == |s| then (s, None) else (Take(s, i, Request(n)), Some(s[i].start + HDR))
  }

  /** Release block i and join it with the free neighbours. */
  function Free(s: Layout, i: nat): Layout
    requires i < |s|
  {
    var lo := if i > 0 && !s[i - 1].used then i - 1 else i;
    var hi := if i + 1 < |s| && !s[i + 1].used then i + 1 else i;
    Replace(s, lo, hi + 1, [Block(s[lo].start, s[hi].next, false)])
  }

  /** Block i after it was shrunk to n payload bytes, where the freed bytes can be a block. */
  function Shrunk(s: Layout, i: nat, n: nat): Block
    requires i < |s|
  {
    var b := s[i];
    if n < b.Payload() && ((i + 1 < |s| && !s[i + 1].used) || n + HDR + MIN <= b.Payload())
    then b.(next := b.start + HDR + n) else b
  }

  /** Shrink block i to n payload bytes where that is possible. */
  function Shrink(s: Layout, i: nat, n: nat): Layout
    requires i < |s|
  {
    var b := s[i];
    var cut := b.start + HDR + n;
    if n >= b.Payload() then s
    else if i + 1 < |s| && !s[i + 1].used then
      Replace(s, i, i + 2, [b.(next := cut), Block(cut, s[i + 1].next, false)])
    else if n + HDR + MIN <= b.Payload() then
      Replace(s, i, i + 1, [b.(next := cut), Block(cut, b.next, false)])
    else s
  }

  function Realloc(s: Layout, size: nat, i: nat, n: nat): (Layout, bool)
    requires i < |s|
  {
    if Request(n) > size || Request(n) > s[i].Payload() then (s, false)
    else (Shrink(s, i, Request(n)), true)
  }

  // ---------------------------------------------------------------- order

  lemma {:induction false} Ordered(s: Layout, lo: nat, hi: nat, i: nat, j: nat)
    requires Chain(s, lo, hi) && i < j < |s|
    ensures s[i].next <= s[j].start
    decreases j
  {
    if i + 1 < j {
      Ordered(s, lo, hi, i, j - 1);
      assert BlockOk(s[j - 1]) && Touch(s, j - 1);
    } else {
      assert Touch(s, i);
    }
  }

  lemma {:induction false} AllOrdered(s: Layout, lo: nat, hi: nat)
    requires Chain(s, lo, hi)
    ensures forall i, j :: 0 <= i < j < |s| ==> s[i].start + HDR + MIN <= s[i].next <= s[j].start
    ensures forall i :: 0 <= i < |s| ==> lo <= s[i].start && s[i].next <= hi
  {
    forall i, j | 0 <= i < j < |s| ensures s[i].next <= s[j].start {
      Ordered(s, lo, hi, i, j);
    }
    forall i | 0 <= i < |s| ensures lo <= s[i].start && s[i].next <= hi {
      if i > 0 { Ordered(s, lo, hi, 0, i); }
      if i < |s| - 1 { Ordered(s, lo, hi, i, |s| - 1); }
    }
  }

  lemma {:induction false} TailTiles(s: Layout, lo: nat, hi: nat)
    requires Tiles(s, lo, hi) && s != []
    ensures Tiles(s[1..], s[0].next, hi)
  {
    var t := s[1..];
    if t != [] {
      assert Touch(s, 0) && Plugged(s, 0);
    }
    forall i | 0 <= i < |t| - 1 ensures Touch(t, i) && Plugged(t, i) {
      assert Touch(s, i + 1) && Plugged(s, i + 1);
    }
  }

  /** One block and the link to the one after it. */
  lemma {:induction false} At(s: Layout, size: nat, i: nat)
    requires Chain(s, 0, size) && i < |s|
    ensures s[i].next == StartOf(s, size, i + 1)
    ensures s[i].start + HDR + MIN <= s[i].next <= size
  {
    AllOrdered(s, 0, size);
    assert i + 1 < |s| ==> Touch(s, i);
  }

  /** How far the blocks before i and after j are from the blocks i and j. */
  lemma {:induction false} Around(s: Layout, size: nat, i: nat, j: nat)
    requires Chain(s, 0, size) && i <= j <= |s|
    ensures i < |s| ==> forall k :: 0 <= k < i ==> s[k].start + HDR + MIN <= s[i].start
    ensures forall k :: j < k < |s| ==> s[j].start + HDR + MIN <= s[k].start
    ensures forall k :: 0 <= k < |s| ==> s[k].start + HDR + MIN <= size
  {
    AllOrdered(s, 0, size);
  }

  /** A block this close to the end of the heap is too small, and so is every later one. */
  lemma {:induction false} TooClose(s: Layout, size: nat, i: nat, n: nat)
    requires Chain(s, 0, size) && i <= |s| && StartOf(s, size, i) + n >= size
    ensures forall j :: i <= j < |s| ==> !Fits(s[j], n)
  {
    AllOrdered(s, 0, size);
  }

  // ---------------------------------------------------------------- live allocations

  /** The blocks in use. */
  ghost function Live(s: Layout): set<Block> {
    set b | b in s && b.used
  }

  lemma {:induction false} HeadNotInTail(s: Layout, lo: nat, hi: nat)
    requires Tiles(s, lo, hi) && s != []
    ensures forall b :: b in s[1..] ==> b.start >= s[0].next
  {
    forall b | b in s[1..] ensures b.start >= s[0].next {
      var i :| 0 <= i < |s[1..]| && s[1..][i] == b;
      Ordered(s, lo, hi, 0, i + 1);
    }
  }

  /**
    With the invariant the live blocks determine the whole heap. So any two histories
    that leave the same allocations leave the same headers.
   */
  lemma {:induction false} Canonical(s: Layout, t: Layout, lo: nat, hi: nat)
    requires Tiles(s, lo, hi) && Tiles(t, lo, hi)
    requires Live(s) == Live(t)
    ensures s == t
  {
    if s == [] || t == [] {
      AllOrdered(s, lo, hi);
      AllOrdered(t, lo, hi);
    } else {
      SameHead(s, t, lo, hi);
      TailTiles(s, lo, hi);
      TailTiles(t, lo, hi);
      HeadNotInTail(s, lo, hi);
      HeadNotInTail(t, lo, hi);
      assert s == [s[0]] + s[1..] && t == [t[0]] + t[1..];
      assert BlockOk(s[0]);
      assert forall b :: b in s <==> b == s[0] || b in s[1..];
      assert forall b :: b in t <==> b == t[0] || b in t[1..];
      assert Live(s[1..]) == Live(s) - {s[0]};
      assert Live(t[1..]) == Live(t) - {t[0]};
      Canonical(s[1..], t[1..], s[0].next, hi);
    }
  }

  lemma {:induction false} SameHead(s: Layout, t: Layout, lo: nat, hi: nat)
    requires Tiles(s, lo, hi) && Tiles(t, lo, hi) && s != [] && t != []
    requires Live(s) == Live(t)
    ensures s[0] == t[0]
  {
    AllOrdered(s, lo, hi);
    AllOrdered(t, lo, hi);
    assert s[0].used ==> s[0] in Live(t);
    assert t[0].used ==> t[0] in Live(s);
    if !s[0].used {
      HeadReaches(s, t, lo, hi);
      HeadReaches(t, s, lo, hi);
    }
  }

  /** A free head block of t extends at least as far as that of s. */
  lemma {:induction false} HeadReaches(s: Layout, t: Layout, lo: nat, hi: nat)
    requires Tiles(s, lo, hi) && Tiles(t, lo, hi) && s != [] && t != []
    requires Live(s) == Live(t) && !s[0].used && !t[0].used
    ensures s[0].next <= t[0].next
  {
    AllOrdered(s, lo, hi);
    AllOrdered(t, lo, hi);
    if |t| > 1 {
      assert Touch(t, 0) && Plugged(t, 0);
      assert t[1] in Live(s);
    }
  }

  // ---------------------------------------------------------------- cutting and joining

  lemma {:induction false} Cut(s: Layout, lo: nat, hi: nat, i: nat)
    requires Tiles(s, lo, hi) && i <= |s|
    ensures Tiles(s[..i], lo, if i < |s| then s[i].start else hi)
    ensures Tiles(s[i..], if i < |s| then s[i].start else hi, hi)
  {
    var a, b := s[..i], s[i..];
    if 0 < i < |s| { assert Touch(s, i - 1) && Plugged(s, i - 1); }
    forall k | 0 <= k < |a| - 1 ensures Touch(a, k) && Plugged(a, k) {
      assert Touch(s, k) && Plugged(s, k);
    }
    forall k | 0 <= k < |b| - 1 ensures Touch(b, k) && Plugged(b, k) {
      assert Touch(s, k + i) && Plugged(s, k + i);
    }
  }

  predicate Meet(a: Layout, b: Layout) {
    a == [] || b == [] || a[|a| - 1].used || b[0].used
  }

  lemma {:induction false} Join(a: Layout, b: Layout, lo: nat, mid: nat, hi: nat)
    requires Tiles(a, lo, mid) && Tiles(b, mid, hi) && Meet(a, b)
    ensures Tiles(a + b, lo, hi)
  {
    var s := a + b;
    forall k | 0 <= k < |s| - 1 ensures Touch(s, k) && Plugged(s, k) {
      if k + 1 < |a| {
        assert Touch(a, k) && Plugged(a, k);
      } else if k >= |a| {
        assert Touch(b, k - |a|) && Plugged(b, k - |a|);
      }
    }
  }

  /** Replacing blocks by others that cover the same bytes keeps the tiling. */
  lemma {:induction false} Splice(s: Layout, size: nat, i: nat, j: nat, mid: Layout)
    requires Inv(s, size) && i < j <= |s|
    requires mid != [] && Tiles(mid, s[i].start, s[j - 1].next)
    requires i > 0 ==> s[i - 1].used || mid[0].used
    requires j < |s| ==> mid[|mid| - 1].used || s[j].used
    ensures Inv(Replace(s, i, j, mid), size)
  {
    var x, y := s[i].start, s[j - 1].next;
    Cut(s, 0, size, i);
    Cut(s, 0, size, j);
    if j < |s| { assert Touch(s, j - 1) && Plugged(s, j - 1); }
    Join(s[..i], mid, 0, x, y);
    Join(s[..i] + mid, s[j..], 0, y, size);
  }

  /** ... and changes the live blocks only there. The region [i, j) has one used block at most. */
  lemma {:induction false} LiveSplice(s: Layout, size: nat, i: nat, j: nat, mid: Layout, k: nat)
    requires Inv(s, size) && i <= k < j <= |s|
    requires forall x :: i <= x < j && x != k ==> !s[x].used
    requires mid != [] && forall x :: 1 <= x < |mid| ==> !mid[x].used
    ensures Live(Replace(s, i, j, mid)) == (Live(s) - {s[k]}) + (if mid[0].used then {mid[0]} else {})
  {
    var t := Replace(s, i, j, mid);
    Around(s, size, k, k);
    forall b | b in Live(t) ensures b in (Live(s) - {s[k]}) + (if mid[0].used then {mid[0]} else {}) {
      var x :| 0 <= x < |t| && t[x] == b;
      if x < i {
        assert b == s[x];
      } else if x < i + |mid| {
        assert b == mid[x - i];
      } else {
        assert b == s[x - i - |mid| + j];
      }
    }
    forall b | b in Live(s) && b != s[k] ensures b in Live(t) {
      var x :| 0 <= x < |s| && s[x] == b;
      assert x < i || x >= j;
      assert b == t[if x < i then x else x - j + i + |mid|];
    }
    assert mid[0] == t[i];
  }

  lemma {:induction false} TilesTwo(a: Block, b: Block)
    requires BlockOk(a) && BlockOk(b) && a.next == b.start && (a.used || b.used)
    ensures Tiles([a, b], a.start, b.next)
  {
    var s := [a, b];
    forall i | 0 <= i < |s| - 1 ensures Touch(s, i) && Plugged(s, i) {
      assert i == 0;
    }
  }

  // ---------------------------------------------------------------- what each call does

  lemma {:induction false} TakeKeeps(s: Layout, size: nat, i: nat, n: nat)
    requires Inv(s, size) && i < |s| && Fits(s[i], n) && n % ALIGN == 0 && n >= MIN
    ensures Inv(Take(s, i, n), size)
    ensures Live(Take(s, i, n)) == Live(s) + {Carved(s[i], n)} && Carved(s[i], n).start == s[i].start
    ensures n <= Carved(s[i], n).Payload() < n + HDR + MIN
    ensures Carved(s[i], n).Payload() == n || Carved(s[i], n).next == s[i].next
  {
    var b := s[i];
    var cut := b.start + HDR + n;
    assert BlockOk(b);
    var split := b.Payload() >= n + HDR + MIN;
    var mid := if split then [Carved(b, n), Block(cut, b.next, false)] else [Carved(b, n)];
    if split { TilesTwo(mid[0], mid[1]); }
    assert i + 1 < |s| ==> Touch(s, i) && Plugged(s, i);
    Splice(s, size, i, i + 1, mid);
    LiveSplice(s, size, i, i + 1, mid, i);
    assert Take(s, i, n) == Replace(s, i, i + 1, mid);
  }

  /** Live allocations after mem_free are the old ones without the released block. */
  lemma {:induction false} FreeTiles(s: Layout, size: nat, i: nat)
    requires Inv(s, size) && i < |s| && s[i].used
    ensures Inv(Free(s, i), size)
  {
    var lo := if i > 0 && !s[i - 1].used then i - 1 else i;
    var hi := if i + 1 < |s| && !s[i + 1].used then i + 1 else i;
    Ends(s, size, lo, hi);
    Splice(s, size, lo, hi + 1, [Block(s[lo].start, s[hi].next, false)]);
  }

  lemma {:induction false} FreeKeeps(s: Layout, size: nat, i: nat)
    requires Inv(s, size) && i < |s| && s[i].used
    ensures Inv(Free(s, i), size)
    ensures Live(Free(s, i)) == Live(s) - {s[i]}
  {
    var lo := if i > 0 && !s[i - 1].used then i - 1 else i;
    var hi := if i + 1 < |s| && !s[i + 1].used then i + 1 else i;
    FreeTiles(s, size, i);
    LiveSplice(s, size, lo, hi + 1, [Block(s[lo].start, s[hi].next, false)], i);
  }

  /** What surrounds a maximal free region, and that the region is itself a block. */
  lemma {:induction false} Ends(s: Layout, size: nat, lo: nat, hi: nat)
    requires Inv(s, size) && lo <= hi < |s|
    ensures lo > 0 && !s[lo].used ==> s[lo - 1].used
    ensures hi + 1 < |s| && !s[hi].used ==> s[hi + 1].used
    ensures BlockOk(Block(s[lo].start, s[hi].next, false))
  {
    AllOrdered(s, 0, size);
    assert lo > 0 ==> Touch(s, lo - 1) && Plugged(s, lo - 1);
    assert hi + 1 < |s| ==> Touch(s, hi) && Plugged(s, hi);
    assert BlockOk(s[lo]) && BlockOk(s[hi]);
  }

  /** Cutting block i short at `cut`; the free space behind it is one block. */
  lemma {:induction false} CutShort(s: Layout, size: nat, i: nat, j: nat, cut: nat)
    requires Inv(s, size) && i < j <= i + 2 && j <= |s| && s[i].used && (j == i + 2 ==> !s[i + 1].used)
    requires j < |s| ==> s[j].used
    requires cut % ALIGN == 0 && s[i].start + HDR + MIN <= cut && cut + HDR + MIN <= s[j - 1].next
    ensures var t := Replace(s, i, j, [s[i].(next := cut), Block(cut, s[j - 1].next, false)]);
            Inv(t, size) && Live(t) == (Live(s) - {s[i]}) + {s[i].(next := cut)}
  {
    var b, c := s[i].(next := cut), Block(cut, s[j - 1].next, false);
    assert BlockOk(s[i]) && BlockOk(s[j - 1]);
    TilesTwo(b, c);
    Splice(s, size, i, j, [b, c]);
    LiveSplice(s, size, i, j, [b, c], i);
  }

  /** mem_realloc keeps every other allocation and leaves n bytes in the shrunk one, or too few more to be a block. */
  lemma {:induction false} ShrinkKeeps(s: Layout, size: nat, i: nat, n: nat)
    requires Inv(s, size) && i < |s| && s[i].used && n % ALIGN == 0 && MIN <= n <= s[i].Payload()
    ensures Inv(Shrink(s, i, n), size)
    ensures n <= Shrunk(s, i, n).Payload() < n + HDR + MIN && Shrunk(s, i, n).start == s[i].start
    ensures Shrunk(s, i, n) == s[i] || Shrunk(s, i, n).Payload() == n
    ensures i + 1 < |s| && !s[i + 1].used ==> Shrunk(s, i, n).Payload() == n
    ensures Shrunk(s, i, n).used && Shrunk(s, i, n).Payload() <= s[i].Payload()
    ensures Live(Shrink(s, i, n)) == (Live(s) - {s[i]}) + {Shrunk(s, i, n)}
  {
    var b := s[i];
    assert BlockOk(b);
    if n < b.Payload() && i + 1 < |s| && !s[i + 1].used {
      ShrinkInto(s, size, i, n);
    } else if n < b.Payload() && n + HDR + MIN <= b.Payload() {
      CutShort(s, size, i, i + 1, b.start + HDR + n);
      assert Shrink(s, i, n) == Replace(s, i, i + 1,
             [b.(next := b.start + HDR + n), Block(b.start + HDR + n, b.next, false)]);
    } else {
      assert Shrink(s, i, n) == s;
      assert Live(s) == (Live(s) - {b}) + {b};
    }
  }

  /** The free block behind takes what is given back. */
  lemma {:induction false} ShrinkInto(s: Layout, size: nat, i: nat, n: nat)
    requires Inv(s, size) && i + 1 < |s| && s[i].used && !s[i + 1].used && n % ALIGN == 0 && MIN <= n < s[i].Payload()
    ensures Inv(Shrink(s, i, n), size)
    ensures n <= Shrunk(s, i, n).Payload() < n + HDR + MIN && Shrunk(s, i, n).start == s[i].start
    ensures Shrunk(s, i, n) == s[i] || Shrunk(s, i, n).Payload() == n
    ensures i + 1 < |s| && !s[i + 1].used ==> Shrunk(s, i, n).Payload() == n
    ensures Shrunk(s, i, n).used && Shrunk(s, i, n).Payload() <= s[i].Payload()
    ensures Live(Shrink(s, i, n)) == (Live(s) - {s[i]}) + {Shrunk(s, i, n)}
  {
    var b, cut := s[i], s[i].start + HDR + n;
    assert BlockOk(b) && BlockOk(s[i + 1]) && Touch(s, i);
    Ends(s, size, i, i + 1);
    CutShort(s, size, i, i + 2, cut);
    assert Shrink(s, i, n) == Replace(s, i, i + 2, [b.(next := cut), Block(cut, s[i + 1].next, false)]);
  }

  // ---------------------------------------------------------------- bytes

  /** Byte x of the heap lies in a free block. */
  ghost predicate FreeByte(s: Layout, x: nat) {
    exists i :: 0 <= i < |s| && !s[i].used && s[i].start <= x < s[i].next
  }

  /** Byte x lies in block b, header or payload. */
  predicate Holds(b: Block, x: nat) {
    b.start <= x < b.next
  }

  /** Every byte lies in some block. */
  lemma {:induction false} Somewhere(s: Layout, lo: nat, hi: nat, x: nat) returns (i: nat)
    requires Tiles(s, lo, hi) && lo <= x < hi
    ensures i < |s| && Holds(s[i], x)
    decreases |s|
  {
    if x < s[0].next {
      i := 0;
    } else {
      TailTiles(s, lo, hi);
      var j := Somewhere(s[1..], s[0].next, hi, x);
      i := j + 1;
    }
  }

  /** No byte is lost: it is free exactly if it is in no block in use. */
  lemma {:induction false} NoneLost(s: Layout, size: nat, x: nat)
    requires Inv(s, size) && x < size
    ensures FreeByte(s, x) <==> forall b :: b in Live(s) ==> !Holds(b, x)
  {
    AllOrdered(s, 0, size);
    var i := Somewhere(s, 0, size, x);
    assert s[i].used ==> s[i] in Live(s);
  }

  // ---------------------------------------------------------------- freeing, one join at a time

  /** Block i swallows the one after it. */
  function Merged(s: Layout, i: nat): Layout
    requires i + 1 < |s|
  {
    Replace(s, i, i + 2, [s[i].(next := s[i + 1].next)])
  }

  function Released(s: Layout, i: nat): Layout
    requires i < |s|
  {
    s[i := s[i].(used := false)]
  }

  lemma {:induction false} MergedChain(s: Layout, size: nat, i: nat)
    requires Chain(s, 0, size) && i + 1 < |s|
    ensures Chain(Merged(s, i), 0, size)
  {
    var t := Merged(s, i);
    assert BlockOk(s[i]) && BlockOk(s[i + 1]) && Touch(s, i);
    forall k | 0 <= k < |t| - 1 ensures Touch(t, k) {
      if k <= i {
        assert k < i ==> Touch(s, k);
        assert k == i ==> Touch(s, i + 1);
      } else {
        assert Touch(s, k + 1);
      }
    }
  }

  lemma {:induction false} ReleasedChain(s: Layout, size: nat, i: nat)
    requires Chain(s, 0, size) && i < |s|
    ensures Chain(Released(s, i), 0, size)
  {
    var t := Released(s, i);
    forall k | 0 <= k < |t| - 1 ensures Touch(t, k) {
      assert Touch(s, k);
    }
  }

  /** plug_holes joins forward and then backward; together that is Free. */
  lemma {:induction false} FreeByMerging(s: Layout, i: nat)
    requires i < |s|
    ensures var t := Released(s, i);
            var u := if i + 1 < |t| && !t[i + 1].used then Merged(t, i) else t;
            Free(s, i) == if i > 0 && !u[i - 1].used then Merged(u, i - 1) else u
  {
  }

  lemma {:induction false} LowIs(s: Layout, k: nat)
    requires k <= |s| && (k < |s| ==> !s[k].used) && forall j :: 0 <= j < k ==> s[j].used
    ensures LowIndex(s) == k
  {
  }

  /** Where the lowest free block is, after a block was released or joined with a neighbour. */
  lemma {:induction false} LowAfterRelease(s: Layout, size: nat, i: nat)
    requires Chain(s, 0, size) && i < |s| && s[i].used
    ensures LowFree(Released(s, i), size) == if s[i].start < LowFree(s, size) then s[i].start else LowFree(s, size)
  {
    var t := Released(s, i);
    Around(s, size, i, i);
    LowIs(t, if i < LowIndex(s) then i else LowIndex(s));
  }

  lemma {:induction false} LowAfterMerge(s: Layout, size: nat, i: nat)
    requires Chain(s, 0, size) && i + 1 < |s| && !s[i].used && !s[i + 1].used
    ensures LowFree(Merged(s, i), size) == LowFree(s, size) != s[i + 1].start
  {
    var t := Merged(s, i);
    Around(s, size, i + 1, i + 1);
    assert LowIndex(s) <= i;
    assert forall k :: 0 <= k < i ==> t[k] == s[k];
    assert t[i].start == s[i].start && !t[i].used;
    LowIs(t, LowIndex(s));
  }

  /** Taking the lowest free block moves the lowest free block up; taking another does not. */
  lemma {:induction false} LowAfterTake(s: Layout, size: nat, i: nat, n: nat)
    requires i < |s| && Fits(s[i], n)
    ensures LowIndex(s) < i ==> LowFree(Take(s, i, n), size) == LowFree(s, size)
    ensures LowIndex(s) <= i
    ensures forall k :: 0 <= k < i ==> Take(s, i, n)[k] == s[k]
    ensures Take(s, i, n)[i] == Carved(s[i], n)
  {
    var t := Take(s, i, n);
    if LowIndex(s) < i {
      LowIs(t, LowIndex(s));
    }
  }

  /** Splitting a free block off behind the used block i. */
  lemma {:induction false} LowAfterSplit(s: Layout, size: nat, i: nat, j: nat, b: Block, c: Block)
    requires Chain(s, 0, size) && i < j <= |s| && s[i].used && b.used && !c.used
    ensures LowFree(Replace(s, i, j, [b, c]), size) == if LowFree(s, size) < s[i].start then LowFree(s, size)
            else c.start
    ensures LowFree(s, size) < s[i].start || s[i].next <= LowFree(s, size)
    ensures i + 1 < |s| && !s[i + 1].used && s[i].start < LowFree(s, size) ==> LowFree(s, size) == s[i + 1].start
  {
    var t := Replace(s, i, j, [b, c]);
    Around(s, size, i, i);
    AllOrdered(s, 0, size);
    assert forall k :: 0 <= k < i ==> t[k] == s[k];
    assert t[i] == b && t[i + 1] == c;
    LowIs(t, if LowIndex(s) < i then LowIndex(s) else i + 1);
    if i + 1 < |s| && !s[i + 1].used && i < LowIndex(s) { LowIs(s, i + 1); }
  }
}
