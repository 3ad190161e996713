/**
  mem.c: the heap itself. Headers live in `ram` between the payloads; writing a header
  overwrites the HDR bytes it occupies. `blocks` is the list of blocks the headers spell.
 */
module Heap {
  import opened Base
  import opened HeapLayout
  import opened HeapRuns

  datatype Header = Header(next: nat, prev: nat, used: bool)

  /** The payload of every block in use is the same in r and q. */
  ghost predicate Kept(r: seq<Byte>, q: seq<Byte>, s: Layout) {
    |r| == |q| && forall c, k :: c in s && c.used && c.start + HDR <= k < c.next && k < |r| ==> r[k] == q[k]
  }

  /** r and q differ only inside the headers at the offsets ps. */
  ghost predicate OnlyHeaders(r: seq<Byte>, q: seq<Byte>, ps: set<nat>) {
    |r| == |q| && forall k :: 0 <= k < |r| && r[k] != q[k] ==> exists p :: p in ps && p <= k < p + HDR
  }

  /** p is where a block starts, or the end marker. */
  ghost predicate IsStart(s: Layout, size: nat, p: nat) {
    p == size || exists i :: 0 <= i < |s| && s[i].start == p
  }

  /** A header never reaches into the payload of a block. */
  lemma {:induction false} HeadersApart(r: seq<Byte>, q: seq<Byte>, s: Layout, size: nat, ps: set<nat>)
    requires Chain(s, 0, size) && OnlyHeaders(r, q, ps) && forall p :: p in ps ==> IsStart(s, size, p)
    ensures Kept(r, q, s)
  {
    forall c, k | c in s && c.used && c.start + HDR <= k < c.next && k < |r| ensures r[k] == q[k] {
      var j :| 0 <= j < |s| && s[j] == c;
      if r[k] != q[k] {
        var p :| p in ps && p <= k < p + HDR;
        At(s, size, j);
        assert p != size;
        var i :| 0 <= i < |s| && s[i].start == p;
        if i < j { Ordered(s, 0, size, i, j); }
        if j < i { Ordered(s, 0, size, j, i); }
      }
    }
  }

  /** The header at block i says what the block list says. */
  ghost predicate Says(h: seq<Header>, s: Layout, i: nat)
    requires i < |s|
  {
    s[i].start < |h| - 1 && h[s[i].start] == Header(s[i].next, PrevStart(s, i), s[i].used)
  }

  /** The headers in h spell the block list s; the prev field of the end marker is not maintained. */
  ghost predicate Spells(h: seq<Header>, s: Layout, size: nat) {
    |h| == size + 1 && (forall i :: 0 <= i < |s| ==> Says(h, s, i)) && h[size].used && h[size].next == size
  }

  /** g is h outside the blocks [i, j), except for the prev field of block j. */
  ghost predicate Outside(h: seq<Header>, g: seq<Header>, s: Layout, i: nat, j: nat, prev: nat)
    requires h != [] && i < j <= |s| && Spells(h, s, |h| - 1)
  {
    && |g| == |h|
    && (forall k :: 0 <= k < i || j < k < |s| ==> Says(h, s, k) && g[s[k].start] == h[s[k].start])
    && (j < |s| ==> Says(h, s, j) && g[s[j].start] == h[s[j].start].(prev := prev))
    && g[|h| - 1].used && g[|h| - 1].next == |h| - 1
  }

  lemma {:induction false} RespellOne(h: seq<Header>, g: seq<Header>, s: Layout, i: nat, j: nat, b: Block)
    requires h != [] && Spells(h, s, |h| - 1) && i < j <= |s|
    requires Outside(h, g, s, i, j, b.start)
    requires b.start < |h| - 1 && g[b.start] == Header(b.next, PrevStart(s, i), b.used)
    ensures Spells(g, Replace(s, i, j, [b]), |h| - 1)
  {
    var t := Replace(s, i, j, [b]);
    forall k | 0 <= k < |t| ensures Says(g, t, k) {
      if k < i {
        assert Says(h, s, k) && t[k] == s[k] && PrevStart(t, k) == PrevStart(s, k);
      } else if k == i {
        assert t[k] == b && PrevStart(t, k) == PrevStart(s, i);
      } else {
        var m := k - i - 1 + j;
        assert Says(h, s, m) && t[k] == s[m];
        assert PrevStart(t, k) == if m == j then b.start else PrevStart(s, m);
      }
    }
  }

  lemma {:induction false} RespellTwo(h: seq<Header>, g: seq<Header>, s: Layout, i: nat, j: nat, b: Block, c: Block)
    requires h != [] && Spells(h, s, |h| - 1) && i < j <= |s|
    requires Outside(h, g, s, i, j, c.start)
    requires b.start < |h| - 1 && g[b.start] == Header(b.next, PrevStart(s, i), b.used)
    requires c.start < |h| - 1 && g[c.start] == Header(c.next, b.start, c.used)
    ensures Spells(g, Replace(s, i, j, [b, c]), |h| - 1)
  {
    var t := Replace(s, i, j, [b, c]);
    forall k | 0 <= k < |t| ensures Says(g, t, k) {
      if k < i {
        assert Says(h, s, k) && t[k] == s[k] && PrevStart(t, k) == PrevStart(s, k);
      } else if k == i {
        assert t[k] == b && PrevStart(t, k) == PrevStart(s, i);
      } else if k == i + 1 {
        assert t[k] == c && t[k - 1] == b;
      } else {
        var m := k - i - 2 + j;
        assert Says(h, s, m) && t[k] == s[m];
        assert PrevStart(t, k) == if m == j then c.start else PrevStart(s, m);
      }
    }
  }

  /** Offsets p and q are too far apart for the headers there to overlap. */
  predicate Far(p: int, q: int) {
    p + HDR <= q || q + HDR <= p
  }

  /** Two header writes that let block i swallow the next one. */
  lemma {:induction false} RespellMerged(h: seq<Header>, g: seq<Header>, s: Layout, size: nat, i: nat)
    requires Chain(s, 0, size) && Spells(h, s, size) && i + 1 < |s| && |g| == |h|
    requires var p, nn := s[i].start, StartOf(s, size, i + 2);
             && p < size && nn <= size && g[p] == h[p].(next := nn) && g[nn] == h[nn].(prev := p)
             && forall q :: 0 <= q < |h| && Far(q, p) && Far(q, nn) ==> g[q] == h[q]
    ensures Chain(Merged(s, i), 0, size) && Spells(g, Merged(s, i), size)
  {
    MergedChain(s, size, i);
    At(s, size, i);
    At(s, size, i + 1);
    Around(s, size, i, i + 2);
    assert Says(h, s, i);
    assert Outside(h, g, s, i, i + 2, s[i].start) by {
      assert forall k :: 0 <= k < |s| ==> Says(h, s, k);
    }
    RespellOne(h, g, s, i, i + 2, s[i].(next := s[i + 1].next));
  }

  /** Three header writes that turn the blocks [i, j) into the used block b and the free block c. */
  lemma {:induction false} RespellSplit(h: seq<Header>, g: seq<Header>, s: Layout, size: nat, i: nat, j: nat, b: Block,
      c: Block)
    requires Chain(s, 0, size) && Spells(h, s, size) && i < j <= |s| && |g| == |h|
    requires b.start == s[i].start && c.next == s[j - 1].next <= size && b.next == c.start
    requires b.start + HDR + MIN <= c.start && c.start + HDR + MIN <= c.next
    requires g[b.start] == Header(b.next, h[b.start].prev, b.used) && g[c.start] == Header(c.next, b.start, c.used)
    requires g[c.next] == if c.next == size then h[c.next] else h[c.next].(prev := c.start)
    requires forall q :: 0 <= q < |h| && Far(q, b.start) && Far(q, c.start) && Far(q, c.next) ==> g[q] == h[q]
    ensures Spells(g, Replace(s, i, j, [b, c]), size)
  {
    At(s, size, j - 1);
    Around(s, size, i, j);
    assert Says(h, s, i);
    assert Outside(h, g, s, i, j, c.start) by {
      assert forall k :: 0 <= k < |s| ==> Says(h, s, k);
    }
    RespellTwo(h, g, s, i, j, b, c);
  }

  /** One header write that changes the used flag of block i. */
  lemma {:induction false} RespellUsed(h: seq<Header>, g: seq<Header>, s: Layout, size: nat, i: nat, used: bool)
    requires Chain(s, 0, size) && Spells(h, s, size) && i < |s| && |g| == |h|
    requires var p := s[i].start;
             && p < size && g[p] == h[p].(used := used)
             && forall q :: 0 <= q < |h| && Far(q, p) ==> g[q] == h[q]
    ensures Spells(g, s[i := s[i].(used := used)], size)
  {
    var t := s[i := s[i].(used := used)];
    At(s, size, i);
    Around(s, size, i, i);
    forall k | 0 <= k < |t| ensures Says(g, t, k) {
      assert Says(h, s, k) && PrevStart(t, k) == PrevStart(s, k);
    }
  }

  /** Offsets that are block starts after a replacement. */
  lemma {:induction false} Starts(s: Layout, size: nat, i: nat, j: nat, mid: Layout)
    requires i < j <= |s|
    ensures forall x :: 0 <= x < |mid| ==> IsStart(Replace(s, i, j, mid), size, mid[x].start)
    ensures IsStart(Replace(s, i, j, mid), size, StartOf(s, size, j))
  {
    var t := Replace(s, i, j, mid);
    forall x | 0 <= x < |mid| ensures IsStart(t, size, mid[x].start) {
      assert t[i + x] == mid[x];
    }
    if j < |s| {
      assert t[i + |mid|] == s[j];
    }
  }

  lemma {:induction false} KeptByPlugging(r: seq<Byte>, q: seq<Byte>, z: seq<Byte>, s: Layout, size: nat, i: nat,
      pm: nat, hi: nat)
    requires Inv(s, size) && i < |s| && s[i].used
    requires OnlyHeaders(r, q, {s[i].start, StartOf(Released(s, i), size, i + 2)})
    requires OnlyHeaders(q, z, {pm, StartOf(Released(s, i), size, hi)}) && pm == PrevStart(s, i)
    ensures Kept(r, z, Free(s, i))
  {
    var t := Released(s, i);
    var ps := {s[i].start, StartOf(t, size, i + 2), pm, StartOf(t, size, hi)};
    assert OnlyHeaders(r, z, ps);
    ReleasedChain(s, size, i);
    assert t[i].start == s[i].start && (i > 0 ==> t[i - 1].start == pm) && (i == 0 ==> t[0].start == pm);
    HeadersApart(r, z, t, size, ps);
    FreeKeeps(s, size, i);
    forall c | c in Free(s, i) && c.used ensures c in t {
      assert c in Live(Free(s, i));
      var k :| 0 <= k < |s| && s[k] == c;
      assert t[k] == c;
    }
  }

  lemma {:induction false} KeptByRelease(r: seq<Byte>, q: seq<Byte>, z: seq<Byte>, s: Layout, size: nat, i: nat)
    requires Inv(s, size) && i < |s| && s[i].used
    requires OnlyHeaders(r, q, {s[i].start}) && Kept(q, z, Free(s, i))
    ensures Kept(r, z, Free(s, i))
  {
    HeadersApart(r, q, s, size, {s[i].start});
    FreeKeeps(s, size, i);
    forall c | c in Free(s, i) && c.used ensures c in s {
      assert c in Live(Free(s, i));
    }
  }

  /** lfree points at block i exactly when no lower block is free. */
  lemma {:induction false} LowestIs(s: Layout, size: nat, i: nat)
    requires Chain(s, 0, size) && i < |s| && LowIndex(s) <= i
    ensures LowFree(s, size) == s[i].start <==> LowIndex(s) == i
  {
    Around(s, size, i, i);
  }

  /** Shrinking a block whose right neighbour is in use: what is cut off becomes a block. */
  lemma {:induction false} SplitOffIs(s: Layout, size: nat, i: nat, cut: nat)
    requires Inv(s, size) && i < |s| && s[i].used && (i + 1 < |s| ==> s[i + 1].used)
    requires cut % ALIGN == 0 && s[i].start + HDR + MIN <= cut && cut + HDR + MIN <= s[i].next
    ensures var t := Replace(s, i, i + 1, [Block(s[i].start, cut, true), Block(cut, s[i].next, false)]);
            && t == Shrink(s, i, cut - s[i].start - HDR) && Inv(t, size)
            && LowFree(t, size) == if cut < LowFree(s, size) then cut else LowFree(s, size)
  {
    CutShort(s, size, i, i + 1, cut);
    LowAfterSplit(s, size, i, i + 1, Block(s[i].start, cut, true), Block(cut, s[i].next, false));
  }

  /** Shrinking a block whose right neighbour is free: that one grows downwards. */
  lemma {:induction false} MoveDownIs(s: Layout, size: nat, i: nat, cut: nat)
    requires Inv(s, size) && i + 1 < |s| && s[i].used && !s[i + 1].used
    requires cut % ALIGN == 0 && s[i].start + HDR + MIN <= cut < s[i].next
    ensures var t := Replace(s, i, i + 2, [Block(s[i].start, cut, true), Block(cut, s[i + 1].next, false)]);
            && t == Shrink(s, i, cut - s[i].start - HDR) && Inv(t, size) && cut + HDR + MIN <= s[i + 1].next
            && s[i].next == s[i + 1].start
            && LowFree(t, size) == if LowFree(s, size) == s[i + 1].start then cut else LowFree(s, size)
  {
    At(s, size, i);
    At(s, size, i + 1);
    assert BlockOk(s[i + 1]);
    Ends(s, size, i, i + 1);
    CutShort(s, size, i, i + 2, cut);
    LowAfterSplit(s, size, i, i + 2, Block(s[i].start, cut, true), Block(cut, s[i + 1].next, false));
  }

  class MemHeap {
    const size: nat                    // MEM_SIZE_ALIGNED
    const hdr: array<Header>           // the struct mem at each offset of ram
    const ram: array<Byte>              // the bytes, headers included
    var lfree: nat                     // offset of the lowest free block
    ghost var blocks: Layout

    ghost predicate Shape() {
      hdr.Length == size + 1 && ram.Length == size + HDR && size % ALIGN == 0 && HDR + MIN <= size < U32
    }

    ghost predicate Linked()
      reads this, hdr
    {
      Shape() && Inv(blocks, size) && Spells(hdr[..], blocks, size)
    }

    ghost predicate Valid()
      reads this, hdr
    {
      Linked() && lfree == LowFree(blocks, size)
    }

    /** mem_init */
    constructor (size: nat)
      requires size % ALIGN == 0 && HDR + MIN <= size < U32
      ensures Valid() && fresh(hdr) && fresh(ram) && this.size == size
      ensures blocks == Fresh(size)
    {
      this.size := size;
      hdr := new Header[size + 1](_ => Header(0, 0, false));
      ram := new Byte[size + HDR];
      lfree := 0;
      blocks := Fresh(size);
      new;
      hdr[0] := Header(size, 0, false);
      hdr[size] := Header(size, size, true);
    }

    /** Store a header: the HDR bytes at p are overwritten, and with them any header that overlaps. */
    method Put(p: nat, h: Header)
      requires Shape() && p <= size
      modifies hdr, ram
      ensures hdr[p] == h
      ensures forall q :: 0 <= q <= size && (q + HDR <= p || p + HDR <= q) ==> hdr[q] == old(hdr[q])
      ensures forall k :: 0 <= k < ram.Length && !(p <= k < p + HDR) ==> ram[k] == old(ram[k])
    {
      forall q | 0 <= q <= size && p - HDR < q < p + HDR {
        hdr[q] := Header(0, 0, false);
      }
      hdr[p] := h;
      forall k | p <= k < p + HDR {
        ram[k] := 0xFF;
      }
    }

    /** The scan of mem_malloc, from lfree upwards. */
    method Search(n: nat) returns (found: bool, ptr: nat, ghost i: nat)
      requires Valid() && n <= size
      ensures i == FirstFit(blocks, n)
      ensures found <==> FirstFit(blocks, n) < |blocks|
      ensures found ==> ptr == blocks[FirstFit(blocks, n)].start
    {
      i := LowIndex(blocks);
      ptr := lfree;
      while ptr < size - n
        invariant i <= |blocks| && ptr == StartOf(blocks, size, i)
        invariant forall j :: 0 <= j < i ==> !Fits(blocks[j], n)
        decreases |blocks| - i
      {
        At(blocks, size, i);
        assert Says(hdr[..], blocks, i);
        if !hdr[ptr].used && hdr[ptr].next - (ptr + HDR) >= n {
          found := true;
          return;
        }
        ptr := hdr[ptr].next;
        i := i + 1;
      }
      found := false;
      TooClose(blocks, size, i, n);
      i := |blocks|;
    }

    /**
      Make [ptr, ptr2) and [ptr2, nx) of the blocks [i, j): the second one is free. The three
      header writes that mem_malloc and both branches of mem_realloc have in common.
     */
    method Split(ptr: nat, ptr2: nat, nx: nat, ghost i: nat, ghost j: nat)
      requires Linked() && i < j <= |blocks| && ptr == blocks[i].start && nx == blocks[j - 1].next
      requires ptr + HDR + MIN <= ptr2 && ptr2 + HDR + MIN <= nx
      requires Inv(Replace(blocks, i, j, [Block(ptr, ptr2, true), Block(ptr2, nx, false)]), size)
      modifies this`blocks, hdr, ram
      ensures Linked() && blocks == Replace(old(blocks), i, j, [Block(ptr, ptr2, true), Block(ptr2, nx, false)])
      ensures Kept(old(ram[..]), ram[..], blocks)
    {
      ghost var s, h, r := blocks, hdr[..], ram[..];
      ghost var mid := [Block(ptr, ptr2, true), Block(ptr2, nx, false)];
      At(s, size, j - 1);
      var prev := hdr[ptr].prev;
      Put(ptr2, Header(nx, ptr, false));
      Put(ptr, Header(ptr2, prev, true));
      if nx != size {
        Put(nx, hdr[nx].(prev := ptr2));
      }
      RespellSplit(h, hdr[..], s, size, i, j, mid[0], mid[1]);
      blocks := Replace(s, i, j, mid);
      assert OnlyHeaders(r, ram[..], {ptr, ptr2, nx});
      Starts(s, size, i, j, mid);
      assert mid[0].start == ptr && mid[1].start == ptr2;
      HeadersApart(r, ram[..], blocks, size, {ptr, ptr2, nx});
    }

    /** Block i takes in the free block q after it. */
    method Absorb(p: nat, q: nat, ghost i: nat)
      requires Shape() && Chain(blocks, 0, size) && Spells(hdr[..], blocks, size)
      requires i + 1 < |blocks| && p == blocks[i].start && q == blocks[i + 1].start
      modifies this`blocks, hdr, ram
      ensures Chain(blocks, 0, size) && Spells(hdr[..], blocks, size) && blocks == Merged(old(blocks), i)
      ensures OnlyHeaders(old(ram[..]), ram[..], {p, StartOf(old(blocks), size, i + 2)})
    {
      ghost var s, h, r := blocks, hdr[..], ram[..];
      assert Says(h, s, i) && Says(h, s, i + 1);
      var nn := hdr[q].next;
      assert nn == StartOf(s, size, i + 2) && p + HDR + MIN <= q && q + HDR + MIN <= nn <= size by {
        At(s, size, i);
        At(s, size, i + 1);
      }
      Put(p, hdr[p].(next := nn));
      Put(nn, hdr[nn].(prev := p));
      RespellMerged(h, hdr[..], s, size, i);
      blocks := Merged(s, i);
      assert OnlyHeaders(r, ram[..], {p, nn});
    }

    /** plug_holes, forward half: block i of t may be followed by a free block. */
    method PlugForward(p: nat, ghost i: nat)
      requires Shape() && Chain(blocks, 0, size) && Spells(hdr[..], blocks, size) && lfree == LowFree(blocks, size)
      requires i < |blocks| && p == blocks[i].start && !blocks[i].used
      modifies this`blocks, this`lfree, hdr, ram
      ensures Chain(blocks, 0, size) && Spells(hdr[..], blocks, size) && lfree == LowFree(blocks, size)
      ensures var t := old(blocks);
              blocks == if i + 1 < |t| && !t[i + 1].used then Merged(t, i) else t
      ensures OnlyHeaders(old(ram[..]), ram[..], {p, StartOf(old(blocks), size, i + 2)})
    {
      ghost var t := blocks;
      At(t, size, i);
      assert Says(hdr[..], t, i);
      assert i + 1 < |t| ==> Says(hdr[..], t, i + 1);
      var nx := hdr[p].next;
      if p != nx && !hdr[nx].used && nx != size {
        if lfree == nx {
          lfree := p;
        }
        Absorb(p, nx, i);
        LowAfterMerge(t, size, i);
      }
    }

    /** plug_holes, backward half. */
    method PlugBackward(p: nat, ghost i: nat)
      requires Shape() && Chain(blocks, 0, size) && Spells(hdr[..], blocks, size) && lfree == LowFree(blocks, size)
      requires i < |blocks| && p == blocks[i].start && !blocks[i].used
      modifies this`blocks, this`lfree, hdr, ram
      ensures Chain(blocks, 0, size) && Spells(hdr[..], blocks, size) && lfree == LowFree(blocks, size)
      ensures var u := old(blocks);
              blocks == if i > 0 && !u[i - 1].used then Merged(u, i - 1) else u
      ensures OnlyHeaders(old(ram[..]), ram[..], {PrevStart(old(blocks), i), StartOf(old(blocks), size, i + 1)})
    {
      ghost var u := blocks;
      assert Says(hdr[..], u, i);
      if i > 0 {
        At(u, size, i - 1);
        assert Says(hdr[..], u, i - 1);
      }
      var pm := hdr[p].prev;
      if pm != p && !hdr[pm].used {
        if lfree == p {
          lfree := pm;
        }
        Absorb(pm, p, i - 1);
        LowAfterMerge(u, size, i - 1);
      }
    }

    /** plug_holes: block i of s was in use until now. */
    method PlugHoles(p: nat, ghost s: Layout, ghost i: nat)
      requires Shape() && Inv(s, size) && i < |s| && s[i].used && p == s[i].start
      requires blocks == Released(s, i) && Spells(hdr[..], blocks, size) && lfree == LowFree(blocks, size)
      modifies this`blocks, this`lfree, hdr, ram
      ensures Valid() && blocks == Free(s, i)
      ensures Kept(old(ram[..]), ram[..], blocks)
    {
      ghost var t, r := blocks, ram[..];
      ReleasedChain(s, size, i);
      PlugForward(p, i);
      ghost var u, q := blocks, ram[..];
      assert u[i].start == p && !u[i].used && (i > 0 ==> u[i - 1] == t[i - 1]);
      PlugBackward(p, i);
      FreeByMerging(s, i);
      FreeKeeps(s, size, i);
      ghost var hi := if i + 1 < |t| && !t[i + 1].used then i + 2 else i + 1;
      assert StartOf(u, size, i + 1) == StartOf(t, size, hi);
      KeptByPlugging(r, q, ram[..], s, size, i, PrevStart(u, i), hi);
    }

    /** Change the used flag of one block. */
    method SetUsed(p: nat, used: bool, ghost i: nat)
      requires Shape() && Chain(blocks, 0, size) && Spells(hdr[..], blocks, size)
      requires i < |blocks| && p == blocks[i].start
      modifies this`blocks, hdr, ram
      ensures Spells(hdr[..], blocks, size) && blocks == old(blocks)[i := old(blocks)[i].(used := used)]
      ensures OnlyHeaders(old(ram[..]), ram[..], {p})
    {
      ghost var s, h, r := blocks, hdr[..], ram[..];
      At(s, size, i);
      Put(p, hdr[p].(used := used));
      RespellUsed(h, hdr[..], s, size, i, used);
      blocks := s[i := s[i].(used := used)];
      assert OnlyHeaders(r, ram[..], {p});
    }

    /** The block found becomes the allocation; the rest of it stays free if it can be a block. */
    method Occupy(ptr: nat, n: nat, ghost i: nat)
      requires Linked() && i < |blocks| && ptr == blocks[i].start
      requires Fits(blocks[i], n) && n % ALIGN == 0 && n >= MIN
      modifies this`blocks, hdr, ram
      ensures Linked() && blocks == Take(old(blocks), i, n)
      ensures Kept(old(ram[..]), ram[..], blocks)
    {
      ghost var s, r := blocks, ram[..];
      TakeKeeps(s, size, i, n);
      assert Says(hdr[..], s, i);
      var nx := hdr[ptr].next;
      if nx - (ptr + HDR) >= n + HDR + MIN {
        Split(ptr, ptr + HDR + n, nx, i, i + 1);
      } else {
        SetUsed(ptr, true, i);
        assert blocks == Take(s, i, n);
        assert blocks[i].start == ptr;
        HeadersApart(r, ram[..], blocks, size, {ptr});
      }
    }

    /** The loop that moves lfree up to the next free block. */
    method AdvanceLowest(ghost i: nat)
      requires Linked() && i < |blocks| && lfree == blocks[i].start
      requires forall k :: 0 <= k < i ==> blocks[k].used
      modifies this`lfree
      ensures Valid()
    {
      ghost var j := i;
      At(blocks, size, i);
      while hdr[lfree].used && lfree != size
        invariant j <= |blocks| && lfree == StartOf(blocks, size, j) <= size
        invariant forall k :: 0 <= k < j ==> blocks[k].used
        decreases |blocks| - j
      {
        At(blocks, size, j);
        assert Says(hdr[..], blocks, j);
        lfree := hdr[lfree].next;
        j := j + 1;
      }
      if j < |blocks| {
        At(blocks, size, j);
        assert Says(hdr[..], blocks, j);
      }
      LowIs(blocks, j);
    }

    /** The size adjustment that mem_malloc and mem_realloc start with. */
    method RoundUp(n: nat) returns (request: nat)
      ensures request == Request(n) && request % ALIGN == 0 && request >= MIN
    {
      request := AlignUp(n);
      if request < MIN {
        request := MIN;
      }
    }

    /** mem_malloc */
    method Malloc(n: nat) returns (r: Option<nat>)
      requires Valid() && n < U32
      modifies this`blocks, this`lfree, hdr, ram
      ensures Valid()
      ensures (blocks, r) == HeapLayout.Malloc(old(blocks), size, n)
      ensures Kept(old(ram[..]), ram[..], blocks)
    {
      if n == 0 {
        return None;
      }
      var request := RoundUp(n);
      if request > size {
        return None;
      }
      ghost var s := blocks;
      var found, ptr, i := Search(request);
      if !found {
        return None;
      }
      Occupy(ptr, request, i);
      LowAfterTake(s, size, i, request);
      if ptr == lfree {
        LowestIs(s, size, i);
        AdvanceLowest(i);
      } else {
        LowestIs(s, size, i);
      }
      return Some(ptr + HDR);
    }

    /** mem_free: a null pointer or one outside the heap is ignored. */
    method Release(rmem: Option<int>)
      requires Valid()
      requires rmem.Some? && 0 <= rmem.value < size ==> Owner(blocks, rmem.value) < |blocks|
      modifies this`blocks, this`lfree, hdr, ram
      ensures Valid()
      ensures blocks == if rmem.Some? && 0 <= rmem.value < size
                        then Free(old(blocks), Owner(old(blocks), rmem.value)) else old(blocks)
      ensures Kept(old(ram[..]), ram[..], blocks)
    {
      if rmem.None? || rmem.value < 0 || rmem.value >= size {
        return;
      }
      ghost var s, i := blocks, Owner(blocks, rmem.value);
      var p := rmem.value - HDR;
      ghost var r := ram[..];
      SetUsed(p, false, i);
      LowAfterRelease(s, size, i);
      if p < lfree {
        lfree := p;
      }
      ghost var q := ram[..];
      PlugHoles(p, s, i);
      KeptByRelease(r, q, ram[..], s, size, i);
    }

    /** mem_realloc: shrinks only. */
    method Realloc(rmem: int, n: nat) returns (r: Option<int>)
      requires Valid() && n < U32
      requires 0 <= rmem < size ==> Owner(blocks, rmem) < |blocks|
      modifies this`blocks, this`lfree, hdr, ram
      ensures Valid()
      ensures 0 <= rmem < size ==>
                var (t, ok) := HeapLayout.Realloc(old(blocks), size, Owner(old(blocks), rmem), n);
                blocks == t && r == if ok then Some(rmem) else None
      ensures !(0 <= rmem < size) ==> blocks == old(blocks) && r == if Request(n) > size then None else Some(rmem)
      ensures Kept(old(ram[..]), ram[..], blocks)
    {
      var request := RoundUp(n);
      if request > size {
        return None;
      }
      if rmem < 0 || rmem >= size {
        return Some(rmem);
      }
      ghost var s, i := blocks, Owner(blocks, rmem);
      var ptr := rmem - HDR;
      At(s, size, i);
      assert Says(hdr[..], s, i);
      var old_size := hdr[ptr].next - ptr - HDR;
      if request > old_size {
        return None;
      }
      if request == old_size {
        return Some(rmem);
      }
      ShrinkTo(ptr, request, i);
      return Some(rmem);
    }

    /** The branches of mem_realloc that give memory back. */
    method ShrinkTo(ptr: nat, request: nat, ghost i: nat)
      requires Valid() && i < |blocks| && blocks[i].used && ptr == blocks[i].start
      requires request % ALIGN == 0 && MIN <= request < blocks[i].Payload()
      modifies this`blocks, this`lfree, hdr, ram
      ensures Valid() && blocks == Shrink(old(blocks), i, request)
      ensures Kept(old(ram[..]), ram[..], blocks)
    {
      ghost var s := blocks;
      At(s, size, i);
      assert Says(hdr[..], s, i);
      assert i + 1 < |s| ==> Says(hdr[..], s, i + 1);
      var mem2, ptr2 := hdr[ptr].next, ptr + HDR + request;
      if !hdr[mem2].used {
        MoveDown(ptr, ptr2, i);
      } else if request + HDR + MIN <= mem2 - ptr - HDR {
        SplitOff(ptr, ptr2, i);
      }
    }

    /** The free block after block i now starts at ptr2. */
    method MoveDown(ptr: nat, ptr2: nat, ghost i: nat)
      requires Valid() && i + 1 < |blocks| && blocks[i].used && !blocks[i + 1].used && ptr == blocks[i].start
      requires ptr2 % ALIGN == 0 && ptr + HDR + MIN <= ptr2 < blocks[i].next
      modifies this`blocks, this`lfree, hdr, ram
      ensures Valid() && blocks == Shrink(old(blocks), i, ptr2 - ptr - HDR)
      ensures Kept(old(ram[..]), ram[..], blocks)
    {
      ghost var s := blocks;
      MoveDownIs(s, size, i, ptr2);
      At(s, size, i);
      assert Says(hdr[..], s, i) && Says(hdr[..], s, i + 1);
      var mem2 := hdr[ptr].next;
      var next := hdr[mem2].next;
      if lfree == mem2 {
        lfree := ptr2;
      }
      Split(ptr, ptr2, next, i, i + 2);
    }

    /** A new free block from ptr2 to the end of block i. */
    method SplitOff(ptr: nat, ptr2: nat, ghost i: nat)
      requires Valid() && i < |blocks| && blocks[i].used && (i + 1 < |blocks| ==> blocks[i + 1].used)
      requires ptr == blocks[i].start
      requires ptr2 % ALIGN == 0 && ptr + HDR + MIN <= ptr2 && ptr2 + HDR + MIN <= blocks[i].next
      modifies this`blocks, this`lfree, hdr, ram
      ensures Valid() && blocks == Shrink(old(blocks), i, ptr2 - ptr - HDR)
      ensures Kept(old(ram[..]), ram[..], blocks)
    {
      ghost var s := blocks;
      SplitOffIs(s, size, i, ptr2);
      At(s, size, i);
      assert Says(hdr[..], s, i);
      var next := hdr[ptr].next;
      if ptr2 < lfree {
        lfree := ptr2;
      }
      Split(ptr, ptr2, next, i, i + 1);
    }
  }
}
