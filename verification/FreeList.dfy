/** inc/queue.h: the doubly linked lists that hold free pages and free environments. */
module FreeList {

  const NULL: int := -1

  /** le_prev is the address of the pointer that points here: the list head's or an element's le_next. */
  datatype Link = Head | NextOf(k: nat)

  predicate NodeOk(next: seq<int>, prev: seq<Link>, list: seq<nat>, i: nat)
    requires i < |list|
  {
    var x := list[i];
    && x < |next| == |prev|
    && next[x] == (if i + 1 < |list| then list[i + 1] else NULL)
    && prev[x] == (if i == 0 then Head else NextOf(list[i - 1]))
  }

  /** The links spell out the list. */
  ghost predicate Linked(first: int, next: seq<int>, prev: seq<Link>, list: seq<nat>) {
    && |next| == |prev| && first == (if list == [] then NULL else list[0])
    && (forall i :: 0 <= i < |list| ==> NodeOk(next, prev, list, i))
    && (forall i, j :: 0 <= i < j < |list| ==> list[i] != list[j])
  }

  lemma {:induction false} InsertLinks(first: int, next: seq<int>, prev: seq<Link>, list: seq<nat>, x: nat)
    requires Linked(first, next, prev, list) && x < |next| && x !in list
    ensures first == NULL || 0 <= first < |next|
    ensures Linked(x, next[x := first], (if first == NULL then prev else prev[first := NextOf(x)])[x := Head],
            [x] + list)
  {
    assert list != [] ==> NodeOk(next, prev, list, 0);
    var now, back, more := next[x := first], (if first == NULL then prev else prev[first := NextOf(x)])[x := Head],
        [x] + list;
    forall i | 0 <= i < |more| ensures NodeOk(now, back, more, i) {
      if i > 0 { assert NodeOk(next, prev, list, i - 1); }
    }
  }

  /** list without its element number k. */
  function Without(list: seq<nat>, k: nat): seq<nat>
    requires k < |list|
  {
    list[..k] + list[k + 1..]
  }

  lemma {:induction false} RemoveLinks(first: int, next: seq<int>, prev: seq<Link>, list: seq<nat>, k: nat)
    requires Linked(first, next, prev, list) && k < |list|
    ensures var x := list[k];
            && x < |next| && (next[x] == NULL || 0 <= next[x] < |next|) && (prev[x].NextOf? ==> prev[x].k < |next|)
            && var back := if next[x] == NULL then prev else prev[next[x] := prev[x]];
            && var now := if prev[x].NextOf? then next[prev[x].k := next[x]] else next;
            Linked(if prev[x].Head? then next[x] else first, now, back, Without(list, k))
  {
    var x, less := list[k], Without(list, k);
    assert NodeOk(next, prev, list, k);
    if k > 0 { assert NodeOk(next, prev, list, k - 1); }
    if k + 1 < |list| { assert NodeOk(next, prev, list, k + 1); }
    var back := if next[x] == NULL then prev else prev[next[x] := prev[x]];
    var now := if prev[x].NextOf? then next[prev[x].k := next[x]] else next;
    forall i | 0 <= i < |less| ensures NodeOk(now, back, less, i) {
      var j := if i < k then i else i + 1;
      assert NodeOk(next, prev, list, j) && less[i] == list[j];
    }
  }

  class List {
    var first: int
    const next: array<int>
    const prev: array<Link>
    ghost var items: seq<nat>

    ghost predicate Valid()
      reads this, next, prev
    {
      Linked(first, next[..], prev[..], items)
    }

    /** LIST_INIT */
    constructor (size: nat)
      ensures Valid() && items == [] && next.Length == size && fresh(next) && fresh(prev)
    {
      first, items := NULL, [];
      next := new int[size](_ => NULL);
      prev := new Link[size](_ => Head);
    }

    /** LIST_INSERT_HEAD */
    method InsertHead(x: nat)
      requires Valid() && x < next.Length && x !in items
      modifies this`first, this`items, next, prev
      ensures Valid() && items == [x] + old(items)
    {
      ghost var now, back := next[..], prev[..];
      InsertLinks(first, now, back, items, x);
      next[x] := first;
      if first != NULL {
        prev[first] := NextOf(x);
      }
      prev[x] := Head;
      assert next[..] == now[x := first];
      assert prev[..] == (if first == NULL then back else back[first := NextOf(x)])[x := Head];
      first := x;
      items := [x] + items;
    }

    /** LIST_REMOVE, from wherever x is */
    method Remove(x: nat, ghost k: nat)
      requires Valid() && k < |items| && items[k] == x
      modifies this`first, this`items, next, prev
      ensures Valid() && items == Without(old(items), k)
    {
      ghost var now, back := next[..], prev[..];
      RemoveLinks(first, now, back, items, k);
      var n, p := next[x], prev[x];
      if n != NULL {
        prev[n] := p;
      }
      match p {
        case Head => first := n;
        case NextOf(i) => next[i] := n;
      }
      assert prev[..] == if n == NULL then back else back[n := p];
      assert next[..] == if p.NextOf? then now[p.k := n] else now;
      items := Without(items, k);
    }
  }
}
