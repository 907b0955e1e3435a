/** The intrusive circular doubly linked list. */
module QList {

  class Link {
    var prev: Link?
    var next: Link?

    constructor ()
      ensures prev == null && next == null
    {
      prev, next := null, null;
    }
  }

  class List {
    const head: Link
    ghost var items: seq<Link>

    /** The ring: the items in order, with the head before the first and behind the last. */
    ghost function Ring(i: int): Link
      reads this
    {
      if 0 <= i < |items| then items[i] else head
    }

    ghost predicate Valid()
      reads this, head, items
    {
      && head !in items
      && (forall i, j :: 0 <= i < j < |items| ==> items[i] != items[j])
      && (forall i :: -1 <= i < |items| ==> Ring(i).next == Ring(i + 1))
      && (forall i :: 0 <= i <= |items| ==> Ring(i).prev == Ring(i - 1))
    }

    lemma {:induction false} RingEnds(k: nat)
      requires Valid() && k <= |items|
      ensures Ring(k) == head <==> k == |items|
      ensures k < |items| ==> Ring(k) == items[k]
    {
    }

    /** qlist_head_init. */
    constructor ()
      ensures Valid() && items == [] && fresh(head)
    {
      var h := new Link();
      head := h;
      items := [];
      new;
      head.prev, head.next := head, head;
    }

    /** qlist_empty. */
    predicate IsEmpty()
      reads this, head, items
      requires Valid()
      ensures IsEmpty() <==> items == []
    {
      assert Ring(-1).next == Ring(0);
      head.next == head
    }

    /** The links qlist_first_entry and qlist_next_entry follow; the head comes after the last item. */
    function First(): (r: Link)
      reads this, head, items
      requires Valid()
      ensures r == Ring(0)
    {
      assert Ring(-1).next == Ring(0);
      head.next
    }

    function Next(pos: Link, ghost k: nat): (r: Link)
      reads this, head, items
      requires Valid() && k <= |items| && pos == Ring(k)
      ensures k < |items| ==> r == Ring(k + 1)
    {
      assert k < |items| ==> Ring(k).next == Ring(k + 1);
      assert Ring(-1).next == Ring(0);
      pos.next
    }

    method AddHead(item: Link)
      requires Valid() && item !in items && item != head
      modifies this, head, items, item
      ensures Valid() && items == [item] + old(items)
    {
      assert Ring(-1).next == Ring(0);
      var next := head.next;
      head.next := item;
      next.prev := item;
      item.prev := head;
      item.next := next;
      items := [item] + items;
      assert forall i :: 1 <= i <= |items| ==> Ring(i) == old(Ring(i - 1));
    }

    method AddTail(item: Link)
      requires Valid() && item !in items && item != head
      modifies this, head, items, item
      ensures Valid() && items == old(items) + [item]
    {
      assert Ring(|items|).prev == Ring(|items| - 1);
      var prev := head.prev;
      head.prev := item;
      prev.next := item;
      item.next := head;
      item.prev := prev;
      items := items + [item];
      assert forall i :: -1 <= i < |items| - 1 ==> Ring(i) == old(Ring(i));
    }

    method DelEntry(item: Link, ghost k: nat)
      requires Valid() && k < |items| && items[k] == item
      modifies this, head, items
      ensures Valid() && items == old(items)[..k] + old(items)[k + 1..]
      ensures item.next == null && item.prev == null
    {
      assert Ring(k) == item && Ring(k).next == Ring(k + 1) && Ring(k).prev == Ring(k - 1);
      var prev, next := item.prev, item.next;
      prev.next := next;
      next.prev := prev;
      item.next := null;
      item.prev := null;
      items := items[..k] + items[k + 1..];
      assert forall i :: -1 <= i < k ==> Ring(i) == old(Ring(i));
      assert forall i :: k <= i <= |items| ==> Ring(i) == old(Ring(i + 1));
    }
  }

  /** The items of `s` that are not in `dead`. */
  ghost function Keep(s: seq<Link>, dead: set<Link>): seq<Link> {
    if s == [] then [] else (if s[0] in dead then [] else [s[0]]) + Keep(s[1..], dead)
  }

  /** The items of `s` that are in `dead`, last one first: how they end up pushed on another list. */
  ghost function Moved(s: seq<Link>, dead: set<Link>): seq<Link> {
    if s == [] then [] else Moved(s[1..], dead) + (if s[0] in dead then [s[0]] else [])
  }

  ghost predicate Apart(list: List, other: List)
    reads list, other
  {
    && list != other && list.head != other.head
    && list.head !in other.items && other.head !in list.items
    && (forall x <- list.items :: x !in other.items) && (forall x <- other.items :: x !in list.items)
  }

  ghost predicate Within(list: List, nodes: set<Link>)
    reads list
  {
    forall x <- list.items :: x in nodes
  }

  /** Deleting an entry next to another list. */
  method TakeOff(list: List, other: List, pos: Link, ghost k: nat)
    requires list.Valid() && other.Valid() && Apart(list, other)
    requires k < |list.items| && list.items[k] == pos
    modifies list, list.head, list.items
    ensures list.Valid() && other.Valid() && Apart(list, other)
    ensures list.items == old(list.items)[..k] + old(list.items)[k + 1..] && other.items == old(other.items)
    ensures pos !in list.items && pos !in other.items && pos != list.head && pos != other.head
    ensures list.Ring(k) == old(list.Ring(k + 1))
  {
    list.DelEntry(pos, k);
    assert forall x <- other.items :: x != list.head && x !in old(list.items);
    assert forall x <- other.items :: x.next == old(x.next) && x.prev == old(x.prev);
  }

  /** Adding an entry at the head next to another list. */
  method PutOn(list: List, other: List, item: Link)
    requires list.Valid() && other.Valid() && Apart(list, other)
    requires item !in list.items && item !in other.items && item != list.head && item != other.head
    modifies list, list.head, list.items, item
    ensures list.Valid() && other.Valid() && Apart(list, other)
    ensures list.items == [item] + old(list.items) && other.items == old(other.items)
  {
    assert forall x <- other.items :: x != item && x != list.head && x !in list.items;
    list.AddHead(item);
    assert forall x <- other.items :: x.next == old(x.next) && x.prev == old(x.prev);
    assert other.head.next == old(other.head.next) && other.head.prev == old(other.head.prev);
  }

  /** The loop body on an entry that leaves: off this list and on to the head of the other. */
  method MoveEntry(list: List, other: List, pos: Link, ghost k: nat)
    requires list.Valid() && other.Valid() && Apart(list, other)
    requires k < |list.items| && list.items[k] == pos
    modifies list, list.head, list.items, other, other.head, other.items
    ensures list.Valid() && other.Valid() && Apart(list, other)
    ensures list.items == old(list.items)[..k] + old(list.items)[k + 1..]
    ensures other.items == [pos] + old(other.items)
    ensures list.Ring(k) == old(list.Ring(k + 1))
  {
    hide List.Valid;
    TakeOff(list, other, pos, k);
    ApartSwap(list, other);
    PutOn(other, list, pos);
    ApartSwap(other, list);
  }

  lemma {:induction false} ApartSwap(list: List, other: List)
    requires Apart(list, other)
    ensures Apart(other, list)
  {
  }

  lemma {:induction false} Splice(a: seq<Link>, x: Link, b: seq<Link>)
    ensures (a + ([x] + b))[|a|] == x && (a + ([x] + b))[..|a|] + (a + ([x] + b))[|a| + 1..] == a + b
    ensures a + [x] + b == a + ([x] + b)
  {
  }

  /** After `i` entries of `all`: which are kept, and what both lists hold. */
  ghost predicate Visited(all: seq<Link>, others: seq<Link>, dead: set<Link>, i: nat, kept: seq<Link>,
                          now: seq<Link>, otherNow: seq<Link>)
  {
    && i <= |all|
    && now == kept + all[i..] && Keep(all, dead) == kept + Keep(all[i..], dead)
    && Moved(all, dead) + others == Moved(all[i..], dead) + otherNow
  }

  lemma {:induction false} VisitMoved(all: seq<Link>, others: seq<Link>, dead: set<Link>, i: nat, kept: seq<Link>,
                                      now: seq<Link>, otherNow: seq<Link>)
    requires Visited(all, others, dead, i, kept, now, otherNow) && i < |all| && all[i] in dead
    ensures |kept| < |now| && now[|kept|] == all[i]
    ensures Visited(all, others, dead, i + 1, kept, now[..|kept|] + now[|kept| + 1..], [all[i]] + otherNow)
  {
    assert all[i..] == [all[i]] + all[i + 1..] && all[i..][1..] == all[i + 1..];
    Splice(kept, all[i], all[i + 1..]);
  }

  lemma {:induction false} VisitKept(all: seq<Link>, others: seq<Link>, dead: set<Link>, i: nat, kept: seq<Link>,
                                     now: seq<Link>, otherNow: seq<Link>)
    requires Visited(all, others, dead, i, kept, now, otherNow) && i < |all| && all[i] !in dead
    ensures |kept| < |now| && now[|kept|] == all[i]
    ensures Visited(all, others, dead, i + 1, kept + [all[i]], now, otherNow)
  {
    assert all[i..] == [all[i]] + all[i + 1..] && all[i..][1..] == all[i + 1..];
    Splice(kept, all[i], all[i + 1..]);
    Splice(kept, all[i], Keep(all[i + 1..], dead));
  }

  /** The loop body: the entry leaves if it is in `dead`. */
  method VisitEntry(list: List, other: List, dead: set<Link>, pos: Link, ghost nodes: set<Link>,
                    ghost all: seq<Link>, ghost others: seq<Link>, ghost i: nat, ghost kept: seq<Link>)
      returns (ghost kept': seq<Link>)
    requires list.Valid() && other.Valid() && Apart(list, other) && Within(list, nodes) && Within(other, nodes)
    requires Visited(all, others, dead, i, kept, list.items, other.items) && i < |all|
    requires pos == list.Ring(|kept|)
    modifies list, list.head, other, other.head, nodes
    ensures list.Valid() && other.Valid() && Apart(list, other) && Within(list, nodes) && Within(other, nodes)
    ensures Visited(all, others, dead, i + 1, kept', list.items, other.items)
    ensures pos == all[i] && |kept'| <= |list.items| && list.Ring(|kept'|) == old(list.Ring(|kept| + 1))
  {
    hide Keep, Moved;
    VisitNext(all, others, dead, i, kept, list.items, other.items);
    if pos in dead {
      VisitMoved(all, others, dead, i, kept, list.items, other.items);
      MoveEntry(list, other, pos, |kept|);
      kept' := kept;
    } else {
      VisitKept(all, others, dead, i, kept, list.items, other.items);
      kept' := kept + [pos];
    }
  }

  /** qlist_foreach_entry_safe with a body that may take the current entry off the list and put it on
      another one: every entry present at the start is visited once, in order, and the list keeps
      exactly the entries not taken, in order, for every choice of `dead`. */
  method ForeachSafe(list: List, other: List, dead: set<Link>, ghost nodes: set<Link>) returns (visited: seq<Link>)
    requires list.Valid() && other.Valid() && Apart(list, other) && Within(list, nodes) && Within(other, nodes)
    modifies list, list.head, other, other.head, nodes
    ensures visited == old(list.items)
    ensures list.Valid() && list.items == Keep(old(list.items), dead)
    ensures other.Valid() && other.items == Moved(old(list.items), dead) + old(other.items)
  {
    hide Visited, Keep, Moved, Apart, Within, List.Valid, List.Ring;
    ghost var all, others := list.items, other.items;
    ghost var kept, i := [], 0;
    visited := [];
    VisitStart(all, others, dead);
    var pos := list.First();
    var posN := list.Next(pos, 0);
    while pos != list.head
      invariant list.Valid() && other.Valid() && Apart(list, other) && Within(list, nodes) && Within(other, nodes)
      invariant 0 <= i <= |all| && visited == all[..i]
      invariant Visited(all, others, dead, i, kept, list.items, other.items)
      invariant |kept| <= |list.items| && pos == list.Ring(|kept|)
      invariant |kept| < |list.items| ==> posN == list.Ring(|kept| + 1)
      decreases |all| - i
    {
      VisitSizes(all, others, dead, i, kept, list.items, other.items);
      list.RingEnds(|kept|);
      kept := VisitEntry(list, other, dead, pos, nodes, all, others, i, kept);
      visited := visited + [pos];
      i := i + 1;
      pos := posN;
      posN := list.Next(pos, |kept|);
    }
    VisitSizes(all, others, dead, i, kept, list.items, other.items);
    list.RingEnds(|kept|);
    VisitEnd(all, others, dead, i, kept, list.items, other.items);
  }

  lemma {:induction false} VisitSizes(all: seq<Link>, others: seq<Link>, dead: set<Link>, i: nat, kept: seq<Link>,
                                      now: seq<Link>, otherNow: seq<Link>)
    requires Visited(all, others, dead, i, kept, now, otherNow)
    ensures |now| == |kept| + |all| - i
  {
  }

  lemma {:induction false} VisitStart(all: seq<Link>, others: seq<Link>, dead: set<Link>)
    ensures Visited(all, others, dead, 0, [], all, others)
  {
    assert all[0..] == all;
  }

  lemma {:induction false} VisitNext(all: seq<Link>, others: seq<Link>, dead: set<Link>, i: nat, kept: seq<Link>,
                                     now: seq<Link>, otherNow: seq<Link>)
    requires Visited(all, others, dead, i, kept, now, otherNow) && i < |all|
    ensures |kept| < |now| && now[|kept|] == all[i]
  {
  }

  lemma {:induction false} VisitEnd(all: seq<Link>, others: seq<Link>, dead: set<Link>, i: nat, kept: seq<Link>,
                                    now: seq<Link>, otherNow: seq<Link>)
    requires Visited(all, others, dead, i, kept, now, otherNow) && i == |all|
    ensures now == Keep(all, dead) && otherNow == Moved(all, dead) + others
  {
    assert all[i..] == [];
  }
}
