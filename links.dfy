/** The circular doubly-linked lists of mem.c (`link_push`, `link_pop`), over a heap of link records. */
module Links {
  import opened MemTypes

  /** Starting at the sentinel `head` and following `next`, the ring visits the entries of `hs` in
      order and returns to `head`; `prev` runs the same ring backwards. */
  ghost predicate Ring(links: map<Link, LinkRec>, head: Link, hs: seq<Handle>)
  {
    && head.Head?
    && head in links
    && Distinct(hs)
    && (forall i :: 0 <= i < |hs| ==> Entry(hs[i]) in links)
    && links[head].next == (if hs == [] then head else Entry(hs[0]))
    && links[head].prev == (if hs == [] then head else Entry(hs[|hs| - 1]))
    && (hs != [] ==> links[Entry(hs[0])].prev == head && links[Entry(hs[|hs| - 1])].next == head)
    && (forall i :: 0 <= i < |hs| - 1 ==> links[Entry(hs[i])].next == Entry(hs[i + 1]))
    && (forall i :: 0 < i < |hs| ==> links[Entry(hs[i])].prev == Entry(hs[i - 1]))
  }

  /** The heap after `link_push(list, item)`: the four stores of mem.c, in order. */
  function Pushed(links: map<Link, LinkRec>, list: Link, item: Link): (r: map<Link, LinkRec>)
    requires list in links && links[list].next in links
    ensures r.Keys == links.Keys + {item}
    ensures forall k :: k in links && k != list && k != item && k != links[list].next ==> r[k] == links[k]
  {
    var first := links[list].next;
    var l1 := links[item := LinkRec(list, first)];
    var l2 := l1[first := l1[first].(prev := item)];
    l2[list := l2[list].(next := item)]
  }

  /** `item` and both its neighbours are links in the heap. */
  predicate Poppable(links: map<Link, LinkRec>, item: Link)
  {
    item in links && links[item].prev in links && links[item].next in links
  }

  /** The heap after `link_pop(item)`: the two neighbours are joined; `item` keeps its stale links. */
  function Popped(links: map<Link, LinkRec>, item: Link): (r: map<Link, LinkRec>)
    requires Poppable(links, item)
    ensures r.Keys == links.Keys
    ensures forall k :: k in links && k != links[item].prev && k != links[item].next ==> r[k] == links[k]
  {
    var p := links[item].prev;
    var n := links[item].next;
    var l1 := links[p := links[p].(next := n)];
    l1[n := l1[n].(prev := p)]
  }

  /** Pushing an entry that is not in the ring makes it the ring's first entry. */
  lemma PushKeepsRing(links: map<Link, LinkRec>, head: Link, hs: seq<Handle>, x: Handle)
    requires Ring(links, head, hs) && x !in hs
    ensures head in links && links[head].next in links
    ensures Ring(Pushed(links, head, Entry(x)), head, [x] + hs)
  {
    var first := links[head].next;
    var l1 := links[Entry(x) := LinkRec(head, first)];
    var l2 := l1[first := l1[first].(prev := Entry(x))];
    var r := l2[head := l2[head].(next := Entry(x))];
    assert r == Pushed(links, head, Entry(x));
    var hs' := [x] + hs;
    if hs == [] {
      assert r[head] == LinkRec(Entry(x), Entry(x));
      assert r[Entry(x)] == LinkRec(head, head);
    } else {
      assert first == Entry(hs[0]);
      assert r[head] == LinkRec(links[head].prev, Entry(x));
      assert r[Entry(x)] == LinkRec(head, first);
      assert r[first] == links[first].(prev := Entry(x));
      forall j | 1 <= j < |hs|
        ensures r[Entry(hs[j])] == links[Entry(hs[j])]
      {
        assert hs[j] != hs[0];
      }
      forall i | 0 <= i < |hs'| - 1
        ensures r[Entry(hs'[i])].next == Entry(hs'[i + 1])
      {
        assert hs'[i + 1] == hs[i];
      }
      forall i | 0 < i < |hs'|
        ensures r[Entry(hs'[i])].prev == Entry(hs'[i - 1])
      {
        assert hs'[i] == hs[i - 1];
      }
    }
  }

  /** Popping the entry at position `i` removes exactly that entry and keeps the others in order. */
  lemma PopKeepsRing(links: map<Link, LinkRec>, head: Link, hs: seq<Handle>, i: nat)
    requires Ring(links, head, hs) && i < |hs|
    ensures Entry(hs[i]) in links && links[Entry(hs[i])].prev in links && links[Entry(hs[i])].next in links
    ensures Ring(Popped(links, Entry(hs[i])), head, hs[..i] + hs[i + 1..])
  {
    PopRecords(links, head, hs, i);
    var r := Popped(links, Entry(hs[i]));
    var hs' := hs[..i] + hs[i + 1..];
    RemoveAtDistinct(hs, i);
    PopNext(links, head, hs, i, r, hs');
    PopPrev(links, head, hs, i, r, hs');
    if hs' != [] {
      if i == 0 {
        assert hs'[0] == hs[1];
      } else {
        assert hs'[0] == hs[0];
      }
      if i + 1 == |hs| {
        assert hs'[|hs'| - 1] == hs[|hs| - 2];
      } else {
        assert hs'[|hs'| - 1] == hs[|hs| - 1];
      }
    }
    forall k | 0 <= k < |hs'|
      ensures Entry(hs'[k]) in r
    {
      assert hs'[k] == if k < i then hs[k] else hs[k + 1];
    }
  }

  lemma PopNext(links: map<Link, LinkRec>, head: Link, hs: seq<Handle>, i: nat, r: map<Link, LinkRec>, hs': seq<Handle>)
    requires Ring(links, head, hs) && i < |hs| && hs' == hs[..i] + hs[i + 1..]
    requires Entry(hs[i]) in links && links[Entry(hs[i])].prev in links && links[Entry(hs[i])].next in links
    requires r == Popped(links, Entry(hs[i]))
    ensures forall k :: 0 <= k < |hs'| - 1 ==> r[Entry(hs'[k])].next == Entry(hs'[k + 1])
  {
    PopRecords(links, head, hs, i);
    forall k | 0 <= k < |hs'| - 1
      ensures r[Entry(hs'[k])].next == Entry(hs'[k + 1])
    {
      if k + 1 < i {
        assert hs'[k] == hs[k] && hs'[k + 1] == hs[k + 1];
      } else if k + 1 == i {
        assert hs'[k] == hs[k] && hs'[k + 1] == hs[k + 2];
      } else {
        assert hs'[k] == hs[k + 1] && hs'[k + 1] == hs[k + 2];
      }
    }
  }

  lemma PopPrev(links: map<Link, LinkRec>, head: Link, hs: seq<Handle>, i: nat, r: map<Link, LinkRec>, hs': seq<Handle>)
    requires Ring(links, head, hs) && i < |hs| && hs' == hs[..i] + hs[i + 1..]
    requires Entry(hs[i]) in links && links[Entry(hs[i])].prev in links && links[Entry(hs[i])].next in links
    requires r == Popped(links, Entry(hs[i]))
    ensures forall k :: 0 < k < |hs'| ==> r[Entry(hs'[k])].prev == Entry(hs'[k - 1])
  {
    PopRecords(links, head, hs, i);
    forall k | 0 < k < |hs'|
      ensures r[Entry(hs'[k])].prev == Entry(hs'[k - 1])
    {
      if k < i {
        assert hs'[k] == hs[k] && hs'[k - 1] == hs[k - 1];
      } else if k == i {
        assert hs'[k] == hs[k + 1] && hs'[k - 1] == hs[k - 1];
      } else {
        assert hs'[k] == hs[k + 1] && hs'[k - 1] == hs[k];
      }
    }
  }

  /** After popping the entry at `i`, only its two neighbours' records change, and they now point at
      each other. */
  lemma PopRecords(links: map<Link, LinkRec>, head: Link, hs: seq<Handle>, i: nat)
    requires Ring(links, head, hs) && i < |hs|
    ensures links[Entry(hs[i])] == LinkRec(if i == 0 then head else Entry(hs[i - 1]),
                                           if i + 1 < |hs| then Entry(hs[i + 1]) else head)
    ensures forall j :: 0 <= j < |hs| && j != i ==>
              Popped(links, Entry(hs[i]))[Entry(hs[j])].next
                == if j + 1 == i then links[Entry(hs[i])].next else links[Entry(hs[j])].next
    ensures forall j :: 0 <= j < |hs| && j != i ==>
              Popped(links, Entry(hs[i]))[Entry(hs[j])].prev
                == if j == i + 1 then links[Entry(hs[i])].prev else links[Entry(hs[j])].prev
    ensures Popped(links, Entry(hs[i]))[head].next == if i == 0 then links[Entry(hs[i])].next else links[head].next
    ensures Popped(links, Entry(hs[i]))[head].prev == if i + 1 == |hs| then links[Entry(hs[i])].prev else links[head].prev
  {
  }

  /** Removing one element keeps a sequence free of repeats. */
  lemma RemoveAtDistinct(hs: seq<Handle>, i: nat)
    requires Distinct(hs) && i < |hs|
    ensures Distinct(hs[..i] + hs[i + 1..])
  {
    var hs' := hs[..i] + hs[i + 1..];
    forall a, b | 0 <= a < b < |hs'| ensures hs'[a] != hs'[b] {
      assert hs'[a] == if a < i then hs[a] else hs[a + 1];
      assert hs'[b] == if b < i then hs[b] else hs[b + 1];
    }
  }

  /** A ring depends only on the records of its own links. */
  lemma RingFrame(l1: map<Link, LinkRec>, l2: map<Link, LinkRec>, head: Link, hs: seq<Handle>)
    requires Ring(l1, head, hs)
    requires head in l2 && l2[head] == l1[head]
    requires forall i :: 0 <= i < |hs| ==> Entry(hs[i]) in l2 && l2[Entry(hs[i])] == l1[Entry(hs[i])]
    ensures Ring(l2, head, hs)
  {
  }

  /** `link_pop` undoes `link_push` on a ring, except that the popped item keeps its stale links. */
  lemma PopUndoesPush(links: map<Link, LinkRec>, list: Link, item: Link)
    requires list in links && links[list].next in links && links[links[list].next].prev == list
    requires item != list && item != links[list].next
    ensures Poppable(Pushed(links, list, item), item)
    ensures Popped(Pushed(links, list, item), item) == links[item := LinkRec(list, links[list].next)]
  {
  }
}
