/** The link heap and the forest together: every owner's intrusive list is a well-formed ring that
    holds exactly that owner's children, in order. */
module Rings {
  import opened MemTypes
  import opened Links
  import opened Forest

  /** Every child list of the forest is laid out as a ring in the link heap. */
  ghost predicate RingsOk(links: map<Link, LinkRec>, lists: map<Owner, seq<Handle>>)
  {
    forall o {:trigger Ring(links, Head(o), lists[o])} :: o in lists ==> Ring(links, Head(o), lists[o])
  }

  /** The ring of one owner. */
  lemma RingOf(links: map<Link, LinkRec>, lists: map<Owner, seq<Handle>>, o: Owner)
    requires RingsOk(links, lists) && o in lists
    ensures Ring(links, Head(o), lists[o])
  {
  }

  /** `k` is one of the two links stored inside an allocation of `s`. */
  predicate OfNodes(k: Link, s: set<Handle>)
  {
    (k.Entry? && k.h in s) || (k.Head? && k.o.Node? && k.o.h in s)
  }

  /** The link heap once the allocations `s` have been handed back to `free`. */
  function DropRecords(links: map<Link, LinkRec>, s: set<Handle>): map<Link, LinkRec>
  {
    map k | k in links && !OfNodes(k, s) :: links[k]
  }

  /** `k` is the sentinel of `o` or the link of one of `o`'s children, or of an allocation in `extra`. */
  ghost predicate BelongsTo(k: Link, g: Graph, o: Owner, extra: set<Handle>)
  {
    k == Head(o) || (k.Entry? && (k.h in extra || (k.h in g.owner && g.owner[k.h] == o)))
  }

  /** `r` agrees with `links` on every link that does not belong to `o`. */
  ghost predicate SameOutside(links: map<Link, LinkRec>, r: map<Link, LinkRec>, g: Graph, o: Owner, extra: set<Handle>)
  {
    forall k :: k in links && !BelongsTo(k, g, o, extra) ==> k in r && r[k] == links[k]
  }

  /** Changing only the links that belong to `o0` leaves every other owner's ring as it was. */
  lemma RingsOthers(links: map<Link, LinkRec>, r: map<Link, LinkRec>, g: Graph, o0: Owner, extra: set<Handle>)
    requires ListsOwned(g) && RingsOk(links, g.lists) && SameOutside(links, r, g, o0, extra)
    requires forall x :: x in extra ==> x !in g.owner
    ensures forall o :: o in g.lists && o != o0 ==> Ring(r, Head(o), g.lists[o])
  {
    forall o | o in g.lists && o != o0
      ensures Ring(r, Head(o), g.lists[o])
    {
      assert Ring(links, Head(o), g.lists[o]);
      var ks := g.lists[o];
      forall j | 0 <= j < |ks|
        ensures Entry(ks[j]) in r && r[Entry(ks[j])] == links[Entry(ks[j])]
      {
        assert g.owner[ks[j]] == o;
      }
      RingFrame(links, r, Head(o), ks);
    }
  }

  /** `link_pop` of a listed allocation keeps every ring well formed: its owner's ring loses exactly
      that entry and the other rings are untouched. */
  lemma RingsDetach(links: map<Link, LinkRec>, g: Graph, m: Handle)
    requires ListsDistinct(g) && ListsOwned(g) && OwnersList(g) && RingsOk(links, g.lists)
    requires m in g.owner
    ensures Entry(m) in links && links[Entry(m)].prev in links && links[Entry(m)].next in links
    ensures RingsOk(Popped(links, Entry(m)), g.lists[g.owner[m] := Filter(g.lists[g.owner[m]], {m})])
  {
    var o0 := g.owner[m];
    var hs := g.lists[o0];
    var i :| 0 <= i < |hs| && hs[i] == m;
    PopOutside(links, g, o0, i);
    var r := Popped(links, Entry(m));
    PopKeepsRing(links, Head(o0), hs, i);
    FilterRemoveAt(hs, i);
    RingsOthers(links, r, g, o0, {});
    RingsUpdate(r, g.lists, o0, Filter(hs, {m}));
  }

  /** Rings for every other owner and a ring for `o0` make rings for the updated lists. */
  lemma RingsUpdate(r: map<Link, LinkRec>, lists: map<Owner, seq<Handle>>, o0: Owner, hs: seq<Handle>)
    requires forall o :: o in lists && o != o0 ==> Ring(r, Head(o), lists[o])
    requires Ring(r, Head(o0), hs)
    ensures RingsOk(r, lists[o0 := hs])
  {
  }

  /** `link_pop` changes only links of the popped entry's own ring. */
  lemma PopOutside(links: map<Link, LinkRec>, g: Graph, o0: Owner, i: nat)
    requires ListsOwned(g) && o0 in g.lists && Ring(links, Head(o0), g.lists[o0]) && i < |g.lists[o0]|
    ensures Entry(g.lists[o0][i]) in links
    ensures links[Entry(g.lists[o0][i])].prev in links && links[Entry(g.lists[o0][i])].next in links
    ensures SameOutside(links, Popped(links, Entry(g.lists[o0][i])), g, o0, {})
  {
    var hs := g.lists[o0];
    PopRecords(links, Head(o0), hs, i);
    if i > 0 {
      assert g.owner[hs[i - 1]] == o0;
    }
    if i + 1 < |hs| {
      assert g.owner[hs[i + 1]] == o0;
    }
  }

  /** `link_push` of an unlisted allocation onto the list of `p` keeps every ring well formed: `p`'s ring
      gains it at the front and the other rings are untouched. */
  lemma RingsAttach(links: map<Link, LinkRec>, g: Graph, p: Owner, m: Handle)
    requires ListsOwned(g) && RingsOk(links, g.lists)
    requires p in g.lists && m !in g.owner && Node(m) in g.desc
    ensures Head(p) in links && links[Head(p)].next in links
    ensures RingsOk(Pushed(links, Head(p), Entry(m)), Attach(g, p, m).lists)
  {
    var hs := g.lists[p];
    PushKeepsRing(links, Head(p), hs, m);
    var r := Pushed(links, Head(p), Entry(m));
    if hs != [] {
      assert g.owner[hs[0]] == p;
    }
    assert SameOutside(links, r, g, p, {m});
    RingsOthers(links, r, g, p, {m});
  }

  /** Handing an unlisted allocation back to `free` removes its two links and leaves every remaining
      ring as it was. */
  lemma RingsRelease(links: map<Link, LinkRec>, g: Graph, m: Handle, lists: map<Owner, seq<Handle>>)
    requires ListsOwned(g) && RingsOk(links, g.lists) && m !in g.owner
    requires forall o :: o in lists ==> o in g.lists && o != Node(m) && lists[o] == g.lists[o]
    ensures RingsOk(DropRecords(links, {m}), lists)
  {
    var r := DropRecords(links, {m});
    forall o | o in lists
      ensures Ring(r, Head(o), lists[o])
    {
      assert Ring(links, Head(o), g.lists[o]);
      var ks := g.lists[o];
      forall j | 0 <= j < |ks|
        ensures Entry(ks[j]) in r && r[Entry(ks[j])] == links[Entry(ks[j])]
      {
        assert ks[j] in g.owner;
      }
      RingFrame(links, r, Head(o), ks);
    }
  }

  /** A new owner whose sentinel points at itself has an empty ring; the other rings are untouched. */
  lemma RingsNewHead(links: map<Link, LinkRec>, lists: map<Owner, seq<Handle>>, o: Owner)
    requires RingsOk(links, lists) && o !in lists
    ensures RingsOk(links[Head(o) := LinkRec(Head(o), Head(o))], lists[o := []])
  {
    var r := links[Head(o) := LinkRec(Head(o), Head(o))];
    forall o' | o' in lists
      ensures Ring(r, Head(o'), lists[o'])
    {
      RingFrame(links, r, Head(o'), lists[o']);
    }
  }

  /** An empty ring is one whose sentinel points at itself, and a nonempty one starts at its first
      entry: the loop guard of `mem_free` and `_mem_oscope` tests exactly for children. */
  lemma RingEmpty(links: map<Link, LinkRec>, head: Link, hs: seq<Handle>)
    requires Ring(links, head, hs)
    ensures links[head].next == head <==> hs == []
    ensures hs != [] ==> links[head].next == Entry(hs[0])
  {
  }

  /** The first entry of a nonempty ring follows the sentinel, can be popped, and is followed by the
      sentinel or by another entry of the ring. */
  lemma FirstOfRing(links: map<Link, LinkRec>, head: Link, hs: seq<Handle>)
    requires Ring(links, head, hs) && hs != []
    ensures links[head].next == Entry(hs[0]) && Poppable(links, Entry(hs[0]))
    ensures links[Entry(hs[0])].prev == head
    ensures links[Entry(hs[0])].next == head || (links[Entry(hs[0])].next.Entry? && links[Entry(hs[0])].next.h in hs)
  {
    if |hs| > 1 {
      assert links[Entry(hs[0])].next == Entry(hs[1]);
    }
  }

  /** One step of a teardown loop: the first child `c` is popped and its subtree's links dropped. Every
      link outside the allocations `S` and the list sentinel `head` keeps its original record. */
  lemma LinksStep(l0: map<Link, LinkRec>, pre: map<Link, LinkRec>, post: map<Link, LinkRec>, S: set<Handle>,
                  head: Link, freed: set<Handle>, sc: set<Handle>, c: Handle)
    requires freed <= S && sc <= S
    requires forall k :: k in pre <==> k in l0 && !OfNodes(k, freed)
    requires forall k :: k in l0 && !OfNodes(k, S) && k != head ==> k in pre && pre[k] == l0[k]
    requires Entry(c) in pre && pre[Entry(c)].prev in pre && pre[Entry(c)].next in pre
    requires OfNodes(pre[Entry(c)].prev, S) || pre[Entry(c)].prev == head
    requires OfNodes(pre[Entry(c)].next, S) || pre[Entry(c)].next == head
    requires post == DropRecords(Popped(pre, Entry(c)), sc)
    ensures forall k :: k in post <==> k in l0 && !OfNodes(k, freed + sc)
    ensures forall k :: k in l0 && !OfNodes(k, S) && k != head ==> k in post && post[k] == l0[k]
  {
  }

  /** The end of `mem_free`'s teardown: releasing `m` itself leaves exactly the links outside its
      subtree, as they were after `m` was unlinked. */
  lemma FreeLinksDone(l0: map<Link, LinkRec>, l: map<Link, LinkRec>, S: set<Handle>, freed: set<Handle>, m: Handle)
    requires S == freed + {m}
    requires forall k :: k in l <==> k in l0 && !OfNodes(k, freed)
    requires forall k :: k in l0 && !OfNodes(k, freed) && k != Head(Node(m)) ==> k in l && l[k] == l0[k]
    ensures DropRecords(l, {m}) == DropRecords(l0, S)
  {
    var a := DropRecords(l, {m});
    var b := DropRecords(l0, S);
    assert a.Keys == b.Keys;
  }

  /** The end of `_mem_oscope`'s teardown: the scope's sentinel points at itself and every other link
      outside the released allocations is as it was. */
  lemma ScopeLinksDone(l0: map<Link, LinkRec>, l: map<Link, LinkRec>, S: set<Handle>, head: Link)
    requires head in l0 && !OfNodes(head, S)
    requires forall k :: k in l <==> k in l0 && !OfNodes(k, S)
    requires forall k :: k in l0 && !OfNodes(k, S) && k != head ==> k in l && l[k] == l0[k]
    requires head in l && l[head] == LinkRec(head, head)
    ensures l == DropRecords(l0, S)[head := LinkRec(head, head)]
  {
    var b := DropRecords(l0, S)[head := LinkRec(head, head)];
    assert l.Keys == b.Keys;
  }

  /** Dropping the records of `s` forgets any store into them. */
  lemma DropStored(links: map<Link, LinkRec>, s: set<Handle>, k: Link, r: LinkRec)
    requires OfNodes(k, s)
    ensures DropRecords(links[k := r], s) == DropRecords(links, s)
  {
  }
}
