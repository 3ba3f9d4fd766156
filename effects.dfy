/** What each operation of mem.c does to the lists and records, stated in terms a caller sees: who
    owns what, in which order, what is live and what `free` received. */
module Effects {
  import opened MemTypes
  import opened Links
  import opened Forest
  import opened Rings
  import opened States

  // ----- mem_malloc, mem_calloc, mem_size -----

  /** A successful `mem_malloc(size)` or `mem_calloc` hands out a fresh address whose record has size
      `size`, no flags and an empty list, pushes it at the front of the top scope's list, and leaves
      every other list, record and the scope stack as they were; `mem_size` reports `size`. */
  lemma AllocFirstChild(s: State, size: nat, body: seq<Byte>)
    requires ValidOk(s) && s.top.Some? && |body| == size
    ensures CanAlloc(s)
    ensures var t := AllocOf(s, size, body); var h := s.nextHandle; var top := Scope(s.top.value);
      && h !in s.nodes && t.nodes == s.nodes[h := Record(size, FlagNone, body)]
      && SizeOf(t, Some(h)) == size && SizeOf(t, None) == 0
      && t.g.lists[top] == [h] + s.g.lists[top] && t.g.owner[h] == top && h in t.g.desc[top]
      && t.g.lists[Node(h)] == [] && t.g.desc[Node(h)] == {}
      && Ring(t.links, Head(top), t.g.lists[top]) && t.links[Head(top)].next == Entry(h)
      && (forall o :: o in s.g.lists && o != top ==> o in t.g.lists && t.g.lists[o] == s.g.lists[o])
      && (forall x :: x in s.g.owner ==> x in t.g.owner && t.g.owner[x] == s.g.owner[x])
      && t.top == s.top && t.stack == s.stack && t.enclosing == s.enclosing
  {
    AllocKeeps(s, size, body);
    AllocRecords(s, size, body);
    AllocLists(s, size, body);
    var t := AllocOf(s, size, body);
    var top := Scope(s.top.value);
    FirstOfList(t.links, t.g.lists, top, s.nextHandle, s.g.lists[top]);
  }

  lemma AllocRecords(s: State, size: nat, body: seq<Byte>)
    requires CanAlloc(s) && RecordsOk(s.nodes, s.released, s.locked, s.nextHandle)
    ensures var t := AllocOf(s, size, body); var h := s.nextHandle;
      && h !in s.nodes && t.nodes == s.nodes[h := Record(size, FlagNone, body)]
      && SizeOf(t, Some(h)) == size && SizeOf(t, None) == 0
      && t.top == s.top && t.stack == s.stack && t.enclosing == s.enclosing
  {
  }

  lemma AllocLists(s: State, size: nat, body: seq<Byte>)
    requires CanAlloc(s) && s.nextHandle !in s.g.owner && Node(s.nextHandle) !in s.g.lists && s.g.desc.Keys == s.g.lists.Keys
    ensures var t := AllocOf(s, size, body); var h := s.nextHandle; var top := Scope(s.top.value);
      && t.g.lists[top] == [h] + s.g.lists[top] && t.g.owner[h] == top && h in t.g.desc[top]
      && t.g.lists[Node(h)] == [] && t.g.desc[Node(h)] == {}
      && (forall o :: o in s.g.lists && o != top ==> o in t.g.lists && t.g.lists[o] == s.g.lists[o])
      && (forall x :: x in s.g.owner ==> x in t.g.owner && t.g.owner[x] == s.g.owner[x])
  {
    var n := NewNodeOf(s, size, body);
    AttachIs(n.g, Scope(s.top.value), s.nextHandle);
  }

  /** The first entry of a list in well-formed rings is the sentinel's successor. */
  lemma FirstOfList(links: map<Link, LinkRec>, lists: map<Owner, seq<Handle>>, o: Owner, h: Handle, rest: seq<Handle>)
    requires RingsOk(links, lists) && o in lists && lists[o] == [h] + rest
    ensures Ring(links, Head(o), lists[o]) && links[Head(o)].next == Entry(h)
  {
    RingOf(links, lists, o);
    RingEmpty(links, Head(o), lists[o]);
  }

  // ----- mem_free -----

  /** `mem_free(m)` on a live allocation: exactly `m` and the allocations below it stop being live,
      `free` receives each of their bodies (zeroed where secure), `m` leaves its owner's list, and
      every other list, record and owner stays as it was. */
  lemma FreeEffect(s: State, m: Handle)
    requires ValidOk(s) && m in s.nodes
    ensures m in s.g.owner && Node(m) in s.g.desc && Poppable(s.links, Entry(m)) && s.g.owner[m] in s.g.lists
    ensures var t := FreeOf(s, m); var S := Subtree(s.g, m); var p := s.g.owner[m];
      && m in S && S <= s.nodes.Keys
      && (forall x :: x in s.nodes ==> (x in t.nodes <==> x !in S))
      && (forall x :: x in t.nodes ==> t.nodes[x] == s.nodes[x] && x in t.g.owner && t.g.owner[x] == s.g.owner[x])
      && (forall o :: o in t.g.lists ==> t.g.lists[o] == if o == p then Filter(s.g.lists[o], {m}) else s.g.lists[o])
      && p in t.g.lists
      && (forall x :: x in S ==> x in t.released && t.released[x] == FreedBytes(s.nodes[x]))
      && t.top == s.top && t.stack == s.stack && t.enclosing == s.enclosing
  {
    UnlinkKeeps(s, m);
    FreeLive(s, m);
    AboveIsOutside(s.g, s.nodes.Keys, s.enclosing.Keys, m);
    SubtreeOwned(s.g, m);
    FreeRecords(s, m);
    FreeLists(s, m);
  }

  /** Everything at or below a listed allocation is listed. */
  lemma SubtreeOwned(g: Graph, m: Handle)
    requires DescOwned(g) && m in g.owner && Node(m) in g.desc
    ensures Subtree(g, m) <= g.owner.Keys
  {
  }

  lemma FreeRecords(s: State, m: Handle)
    requires m in s.g.owner && Node(m) in s.g.desc && Poppable(s.links, Entry(m)) && Subtree(s.g, m) <= s.nodes.Keys
    ensures var t := FreeOf(s, m); var S := Subtree(s.g, m);
      && (forall x :: x in s.nodes ==> (x in t.nodes <==> x !in S))
      && (forall x :: x in t.nodes ==> t.nodes[x] == s.nodes[x])
      && (forall x :: x in S ==> x in t.released && t.released[x] == FreedBytes(s.nodes[x]))
      && t.top == s.top && t.stack == s.stack && t.enclosing == s.enclosing
  {
  }

  lemma FreeLists(s: State, m: Handle)
    requires ListsOwned(s.g) && ParentsBelow(s.g) && OwnersList(s.g)
    requires m in s.g.owner && Node(m) in s.g.desc && Poppable(s.links, Entry(m))
    requires !(s.g.owner[m].Node? && s.g.owner[m].h in Subtree(s.g, m)) && s.g.owner[m] in s.g.lists
    ensures var t := FreeOf(s, m); var p := s.g.owner[m];
      && (forall x :: x in t.g.owner ==> x in s.g.owner && t.g.owner[x] == s.g.owner[x])
      && (forall o :: o in t.g.lists ==> t.g.lists[o] == if o == p then Filter(s.g.lists[o], {m}) else s.g.lists[o])
      && p in t.g.lists
  {
    var S := Subtree(s.g, m);
    var w := Without(s.g, S);
    WithoutIs(s.g, S);
    SubtreeLists(s.g, m, w);
  }

  // ----- _mem_oscope -----

  /** `_mem_oscope` on the top scope: exactly the allocations below it stop being live and go to
      `free` (zeroed where secure), everything in its list is among them, the scope itself is gone,
      every other list, record and owner stays as it was, and the enclosing scope is the top of a
      stack one shorter. */
  lemma CloseEffect(s: State)
    requires ValidOk(s) && s.top.Some?
    ensures TopOpen(s)
    ensures var t := CloseOf(s); var id := s.top.value; var D := s.g.desc[Scope(id)];
      && s.stack == [id] + t.stack && StackOk(t.top, t.enclosing, t.stack) && id !in t.enclosing
      && (forall x :: x in s.g.lists[Scope(id)] ==> x in D)
      && D <= s.nodes.Keys
      && (forall x :: x in s.nodes ==> (x in t.nodes <==> x !in D))
      && (forall x :: x in t.nodes ==> t.nodes[x] == s.nodes[x] && x in t.g.owner && t.g.owner[x] == s.g.owner[x])
      && Scope(id) !in t.g.lists
      && (forall o :: o in t.g.lists ==> o in s.g.lists && t.g.lists[o] == s.g.lists[o])
      && (forall x :: x in D ==> x in t.released && t.released[x] == FreedBytes(s.nodes[x]))
  {
    TopOpenOf(s);
    CloseLive(s);
    PopStack(s.top, s.enclosing, s.stack);
    ScopeListed(s.g, Scope(s.top.value));
    CloseRecords(s);
    CloseLists(s);
  }

  /** Everything in an owner's list is below it, and everything below it is listed. */
  lemma ScopeListed(g: Graph, o: Owner)
    requires ListsOwned(g) && OwnerAbove(g) && DescOwned(g) && o in g.lists && o in g.desc
    ensures (forall x :: x in g.lists[o] ==> x in g.desc[o]) && g.desc[o] <= g.owner.Keys
  {
    forall x | x in g.lists[o]
      ensures x in g.desc[o]
    {
      assert x in g.owner && g.owner[x] == o;
    }
  }

  lemma CloseRecords(s: State)
    requires TopOpen(s) && s.g.desc[Scope(s.top.value)] <= s.nodes.Keys
    ensures var t := CloseOf(s); var D := s.g.desc[Scope(s.top.value)];
      && (forall x :: x in s.nodes ==> (x in t.nodes <==> x !in D))
      && (forall x :: x in t.nodes ==> t.nodes[x] == s.nodes[x])
      && (forall x :: x in D ==> x in t.released && t.released[x] == FreedBytes(s.nodes[x]))
  {
  }

  lemma CloseLists(s: State)
    requires TopOpen(s) && ListsOwned(s.g) && ParentsBelow(s.g)
    ensures var t := CloseOf(s); var id := s.top.value;
      && Scope(id) !in t.g.lists
      && (forall x :: x in t.g.owner ==> x in s.g.owner && t.g.owner[x] == s.g.owner[x])
      && (forall o :: o in t.g.lists ==> o in s.g.lists && t.g.lists[o] == s.g.lists[o])
  {
    var id := s.top.value;
    var w := Without(s.g, s.g.desc[Scope(id)]);
    WithoutIs(s.g, s.g.desc[Scope(id)]);
    ScopeLists(s.g, id, w);
    var t := CloseOf(s);
    assert t.g == DropOwner(w, Scope(id));
  }

  // ----- the mem_scope(name) block -----

  /** A `mem_scope` block in which nothing is allocated: `_mem_iscope` followed by `_mem_oscope` on
      the same scope gives back the state it started from, except that the scope variable's list
      sentinel is left self-linked. */
  lemma ScopeRoundTrip(s: State, id: ScopeId)
    requires ValidOk(s) && id !in s.enclosing
    ensures TopOpen(IScopeOf(s, id)) && IScopeOf(s, id).top == Some(id)
    ensures var head := Head(Scope(id));
      CloseOf(IScopeOf(s, id)) == s.(links := s.links[head := LinkRec(head, head)])
  {
    ScopeStackBack(s, id);
    assert Scope(id) !in s.g.lists && Scope(id) !in s.g.desc;
    ScopeRecordsBack(s, id);
    ScopeGraphBack(s, id);
  }

  /** Opening and closing a scope puts the stack back as it was. */
  lemma ScopeStackBack(s: State, id: ScopeId)
    requires id !in s.enclosing
    ensures TopOpen(IScopeOf(s, id)) && IScopeOf(s, id).top == Some(id)
    ensures var u := CloseOf(IScopeOf(s, id)); u.top == s.top && u.enclosing == s.enclosing && u.stack == s.stack
  {
    assert s.enclosing[id := s.top] - {id} == s.enclosing;
    assert ([id] + s.stack)[1..] == s.stack;
  }

  /** An empty scope owns nothing, so closing it frees nothing and drops no link record. */
  lemma ScopeRecordsBack(s: State, id: ScopeId)
    requires TopOpen(IScopeOf(s, id)) && IScopeOf(s, id).top == Some(id)
    ensures var u := CloseOf(IScopeOf(s, id)); var head := Head(Scope(id));
      && u.nodes == s.nodes && u.locked == s.locked && u.released == s.released && u.nextHandle == s.nextHandle
      && u.links == s.links[head := LinkRec(head, head)]
  {
    var t := IScopeOf(s, id);
    assert t.g.desc[Scope(id)] == {};
    assert s.nodes - {} == s.nodes && s.locked - {} == s.locked;
    FreedNone(s.released, t.nodes);
    DropNone(t.links);
  }

  /** Closing the scope just opened leaves the forest as it was. */
  lemma ScopeGraphBack(s: State, id: ScopeId)
    requires TopOpen(IScopeOf(s, id)) && IScopeOf(s, id).top == Some(id)
    requires Scope(id) !in s.g.lists && Scope(id) !in s.g.desc
    ensures CloseOf(IScopeOf(s, id)).g == s.g
  {
    var t := IScopeOf(s, id);
    assert t.g.desc[Scope(id)] == {};
    WithoutEmpty(t.g);
    DropAdded(s.g, Scope(id));
  }

  /** Helper: nothing freed adds nothing to `released`. */
  lemma FreedNone(released: map<Handle, seq<Byte>>, mem: map<Handle, Record>)
    ensures released + FreedAll(mem, {}) == released
  {
    assert FreedAll(mem, {}) == map[];
  }

  /** Helper: dropping no records changes nothing. */
  lemma DropNone(links: map<Link, LinkRec>)
    ensures DropRecords(links, {}) == links
  {
  }

  lemma DropAdded(g: Graph, o: Owner)
    requires o !in g.lists && o !in g.desc
    ensures DropOwner(AddOwner(g, o), o) == g
  {
    assert g.lists[o := []] - {o} == g.lists;
    assert g.desc[o := {}] - {o} == g.desc;
  }

  // ----- mem_steal -----

  /** `mem_steal(m, p)` with `p` live and outside `m`'s subtree: `m` leaves its old owner's list and
      becomes the first child of `p`, taking everything below it along; no record changes and every
      other list keeps its order. */
  lemma StealEffect(s: State, m: Handle, p: Handle)
    requires ValidOk(s) && m in s.nodes && p in s.nodes && p !in Subtree(s.g, m)
    ensures CanSteal(s, m, p) && Node(p) in s.g.lists
    ensures var t := StealOf(s, m, p); var q := s.g.owner[m];
      && t.nodes == s.nodes && t.locked == s.locked && t.released == s.released
      && t.top == s.top && t.stack == s.stack && t.enclosing == s.enclosing
      && t.g.owner == s.g.owner[m := Node(p)]
      && t.g.lists.Keys == s.g.lists.Keys
      && t.g.lists[Node(p)] == [m] + Filter(s.g.lists[Node(p)], {m})
      && (forall o :: o in s.g.lists && o != Node(p) ==>
            t.g.lists[o] == if o == q then Filter(s.g.lists[o], {m}) else s.g.lists[o])
      && Ring(t.links, Head(Node(p)), t.g.lists[Node(p)]) && t.links[Head(Node(p))].next == Entry(m)
      && Node(m) in t.g.desc && Subtree(t.g, m) == Subtree(s.g, m) && Subtree(s.g, m) <= t.g.desc[Node(p)]
  {
    StealRings(s, m, p);
    StealPre(s, m, p);
    StealMoves(s, m, p);
  }

  /** What the invariant says about the two allocations involved. */
  lemma StealPre(s: State, m: Handle, p: Handle)
    requires ValidOk(s) && m in s.nodes && p in s.nodes && p !in Subtree(s.g, m)
    ensures Node(p) in s.g.lists && ListsOwned(s.g) && Node(p) in s.g.desc && m !in s.g.desc[Node(m)]
    ensures p != m && p !in s.g.desc[Node(m)]
  {
  }

  lemma StealMoves(s: State, m: Handle, p: Handle)
    requires CanSteal(s, m, p) && RingsOk(StealOf(s, m, p).links, StealOf(s, m, p).g.lists)
    requires Node(p) in s.g.lists && ListsOwned(s.g) && Node(p) in s.g.desc && m !in s.g.desc[Node(m)]
    requires p != m && p !in s.g.desc[Node(m)]
    ensures var t := StealOf(s, m, p); var q := s.g.owner[m];
      && t.nodes == s.nodes && t.locked == s.locked && t.released == s.released
      && t.top == s.top && t.stack == s.stack && t.enclosing == s.enclosing
      && t.g.owner == s.g.owner[m := Node(p)]
      && t.g.lists.Keys == s.g.lists.Keys
      && t.g.lists[Node(p)] == [m] + Filter(s.g.lists[Node(p)], {m})
      && (forall o :: o in s.g.lists && o != Node(p) ==>
            t.g.lists[o] == if o == q then Filter(s.g.lists[o], {m}) else s.g.lists[o])
      && Ring(t.links, Head(Node(p)), t.g.lists[Node(p)]) && t.links[Head(Node(p))].next == Entry(m)
      && Node(m) in t.g.desc && Subtree(t.g, m) == Subtree(s.g, m) && Subtree(s.g, m) <= t.g.desc[Node(p)]
  {
    StealRecords(s, m, p);
    StealLists(s, m, p);
    StealSubtree(s, m, p);
    StealFront(s, m, p);
  }

  lemma StealRings(s: State, m: Handle, p: Handle)
    requires ValidOk(s) && m in s.nodes && p in s.nodes && p !in Subtree(s.g, m)
    ensures CanSteal(s, m, p) && RingsOk(StealOf(s, m, p).links, StealOf(s, m, p).g.lists)
  {
    StealKeeps(s, m, p);
  }

  /** Helper: `mem_steal` touches no record, lock, release or scope. */
  lemma StealRecords(s: State, m: Handle, p: Handle)
    requires CanSteal(s, m, p)
    ensures var t := StealOf(s, m, p);
      && t.nodes == s.nodes && t.locked == s.locked && t.released == s.released
      && t.top == s.top && t.stack == s.stack && t.enclosing == s.enclosing
  {
  }

  /** After the steal, `m` is the successor of `p`'s list sentinel. */
  lemma StealFront(s: State, m: Handle, p: Handle)
    requires CanSteal(s, m, p) && RingsOk(StealOf(s, m, p).links, StealOf(s, m, p).g.lists)
    requires Node(p) in StealOf(s, m, p).g.lists && StealOf(s, m, p).g.lists[Node(p)] == [m] + Filter(s.g.lists[Node(p)], {m})
    ensures var t := StealOf(s, m, p);
      Ring(t.links, Head(Node(p)), t.g.lists[Node(p)]) && t.links[Head(Node(p))].next == Entry(m)
  {
    var t := StealOf(s, m, p);
    FirstOfList(t.links, t.g.lists, Node(p), m, Filter(s.g.lists[Node(p)], {m}));
  }

  lemma StealLists(s: State, m: Handle, p: Handle)
    requires CanSteal(s, m, p) && Node(p) in s.g.lists && ListsOwned(s.g)
    ensures var t := StealOf(s, m, p); var q := s.g.owner[m];
      && t.g.owner == s.g.owner[m := Node(p)]
      && t.g.lists.Keys == s.g.lists.Keys
      && t.g.lists[Node(p)] == [m] + Filter(s.g.lists[Node(p)], {m})
      && (forall o :: o in s.g.lists && o != Node(p) ==>
            t.g.lists[o] == if o == q then Filter(s.g.lists[o], {m}) else s.g.lists[o])
  {
    var u := UnlinkOf(s, m);
    assert StealOf(s, m, p).g == Attach(Detach(s.g, m), Node(p), m);
    MoveLists(s.g, m, Node(p));
    MoveOwner(s.g, m, Node(p));
  }

  lemma MoveOwner(g: Graph, m: Handle, p: Owner)
    requires m in g.owner && g.owner[m] in g.lists && Node(m) in g.desc && p in g.lists
    ensures Attach(Detach(g, m), p, m).owner == g.owner[m := p]
  {
    assert (g.owner - {m})[m := p] == g.owner[m := p];
  }

  /** Unlinking `m` and pushing it onto `p`'s list, on the forest alone. */
  lemma MoveLists(g: Graph, m: Handle, p: Owner)
    requires m in g.owner && g.owner[m] in g.lists && Node(m) in g.desc && p in g.lists && ListsOwned(g)
    ensures var w := Detach(g, m); p in w.lists && Node(m) in w.desc
    ensures var w := Attach(Detach(g, m), p, m); var q := g.owner[m];
      && w.lists.Keys == g.lists.Keys
      && w.lists[p] == [m] + Filter(g.lists[p], {m})
      && (forall o :: o in g.lists && o != p ==> w.lists[o] == if o == q then Filter(g.lists[o], {m}) else g.lists[o])
  {
    var u := Detach(g, m);
    DetachIs(g, m);
    AttachIs(u, p, m);
    if g.owner[m] != p {
      FilterNothing(g.lists[p], {m});
    }
  }

  /** The stolen allocation keeps everything below it, and all of it ends up below `p`. */
  lemma StealSubtree(s: State, m: Handle, p: Handle)
    requires CanSteal(s, m, p) && Node(p) in s.g.desc && m !in s.g.desc[Node(m)]
    requires p != m && p !in s.g.desc[Node(m)]
    ensures var t := StealOf(s, m, p);
      Node(m) in t.g.desc && t.g.desc[Node(m)] == s.g.desc[Node(m)] && Subtree(s.g, m) <= t.g.desc[Node(p)]
  {
    var u := UnlinkOf(s, m);
    DetachIs(s.g, m);
    AttachIs(u.g, Node(p), m);
  }

  /** An allocation stolen out of the top scope by an allocation that the scope does not own
      survives the closing of that scope, still below its new parent. */
  lemma StealSurvivesClose(s: State, id: ScopeId, m: Handle, p: Handle)
    requires ValidOk(s) && s.top == Some(id) && m in s.nodes && p in s.nodes && p !in Subtree(s.g, m)
    requires Scope(id) in s.g.desc && p !in s.g.desc[Scope(id)]
    ensures CanSteal(s, m, p) && TopOpen(StealOf(s, m, p))
    ensures var u := CloseOf(StealOf(s, m, p));
      m in u.nodes && p in u.nodes && Node(p) in u.g.desc && m in u.g.desc[Node(p)]
  {
    StealEffect(s, m, p);
    var t := StealOf(s, m, p);
    StealScopeDesc(s, m, p, id);
    CloseKeepsBelow(t, id, m, p);
  }

  /** Stealing `m` for an owner outside the scope takes `m` out of what the scope owns. */
  lemma StealScopeDesc(s: State, m: Handle, p: Handle, id: ScopeId)
    requires CanSteal(s, m, p) && Scope(id) in s.g.desc && p !in s.g.desc[Scope(id)]
    ensures var t := StealOf(s, m, p);
      Scope(id) in t.g.desc && t.g.desc[Scope(id)] <= s.g.desc[Scope(id)] && m !in t.g.desc[Scope(id)]
  {
    var u := UnlinkOf(s, m);
    DetachIs(s.g, m);
    AttachIs(u.g, Node(p), m);
  }

  /** Closing a scope keeps two allocations it does not own, and what is below what. */
  lemma CloseKeepsBelow(t: State, id: ScopeId, m: Handle, p: Handle)
    requires TopOpen(t) && t.top == Some(id) && m in t.nodes && p in t.nodes
    requires m !in t.g.desc[Scope(id)] && p !in t.g.desc[Scope(id)]
    requires Node(p) in t.g.desc && m in t.g.desc[Node(p)]
    ensures var u := CloseOf(t); m in u.nodes && p in u.nodes && Node(p) in u.g.desc && m in u.g.desc[Node(p)]
  {
  }

  /** Freeing an allocation frees everything below it, whoever placed it there. */
  lemma FreeBelow(t: State, p: Handle, m: Handle)
    requires ValidOk(t) && p in t.nodes && Node(p) in t.g.desc && m in t.g.desc[Node(p)]
    ensures p in t.g.owner && Node(p) in t.g.desc && Poppable(t.links, Entry(p)) && m in t.nodes
    ensures m !in FreeOf(t, p).nodes && m in FreeOf(t, p).released
    ensures FreeOf(t, p).released[m] == FreedBytes(t.nodes[m])
  {
    FreeEffect(t, p);
  }

  // ----- mem_flags -----

  /** Marking an allocation secure changes its flags and its locking and nothing else; once marked,
      `mem_free` hands `free` only zeros for it. */
  lemma SecureThenFreeZeroes(s: State, h: Handle)
    requires ValidOk(s) && h in s.nodes
    ensures var t := SecureOf(s, h);
      && IsSecure(t.nodes[h].flags) && h in t.locked
      && t.nodes[h].size == s.nodes[h].size && t.nodes[h].body == s.nodes[h].body
      && (forall x :: x in s.nodes && x != h ==> x in t.nodes && t.nodes[x] == s.nodes[x])
      && t.nodes.Keys == s.nodes.Keys && t.g == s.g && t.links == s.links
    ensures var t := SecureOf(s, h);
      && h in t.g.owner && Node(h) in t.g.desc && Poppable(t.links, Entry(h))
      && h !in FreeOf(t, h).nodes && h in FreeOf(t, h).released
      && FreeOf(t, h).released[h] == Zeros(s.nodes[h].size)
  {
    SecureKeeps(s, h);
    SecureOnly(s, h);
    SecureFree(SecureOf(s, h), h);
  }

  lemma SecureOnly(s: State, h: Handle)
    requires h in s.nodes
    ensures var t := SecureOf(s, h);
      && IsSecure(t.nodes[h].flags) && h in t.locked
      && t.nodes[h].size == s.nodes[h].size && t.nodes[h].body == s.nodes[h].body
      && (forall x :: x in s.nodes && x != h ==> x in t.nodes && t.nodes[x] == s.nodes[x])
      && t.nodes.Keys == s.nodes.Keys && t.g == s.g && t.links == s.links
  {
    assert IsSecure(s.nodes[h].flags | FlagSecure);
  }

  /** Freeing a secure allocation hands `free` a zeroed body of its size. */
  lemma SecureFree(t: State, h: Handle)
    requires ValidOk(t) && h in t.nodes && IsSecure(t.nodes[h].flags)
    ensures h in t.g.owner && Node(h) in t.g.desc && Poppable(t.links, Entry(h))
    ensures h !in FreeOf(t, h).nodes && h in FreeOf(t, h).released
    ensures FreeOf(t, h).released[h] == Zeros(t.nodes[h].size)
  {
    FreeEffect(t, h);
  }
}
