/** The teardown loops of mem.c: `mem_free` and `_mem_oscope` both free the first child of an owner
    `o` while `o`'s list is nonempty. Halfway through, the state is described relative to the state
    `u` in which the loop started and the allocations `freed` released so far. */
module Teardown {
  import opened MemTypes
  import opened Links
  import opened Forest
  import opened Rings
  import opened States

  /** A teardown loop over `o` can start in `u`: `o` has a list and a sentinel, and an allocation
      `o` is unlinked already, so that it is not released with its children. */
  ghost predicate EmptyFrom(u: State, o: Owner)
  {
    && o in u.g.lists && o in u.g.desc && Head(o) in u.links
    && (o.Node? ==> o.h !in u.g.owner && o.h in u.nodes)
  }

  /** Halfway through a teardown loop over `o` started in `u`: the children freed so far took the
      allocations `freed` with them. */
  ghost predicate Emptying(u: State, o: Owner, freed: set<Handle>, s: State)
  {
    && EmptyFrom(u, o)
    && EmptyShape(u, o, freed, s)
    && EmptyRecords(u, freed, s)
    && EmptyLinks(u, o, freed, s)
    && EmptyFixed(u, s)
  }

  /** The forest halfway: exactly `freed` is gone, and it was below `o`. */
  ghost predicate EmptyShape(u: State, o: Owner, freed: set<Handle>, s: State)
    requires EmptyFrom(u, o)
  {
    && freed <= u.g.desc[o] && s.g == Without(u.g, freed)
    && o in s.g.lists && o in s.g.desc && Head(o) in s.links && s.g.desc[o] == u.g.desc[o] - freed
    && s.g.owner.Keys <= u.g.owner.Keys
    && (o.Node? ==> o.h in s.nodes && o.h !in s.g.owner)
  }

  /** The records halfway: those of `freed` went back to `free`. */
  ghost predicate EmptyRecords(u: State, freed: set<Handle>, s: State)
  {
    && s.nodes == u.nodes - freed && s.locked == u.locked - freed
    && s.released == u.released + FreedAll(u.nodes, freed)
  }

  /** The links halfway: those stored in `freed` are gone, and every link outside what was below
      `o`, other than `o`'s sentinel, is untouched. */
  ghost predicate EmptyLinks(u: State, o: Owner, freed: set<Handle>, s: State)
    requires EmptyFrom(u, o)
  {
    && (forall k :: k in s.links <==> k in u.links && !OfNodes(k, freed))
    && (forall k :: k in u.links && !OfNodes(k, u.g.desc[o]) && k != Head(o) ==> k in s.links && s.links[k] == u.links[k])
  }

  /** What a teardown never touches. */
  ghost predicate EmptyFixed(u: State, s: State)
  {
    s.top == u.top && s.stack == u.stack && s.enclosing == u.enclosing && s.nextHandle == u.nextHandle
  }

  lemma EmptyStart(u: State, o: Owner)
    requires EmptyFrom(u, o)
    ensures Emptying(u, o, {}, u)
  {
    WithoutEmpty(u.g);
    assert u.nodes - {} == u.nodes && u.locked - {} == u.locked;
    assert u.released + FreedAll(u.nodes, {}) == u.released;
  }

  /** The first child `c` of `o` while `o`'s list is nonempty, and what freeing it relies on. */
  lemma FirstChild(u: State, o: Owner, freed: set<Handle>, s: State)
    requires EmptyFrom(u, o) && EmptyShape(u, o, freed, s)
    requires ListsOwned(s.g) && OwnersBelow(s.g) && Transitive(s.g) && RingsOk(s.links, s.g.lists)
    requires s.links[Head(o)].next != Head(o)
    ensures s.g.lists[o] != [] && s.links[Head(o)].next == Entry(s.g.lists[o][0])
    ensures var c := s.g.lists[o][0];
      && c in s.g.owner && s.g.owner[c] == o && Node(c) in s.g.desc
      && Poppable(s.links, Entry(c)) && s.links[Entry(c)].prev == Head(o)
      && (s.links[Entry(c)].next == Head(o) || OfNodes(s.links[Entry(c)].next, u.g.desc[o] - freed))
      && Subtree(s.g, c) <= u.g.desc[o] - freed && (o.Node? ==> o.h !in Subtree(s.g, c))
      && Without(s.g, Subtree(s.g, c)) == Without(u.g, freed + Subtree(s.g, c))
      && o in Without(s.g, Subtree(s.g, c)).lists
      && Without(s.g, Subtree(s.g, c)).desc[o] == u.g.desc[o] - (freed + Subtree(s.g, c))
  {
    RingOf(s.links, s.g.lists, o);
    RingEmpty(s.links, Head(o), s.g.lists[o]);
    FirstOfRing(s.links, Head(o), s.g.lists[o]);
    ChildStep(u.g, s.g, o, u.g.desc[o], freed);
  }

  /** While `o`'s list is nonempty, its first link is a listed allocation that can be freed. */
  lemma EmptyNext(u: State, o: Owner, freed: set<Handle>, s: State)
    requires CoreOk(s) && Emptying(u, o, freed, s) && s.links[Head(o)].next != Head(o)
    ensures s.links[Head(o)].next.Entry?
    ensures var c := s.links[Head(o)].next.h;
      c in s.g.owner && Node(c) in s.g.desc && s.g.owner.Keys <= u.g.owner.Keys
  {
    FirstChild(u, o, freed, s);
  }

  /** Freeing the first child keeps the loop invariant, with the child's subtree added to `freed`. */
  lemma EmptyStep(u: State, o: Owner, freed: set<Handle>, s: State, c: Handle, t: State)
    requires CoreOk(s) && Emptying(u, o, freed, s) && s.links[Head(o)].next == Entry(c)
    requires c in s.g.owner && Node(c) in s.g.desc && Poppable(s.links, Entry(c))
    requires t == FreeOf(s, c)
    ensures Subtree(s.g, c) <= u.g.desc[o] - freed && c in Subtree(s.g, c)
    ensures Emptying(u, o, freed + Subtree(s.g, c), t)
  {
    FirstChild(u, o, freed, s);
    StepShape(u, o, freed, s, c, t);
    StepRecords(u, freed, s, Subtree(s.g, c), t);
    StepLinks(u, o, freed, s, c, t);
  }

  lemma StepShape(u: State, o: Owner, freed: set<Handle>, s: State, c: Handle, t: State)
    requires EmptyFrom(u, o) && EmptyShape(u, o, freed, s)
    requires c in s.g.owner && Node(c) in s.g.desc && Poppable(s.links, Entry(c)) && t == FreeOf(s, c)
    requires (o.Node? ==> o.h !in Subtree(s.g, c)) && Subtree(s.g, c) <= u.g.desc[o] - freed
    requires Without(s.g, Subtree(s.g, c)) == Without(u.g, freed + Subtree(s.g, c))
    requires o in Without(s.g, Subtree(s.g, c)).lists
    requires Without(s.g, Subtree(s.g, c)).desc[o] == u.g.desc[o] - (freed + Subtree(s.g, c))
    ensures EmptyShape(u, o, freed + Subtree(s.g, c), t)
  {
    assert !OfNodes(Head(o), Subtree(s.g, c));
  }

  lemma StepRecords(u: State, freed: set<Handle>, s: State, sc: set<Handle>, t: State)
    requires EmptyRecords(u, freed, s)
    requires t.nodes == s.nodes - sc && t.locked == s.locked - sc && t.released == s.released + FreedAll(s.nodes, sc)
    ensures EmptyRecords(u, freed + sc, t)
  {
    FreedStep(u.released, u.nodes, freed, sc);
    DropTwice(u.nodes, freed, sc);
  }

  lemma StepLinks(u: State, o: Owner, freed: set<Handle>, s: State, c: Handle, t: State)
    requires EmptyFrom(u, o) && EmptyLinks(u, o, freed, s) && freed <= u.g.desc[o]
    requires Node(c) in s.g.desc && Subtree(s.g, c) <= u.g.desc[o] - freed
    requires Poppable(s.links, Entry(c)) && s.links[Entry(c)].prev == Head(o)
    requires s.links[Entry(c)].next == Head(o) || OfNodes(s.links[Entry(c)].next, u.g.desc[o] - freed)
    requires t.links == DropRecords(Popped(s.links, Entry(c)), Subtree(s.g, c))
    ensures EmptyLinks(u, o, freed + Subtree(s.g, c), t)
  {
    LinksStep(u.links, s.links, t.links, u.g.desc[o], Head(o), freed, Subtree(s.g, c), c);
  }

  /** When `o`'s list has run empty, everything that was below `o` is released. */
  lemma EmptyEnd(u: State, o: Owner, freed: set<Handle>, s: State)
    requires CoreOk(s) && Emptying(u, o, freed, s) && s.links[Head(o)].next == Head(o)
    ensures s.g.lists[o] == [] && freed == u.g.desc[o]
    ensures s.links[Head(o)] == LinkRec(Head(o), Head(o))
  {
    RingOf(s.links, s.g.lists, o);
    RingEmpty(s.links, Head(o), s.g.lists[o]);
    EmptyHasNone(s.g, s.nodes.Keys, s.enclosing.Keys, o);
    AllFreed(freed, u.g.desc[o], s.g.desc[o]);
  }

  lemma AllFreed(freed: set<Handle>, d0: set<Handle>, d: set<Handle>)
    requires freed <= d0 && d == d0 - freed && d == {}
    ensures freed == d0
  {
    forall x | x in d0
      ensures x in freed
    {
      assert x !in d;
    }
  }

  // ----- the end of mem_free -----

  /** Once its list is empty, releasing `m` completes `mem_free(m)` as started in `s0`. */
  lemma FreeDone(s0: State, m: Handle, freed: set<Handle>, s: State)
    requires m in s0.g.owner && s0.g.owner[m] in s0.g.lists && Node(m) in s0.g.desc && Poppable(s0.links, Entry(m))
    requires UnlinkOf(s0, m).g.desc[Node(m)] == s0.g.desc[Node(m)]
    requires Emptying(UnlinkOf(s0, m), Node(m), freed, s) && freed == UnlinkOf(s0, m).g.desc[Node(m)]
    ensures m in s.nodes && ReleaseOf(s, m) == FreeOf(s0, m)
  {
    var u := UnlinkOf(s0, m);
    DoneShape(s0, m, freed, s);
    DoneNodes(u, m, freed, s);
    DoneReleased(u, m, freed, s);
    FreeLinksDone(u.links, s.links, Subtree(s0.g, m), freed, m);
  }

  lemma DoneShape(s0: State, m: Handle, freed: set<Handle>, s: State)
    requires m in s0.g.owner && s0.g.owner[m] in s0.g.lists && Node(m) in s0.g.desc
    requires s.g == Without(Detach(s0.g, m), freed) && freed == s0.g.desc[Node(m)]
    ensures Without(s.g, {m}) == Without(s0.g, Subtree(s0.g, m))
  {
    WithoutWithout(Detach(s0.g, m), freed, {m});
    assert freed + {m} == Subtree(s0.g, m);
    DetachWithout(s0.g, m, Subtree(s0.g, m));
  }

  lemma DoneNodes(u: State, m: Handle, freed: set<Handle>, s: State)
    requires EmptyRecords(u, freed, s)
    ensures s.nodes - {m} == u.nodes - (freed + {m}) && s.locked - {m} == u.locked - (freed + {m})
  {
    DropTwice(u.nodes, freed, {m});
  }

  lemma DoneReleased(u: State, m: Handle, freed: set<Handle>, s: State)
    requires EmptyRecords(u, freed, s) && m in s.nodes
    ensures s.released[m := FreedBytes(s.nodes[m])] == u.released + FreedAll(u.nodes, freed + {m})
  {
    FreedStep(u.released, u.nodes, freed, {m});
    FreedOne(s.released, s.nodes, m);
  }

  // ----- the end of _mem_oscope -----

  /** Once the top scope's list is empty, popping the stack completes the close as started in `s0`. */
  lemma CloseDone(s0: State, freed: set<Handle>, s: State)
    requires TopOpen(s0) && Emptying(s0, Scope(s0.top.value), freed, s) && freed == s0.g.desc[Scope(s0.top.value)]
    requires s.links[Head(Scope(s0.top.value))] == LinkRec(Head(Scope(s0.top.value)), Head(Scope(s0.top.value)))
    ensures TopOpen(s) && PopOf(s) == CloseOf(s0)
  {
    var head := Head(Scope(s0.top.value));
    ScopeLinksDone(s0.links, s.links, freed, head);
  }
}
