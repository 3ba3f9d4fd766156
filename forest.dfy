/** The ownership forest that the intrusive lists of mem.c encode: every live allocation sits in exactly
    one owner's child list, an owner is a scope or another allocation, and no allocation lies below
    itself. */
module Forest {
  import opened MemTypes

  /** `lists[o]` is the child list of owner `o`, most recent first; `owner[h]` is the owner whose list
      holds `h`; `desc[o]` is the set of allocations strictly below `o`. */
  datatype Graph = Graph(lists: map<Owner, seq<Handle>>, owner: map<Handle, Owner>, desc: map<Owner, set<Handle>>)

  /** The forest invariant for the live allocations `live` and the open scopes `scopes`. An allocation
      that is live but has no owner is one that `mem_free` has unlinked and not yet released. */
  ghost predicate GraphOk(g: Graph, live: set<Handle>, scopes: set<ScopeId>)
  {
    ShapeOk(g, live, scopes) && OwnersBelow(g) && ParentsBelow(g) && Acyclic(g, live) && Transitive(g)
  }

  ghost predicate ShapeOk(g: Graph, live: set<Handle>, scopes: set<ScopeId>)
  {
    Keyed(g, live, scopes) && Listed(g)
  }

  /** One list per open scope and per live allocation; only live allocations are listed. */
  ghost predicate Keyed(g: Graph, live: set<Handle>, scopes: set<ScopeId>)
  {
    && (forall o :: o in g.lists <==> (o.Scope? && o.id in scopes) || (o.Node? && o.h in live))
    && g.desc.Keys == g.lists.Keys
    && g.owner.Keys <= live
  }

  /** Every listed allocation is in exactly one list, once, and `owner` says which. */
  ghost predicate Listed(g: Graph)
  {
    ListsDistinct(g) && ListsOwned(g) && OwnersList(g)
  }

  ghost predicate ListsDistinct(g: Graph)
  {
    forall o :: o in g.lists ==> Distinct(g.lists[o])
  }

  ghost predicate ListsOwned(g: Graph)
  {
    forall o, h :: o in g.lists && h in g.lists[o] ==> h in g.owner && g.owner[h] == o
  }

  ghost predicate OwnersList(g: Graph)
  {
    forall h :: h in g.owner ==> g.owner[h] in g.lists && h in g.lists[g.owner[h]]
  }

  /** Only listed allocations are below anything, and each is below its owner. */
  ghost predicate OwnersBelow(g: Graph)
  {
    DescOwned(g) && OwnerAbove(g)
  }

  ghost predicate DescOwned(g: Graph)
  {
    forall o :: o in g.desc ==> g.desc[o] <= g.owner.Keys
  }

  ghost predicate OwnerAbove(g: Graph)
  {
    forall h :: h in g.owner ==> g.owner[h] in g.desc && h in g.desc[g.owner[h]]
  }

  /** Whatever is below `o` hangs from `o` or from something else below `o`. */
  ghost predicate ParentsBelow(g: Graph)
  {
    forall o, x :: o in g.desc && x in g.desc[o] && x in g.owner ==>
      g.owner[x] == o || (g.owner[x].Node? && g.owner[x].h in g.desc[o])
  }

  /** No allocation is below itself. */
  ghost predicate Acyclic(g: Graph, live: set<Handle>)
  {
    forall h :: h in live ==> Node(h) in g.desc && h !in g.desc[Node(h)]
  }

  /** Being below is transitive. */
  ghost predicate Transitive(g: Graph)
  {
    forall o, x :: o in g.desc && x in g.desc[o] ==> Node(x) in g.desc && g.desc[Node(x)] <= g.desc[o]
  }

  /** An allocation together with everything below it. */
  function Subtree(g: Graph, m: Handle): set<Handle>
    requires Node(m) in g.desc
  {
    {m} + g.desc[Node(m)]
  }

  /** The elements of `hs` outside `d`, in their order. */
  function Filter(hs: seq<Handle>, d: set<Handle>): (r: seq<Handle>)
    ensures forall x :: x in r <==> x in hs && x !in d
    ensures |r| <= |hs|
  {
    if hs == [] then [] else (if hs[0] in d then [] else [hs[0]]) + Filter(hs[1..], d)
  }

  /** `link_pop(&m->link)` on the forest: `m` leaves its owner's list and stops being below anything. */
  function Detach(g: Graph, m: Handle): Graph
    requires m in g.owner && g.owner[m] in g.lists && Node(m) in g.desc
  {
    var s := Subtree(g, m);
    Graph(g.lists[g.owner[m] := Filter(g.lists[g.owner[m]], {m})],
          g.owner - {m},
          map o | o in g.desc :: if m in g.desc[o] then g.desc[o] - s else g.desc[o])
  }

  /** `link_push(&p->list, &m->link)` on the forest: `m` becomes the first child of `p`, and `m` with its
      subtree comes below `p` and every owner above `p`. */
  function Attach(g: Graph, p: Owner, m: Handle): Graph
    requires p in g.lists && Node(m) in g.desc
  {
    var s := Subtree(g, m);
    Graph(g.lists[p := [m] + g.lists[p]],
          g.owner[m := p],
          map o | o in g.desc :: if o == p || (p.Node? && p.h in g.desc[o]) then g.desc[o] + s else g.desc[o])
  }

  /** The forest with the allocations `d` released: their own lists disappear, every other list keeps
      its remaining children in order. */
  function Without(g: Graph, d: set<Handle>): Graph
  {
    Graph(map o | o in g.lists && !(o.Node? && o.h in d) :: Filter(g.lists[o], d),
          map h | h in g.owner && h !in d :: g.owner[h],
          map o | o in g.desc && !(o.Node? && o.h in d) :: g.desc[o] - d)
  }

  /** A new owner with an empty list. */
  function AddOwner(g: Graph, o: Owner): Graph
  {
    Graph(g.lists[o := []], g.owner, g.desc[o := {}])
  }

  /** An owner whose list is empty goes away. */
  function DropOwner(g: Graph, o: Owner): Graph
  {
    Graph(g.lists - {o}, g.owner, g.desc - {o})
  }

  // ----- Filter -----

  lemma {:induction false} FilterDistinct(hs: seq<Handle>, d: set<Handle>)
    requires Distinct(hs)
    ensures Distinct(Filter(hs, d))
  {
    if hs != [] {
      FilterDistinct(hs[1..], d);
      var t := Filter(hs[1..], d);
      assert hs[0] !in t;
      var r := Filter(hs, d);
      forall i, j | 0 <= i < j < |r| ensures r[i] != r[j] {
        if hs[0] !in d {
          assert r == [hs[0]] + t;
          if i > 0 {
            assert r[i] == t[i - 1] && r[j] == t[j - 1];
          } else {
            assert r[j] == t[j - 1] && r[j] in t;
          }
        } else {
          assert r == t;
        }
      }
    }
  }

  lemma {:induction false} FilterFilter(hs: seq<Handle>, a: set<Handle>, b: set<Handle>)
    ensures Filter(Filter(hs, a), b) == Filter(hs, a + b)
  {
    if hs != [] {
      var h, t := hs[0], hs[1..];
      FilterFilter(t, a, b);
      assert Filter(hs, a + b) == (if h in a + b then [] else [h]) + Filter(t, a + b);
      if h in a {
        assert Filter(hs, a) == Filter(t, a);
      } else {
        var f := Filter(hs, a);
        assert f == [h] + Filter(t, a);
        assert f[0] == h && f[1..] == Filter(t, a);
        assert Filter(f, b) == (if h in b then [] else [h]) + Filter(f[1..], b);
      }
    }
  }

  lemma {:induction false} FilterNothing(hs: seq<Handle>, d: set<Handle>)
    requires forall x :: x in hs ==> x !in d
    ensures Filter(hs, d) == hs
  {
    if hs != [] {
      FilterNothing(hs[1..], d);
      assert hs == [hs[0]] + hs[1..];
    }
  }

  /** In a list without repeats, filtering out one element is removing it at its position. */
  lemma {:induction false} FilterRemoveAt(hs: seq<Handle>, i: nat)
    requires Distinct(hs) && i < |hs|
    ensures Filter(hs, {hs[i]}) == hs[..i] + hs[i + 1..]
  {
    if i == 0 {
      FilterNothing(hs[1..], {hs[0]});
    } else {
      FilterRemoveAt(hs[1..], i - 1);
      assert hs[1..][i - 1] == hs[i];
      assert hs[..i] + hs[i + 1..] == [hs[0]] + (hs[1..][..i - 1] + hs[1..][i..]);
    }
  }

  // ----- cardinalities -----

  lemma SubsetCard(a: set<Handle>, b: set<Handle>)
    requires a <= b
    ensures |a| <= |b|
    ensures a != b ==> |a| < |b|
  {
    assert b == a + (b - a);
    if a != b {
      var x :| x in b && x !in a;
      assert x in b - a;
    }
  }

  // ----- facts about a well-formed forest -----

  /** Something below `o` means `o` has a child: following owners upward from any descendant reaches
      one of `o`'s children. */
  lemma {:induction false} HasChild(g: Graph, live: set<Handle>, scopes: set<ScopeId>, o: Owner, y: Handle)
    requires GraphOk(g, live, scopes) && o in g.desc && y in g.desc[o]
    ensures g.lists[o] != []
    decreases |g.desc[o]| - |g.desc[Node(y)]|
  {
    SubsetCard(g.desc[Node(y)], g.desc[o]);
    if g.owner[y] != o {
      var p := g.owner[y].h;
      assert y in g.desc[Node(p)];
      SubsetCard(g.desc[Node(y)], g.desc[Node(p)]);
      HasChild(g, live, scopes, o, p);
    }
  }

  /** Two owners that share a descendant are nested: one is below (or is) the other. */
  lemma {:induction false} Nested(g: Graph, live: set<Handle>, scopes: set<ScopeId>, o: Owner, m: Handle, y: Handle)
    requires GraphOk(g, live, scopes) && o in g.desc && m in live
    requires y in g.desc[o] && y in g.desc[Node(m)]
    ensures o == Node(m) || m in g.desc[o] || (o.Node? && o.h in g.desc[Node(m)])
    decreases |g.desc[o]| - |g.desc[Node(y)]|
  {
    SubsetCard(g.desc[Node(y)], g.desc[o]);
    var a := g.owner[y];
    if a != o && a != Node(m) {
      var p := a.h;
      assert y in g.desc[Node(p)];
      SubsetCard(g.desc[Node(y)], g.desc[Node(p)]);
      Nested(g, live, scopes, o, m, p);
    }
  }

  /** What `Detach(g, m)` is, entry by entry. */
  ghost predicate IsDetach(g: Graph, m: Handle, w: Graph)
  {
    && m in g.owner && g.owner[m] in g.lists && Node(m) in g.desc
    && w.lists == g.lists[g.owner[m] := Filter(g.lists[g.owner[m]], {m})]
    && w.owner == g.owner - {m}
    && w.desc.Keys == g.desc.Keys
    && (forall o :: o in w.desc ==> w.desc[o] == if m in g.desc[o] then g.desc[o] - Subtree(g, m) else g.desc[o])
  }

  /** Helper: `Detach` entry by entry, for callers that reason about one entry at a time. */
  lemma DetachIs(g: Graph, m: Handle)
    requires m in g.owner && g.owner[m] in g.lists && Node(m) in g.desc
    ensures IsDetach(g, m, Detach(g, m))
  {
  }

  /** Unlinking an allocation keeps the forest well formed; what was below it stays below it. */
  lemma DetachOk(g: Graph, live: set<Handle>, scopes: set<ScopeId>, m: Handle)
    requires GraphOk(g, live, scopes) && m in g.owner
    ensures GraphOk(Detach(g, m), live, scopes)
    ensures Detach(g, m).desc[Node(m)] == g.desc[Node(m)]
  {
    var w := Detach(g, m);
    DetachIs(g, m);
    AboveIsOutside(g, live, scopes, m);
    DetachKeyed(g, live, scopes, m, w);
    DetachDistinct(g, m, w);
    DetachOwned(g, m, w);
    DetachOwnersList(g, m, w);
    DetachDescOwned(g, m, w);
    DetachOwnerAbove(g, m, w);
    DetachParents(g, m, w);
    DetachTransitive(g, live, scopes, m);
  }

  /** No owner above `m` lies in `m`'s own subtree. */
  lemma AboveIsOutside(g: Graph, live: set<Handle>, scopes: set<ScopeId>, m: Handle)
    requires GraphOk(g, live, scopes) && m in live
    ensures forall o :: o in g.desc && m in g.desc[o] ==> !(o.Node? && o.h in Subtree(g, m))
  {
    forall o | o in g.desc && m in g.desc[o]
      ensures !(o.Node? && o.h in Subtree(g, m))
    {
    }
  }

  lemma DetachKeyed(g: Graph, live: set<Handle>, scopes: set<ScopeId>, m: Handle, w: Graph)
    requires Keyed(g, live, scopes) && Acyclic(g, live) && IsDetach(g, m, w)
    ensures Keyed(w, live, scopes) && Acyclic(w, live)
    ensures w.desc[Node(m)] == g.desc[Node(m)]
  {
  }

  lemma DetachDistinct(g: Graph, m: Handle, w: Graph)
    requires ListsDistinct(g) && OwnersList(g) && IsDetach(g, m, w)
    ensures ListsDistinct(w)
  {
    FilterDistinct(g.lists[g.owner[m]], {m});
  }

  lemma DetachOwned(g: Graph, m: Handle, w: Graph)
    requires ListsOwned(g) && OwnersList(g) && IsDetach(g, m, w)
    ensures ListsOwned(w)
  {
    forall o, h | o in w.lists && h in w.lists[o]
      ensures h in w.owner && w.owner[h] == o
    {
      assert h in g.lists[o] && h != m;
    }
  }

  lemma DetachOwnersList(g: Graph, m: Handle, w: Graph)
    requires OwnersList(g) && IsDetach(g, m, w)
    ensures OwnersList(w)
  {
    forall h | h in w.owner
      ensures w.owner[h] in w.lists && h in w.lists[w.owner[h]]
    {
      assert h in g.lists[g.owner[h]] && h != m;
    }
  }

  lemma DetachDescOwned(g: Graph, m: Handle, w: Graph)
    requires DescOwned(g) && Acyclic(g, {m}) && IsDetach(g, m, w)
    ensures DescOwned(w)
  {
    forall o | o in w.desc
      ensures w.desc[o] <= w.owner.Keys
    {
    }
  }

  lemma DetachOwnerAbove(g: Graph, m: Handle, w: Graph)
    requires OwnerAbove(g) && ParentsBelow(g) && IsDetach(g, m, w)
    requires forall o :: o in g.desc && m in g.desc[o] ==> !(o.Node? && o.h in Subtree(g, m))
    ensures OwnerAbove(w)
  {
    forall h | h in w.owner
      ensures w.owner[h] in w.desc && h in w.desc[w.owner[h]]
    {
    }
  }

  lemma DetachParents(g: Graph, m: Handle, w: Graph)
    requires OwnerAbove(g) && ParentsBelow(g) && Transitive(g) && IsDetach(g, m, w)
    ensures ParentsBelow(w)
  {
    forall o, x | o in w.desc && x in w.desc[o] && x in w.owner
      ensures w.owner[x] == o || (w.owner[x].Node? && w.owner[x].h in w.desc[o])
    {
      ChildOfSubtree(g, m, x);
    }
  }

  /** A child of something in `m`'s subtree is in it too. */
  lemma ChildOfSubtree(g: Graph, m: Handle, x: Handle)
    requires OwnerAbove(g) && Transitive(g) && Node(m) in g.desc && x in g.owner
    ensures g.owner[x].Node? && g.owner[x].h in Subtree(g, m) ==> x in Subtree(g, m)
  {
    var a := g.owner[x];
    if a.Node? && a.h in g.desc[Node(m)] {
      assert g.desc[a] <= g.desc[Node(m)];
    }
  }

  lemma DetachTransitive(g: Graph, live: set<Handle>, scopes: set<ScopeId>, m: Handle)
    requires GraphOk(g, live, scopes) && m in g.owner
    ensures Transitive(Detach(g, m))
  {
    var g' := Detach(g, m);
    var s := Subtree(g, m);
    forall o, x | o in g'.desc && x in g'.desc[o]
      ensures Node(x) in g'.desc && g'.desc[Node(x)] <= g'.desc[o]
    {
      if m in g.desc[o] && m !in g.desc[Node(x)] {
        forall y | y in g.desc[Node(x)]
          ensures y !in s
        {
          if y in g.desc[Node(m)] {
            Nested(g, live, scopes, Node(x), m, y);
          }
        }
      }
    }
  }

  /** Linking a detached allocation under an owner outside its subtree keeps the forest well formed;
      afterwards it is below exactly that owner and the owners above it. */
  lemma AttachOk(g: Graph, live: set<Handle>, scopes: set<ScopeId>, p: Owner, m: Handle)
    requires GraphOk(g, live, scopes) && m in live && m !in g.owner && p in g.lists
    requires p != Node(m) && !(p.Node? && p.h in g.desc[Node(m)])
    ensures GraphOk(Attach(g, p, m), live, scopes)
    ensures forall o :: o in Attach(g, p, m).desc ==>
              (m in Attach(g, p, m).desc[o] <==> o == p || (p.Node? && p.h in g.desc[o]))
  {
    AttachShape(g, live, scopes, p, m);
    AttachOwners(g, live, scopes, p, m);
    AttachParents(g, live, scopes, p, m);
    AttachAcyclic(g, live, scopes, p, m);
    AttachIs(g, p, m);
    AttachTransitive(g, p, m, Attach(g, p, m));
  }

  lemma AttachShape(g: Graph, live: set<Handle>, scopes: set<ScopeId>, p: Owner, m: Handle)
    requires GraphOk(g, live, scopes) && m in live && m !in g.owner && p in g.lists
    ensures ShapeOk(Attach(g, p, m), live, scopes)
  {
    AttachKeyed(g, live, scopes, p, m);
    AttachListed(g, live, scopes, p, m);
  }

  lemma AttachKeyed(g: Graph, live: set<Handle>, scopes: set<ScopeId>, p: Owner, m: Handle)
    requires Keyed(g, live, scopes) && m in live && p in g.lists
    ensures Keyed(Attach(g, p, m), live, scopes)
  {
    assert Node(m) in g.desc;
    var w := Attach(g, p, m);
    AttachIs(g, p, m);
    assert w.lists.Keys == g.lists.Keys && w.owner.Keys == g.owner.Keys + {m};
  }

  lemma AttachListed(g: Graph, live: set<Handle>, scopes: set<ScopeId>, p: Owner, m: Handle)
    requires Listed(g) && m !in g.owner && p in g.lists && Node(m) in g.desc
    ensures Listed(Attach(g, p, m))
  {
    var w := Attach(g, p, m);
    AttachIs(g, p, m);
    assert m !in g.lists[p];
    assert Distinct(w.lists[p]);
    assert ListsOwned(w) by {
      forall o, h | o in w.lists && h in w.lists[o] ensures h in w.owner && w.owner[h] == o {
        if o != p || h != m {
          assert h in g.lists[o];
        }
      }
    }
  }

  lemma AttachOwners(g: Graph, live: set<Handle>, scopes: set<ScopeId>, p: Owner, m: Handle)
    requires GraphOk(g, live, scopes) && m in live && m !in g.owner && p in g.lists
    ensures OwnersBelow(Attach(g, p, m))
    ensures forall o :: o in Attach(g, p, m).desc ==>
              (m in Attach(g, p, m).desc[o] <==> o == p || (p.Node? && p.h in g.desc[o]))
  {
  }

  lemma AttachParents(g: Graph, live: set<Handle>, scopes: set<ScopeId>, p: Owner, m: Handle)
    requires ParentsBelow(g) && DescOwned(g) && m !in g.owner && p in g.lists && Node(m) in g.desc
    ensures ParentsBelow(Attach(g, p, m))
  {
    var w := Attach(g, p, m);
    AttachIs(g, p, m);
    forall o, x | o in w.desc && x in w.desc[o] && x in w.owner
      ensures w.owner[x] == o || (w.owner[x].Node? && w.owner[x].h in w.desc[o])
    {
      if x in g.desc[o] {
        assert x != m && w.owner[x] == g.owner[x];
      } else if x != m {
        assert x in g.desc[Node(m)] && w.owner[x] == g.owner[x];
      }
    }
  }

  lemma AttachAcyclic(g: Graph, live: set<Handle>, scopes: set<ScopeId>, p: Owner, m: Handle)
    requires GraphOk(g, live, scopes) && m in live && m !in g.owner && p in g.lists
    requires p != Node(m) && !(p.Node? && p.h in g.desc[Node(m)])
    ensures Acyclic(Attach(g, p, m), live)
  {
    var w := Attach(g, p, m);
    AttachIs(g, p, m);
    forall h | h in live
      ensures Node(h) in w.desc && h !in w.desc[Node(h)]
    {
      if h in g.desc[Node(m)] {
        assert g.desc[Node(h)] <= g.desc[Node(m)];
      }
    }
  }

  /** What `Attach(g, p, m)` is, entry by entry. */
  ghost predicate IsAttach(g: Graph, p: Owner, m: Handle, w: Graph)
  {
    && p in g.lists && Node(m) in g.desc
    && w.lists == g.lists[p := [m] + g.lists[p]]
    && w.owner == g.owner[m := p]
    && w.desc.Keys == g.desc.Keys
    && (forall o :: o in w.desc ==>
          w.desc[o] == if o == p || (p.Node? && p.h in g.desc[o]) then g.desc[o] + Subtree(g, m) else g.desc[o])
  }

  /** Helper: `Attach` entry by entry, for callers that reason about one entry at a time. */
  lemma AttachIs(g: Graph, p: Owner, m: Handle)
    requires p in g.lists && Node(m) in g.desc
    ensures IsAttach(g, p, m, Attach(g, p, m))
  {
  }

  /** Helper: attaching makes exactly `m` newly owned. */
  lemma AttachOwnerKeys(g: Graph, p: Owner, m: Handle)
    requires p in g.lists && Node(m) in g.desc
    ensures Attach(g, p, m).owner.Keys == g.owner.Keys + {m}
  {
  }

  lemma AttachTransitive(g: Graph, p: Owner, m: Handle, w: Graph)
    requires Transitive(g) && IsAttach(g, p, m, w)
    requires p != Node(m) && !(p.Node? && p.h in g.desc[Node(m)])
    ensures Transitive(w)
  {
    forall o, x | o in w.desc && x in w.desc[o]
      ensures Node(x) in w.desc && w.desc[Node(x)] <= w.desc[o]
    {
      if x in g.desc[o] {
        if p.Node? && (p.h == x || p.h in g.desc[Node(x)]) {
          assert p.h in g.desc[o];
        }
      } else if x != m {
        assert g.desc[Node(x)] <= g.desc[Node(m)];
      }
    }
  }

  /** What `Without(g, d)` is, entry by entry. */
  ghost predicate IsWithout(g: Graph, d: set<Handle>, w: Graph)
  {
    && (forall o :: o in w.lists <==> o in g.lists && !(o.Node? && o.h in d))
    && (forall o :: o in w.lists ==> w.lists[o] == Filter(g.lists[o], d))
    && (forall h :: h in w.owner <==> h in g.owner && h !in d)
    && (forall h :: h in w.owner ==> w.owner[h] == g.owner[h])
    && (forall o :: o in w.desc <==> o in g.desc && !(o.Node? && o.h in d))
    && (forall o :: o in w.desc ==> w.desc[o] == g.desc[o] - d)
  }

  /** Helper: `Without` entry by entry. */
  lemma WithoutIs(g: Graph, d: set<Handle>)
    ensures IsWithout(g, d, Without(g, d))
  {
  }

  /** `d` holds everything below each of its members. */
  ghost predicate Closed(g: Graph, d: set<Handle>)
  {
    forall x :: x in d ==> Node(x) in g.desc && g.desc[Node(x)] <= d
  }

  /** Releasing a set of allocations that is closed downward keeps the forest well formed. */
  lemma WithoutOk(g: Graph, live: set<Handle>, scopes: set<ScopeId>, d: set<Handle>, w: Graph)
    requires GraphOk(g, live, scopes) && Closed(g, d) && IsWithout(g, d, w)
    ensures GraphOk(w, live - d, scopes)
  {
    WithoutKeyed(g, live, scopes, d, w);
    WithoutDistinct(g, d, w);
    WithoutMembers(g, d, w);
    WithoutOwners(g, d, w);
    WithoutSubsets(g, d, w);
    WithoutAcyclic(g, live, d, w);
    WithoutTransitive(g, d, w);
    WithoutParents(g, d, w);
  }

  lemma WithoutKeyed(g: Graph, live: set<Handle>, scopes: set<ScopeId>, d: set<Handle>, w: Graph)
    requires Keyed(g, live, scopes) && IsWithout(g, d, w)
    ensures Keyed(w, live - d, scopes)
  {
  }

  lemma WithoutDistinct(g: Graph, d: set<Handle>, w: Graph)
    requires ListsDistinct(g) && IsWithout(g, d, w)
    ensures ListsDistinct(w)
  {
    forall o | o in w.lists
      ensures Distinct(w.lists[o])
    {
      FilterDistinct(g.lists[o], d);
    }
  }

  lemma WithoutMembers(g: Graph, d: set<Handle>, w: Graph)
    requires ListsOwned(g) && IsWithout(g, d, w)
    ensures ListsOwned(w)
  {
    forall o, h | o in w.lists && h in w.lists[o]
      ensures h in w.owner && w.owner[h] == o
    {
      assert h in g.lists[o] && h !in d;
    }
  }

  lemma WithoutOwners(g: Graph, d: set<Handle>, w: Graph)
    requires Listed(g) && OwnersBelow(g) && Closed(g, d) && IsWithout(g, d, w)
    ensures OwnersList(w) && OwnerAbove(w)
  {
    forall h | h in w.owner
      ensures w.owner[h] in w.lists && h in w.lists[w.owner[h]]
      ensures w.owner[h] in w.desc && h in w.desc[w.owner[h]]
    {
      var a := g.owner[h];
      if a.Node? && a.h in d {
        assert h in g.desc[a];
      }
      assert h in g.lists[a];
    }
  }

  lemma WithoutSubsets(g: Graph, d: set<Handle>, w: Graph)
    requires OwnersBelow(g) && IsWithout(g, d, w)
    ensures DescOwned(w)
  {
  }

  lemma WithoutAcyclic(g: Graph, live: set<Handle>, d: set<Handle>, w: Graph)
    requires Acyclic(g, live) && IsWithout(g, d, w)
    ensures Acyclic(w, live - d)
  {
  }

  lemma WithoutTransitive(g: Graph, d: set<Handle>, w: Graph)
    requires Transitive(g) && IsWithout(g, d, w)
    ensures Transitive(w)
  {
  }

  lemma WithoutParents(g: Graph, d: set<Handle>, w: Graph)
    requires OwnersBelow(g) && ParentsBelow(g) && Closed(g, d) && IsWithout(g, d, w)
    ensures ParentsBelow(w)
  {
    forall o, x | o in w.desc && x in w.desc[o] && x in w.owner
      ensures w.owner[x] == o || (w.owner[x].Node? && w.owner[x].h in w.desc[o])
    {
    }
  }

  /** Releasing in two steps is releasing the union. */
  lemma WithoutWithout(g: Graph, a: set<Handle>, b: set<Handle>)
    ensures Without(Without(g, a), b) == Without(g, a + b)
  {
    WithoutIs(g, a);
    WithoutIs(Without(g, a), b);
    WithoutIs(g, a + b);
    WithoutCompose(g, a, b, Without(g, a), Without(Without(g, a), b));
    WithoutUnique(g, a + b, Without(Without(g, a), b), Without(g, a + b));
  }

  lemma WithoutCompose(g: Graph, a: set<Handle>, b: set<Handle>, w1: Graph, w2: Graph)
    requires IsWithout(g, a, w1) && IsWithout(w1, b, w2)
    ensures IsWithout(g, a + b, w2)
  {
    forall o | o in w2.lists
      ensures w2.lists[o] == Filter(g.lists[o], a + b)
    {
      FilterFilter(g.lists[o], a, b);
    }
  }

  lemma WithoutUnique(g: Graph, d: set<Handle>, w1: Graph, w2: Graph)
    requires IsWithout(g, d, w1) && IsWithout(g, d, w2)
    ensures w1 == w2
  {
    assert w1.lists == w2.lists;
    assert w1.owner == w2.owner;
    assert w1.desc == w2.desc;
  }

  /** Unlinking `m` first changes nothing about what remains once `m`'s subtree is released. */
  lemma DetachWithout(g: Graph, m: Handle, d: set<Handle>)
    requires m in g.owner && g.owner[m] in g.lists && Node(m) in g.desc
    requires Subtree(g, m) <= d
    ensures Without(Detach(g, m), d) == Without(g, d)
  {
    var l := Without(Detach(g, m), d);
    var r := Without(g, d);
    var o0 := g.owner[m];
    FilterFilter(g.lists[o0], {m}, d);
    assert {m} + d == d;
    assert l.lists.Keys == r.lists.Keys;
    assert l.lists == r.lists;
    assert l.owner == r.owner;
    assert l.desc.Keys == r.desc.Keys;
    forall o | o in r.desc
      ensures l.desc[o] == r.desc[o]
    {
    }
    assert l.desc == r.desc;
  }

  lemma AddScopeOk(g: Graph, live: set<Handle>, scopes: set<ScopeId>, s: ScopeId)
    requires GraphOk(g, live, scopes) && s !in scopes
    ensures GraphOk(AddOwner(g, Scope(s)), live, scopes + {s})
  {
    AddOwnerListed(g, live, scopes, Scope(s));
    AddOwnerBelow(g, live, scopes, Scope(s));
    AddScopeKeyed(g, live, scopes, s);
  }

  lemma AddNodeOk(g: Graph, live: set<Handle>, scopes: set<ScopeId>, h: Handle)
    requires GraphOk(g, live, scopes) && h !in live
    ensures GraphOk(AddOwner(g, Node(h)), live + {h}, scopes)
    ensures h !in AddOwner(g, Node(h)).owner && AddOwner(g, Node(h)).desc[Node(h)] == {}
  {
    AddOwnerListed(g, live, scopes, Node(h));
    AddOwnerBelow(g, live, scopes, Node(h));
    AddNodeKeyed(g, live, scopes, h);
  }

  lemma AddOwnerListed(g: Graph, live: set<Handle>, scopes: set<ScopeId>, o: Owner)
    requires GraphOk(g, live, scopes) && o !in g.lists
    ensures Listed(AddOwner(g, o))
  {
  }

  lemma AddOwnerBelow(g: Graph, live: set<Handle>, scopes: set<ScopeId>, o: Owner)
    requires GraphOk(g, live, scopes) && o !in g.lists
    ensures OwnersBelow(AddOwner(g, o)) && ParentsBelow(AddOwner(g, o)) && Transitive(AddOwner(g, o))
  {
  }

  lemma AddScopeKeyed(g: Graph, live: set<Handle>, scopes: set<ScopeId>, s: ScopeId)
    requires GraphOk(g, live, scopes) && s !in scopes
    ensures Keyed(AddOwner(g, Scope(s)), live, scopes + {s}) && Acyclic(AddOwner(g, Scope(s)), live)
  {
  }

  lemma AddNodeKeyed(g: Graph, live: set<Handle>, scopes: set<ScopeId>, h: Handle)
    requires GraphOk(g, live, scopes) && h !in live
    ensures Keyed(AddOwner(g, Node(h)), live + {h}, scopes) && Acyclic(AddOwner(g, Node(h)), live + {h})
  {
  }

  /** An owner whose list is empty has nothing below it. */
  lemma EmptyHasNone(g: Graph, live: set<Handle>, scopes: set<ScopeId>, o: Owner)
    requires GraphOk(g, live, scopes) && o in g.lists && g.lists[o] == []
    ensures g.desc[o] == {}
  {
    if y :| y in g.desc[o] {
      HasChild(g, live, scopes, o, y);
    }
  }

  /** A scope whose list is empty can be closed: the forest stays well formed without it. */
  lemma DropScopeOk(g: Graph, live: set<Handle>, scopes: set<ScopeId>, s: ScopeId)
    requires GraphOk(g, live, scopes) && s in scopes && g.lists[Scope(s)] == []
    ensures g.desc[Scope(s)] == {}
    ensures GraphOk(DropOwner(g, Scope(s)), live, scopes - {s})
  {
    EmptyHasNone(g, live, scopes, Scope(s));
    DropKeyed(g, live, scopes, s);
    DropListed(g, Scope(s));
    DropBelow(g, Scope(s));
  }

  lemma DropKeyed(g: Graph, live: set<Handle>, scopes: set<ScopeId>, s: ScopeId)
    requires Keyed(g, live, scopes) && Acyclic(g, live)
    ensures Keyed(DropOwner(g, Scope(s)), live, scopes - {s}) && Acyclic(DropOwner(g, Scope(s)), live)
  {
  }

  lemma DropListed(g: Graph, o: Owner)
    requires Listed(g) && o in g.lists && g.lists[o] == []
    ensures Listed(DropOwner(g, o))
  {
  }

  lemma DropBelow(g: Graph, o: Owner)
    requires OwnersList(g) && OwnersBelow(g) && ParentsBelow(g) && Transitive(g)
    requires o.Scope? && o in g.lists && g.lists[o] == []
    ensures OwnersBelow(DropOwner(g, o)) && ParentsBelow(DropOwner(g, o)) && Transitive(DropOwner(g, o))
  {
  }

  /** One step of a teardown loop over the children of `o`: of what was below `o` at the start (`D0`),
      `freed` is released, and now the first child's subtree goes too. That subtree lies inside what
      is left, never contains `o` itself, and releasing in steps is releasing the union. */
  lemma ChildStep(g1: Graph, g: Graph, o: Owner, D0: set<Handle>, freed: set<Handle>)
    requires ListsOwned(g) && OwnersBelow(g) && Transitive(g) && o in g.lists && o in g.desc && g.lists[o] != []
    requires freed <= D0 && g.desc[o] == D0 - freed && g == Without(g1, freed)
    requires o.Node? ==> o.h !in g.owner
    ensures g.lists[o][0] in g.owner && g.owner[g.lists[o][0]] == o && Node(g.lists[o][0]) in g.desc
    ensures forall h :: h in g.lists[o] ==> h in D0 - freed
    ensures Subtree(g, g.lists[o][0]) <= D0 - freed
    ensures o.Node? ==> o.h !in Subtree(g, g.lists[o][0])
    ensures Without(g, Subtree(g, g.lists[o][0])) == Without(g1, freed + Subtree(g, g.lists[o][0]))
    ensures o in Without(g, Subtree(g, g.lists[o][0])).lists
    ensures Without(g, Subtree(g, g.lists[o][0])).desc[o] == D0 - (freed + Subtree(g, g.lists[o][0]))
  {
    var c := g.lists[o][0];
    ChildBelow(g, o);
    var sc := Subtree(g, c);
    var w := Without(g, sc);
    WithoutIs(g, sc);
    assert o in w.lists && o in w.desc;
    WithoutWithout(g1, freed, sc);
  }

  /** The first child of `o` is owned by `o`, and it and everything below it are below `o`. */
  lemma ChildBelow(g: Graph, o: Owner)
    requires ListsOwned(g) && OwnersBelow(g) && Transitive(g) && o in g.lists && o in g.desc && g.lists[o] != []
    ensures g.lists[o][0] in g.owner && g.owner[g.lists[o][0]] == o && Node(g.lists[o][0]) in g.desc
    ensures forall h :: h in g.lists[o] ==> h in g.desc[o]
    ensures Subtree(g, g.lists[o][0]) <= g.desc[o] && Subtree(g, g.lists[o][0]) <= g.owner.Keys
  {
    assert g.lists[o][0] in g.lists[o];
    forall h | h in g.lists[o]
      ensures h in g.desc[o]
    {
      assert h in g.owner && g.owner[h] == o;
    }
  }

  /** An unlinked allocation whose list is empty has nothing below it and can be released. */
  lemma ReleaseOk(g: Graph, live: set<Handle>, scopes: set<ScopeId>, m: Handle)
    requires GraphOk(g, live, scopes) && m in live && m !in g.owner && g.lists[Node(m)] == []
    ensures g.desc[Node(m)] == {}
    ensures GraphOk(Without(g, {m}), live - {m}, scopes)
    ensures forall o :: o in Without(g, {m}).lists ==> Without(g, {m}).lists[o] == g.lists[o]
  {
    EmptyHasNone(g, live, scopes, Node(m));
    WithoutIs(g, {m});
    WithoutOk(g, live, scopes, {m}, Without(g, {m}));
    ReleaseLists(g, m, Without(g, {m}));
  }

  lemma ReleaseLists(g: Graph, m: Handle, w: Graph)
    requires ListsOwned(g) && m !in g.owner && IsWithout(g, {m}, w)
    ensures forall o :: o in w.lists ==> w.lists[o] == g.lists[o]
  {
    forall o | o in w.lists
      ensures w.lists[o] == g.lists[o]
    {
      assert o in g.lists && w.lists[o] == Filter(g.lists[o], {m});
      NotListed(g, m, o);
      FilterNothing(g.lists[o], {m});
    }
  }

  /** An allocation without an owner is in no list. */
  lemma NotListed(g: Graph, m: Handle, o: Owner)
    requires ListsOwned(g) && m !in g.owner && o in g.lists
    ensures forall x :: x in g.lists[o] ==> x !in {m}
  {
  }

  /** Filtering by two sets that agree on the list's elements gives the same list. */
  lemma {:induction false} FilterSame(hs: seq<Handle>, a: set<Handle>, b: set<Handle>)
    requires forall x :: x in hs ==> (x in a <==> x in b)
    ensures Filter(hs, a) == Filter(hs, b)
  {
    if hs != [] {
      FilterSame(hs[1..], a, b);
    }
  }

  /** Releasing nothing changes nothing. */
  lemma WithoutEmpty(g: Graph)
    ensures Without(g, {}) == g
  {
    var w := Without(g, {});
    WithoutIs(g, {});
    forall o | o in g.lists
      ensures w.lists[o] == g.lists[o]
    {
      FilterNothing(g.lists[o], {});
    }
    assert w.lists == g.lists;
    assert w.owner == g.owner;
    assert w.desc.Keys == g.desc.Keys;
    forall o | o in g.desc
      ensures w.desc[o] == g.desc[o]
    {
      assert w.desc[o] == g.desc[o] - {};
    }
    assert w.desc == g.desc;
  }

  /** Releasing the subtree of a listed allocation `m` changes no list but its owner's, from which
      exactly `m` disappears. */
  lemma SubtreeLists(g: Graph, m: Handle, w: Graph)
    requires ListsOwned(g) && ParentsBelow(g) && m in g.owner && Node(m) in g.desc
    requires IsWithout(g, Subtree(g, m), w)
    ensures forall o :: o in w.lists ==> w.lists[o] == if o == g.owner[m] then Filter(g.lists[o], {m}) else g.lists[o]
  {
    var S := Subtree(g, m);
    forall o | o in w.lists
      ensures w.lists[o] == if o == g.owner[m] then Filter(g.lists[o], {m}) else g.lists[o]
    {
      var hs := g.lists[o];
      forall x | x in hs
        ensures x in S <==> x == m
      {
        assert g.owner[x] == o;
      }
      if o == g.owner[m] {
        FilterSame(hs, S, {m});
      } else {
        FilterNothing(hs, S);
      }
    }
  }

  /** Releasing everything below a scope changes no other owner's list. */
  lemma ScopeLists(g: Graph, s: ScopeId, w: Graph)
    requires ListsOwned(g) && ParentsBelow(g) && Scope(s) in g.desc
    requires IsWithout(g, g.desc[Scope(s)], w)
    ensures forall o :: o in w.lists && o != Scope(s) ==> w.lists[o] == g.lists[o]
  {
    var S := g.desc[Scope(s)];
    forall o | o in w.lists && o != Scope(s)
      ensures w.lists[o] == g.lists[o]
    {
      var hs := g.lists[o];
      forall x | x in hs
        ensures x !in S
      {
        assert g.owner[x] == o;
      }
      FilterNothing(hs, S);
    }
  }

  /** Releasing a fresh allocation right after attaching it gives back the forest it started from. */
  lemma AttachFreshUndo(g: Graph, live: set<Handle>, scopes: set<ScopeId>, p: Owner, h: Handle)
    requires GraphOk(g, live, scopes) && h !in live && p in g.lists
    ensures Without(Attach(AddOwner(g, Node(h)), p, h), {h}) == g
  {
    assert Node(h) !in g.lists && h !in g.owner;
    assert forall o :: o in g.desc ==> h !in g.desc[o];
    assert forall o :: o in g.lists ==> h !in g.lists[o];
    FreshUndo(g, p, h);
  }

  lemma FreshUndo(g: Graph, p: Owner, h: Handle)
    requires Node(h) !in g.lists && g.desc.Keys == g.lists.Keys && h !in g.owner && p in g.lists
    requires forall o :: o in g.desc ==> h !in g.desc[o]
    requires forall o :: o in g.lists ==> h !in g.lists[o]
    ensures Without(Attach(AddOwner(g, Node(h)), p, h), {h}) == g
  {
    FreshLists(g, p, h);
    FreshDesc(g, p, h);
    FreshOwner(g, p, h);
  }

  lemma FreshOwner(g: Graph, p: Owner, h: Handle)
    requires h !in g.owner && p in g.lists
    ensures Without(Attach(AddOwner(g, Node(h)), p, h), {h}).owner == g.owner
  {
  }

  lemma FreshLists(g: Graph, p: Owner, h: Handle)
    requires Node(h) !in g.lists && p in g.lists
    requires forall o :: o in g.lists ==> h !in g.lists[o]
    ensures Without(Attach(AddOwner(g, Node(h)), p, h), {h}).lists == g.lists
  {
    var b := Attach(AddOwner(g, Node(h)), p, h);
    var w := Without(b, {h});
    forall o | o in g.lists
      ensures o in w.lists && w.lists[o] == g.lists[o]
    {
      assert o in b.lists && w.lists[o] == Filter(b.lists[o], {h});
      FreshEntry(g.lists[o], h, o == p);
    }
    assert w.lists.Keys == g.lists.Keys;
  }

  /** Filtering a fresh allocation out of a list that does not hold it, or that holds it only at the
      front, gives back the list. */
  lemma FreshEntry(hs: seq<Handle>, h: Handle, front: bool)
    requires h !in hs
    ensures Filter(if front then [h] + hs else hs, {h}) == hs
  {
    FilterNothing(hs, {h});
    assert ([h] + hs)[1..] == hs;
  }

  lemma FreshDesc(g: Graph, p: Owner, h: Handle)
    requires Node(h) !in g.desc && g.desc.Keys == g.lists.Keys && p in g.lists
    requires forall o :: o in g.desc ==> h !in g.desc[o]
    ensures Without(Attach(AddOwner(g, Node(h)), p, h), {h}).desc == g.desc
  {
    var w := Without(Attach(AddOwner(g, Node(h)), p, h), {h});
    forall o | o in g.desc
      ensures w.desc[o] == g.desc[o]
    {
    }
  }
}
