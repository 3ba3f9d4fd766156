/** mem.c read as a state machine over values: one thread's scope stack and the allocations it owns,
    the invariant that holds between operations, and each operation as a function from the state
    before to the state after. Addresses are handles: a scope is named by a `ScopeId`, an allocation
    by a `Handle`, and every `struct mem_link` by a `Link`. */
module States {
  import opened MemTypes
  import opened Links
  import opened Forest
  import opened Rings

  /** One thread's allocator and the memory it manages. */
  datatype State = State(
    /** mem.c `stack`: the innermost open scope. */
    top: Option<ScopeId>,
    /** The `next` field of each open scope: the scope that was on top when it was opened. */
    enclosing: map<ScopeId, Option<ScopeId>>,
    /** Every `struct mem_link`: scope sentinels, allocation sentinels and allocation links. */
    links: map<Link, LinkRec>,
    /** The live allocations: size, flags and body of each `struct mem`. */
    nodes: map<Handle, Record>,
    /** The allocations whose pages are locked with `mlock`. */
    locked: set<Handle>,
    /** For every allocation handed back to `free`, the body bytes it held at that moment. */
    released: map<Handle, seq<Byte>>,
    /** Where the next allocation is placed; addresses are never reused. */
    nextHandle: nat,
    /** The open scopes, innermost first: the chain `stack`, `stack->next`, ... */
    stack: seq<ScopeId>,
    /** The ownership forest that `links` encodes. */
    g: Graph)

  // ----- invariants -----

  /** The scope stack is the chain of `next` fields starting at `top`. */
  ghost predicate StackOk(top: Option<ScopeId>, enclosing: map<ScopeId, Option<ScopeId>>, stack: seq<ScopeId>)
  {
    && top == (if stack == [] then None else Some(stack[0]))
    && Distinct(stack)
    && (forall s :: s in enclosing <==> s in stack)
    && (forall i :: 0 <= i < |stack| - 1 ==> enclosing[stack[i]] == Some(stack[i + 1]))
    && (stack != [] ==> enclosing[stack[|stack| - 1]] == None)
  }

  /** Records hold `size` bytes, only secure records are locked, and addresses are fresh. */
  ghost predicate RecordsOk(mem: map<Handle, Record>, released: map<Handle, seq<Byte>>, locked: set<Handle>, nextHandle: nat)
  {
    && (forall h :: h in mem ==> |mem[h].body| == mem[h].size && h < nextHandle)
    && (forall h :: h in released ==> h < nextHandle && h !in mem)
    && (forall h :: h in locked <==> h in mem && IsSecure(mem[h].flags))
  }

  /** The invariant that holds throughout, also halfway through `mem_free`, when an allocation may be
      unlinked but not yet released. */
  ghost predicate CoreOk(s: State)
  {
    && StackOk(s.top, s.enclosing, s.stack)
    && RecordsOk(s.nodes, s.released, s.locked, s.nextHandle)
    && GraphOk(s.g, s.nodes.Keys, s.enclosing.Keys)
    && RingsOk(s.links, s.g.lists)
  }

  /** The invariant between calls of the public interface: besides `CoreOk`, every live allocation
      sits in some owner's list. */
  ghost predicate ValidOk(s: State)
  {
    CoreOk(s) && s.nodes.Keys == s.g.owner.Keys
  }

  // ----- what `free` receives -----

  /** The bytes that `free` receives for a record: `mem_free` zeroes a secure record's body first. */
  function FreedBytes(r: Record): (b: seq<Byte>)
    ensures |b| == |r.body|
    ensures IsSecure(r.flags) ==> forall i :: 0 <= i < |b| ==> b[i] == 0
    ensures !IsSecure(r.flags) ==> b == r.body
  {
    if IsSecure(r.flags) then Zeros(|r.body|) else r.body
  }

  /** What `free` receives for each allocation of `s`. */
  function FreedAll(mem: map<Handle, Record>, s: set<Handle>): map<Handle, seq<Byte>>
  {
    map h | h in s && h in mem :: FreedBytes(mem[h])
  }

  lemma FreedStep(released: map<Handle, seq<Byte>>, mem: map<Handle, Record>, a: set<Handle>, b: set<Handle>)
    ensures released + FreedAll(mem, a) + FreedAll(mem - a, b) == released + FreedAll(mem, a + b)
  {
    var l := released + FreedAll(mem, a) + FreedAll(mem - a, b);
    var r := released + FreedAll(mem, a + b);
    assert l.Keys == r.Keys;
  }

  lemma FreedOne(released: map<Handle, seq<Byte>>, mem: map<Handle, Record>, m: Handle)
    requires m in mem
    ensures released + FreedAll(mem, {m}) == released[m := FreedBytes(mem[m])]
  {
    assert FreedAll(mem, {m}) == map[m := FreedBytes(mem[m])];
  }

  lemma DropTwice(mem: map<Handle, Record>, a: set<Handle>, b: set<Handle>)
    ensures mem - a - b == mem - (a + b)
  {
  }

  // ----- mem_free -----

  /** The state after `mem_free(m)`: `m` and everything below it are gone, their bodies handed to
      `free`, zeroed first where secure. */
  function FreeOf(s: State, m: Handle): State
    requires m in s.g.owner && Node(m) in s.g.desc && Poppable(s.links, Entry(m))
  {
    var S := Subtree(s.g, m);
    s.(nodes := s.nodes - S, locked := s.locked - S, released := s.released + FreedAll(s.nodes, S),
       links := DropRecords(Popped(s.links, Entry(m)), S), g := Without(s.g, S))
  }

  /** The state after `link_pop(&m->link)`. */
  function UnlinkOf(s: State, m: Handle): State
    requires m in s.g.owner && s.g.owner[m] in s.g.lists && Node(m) in s.g.desc && Poppable(s.links, Entry(m))
  {
    s.(links := Popped(s.links, Entry(m)), g := Detach(s.g, m))
  }

  /** Unlinking a listed allocation keeps the invariant; the allocation keeps everything below it and
      its own list. */
  lemma UnlinkKeeps(s: State, m: Handle)
    requires CoreOk(s) && m in s.g.owner && Node(m) in s.g.desc
    ensures Poppable(s.links, Entry(m)) && s.g.owner[m] in s.g.lists
    ensures CoreOk(UnlinkOf(s, m))
    ensures var g := UnlinkOf(s, m).g;
      m !in g.owner && Node(m) in g.lists && Head(Node(m)) in UnlinkOf(s, m).links && g.desc[Node(m)] == s.g.desc[Node(m)]
    ensures UnlinkOf(s, m).g.owner.Keys == s.g.owner.Keys - {m}
  {
    RingsDetach(s.links, s.g, m);
    DetachOk(s.g, s.nodes.Keys, s.enclosing.Keys, m);
    DetachIs(s.g, m);
    RingOf(s.links, s.g.lists, Node(m));
  }

  /** The state after `mem_free` hands the unlinked, childless allocation `m` back to `free`. */
  function ReleaseOf(s: State, m: Handle): State
    requires m in s.nodes
  {
    s.(nodes := s.nodes - {m}, locked := s.locked - {m}, released := s.released[m := FreedBytes(s.nodes[m])],
       links := DropRecords(s.links, {m}), g := Without(s.g, {m}))
  }

  /** Releasing an unlinked allocation with an empty list keeps the invariant. */
  lemma ReleaseKeeps(s: State, m: Handle)
    requires CoreOk(s) && m in s.nodes && m !in s.g.owner && Node(m) in s.g.lists && s.g.lists[Node(m)] == []
    ensures CoreOk(ReleaseOf(s, m)) && s.g.desc[Node(m)] == {}
  {
    ReleaseOk(s.g, s.nodes.Keys, s.enclosing.Keys, m);
    WithoutIs(s.g, {m});
    RingsRelease(s.links, s.g, m, Without(s.g, {m}).lists);
  }

  /** An allocation that is not secure is not locked, and `free` receives its body unchanged. */
  lemma NotLocked(nodes: map<Handle, Record>, released: map<Handle, seq<Byte>>, locked: set<Handle>, nextHandle: nat, m: Handle)
    requires RecordsOk(nodes, released, locked, nextHandle) && m in nodes && !IsSecure(nodes[m].flags)
    ensures locked - {m} == locked && FreedBytes(nodes[m]) == nodes[m].body
  {
  }

  /** `mem_free` releases exactly a subtree of listed allocations, so every remaining live allocation
      is still listed. */
  lemma FreeLive(s: State, m: Handle)
    requires m in s.g.owner && Node(m) in s.g.desc && Poppable(s.links, Entry(m))
    requires s.nodes.Keys == s.g.owner.Keys
    ensures FreeOf(s, m).nodes.Keys == FreeOf(s, m).g.owner.Keys
  {
    WithoutIs(s.g, Subtree(s.g, m));
  }

  // ----- link_push -----

  /** `link_push(&p->list, ...)` can run: `p` has a list whose sentinel and first link exist. */
  predicate CanPush(s: State, p: Owner)
  {
    p in s.g.lists && Head(p) in s.links && s.links[Head(p)].next in s.links
  }

  /** Every owner with a list can take a `link_push`. */
  lemma CanPushOf(s: State, p: Owner)
    requires RingsOk(s.links, s.g.lists) && p in s.g.lists
    ensures CanPush(s, p)
  {
    RingOf(s.links, s.g.lists, p);
  }

  /** The state after `link_push(&p->list, &m->link)`: `m` becomes the first child of `p`. */
  function LinkOf(s: State, p: Owner, m: Handle): State
    requires CanPush(s, p) && Node(m) in s.g.desc
  {
    s.(links := Pushed(s.links, Head(p), Entry(m)), g := Attach(s.g, p, m))
  }

  /** Linking an unlinked allocation under a live owner outside its subtree keeps the invariant. */
  lemma LinkKeeps(s: State, p: Owner, m: Handle)
    requires CoreOk(s) && m in s.nodes && m !in s.g.owner && p in s.g.lists
    requires p != Node(m) && !(p.Node? && p.h in s.g.desc[Node(m)])
    ensures CanPush(s, p) && Node(m) in s.g.desc
    ensures CoreOk(LinkOf(s, p, m))
    ensures LinkOf(s, p, m).g.owner.Keys == s.g.owner.Keys + {m}
  {
    RingsAttach(s.links, s.g, p, m);
    LinkGraph(s, p, m);
    LinkRings(s, p, m);
  }

  lemma LinkGraph(s: State, p: Owner, m: Handle)
    requires GraphOk(s.g, s.nodes.Keys, s.enclosing.Keys) && m in s.nodes && m !in s.g.owner
    requires p != Node(m) && !(p.Node? && p.h in s.g.desc[Node(m)]) && CanPush(s, p)
    ensures Node(m) in s.g.desc
    ensures var t := LinkOf(s, p, m);
      GraphOk(t.g, t.nodes.Keys, t.enclosing.Keys) && t.g.owner.Keys == s.g.owner.Keys + {m}
  {
    AttachOk(s.g, s.nodes.Keys, s.enclosing.Keys, p, m);
    AttachOwnerKeys(s.g, p, m);
  }

  lemma LinkRings(s: State, p: Owner, m: Handle)
    requires ListsOwned(s.g) && RingsOk(s.links, s.g.lists) && m !in s.g.owner && Node(m) in s.g.desc
    requires CanPush(s, p)
    ensures var t := LinkOf(s, p, m); RingsOk(t.links, t.g.lists)
  {
    RingsAttach(s.links, s.g, p, m);
  }

  // ----- mem_malloc, mem_calloc -----

  /** The state after `malloc` or `calloc` returns the record `m` at a fresh address and `mem_malloc`
      or `mem_calloc` fills in its size and flags. Its own list is an empty ring. */
  function NewNodeOf(s: State, size: nat, body: seq<Byte>): State
  {
    var h := s.nextHandle;
    s.(nodes := s.nodes[h := Record(size, FlagNone, body)], nextHandle := h + 1,
       links := s.links[Head(Node(h)) := LinkRec(Head(Node(h)), Head(Node(h)))], g := AddOwner(s.g, Node(h)))
  }

  /** A fresh record keeps the invariant: it is live, unlinked and has nothing below it. */
  lemma NewNodeKeeps(s: State, size: nat, body: seq<Byte>)
    requires CoreOk(s) && |body| == size
    ensures var t := NewNodeOf(s, size, body); var h := s.nextHandle;
      && CoreOk(t) && h !in s.nodes && h in t.nodes && h !in t.g.owner && Node(h) in t.g.lists
      && t.g.desc[Node(h)] == {} && t.g.owner == s.g.owner && t.nodes.Keys == s.nodes.Keys + {h}
  {
    NewNodeRecords(s, size, body);
    NewNodeGraph(s, size, body);
    NewNodeRings(s, size, body);
  }

  lemma NewNodeRecords(s: State, size: nat, body: seq<Byte>)
    requires RecordsOk(s.nodes, s.released, s.locked, s.nextHandle) && |body| == size
    ensures var t := NewNodeOf(s, size, body);
      RecordsOk(t.nodes, t.released, t.locked, t.nextHandle) && s.nextHandle !in s.nodes
  {
  }

  lemma NewNodeGraph(s: State, size: nat, body: seq<Byte>)
    requires GraphOk(s.g, s.nodes.Keys, s.enclosing.Keys) && s.nextHandle !in s.nodes
    ensures var t := NewNodeOf(s, size, body); var h := s.nextHandle;
      && GraphOk(t.g, t.nodes.Keys, t.enclosing.Keys) && Node(h) !in s.g.lists
      && h in t.nodes && h !in t.g.owner && Node(h) in t.g.lists && t.g.desc[Node(h)] == {}
      && t.g.owner == s.g.owner && t.nodes.Keys == s.nodes.Keys + {h}
  {
    var h := s.nextHandle;
    AddNodeOk(s.g, s.nodes.Keys, s.enclosing.Keys, h);
    assert NewNodeOf(s, size, body).nodes.Keys == s.nodes.Keys + {h};
  }

  lemma NewNodeRings(s: State, size: nat, body: seq<Byte>)
    requires RingsOk(s.links, s.g.lists) && Node(s.nextHandle) !in s.g.lists
    ensures var t := NewNodeOf(s, size, body); RingsOk(t.links, t.g.lists)
  {
    RingsNewHead(s.links, s.g.lists, Node(s.nextHandle));
  }

  /** `mem_malloc` and `mem_calloc` can link a record into the top scope. */
  predicate CanAlloc(s: State)
  {
    s.top.Some? && CanPush(s, Scope(s.top.value))
  }

  /** A fresh record leaves the top scope's list ready for the `link_push`. */
  lemma NewNodeCanPush(s: State, size: nat, body: seq<Byte>)
    requires CanAlloc(s)
    ensures CanPush(NewNodeOf(s, size, body), Scope(s.top.value)) && Node(s.nextHandle) in NewNodeOf(s, size, body).g.desc
  {
  }

  /** The state after a successful `mem_malloc(size)` or `mem_calloc`, the new record holding `body`. */
  function AllocOf(s: State, size: nat, body: seq<Byte>): State
    requires CanAlloc(s)
  {
    LinkOf(NewNodeOf(s, size, body), Scope(s.top.value), s.nextHandle)
  }

  /** What an allocation of `body` leaves behind once it is freed again: the bytes went to `free`,
      the handle is spent and its links are gone; nothing else differs from `s`. */
  function SpentOf(s: State, body: seq<Byte>): State
  {
    s.(released := s.released[s.nextHandle := body], nextHandle := s.nextHandle + 1,
       links := DropRecords(s.links, {s.nextHandle}))
  }

  /** A successful allocation keeps the public invariant. */
  lemma AllocKeeps(s: State, size: nat, body: seq<Byte>)
    requires ValidOk(s) && s.top.Some? && |body| == size
    ensures CanAlloc(s) && ValidOk(AllocOf(s, size, body))
  {
    NewNodeKeeps(s, size, body);
    var t := NewNodeOf(s, size, body);
    assert Scope(s.top.value) in s.g.lists;
    CanPushOf(s, Scope(s.top.value));
    LinkKeeps(t, Scope(s.top.value), s.nextHandle);
  }

  /** `mem_size(ptr)`: the recorded size, and 0 for the null pointer. */
  function SizeOf(s: State, ptr: Option<Handle>): (n: nat)
    requires ptr.Some? ==> ptr.value in s.nodes
    ensures ptr.None? ==> n == 0
    ensures ptr.Some? ==> n == s.nodes[ptr.value].size
  {
    if ptr.Some? then s.nodes[ptr.value].size else 0
  }
  /** With well-formed records, `mem_size` of a live allocation is the number of bytes its body
      holds, so a caller may use exactly that many. */
  lemma SizeIsLength(s: State, h: Handle)
    requires RecordsOk(s.nodes, s.released, s.locked, s.nextHandle) && h in s.nodes
    ensures SizeOf(s, Some(h)) == |s.nodes[h].body|
  {
  }


  // ----- writes into a body and flag changes -----

  /** A change of records only, which keeps the records well formed, keeps the invariant. */
  lemma RecordsOnly(s: State, t: State)
    requires CoreOk(s) && RecordsOk(t.nodes, t.released, t.locked, t.nextHandle)
    requires t.top == s.top && t.enclosing == s.enclosing && t.stack == s.stack && t.links == s.links && t.g == s.g
    requires t.nodes.Keys == s.nodes.Keys
    ensures CoreOk(t)
  {
  }

  /** The state after `memcpy`, `strcpy` or `strncpy` fill the body of `h` with `bytes`. */
  function WriteOf(s: State, h: Handle, bytes: seq<Byte>): State
    requires h in s.nodes && |bytes| == s.nodes[h].size
  {
    s.(nodes := s.nodes[h := s.nodes[h].(body := bytes)])
  }

  lemma WriteKeeps(s: State, h: Handle, bytes: seq<Byte>)
    requires ValidOk(s) && h in s.nodes && |bytes| == s.nodes[h].size
    ensures ValidOk(WriteOf(s, h, bytes))
  {
    var t := WriteOf(s, h, bytes);
    WriteRecords(s.nodes, s.released, s.locked, s.nextHandle, h, bytes);
    RecordsOnly(s, t);
  }

  lemma WriteRecords(mem: map<Handle, Record>, released: map<Handle, seq<Byte>>, locked: set<Handle>, nextHandle: nat,
                     h: Handle, bytes: seq<Byte>)
    requires RecordsOk(mem, released, locked, nextHandle) && h in mem && |bytes| == mem[h].size
    ensures RecordsOk(mem[h := mem[h].(body := bytes)], released, locked, nextHandle)
    ensures mem[h := mem[h].(body := bytes)].Keys == mem.Keys
  {
  }

  // ----- mem_steal -----

  /** `mem_steal(m, p)` can run: `m` is listed and its link can be popped, after which `p`'s list
      can take a `link_push`. */
  predicate CanSteal(s: State, m: Handle, p: Handle)
  {
    && m in s.g.owner && s.g.owner[m] in s.g.lists && Node(m) in s.g.desc && Poppable(s.links, Entry(m))
    && CanPush(UnlinkOf(s, m), Node(p))
  }

  /** The state after `mem_steal(m, p)`: `link_pop` from the old owner, `link_push` onto `p`. */
  function StealOf(s: State, m: Handle, p: Handle): State
    requires CanSteal(s, m, p)
  {
    LinkOf(UnlinkOf(s, m), Node(p), m)
  }

  /** Reparenting a live allocation under a live allocation outside its subtree keeps the
      invariant, and the same allocations stay listed. */
  lemma StealKeeps(s: State, m: Handle, p: Handle)
    requires CoreOk(s) && m in s.g.owner && Node(m) in s.g.desc && p in s.nodes && p !in Subtree(s.g, m)
    ensures CanSteal(s, m, p) && CoreOk(StealOf(s, m, p))
    ensures StealOf(s, m, p).g.owner.Keys == s.g.owner.Keys
  {
    UnlinkKeeps(s, m);
    StealTarget(s, m, p);
    LinkKeeps(UnlinkOf(s, m), Node(p), m);
    StealOwners(s, m, p);
  }

  /** After the unlink, the new parent still has a list, and it is neither `m` nor below `m`. */
  lemma StealTarget(s: State, m: Handle, p: Handle)
    requires GraphOk(s.g, s.nodes.Keys, s.enclosing.Keys) && m in s.g.owner && Node(m) in s.g.desc
    requires Poppable(s.links, Entry(m)) && p in s.nodes && p !in Subtree(s.g, m)
    ensures s.g.owner[m] in s.g.lists
    ensures var u := UnlinkOf(s, m);
      m in u.nodes && Node(p) in u.g.lists && Node(p) != Node(m) && !(Node(p).Node? && Node(p).h in u.g.desc[Node(m)])
  {
    DetachIs(s.g, m);
  }

  lemma StealOwners(s: State, m: Handle, p: Handle)
    requires CanSteal(s, m, p)
    ensures StealOf(s, m, p).g.owner.Keys == s.g.owner.Keys
  {
    assert StealOf(s, m, p).g.owner == (s.g.owner - {m})[m := Node(p)];
  }

  // ----- mem_flags -----

  /** The state after `mlock` succeeds and `m->flags |= mem_flag_secure`. */
  function SecureOf(s: State, h: Handle): State
    requires h in s.nodes
  {
    s.(nodes := s.nodes[h := s.nodes[h].(flags := s.nodes[h].flags | FlagSecure)], locked := s.locked + {h})
  }

  lemma SecureKeeps(s: State, h: Handle)
    requires ValidOk(s) && h in s.nodes
    ensures ValidOk(SecureOf(s, h))
  {
    SecureRecords(s.nodes, s.released, s.locked, s.nextHandle, h);
    RecordsOnly(s, SecureOf(s, h));
  }

  lemma SecureRecords(mem: map<Handle, Record>, released: map<Handle, seq<Byte>>, locked: set<Handle>, nextHandle: nat, h: Handle)
    requires RecordsOk(mem, released, locked, nextHandle) && h in mem
    ensures RecordsOk(mem[h := mem[h].(flags := mem[h].flags | FlagSecure)], released, locked + {h}, nextHandle)
    ensures mem[h := mem[h].(flags := mem[h].flags | FlagSecure)].Keys == mem.Keys
  {
    assert IsSecure(mem[h].flags | FlagSecure);
  }

  // ----- _mem_iscope, _mem_oscope -----

  /** The state after `_mem_iscope(&id)`: `id` is pushed on the stack with an empty, self-linked list,
      and remembers the previous top as its `next`. */
  function IScopeOf(s: State, id: ScopeId): State
  {
    var head := Head(Scope(id));
    s.(top := Some(id), enclosing := s.enclosing[id := s.top], stack := [id] + s.stack,
       links := s.links[head := LinkRec(head, head)], g := AddOwner(s.g, Scope(id)))
  }

  /** Opening a scope that is not open keeps the public invariant. */
  lemma IScopeKeeps(s: State, id: ScopeId)
    requires ValidOk(s) && id !in s.enclosing
    ensures ValidOk(IScopeOf(s, id))
  {
    PushStack(s.top, s.enclosing, s.stack, id);
    IScopeGraph(s, id);
    IScopeRings(s, id);
  }

  lemma IScopeGraph(s: State, id: ScopeId)
    requires GraphOk(s.g, s.nodes.Keys, s.enclosing.Keys) && id !in s.enclosing
    ensures var t := IScopeOf(s, id);
      GraphOk(t.g, t.nodes.Keys, t.enclosing.Keys) && t.g.owner == s.g.owner && Scope(id) !in s.g.lists
  {
    AddScopeOk(s.g, s.nodes.Keys, s.enclosing.Keys, id);
    assert IScopeOf(s, id).enclosing.Keys == s.enclosing.Keys + {id};
  }

  lemma IScopeRings(s: State, id: ScopeId)
    requires RingsOk(s.links, s.g.lists) && Scope(id) !in s.g.lists
    ensures var t := IScopeOf(s, id); RingsOk(t.links, t.g.lists)
  {
    RingsNewHead(s.links, s.g.lists, Scope(id));
  }

  lemma PushStack(top: Option<ScopeId>, enclosing: map<ScopeId, Option<ScopeId>>, stack: seq<ScopeId>, id: ScopeId)
    requires StackOk(top, enclosing, stack) && id !in enclosing
    ensures StackOk(Some(id), enclosing[id := top], [id] + stack)
  {
    var st := [id] + stack;
    var en := enclosing[id := top];
    forall i, j | 0 <= i < j < |st|
      ensures st[i] != st[j]
    {
      assert st[j] == stack[j - 1];
      if i > 0 {
        assert st[i] == stack[i - 1];
      }
    }
    forall i | 0 <= i < |st| - 1
      ensures en[st[i]] == Some(st[i + 1])
    {
      assert st[i + 1] == stack[i];
      if i > 0 {
        assert st[i] == stack[i - 1] && stack[i - 1] != id;
      }
    }
    forall x
      ensures x in en <==> x in st
    {
      if x in stack {
        var i :| 0 <= i < |stack| && stack[i] == x;
        assert st[i + 1] == x;
      }
    }
  }

  /** `stack` names an open scope at the top of the stack. */
  predicate TopOpen(s: State)
  {
    s.top.Some? && s.top.value in s.enclosing && Scope(s.top.value) in s.g.desc && s.stack != []
  }

  /** The top of a nonempty stack is an open scope with a list and a sentinel. */
  lemma TopOpenOf(s: State)
    requires CoreOk(s) && s.top.Some?
    ensures TopOpen(s) && Scope(s.top.value) in s.g.lists && Head(Scope(s.top.value)) in s.links
  {
    RingOf(s.links, s.g.lists, Scope(s.top.value));
  }

  /** The state after `stack = stack->next`, once the top scope's list is empty. */
  function PopOf(s: State): State
    requires TopOpen(s)
  {
    var id := s.top.value;
    s.(top := s.enclosing[id], enclosing := s.enclosing - {id}, stack := s.stack[1..], g := DropOwner(s.g, Scope(id)))
  }

  /** Closing the top scope once its list is empty keeps the invariant and releases nothing. */
  lemma PopKeeps(s: State)
    requires CoreOk(s) && s.top.Some? && s.g.lists[Scope(s.top.value)] == []
    ensures TopOpen(s) && CoreOk(PopOf(s)) && PopOf(s).g.owner == s.g.owner
  {
    PopStack(s.top, s.enclosing, s.stack);
    PopGraph(s);
    PopRings(s);
  }

  lemma PopGraph(s: State)
    requires GraphOk(s.g, s.nodes.Keys, s.enclosing.Keys) && s.top.Some? && s.top.value in s.enclosing
    requires s.stack != [] && s.g.lists[Scope(s.top.value)] == []
    ensures TopOpen(s)
    ensures var t := PopOf(s); GraphOk(t.g, t.nodes.Keys, t.enclosing.Keys) && t.g.owner == s.g.owner
  {
    var id := s.top.value;
    DropScopeOk(s.g, s.nodes.Keys, s.enclosing.Keys, id);
    assert (s.enclosing - {id}).Keys == s.enclosing.Keys - {id};
  }

  lemma PopRings(s: State)
    requires RingsOk(s.links, s.g.lists) && TopOpen(s)
    ensures var t := PopOf(s); RingsOk(t.links, t.g.lists)
  {
    var t := PopOf(s);
    forall o | o in t.g.lists
      ensures Ring(t.links, Head(o), t.g.lists[o])
    {
      RingOf(s.links, s.g.lists, o);
    }
  }

  lemma PopStack(top: Option<ScopeId>, enclosing: map<ScopeId, Option<ScopeId>>, stack: seq<ScopeId>)
    requires StackOk(top, enclosing, stack) && top.Some?
    ensures top.value in enclosing && stack != [] && stack[0] == top.value
    ensures StackOk(enclosing[top.value], enclosing - {top.value}, stack[1..])
  {
    var id := top.value;
    var st := stack[1..];
    var en := enclosing - {id};
    forall x
      ensures x in en <==> x in st
    {
      if x in stack && x != id {
        var i :| 0 <= i < |stack| && stack[i] == x;
        assert i > 0 && st[i - 1] == x;
      }
      if x in st {
        var i :| 0 <= i < |st| && st[i] == x;
        assert stack[i + 1] == x && stack[0] == id;
      }
    }
    forall i | 0 <= i < |st| - 1
      ensures en[st[i]] == Some(st[i + 1])
    {
      assert st[i] == stack[i + 1] && stack[i + 1] != stack[0] && st[i + 1] == stack[i + 2];
    }
    if st != [] {
      assert st[|st| - 1] == stack[|stack| - 1] && stack[|stack| - 1] != stack[0];
    }
  }

  /** The state after `_mem_oscope` closes the top scope: everything below it is released, its list
      is empty again, and the enclosing scope becomes the top. */
  function CloseOf(s: State): State
    requires TopOpen(s)
  {
    var id := s.top.value;
    var D := s.g.desc[Scope(id)];
    var head := Head(Scope(id));
    s.(top := s.enclosing[id], enclosing := s.enclosing - {id}, stack := s.stack[1..],
       nodes := s.nodes - D, locked := s.locked - D, released := s.released + FreedAll(s.nodes, D),
       links := DropRecords(s.links, D)[head := LinkRec(head, head)], g := DropOwner(Without(s.g, D), Scope(id)))
  }

  /** `_mem_oscope(scope)`: nothing happens unless `scope` is the top of a nonempty stack. */
  function OScopeOf(s: State, scope: Option<ScopeId>): State
    requires s.top.Some? ==> TopOpen(s)
  {
    if scope != s.top || s.top.None? then s else CloseOf(s)
  }

  /** Closing a scope releases allocations that were all listed, so every remaining live allocation is
      still listed. */
  lemma CloseLive(s: State)
    requires TopOpen(s) && s.nodes.Keys == s.g.owner.Keys
    ensures CloseOf(s).nodes.Keys == CloseOf(s).g.owner.Keys
  {
    WithoutIs(s.g, s.g.desc[Scope(s.top.value)]);
  }
}
