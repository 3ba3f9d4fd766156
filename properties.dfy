/** What mem.c promises its callers, stated on the value model: where a new allocation goes, what
    `mem_free` and `_mem_oscope` release and keep, what `mem_steal` moves, and the round trips
    between them. */
module Properties {
  import opened MemTypes
  import opened Links
  import opened Forest
  import opened Rings
  import opened States
  import opened CStrings

  // ----- mem_malloc / mem_calloc followed by mem_free -----

  /** Freeing an allocation right after making it gives back the state it was made in, except that
      its address is used up and its body was handed to `free`. */
  lemma AllocFreeRoundTrip(s: State, size: nat, body: seq<Byte>)
    requires ValidOk(s) && s.top.Some? && |body| == size
    ensures CanAlloc(s)
    ensures var t := AllocOf(s, size, body); var h := s.nextHandle;
      && h in t.g.owner && Node(h) in t.g.desc && Poppable(t.links, Entry(h))
      && FreeOf(t, h) == SpentOf(s, body)
  {
    var h := s.nextHandle;
    var top := Scope(s.top.value);
    TopOpenOf(s);
    CanPushOf(s, top);
    RingOf(s.links, s.g.lists, top);
    AllocOwned(s, size, body);
    ListedBelow(s, top);
    RoundTripLinks(s, size, body);
    RoundTripRecords(s, size, body);
    AttachFreshUndo(s.g, s.nodes.Keys, s.enclosing.Keys, top, h);
    RoundTripGlue(s, size, body);
  }

  lemma RoundTripGlue(s: State, size: nat, body: seq<Byte>)
    requires CanAlloc(s)
    requires var t := AllocOf(s, size, body); var h := s.nextHandle;
      && h in t.g.owner && Node(h) in t.g.desc && Subtree(t.g, h) == {h} && Poppable(t.links, Entry(h))
      && DropRecords(Popped(t.links, Entry(h)), {h}) == DropRecords(s.links, {h})
      && NewNodeOf(s, size, body).nodes - {h} == s.nodes && s.locked - {h} == s.locked
      && s.released + FreedAll(NewNodeOf(s, size, body).nodes, {h}) == s.released[h := body]
      && Without(Attach(AddOwner(s.g, Node(h)), Scope(s.top.value), h), {h}) == s.g
    ensures var t := AllocOf(s, size, body); var h := s.nextHandle;
      FreeOf(t, h) == SpentOf(s, body)
  {
  }

  /** Everything listed is live, so it sits below the next fresh address. */
  lemma ListedBelow(s: State, o: Owner)
    requires ListsOwned(s.g) && s.g.owner.Keys <= s.nodes.Keys && RecordsOk(s.nodes, s.released, s.locked, s.nextHandle)
    requires o in s.g.lists
    ensures forall x :: x in s.g.lists[o] ==> x in s.nodes && x < s.nextHandle
  {
  }

  /** A new allocation hangs from the top scope, with nothing below it. */
  lemma AllocOwned(s: State, size: nat, body: seq<Byte>)
    requires CanAlloc(s) && s.g.desc.Keys == s.g.lists.Keys
    ensures var t := AllocOf(s, size, body); var h := s.nextHandle;
      h in t.g.owner && t.g.owner[h] == Scope(s.top.value) && Node(h) in t.g.desc && Subtree(t.g, h) == {h}
  {
  }

  lemma RoundTripLinks(s: State, size: nat, body: seq<Byte>)
    requires CanAlloc(s) && Ring(s.links, Head(Scope(s.top.value)), s.g.lists[Scope(s.top.value)])
    requires forall x :: x in s.g.lists[Scope(s.top.value)] ==> x < s.nextHandle
    ensures var t := AllocOf(s, size, body); var h := s.nextHandle;
      && Poppable(t.links, Entry(h))
      && DropRecords(Popped(t.links, Entry(h)), {h}) == DropRecords(s.links, {h})
  {
    var h := s.nextHandle;
    var head := Head(Scope(s.top.value));
    var l1 := NewNodeOf(s, size, body).links;
    assert l1[head] == s.links[head];
    if s.g.lists[Scope(s.top.value)] != [] {
      assert s.g.lists[Scope(s.top.value)][0] in s.g.lists[Scope(s.top.value)];
    }
    PopUndoesPush(l1, head, Entry(h));
    DropStored(s.links[Head(Node(h)) := LinkRec(Head(Node(h)), Head(Node(h)))], {h}, Entry(h), LinkRec(head, l1[head].next));
    DropStored(s.links, {h}, Head(Node(h)), LinkRec(Head(Node(h)), Head(Node(h))));
  }

  lemma RoundTripRecords(s: State, size: nat, body: seq<Byte>)
    requires RecordsOk(s.nodes, s.released, s.locked, s.nextHandle)
    ensures var t := NewNodeOf(s, size, body); var h := s.nextHandle;
      && t.nodes - {h} == s.nodes && s.locked - {h} == s.locked
      && s.released + FreedAll(t.nodes, {h}) == s.released[h := body]
  {
    var t := NewNodeOf(s, size, body);
    var h := s.nextHandle;
    FreedOne(s.released, t.nodes, h);
    assert !IsSecure(FlagNone);
  }

  // ----- writes into a new allocation -----

  /** Filling the body of a new allocation is the same as making it with that body. */
  lemma WriteAfterAlloc(s: State, size: nat, junk: seq<Byte>, bytes: seq<Byte>)
    requires CanAlloc(s) && |bytes| == size
    ensures var t := AllocOf(s, size, junk); var h := s.nextHandle;
      h in t.nodes && t.nodes[h].size == size && t.nodes[h].body == junk
      && WriteOf(t, h, bytes) == AllocOf(s, size, bytes)
  {
  }

  /** `mem_vasprintf`'s failure path: writing into the new buffer and then freeing it leaves the state
      the allocation started from, except that the written bytes are released and the handle is spent. */
  lemma WriteFreeRoundTrip(s: State, size: nat, junk: seq<Byte>, bytes: seq<Byte>)
    requires ValidOk(s) && s.top.Some? && |bytes| == size
    ensures CanAlloc(s)
    ensures var t := WriteOf(AllocOf(s, size, junk), s.nextHandle, bytes); var h := s.nextHandle;
      && h in t.g.owner && Node(h) in t.g.desc && Poppable(t.links, Entry(h)) && t.nodes.Keys == t.g.owner.Keys
      && FreeOf(t, h) == SpentOf(s, bytes)
  {
    AllocKeeps(s, size, bytes);
    AllocFreeRoundTrip(s, size, bytes);
    WriteAfterAlloc(s, size, junk, bytes);
  }

  /** A second write into a body replaces the first. */
  lemma WriteTwice(s: State, h: Handle, b1: seq<Byte>, b2: seq<Byte>)
    requires h in s.nodes && |b1| == s.nodes[h].size && |b2| == s.nodes[h].size
    ensures h in WriteOf(s, h, b1).nodes && WriteOf(s, h, b1).nodes[h].body == b1
    ensures WriteOf(WriteOf(s, h, b1), h, b2) == WriteOf(s, h, b2)
  {
  }

  /** The two stores of `mem_strndup` into a buffer of `n + 1` bytes, `strncpy` and then the NUL at
      index `n`, leave exactly the bytes `StrNDupBytes` describes. */
  lemma StrNDupWrites(s0: State, h: Handle, str: seq<Byte>, n: nat)
    requires h in s0.nodes && s0.nodes[h].size == n + 1 && |s0.nodes[h].body| == n + 1
    requires n <= |str| || HasNul(str)
    ensures var copied := StrNCpy(str, n) + s0.nodes[h].body[n..]; var s1 := WriteOf(s0, h, copied);
      && |copied| == n + 1 && h in s1.nodes && s1.nodes[h].body == copied && s1.nodes[h].size == n + 1
      && WriteOf(s1, h, copied[n := 0]) == WriteOf(s0, h, StrNDupBytes(str, n))
  {
    var copied := StrNCpy(str, n) + s0.nodes[h].body[n..];
    StrNDupStores(str, n, s0.nodes[h].body);
    WriteTwice(s0, h, copied, copied[n := 0]);
  }
}
