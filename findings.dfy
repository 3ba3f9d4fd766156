/** `mem_malloc` and `mem_calloc` (mem.c:81-117) fill in `size` and `flags` and link the new record
    into the top scope, but never make the record's own `list` an empty ring. `calloc` leaves both of
    its pointers NULL, `malloc` leaves whatever the heap held. `mem_free` (mem.c:44) then reads
    `m->list.next` to decide whether the record still has children. */
module Findings {
  import opened MemTypes
  import opened Links
  import opened Rings
  import opened States
  import opened Effects

  /** The state a successful `mem_malloc` or `mem_calloc` leaves AS WRITTEN: exactly `AllocOf`, except
      that the new record's `list` sentinel holds `sentinel`, whatever the underlying allocator put
      there. */
  function AllocAsWrittenOf(s: State, size: nat, body: seq<Byte>, sentinel: LinkRec): State
    requires CanAlloc(s)
  {
    var t := AllocOf(s, size, body);
    t.(links := t.links[Head(Node(s.nextHandle)) := sentinel])
  }

  /** The new record's list is a well-formed empty ring exactly when the sentinel happens to point at
      itself both ways, which nothing in `mem_malloc` or `mem_calloc` arranges. */
  lemma AsWrittenRingsIff(s: State, size: nat, body: seq<Byte>, sentinel: LinkRec)
    requires ValidOk(s) && s.top.Some? && |body| == size
    ensures CanAlloc(s)
    ensures var t := AllocAsWrittenOf(s, size, body, sentinel); var head := Head(Node(s.nextHandle));
      RingsOk(t.links, t.g.lists) <==> sentinel == LinkRec(head, head)
  {
    ListStartsClosed(s, size, body);
    SentinelDecides(s, size, body, sentinel);
  }

  lemma SentinelDecides(s: State, size: nat, body: seq<Byte>, sentinel: LinkRec)
    requires CanAlloc(s)
    requires var a := AllocOf(s, size, body); var head := Head(Node(s.nextHandle));
      && RingsOk(a.links, a.g.lists) && Node(s.nextHandle) in a.g.lists && a.g.lists[Node(s.nextHandle)] == []
      && head in a.links && a.links[head] == LinkRec(head, head)
    ensures var t := AllocAsWrittenOf(s, size, body, sentinel); var head := Head(Node(s.nextHandle));
      RingsOk(t.links, t.g.lists) <==> sentinel == LinkRec(head, head)
  {
    var a := AllocOf(s, size, body);
    var t := AllocAsWrittenOf(s, size, body, sentinel);
    var head := Head(Node(s.nextHandle));
    if sentinel == LinkRec(head, head) {
      assert t.links == a.links;
    } else if RingsOk(t.links, t.g.lists) {
      RingOf(t.links, t.g.lists, Node(s.nextHandle));
      assert false;
    }
  }

  /** With `calloc`'s zero bytes in the sentinel, the loop guard of `mem_free` (mem.c:44) holds for a
      record that has no children, and the "first child" it would free is no allocation at all. */
  lemma CallocListUnset(s: State, count: nat, size: nat)
    requires ValidOk(s) && s.top.Some?
    ensures CanAlloc(s)
    ensures var t := AllocAsWrittenOf(s, count * size, Zeros(count * size), LinkRec(Null, Null));
      var h := s.nextHandle;
      && h in t.nodes && Node(h) in t.g.lists && t.g.lists[Node(h)] == []
      && t.links[Head(Node(h))].next != Head(Node(h))
      && !t.links[Head(Node(h))].next.Entry?
      && !RingsOk(t.links, t.g.lists)
  {
    AllocFirstChild(s, count * size, Zeros(count * size));
    AsWrittenRingsIff(s, count * size, Zeros(count * size), LinkRec(Null, Null));
  }

  /** The evident intent, which `NewNodeOf` models: with the sentinel self-linked, a fresh record's
      list is an empty ring, the `mem_free` loop guard is false for it, and the whole state keeps the
      invariant. */
  lemma ListStartsClosed(s: State, size: nat, body: seq<Byte>)
    requires ValidOk(s) && s.top.Some? && |body| == size
    ensures CanAlloc(s)
    ensures var t := AllocOf(s, size, body); var h := s.nextHandle;
      && ValidOk(t) && Node(h) in t.g.lists && t.g.lists[Node(h)] == []
      && Head(Node(h)) in t.links && t.links[Head(Node(h))] == LinkRec(Head(Node(h)), Head(Node(h)))
      && t.links[Head(Node(h))].next == Head(Node(h))
  {
    AllocFirstChild(s, size, body);
    AllocKeeps(s, size, body);
    var t := AllocOf(s, size, body);
    RingOf(t.links, t.g.lists, Node(s.nextHandle));
  }
}
