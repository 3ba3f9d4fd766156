/** mem.c as one thread's allocator object: each function of mem.c is a method that performs the
    stores of the C code on the state and is proved to produce the state its value model describes. */
module Allocator {
  import opened MemTypes
  import opened Links
  import opened Forest
  import opened Rings
  import opened States
  import opened Teardown
  import opened Properties
  import opened CStrings

  class Allocator {
    /** Everything mem.c reads or writes: the scope stack, the link records and the allocations. */
    var st: State

    /** The invariant that also holds halfway through `mem_free`. */
    ghost predicate Core()
      reads this
    {
      CoreOk(st)
    }

    /** The invariant between calls: besides `Core`, every live allocation is listed. */
    ghost predicate Valid()
      reads this
    {
      ValidOk(st)
    }

    /** A thread that has not opened a scope yet: `stack == NULL` and nothing is allocated. */
    constructor ()
      ensures Valid() && st.top == None && st.stack == [] && st.nodes == map[] && st.released == map[]
    {
      st := State(None, map[], map[], map[], {}, map[], 0, [], Graph(map[], map[], map[]));
    }

    // ----- link_push, link_pop -----

    /** `link_push(list, item)`: the four stores of mem.c. */
    method LinkPush(list: Link, item: Link)
      requires list in st.links && st.links[list].next in st.links
      modifies this
      ensures st == old(st.(links := Pushed(st.links, list, item)))
    {
      var first := st.links[list].next;
      // item->next = list->next; item->prev = list;
      st := st.(links := st.links[item := LinkRec(list, first)]);
      // list->next->prev = item;
      st := st.(links := st.links[first := st.links[first].(prev := item)]);
      // list->next = item;
      st := st.(links := st.links[list := st.links[list].(next := item)]);
    }

    /** `link_pop(item)`: the two stores of mem.c. */
    method LinkPop(item: Link)
      requires Poppable(st.links, item)
      modifies this
      ensures st == old(st.(links := Popped(st.links, item)))
    {
      var p := st.links[item].prev;
      var n := st.links[item].next;
      // item->prev->next = item->next;
      st := st.(links := st.links[p := st.links[p].(next := n)]);
      // item->next->prev = item->prev;
      st := st.(links := st.links[n := st.links[n].(prev := p)]);
    }

    // ----- mem_free -----

    /** `mem_free(m)`: unlink `m`, free its first child while its list is nonempty, zero and unlock
        it if it is secure, and hand it back to `free`. */
    method Free(m: Handle)
      requires Core() && m in st.g.owner && Node(m) in st.g.desc
      modifies this
      decreases st.g.owner.Keys
      ensures Core() && old(Poppable(st.links, Entry(m)) && st.g.owner[m] in st.g.lists)
      ensures st == old(FreeOf(st, m))
    {
      ghost var s0 := st;
      Unlink(m);
      ghost var u := st;
      EmptyStart(u, Node(m));
      ghost var freed: set<Handle> := {};
      while st.links[Head(Node(m))].next != Head(Node(m))
        invariant Core() && Emptying(u, Node(m), freed, st)
        decreases u.g.desc[Node(m)] - freed
      {
        EmptyNext(u, Node(m), freed, st);
        var c := st.links[Head(Node(m))].next.h;
        ghost var sp := st;
        Free(c);
        EmptyStep(u, Node(m), freed, sp, c, st);
        freed := freed + Subtree(sp.g, c);
      }
      EmptyEnd(u, Node(m), freed, st);
      FreeDone(s0, m, freed, st);
      Release(m);
    }

    /** `link_pop(&m->link)` at the start of `mem_free`: `m` leaves its owner's list and stops being
        below anything, and everything below it stays below it. */
    method Unlink(m: Handle)
      requires Core() && m in st.g.owner && Node(m) in st.g.desc
      modifies this
      ensures Core() && old(Poppable(st.links, Entry(m)) && st.g.owner[m] in st.g.lists)
      ensures st == old(UnlinkOf(st, m))
      ensures m !in st.g.owner && m in st.nodes && Node(m) in st.g.lists && Node(m) in st.g.desc && Head(Node(m)) in st.links
      ensures st.g.desc[Node(m)] == old(st.g.desc[Node(m)]) && st.g.owner.Keys == old(st.g.owner.Keys) - {m}
    {
      UnlinkKeeps(st, m);
      LinkPop(Entry(m));
      st := st.(g := Detach(st.g, m));
    }

    /** The end of `mem_free`: zero and unlock a secure record, then `free(m)`. */
    method Release(m: Handle)
      requires Core() && m in st.nodes && m !in st.g.owner && Node(m) in st.g.lists && st.g.lists[Node(m)] == []
      modifies this
      ensures Core()
      ensures st == old(ReleaseOf(st, m))
    {
      ReleaseKeeps(st, m);
      var rec := st.nodes[m];
      var locked := st.locked;
      // if (m->flags & mem_flag_secure) { memset(m->body, 0, m->size); munlock(...); }
      if IsSecure(rec.flags) {
        rec := rec.(body := Zeros(rec.size));
        locked := locked - {m};
      } else {
        NotLocked(st.nodes, st.released, st.locked, st.nextHandle, m);
      }
      // free(m)
      st := st.(nodes := st.nodes - {m}, locked := locked, released := st.released[m := rec.body],
                links := DropRecords(st.links, {m}), g := Without(st.g, {m}));
    }
 
    // ----- _mem_iscope, _mem_oscope -----

    /** `_mem_iscope(scope)`: a null `scope` gives the all-zero scope and changes nothing; otherwise
        `scope` gets an empty list, remembers the current top as its `next` and becomes the top. The
        result is a copy of `*scope`. */
    method IScope(scope: Option<ScopeId>) returns (r: ScopeValue)
      requires Valid() && (scope.Some? ==> scope.value !in st.enclosing)
      modifies this
      ensures Valid()
      ensures scope.None? ==> r == ZeroScope && st == old(st)
      ensures scope.Some? ==> st == old(IScopeOf(st, scope.value))
      ensures scope.Some? ==> r == ScopeValue(LinkRec(Head(Scope(scope.value)), Head(Scope(scope.value))), old(st.top))
    {
      if scope.None? {
        return ZeroScope;
      }
      var id := scope.value;
      IScopeKeeps(st, id);
      var head := Head(Scope(id));
      // scope->list.prev = &scope->list; scope->list.next = &scope->list;
      st := st.(links := st.links[head := LinkRec(head, head)], g := AddOwner(st.g, Scope(id)));
      // scope->next = stack;
      st := st.(enclosing := st.enclosing[id := st.top]);
      // stack = scope;
      st := st.(top := Some(id), stack := [id] + st.stack);
      r := ScopeValue(st.links[head], st.enclosing[id]);
    }

    /** `_mem_oscope(scope)`: unless `scope` is the top of a nonempty stack nothing happens;
        otherwise the first child of the top scope is freed while its list is nonempty, and the
        enclosing scope becomes the top. */
    method OScope(scope: Option<ScopeId>)
      requires Valid()
      modifies this
      ensures Valid() && old(st.top.Some? ==> TopOpen(st))
      ensures st == old(OScopeOf(st, scope))
    {
      if st.top.Some? {
        TopOpenOf(st);
      }
      if scope != st.top || st.top.None? {
        return;
      }
      ghost var s0 := st;
      var id := st.top.value;
      EmptyStart(s0, Scope(id));
      ghost var freed: set<Handle> := {};
      while st.links[Head(Scope(id))].next != Head(Scope(id))
        invariant Core() && Emptying(s0, Scope(id), freed, st)
        decreases s0.g.desc[Scope(id)] - freed
      {
        EmptyNext(s0, Scope(id), freed, st);
        var c := st.links[Head(Scope(id))].next.h;
        ghost var sp := st;
        Free(c);
        EmptyStep(s0, Scope(id), freed, sp, c, st);
        freed := freed + Subtree(sp.g, c);
      }
      EmptyEnd(s0, Scope(id), freed, st);
      CloseDone(s0, freed, st);
      PopKeeps(st);
      CloseLive(s0);
      // stack = stack->next;
      st := st.(top := st.enclosing[id], enclosing := st.enclosing - {id}, stack := st.stack[1..],
                g := DropOwner(st.g, Scope(id)));
    }
 
    // ----- mem_malloc, mem_calloc, mem_realloc(NULL, ...), mem_new -----

    /** The common part of `mem_malloc` and `mem_calloc` once the underlying allocator returned a
        record at a fresh address: fill in size and flags, self-link the record's own list (a store
        mem.c omits; `Findings.AllocAsWrittenOf` models the code as written) and push the record onto
        the top scope. */
    method Place(size: nat, body: seq<Byte>) returns (h: Handle)
      requires Valid() && st.top.Some? && |body| == size
      modifies this
      ensures Valid() && old(CanAlloc(st)) && h == old(st.nextHandle)
      ensures st == old(AllocOf(st, size, body))
    {
      AllocKeeps(st, size, body);
      NewNodeCanPush(st, size, body);
      h := st.nextHandle;
      // m = malloc(...) or calloc(...) at a fresh address; m->size = size; m->flags = mem_flag_none;
      // unlike mem.c, the new record's own list is also made an empty ring (see Findings)
      st := NewNodeOf(st, size, body);
      // link_push(&stack->list, &m->link);
      LinkPush(Head(Scope(st.top.value)), Entry(h));
      st := st.(g := Attach(st.g, Scope(st.top.value), h));
    }

    /** `mem_malloc(size)`: null without an open scope or when `malloc` fails (`ok` false);
        otherwise a fresh record whose body is whatever `malloc` left there (`junk`). */
    method Malloc(size: nat, ok: bool, junk: seq<Byte>) returns (r: Option<Handle>)
      requires Valid() && |junk| == size
      modifies this
      ensures Valid()
      ensures old(st.top.None?) || !ok ==> r == None && st == old(st)
      ensures old(st.top.Some?) && ok ==> r == Some(old(st.nextHandle)) && old(CanAlloc(st)) && st == old(AllocOf(st, size, junk))
    {
      if st.top.None? {
        return None;
      }
      if !ok {
        return None;
      }
      var h := Place(size, junk);
      r := Some(h);
    }

    /** `mem_calloc(count, size)`: like `mem_malloc(count * size)`, with a zeroed body. */
    method Calloc(count: nat, size: nat, ok: bool) returns (r: Option<Handle>)
      requires Valid()
      modifies this
      ensures Valid()
      ensures old(st.top.None?) || !ok ==> r == None && st == old(st)
      ensures old(st.top.Some?) && ok ==> r == Some(old(st.nextHandle)) && old(CanAlloc(st)) && st == old(AllocOf(st, count * size, Zeros(count * size)))
    {
      if st.top.None? {
        return None;
      }
      if !ok {
        return None;
      }
      var h := Place(count * size, Zeros(count * size));
      r := Some(h);
    }

    /** `mem_realloc(NULL, size)` is `mem_malloc(size)`. */
    method ReallocNull(size: nat, ok: bool, junk: seq<Byte>) returns (r: Option<Handle>)
      requires Valid() && |junk| == size
      modifies this
      ensures Valid()
      ensures old(st.top.None?) || !ok ==> r == None && st == old(st)
      ensures old(st.top.Some?) && ok ==> r == Some(old(st.nextHandle)) && old(CanAlloc(st)) && st == old(AllocOf(st, size, junk))
    {
      r := Malloc(size, ok, junk);
    }

    /** `mem_new(t)` is `mem_calloc(1, sizeof(t))`. */
    method New(sizeofT: nat, ok: bool) returns (r: Option<Handle>)
      requires Valid()
      modifies this
      ensures Valid()
      ensures old(st.top.None?) || !ok ==> r == None && st == old(st)
      ensures old(st.top.Some?) && ok ==> r == Some(old(st.nextHandle)) && old(CanAlloc(st)) && st == old(AllocOf(st, sizeofT, Zeros(sizeofT)))
    {
      r := Calloc(1, sizeofT, ok);
    }

    // ----- mem_steal -----

    /** `mem_steal(ptr, parent)`: null if either is null; otherwise `ptr` leaves its owner's list and
        becomes the first child of `parent`. */
    method Steal(ptr: Option<Handle>, parent: Option<Handle>) returns (r: Option<Handle>)
      requires Valid()
      requires ptr.Some? && parent.Some? ==> ptr.value in st.nodes && parent.value in st.nodes
      requires ptr.Some? && parent.Some? && ptr.value in st.nodes ==> parent.value !in Subtree(st.g, ptr.value)
      modifies this
      ensures Valid()
      ensures ptr.None? || parent.None? ==> r == None && st == old(st)
      ensures ptr.Some? && parent.Some? ==> r == ptr && old(CanSteal(st, ptr.value, parent.value))
      ensures ptr.Some? && parent.Some? ==> st == old(StealOf(st, ptr.value, parent.value))
    {
      if ptr.None? || parent.None? {
        return None;
      }
      var m := ptr.value;
      var p := parent.value;
      StealKeeps(st, m, p);
      // link_pop(&mptr->link);
      LinkPop(Entry(m));
      st := st.(g := Detach(st.g, m));
      // link_push(&mparent->list, &mptr->link);
      LinkPush(Head(Node(p)), Entry(m));
      st := st.(g := Attach(st.g, Node(p), m));
      r := ptr;
    }
 
    // ----- mem_flags -----

    /** `mem_flags(ptr, flags)`: without `mem_flag_secure` in `flags` nothing happens; an allocation
        already secure stays as it is; otherwise `mlock` is tried (`lockOk` is its outcome) and on
        success the secure bit is set. */
    method Flags(ptr: Option<Handle>, flags: Flags, lockOk: bool) returns (ok: bool)
      requires Valid() && (IsSecure(flags) ==> ptr.Some? && ptr.value in st.nodes)
      modifies this
      ensures Valid()
      ensures !IsSecure(flags) ==> ok && st == old(st)
      ensures IsSecure(flags) && IsSecure(old(st.nodes[ptr.value].flags)) ==> ok && st == old(st)
      ensures IsSecure(flags) && !IsSecure(old(st.nodes[ptr.value].flags)) && !lockOk ==> !ok && st == old(st)
      ensures IsSecure(flags) && !IsSecure(old(st.nodes[ptr.value].flags)) && lockOk ==> ok && st == old(SecureOf(st, ptr.value))
    {
      if IsSecure(flags) {
        var h := ptr.value;
        if IsSecure(st.nodes[h].flags) {
          return true;
        }
        // mlock(m, m->size + sizeof(struct mem))
        if !lockOk {
          return false;
        }
        SecureKeeps(st, h);
        // m->flags |= mem_flag_secure;
        st := st.(nodes := st.nodes[h := st.nodes[h].(flags := st.nodes[h].flags | FlagSecure)], locked := st.locked + {h});
      }
      return true;
    }

    // ----- mem_dup, mem_strdup, mem_strndup -----

    /** `memcpy`, `strcpy`, `strncpy` or `vsnprintf` filling the body of `h`. */
    method Write(h: Handle, bytes: seq<Byte>)
      requires Valid() && h in st.nodes && |bytes| == st.nodes[h].size
      modifies this
      ensures Valid() && st == old(WriteOf(st, h, bytes))
    {
      WriteKeeps(st, h, bytes);
      st := st.(nodes := st.nodes[h := st.nodes[h].(body := bytes)]);
    }

    /** `mem_dup(src, size)`: a new allocation holding the first `size` bytes of `src`. */
    method Dup(src: seq<Byte>, size: nat, ok: bool, junk: seq<Byte>) returns (r: Option<Handle>)
      requires Valid() && size <= |src| && |junk| == size
      modifies this
      ensures Valid()
      ensures old(st.top.None?) || !ok ==> r == None && st == old(st)
      ensures old(st.top.Some?) && ok ==> r == Some(old(st.nextHandle)) && old(CanAlloc(st)) && st == old(AllocOf(st, size, src[..size]))
    {
      ghost var s0 := st;
      r := Malloc(size, ok, junk);
      if r.None? {
        return;
      }
      WriteAfterAlloc(s0, size, junk, src[..size]);
      // memcpy(tmp, ptr, size);
      Write(r.value, src[..size]);
    }

    /** `mem_strdup(str)`: null for a null `str`; otherwise a new allocation of `strlen(str) + 1`
        bytes holding the string and its NUL. */
    method StrDup(str: Option<seq<Byte>>, ok: bool, junk: seq<Byte>) returns (r: Option<Handle>)
      requires Valid() && (str.Some? ==> HasNul(str.value) && |junk| == StrLen(str.value) + 1)
      modifies this
      ensures Valid()
      ensures str.None? || old(st.top.None?) || !ok ==> r == None && st == old(st)
      ensures str.Some? && old(st.top.Some?) && ok ==>
        r == Some(old(st.nextHandle)) && old(CanAlloc(st)) && st == old(AllocOf(st, StrLen(str.value) + 1, StrCpy(str.value)))
    {
      if str.None? {
        return None;
      }
      var s := str.value;
      ghost var s0 := st;
      r := Malloc(StrLen(s) + 1, ok, junk);
      if r.None? {
        return;
      }
      WriteAfterAlloc(s0, StrLen(s) + 1, junk, StrCpy(s));
      // strcpy(tmp, str);
      Write(r.value, StrCpy(s));
    }

    /** `mem_strndup(str, n)`: null for a null `str`; otherwise a new allocation of `n + 1` bytes:
        what `strncpy` copies and pads to `n` bytes, then a NUL. */
    method StrNDup(str: Option<seq<Byte>>, n: nat, ok: bool, junk: seq<Byte>) returns (r: Option<Handle>)
      requires Valid() && |junk| == n + 1 && (str.Some? ==> n <= |str.value| || HasNul(str.value))
      modifies this
      ensures Valid()
      ensures str.None? || old(st.top.None?) || !ok ==> r == None && st == old(st)
      ensures str.Some? && old(st.top.Some?) && ok ==>
        r == Some(old(st.nextHandle)) && old(CanAlloc(st)) && st == old(AllocOf(st, n + 1, StrNDupBytes(str.value, n)))
    {
      if str.None? {
        return None;
      }
      var s := str.value;
      ghost var s0 := st;
      r := Malloc(n + 1, ok, junk);
      if r.None? {
        return;
      }
      CopyTerminated(r.value, s, n, s0, junk);
    }

    /** The two stores of `mem_strndup` into the buffer `h` of `n + 1` bytes that `mem_malloc` just
        made from `s0`: `strncpy` fills the first `n` bytes and the last one is then set to NUL. */
    method CopyTerminated(h: Handle, s: seq<Byte>, n: nat, ghost s0: State, ghost junk: seq<Byte>)
      requires Valid() && CanAlloc(s0) && |junk| == n + 1 && h == s0.nextHandle && st == AllocOf(s0, n + 1, junk)
      requires n <= |s| || HasNul(s)
      modifies this
      ensures Valid() && st == AllocOf(s0, n + 1, StrNDupBytes(s, n))
    {
      WriteAfterAlloc(s0, n + 1, junk, StrNDupBytes(s, n));
      StrNDupWrites(st, h, s, n);
      var copied := StrNCpy(s, n) + st.nodes[h].body[n..];
      // strncpy(tmp, str, n);
      Write(h, copied);
      // tmp[n] = '\0';
      Write(h, st.nodes[h].body[n := 0]);
    }

    // ----- mem_vasprintf, mem_asprintf -----

    /** `mem_vasprintf(fmt, ap)` with `vsnprintf` as an oracle: the first call measures `len1`, the
        second returns `len2` and leaves `out` in the buffer. A negative length is a failure; after
        the second one the buffer is freed again. */
    method Vasprintf(len1: int, ok: bool, junk: seq<Byte>, len2: int, out: seq<Byte>) returns (r: Option<Handle>)
      requires Valid() && (len1 >= 0 ==> |junk| == len1 + 1 && |out| == len1 + 1)
      modifies this
      ensures Valid()
      ensures len1 < 0 || old(st.top.None?) || !ok ==> r == None && st == old(st)
      ensures len1 >= 0 && old(st.top.Some?) && ok && len2 >= 0 ==>
        r == Some(old(st.nextHandle)) && old(CanAlloc(st)) && st == old(AllocOf(st, len1 + 1, out))
      ensures len1 >= 0 && old(st.top.Some?) && ok && len2 < 0 ==>
        r == None && st == old(SpentOf(st, out))
    {
      if len1 < 0 {
        return None;
      }
      ghost var s0 := st;
      r := Malloc(len1 + 1, ok, junk);
      if r.None? {
        return;
      }
      var h := r.value;
      WriteAfterAlloc(s0, len1 + 1, junk, out);
      WriteFreeRoundTrip(s0, len1 + 1, junk, out);
      // len = vsnprintf(tmp, len + 1, fmt, ap);
      Write(h, out);
      if len2 < 0 {
        assert st == WriteOf(AllocOf(s0, len1 + 1, junk), s0.nextHandle, out);
        // mem_free(containerof(tmp, struct mem, body));
        FreeTo(h, SpentOf(s0, out));
        return None;
      }
    }

    /** `mem_free(m)` on a live allocation whose release is known to give `s1`. */
    method FreeTo(m: Handle, ghost s1: State)
      requires Valid() && m in st.g.owner && Node(m) in st.g.desc && Poppable(st.links, Entry(m))
      requires FreeOf(st, m) == s1
      modifies this
      ensures Valid() && st == s1
    {
      FreeLive(st, m);
      Free(m);
    }

    /** `mem_asprintf(fmt, ...)` is `mem_vasprintf` on its variable arguments. */
    method Asprintf(len1: int, ok: bool, junk: seq<Byte>, len2: int, out: seq<Byte>) returns (r: Option<Handle>)
      requires Valid() && (len1 >= 0 ==> |junk| == len1 + 1 && |out| == len1 + 1)
      modifies this
      ensures Valid()
      ensures len1 < 0 || old(st.top.None?) || !ok ==> r == None && st == old(st)
      ensures len1 >= 0 && old(st.top.Some?) && ok && len2 >= 0 ==>
        r == Some(old(st.nextHandle)) && old(CanAlloc(st)) && st == old(AllocOf(st, len1 + 1, out))
      ensures len1 >= 0 && old(st.top.Some?) && ok && len2 < 0 ==>
        r == None && st == old(SpentOf(st, out))
    {
      r := Vasprintf(len1, ok, junk, len2, out);
    }
  }
}
