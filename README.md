# libmem in Dafny

libmem is a small C allocator in which memory is owned, not just allocated. Every allocation
(`struct mem`) carries a size, a flag set, a circular doubly linked `list` of the allocations it owns
and a `link` into the list of its own owner. The owner is the innermost open `mem_scope` of the
calling thread (a stack threaded through each scope's `next`) or, after `mem_steal`, another
allocation. Leaving a scope frees everything still in its list; freeing an allocation first frees,
one by one, the first child of its list, so whole subtrees go at once. Allocations marked
`mem_flag_secure` are locked in memory and zeroed before they are handed back to `free`.

This project models `mem.c` and `mem.h` and proves what they promise.

- `mem_types.dfy` (`MemTypes`): handles, owners (`Scope(id)` or `Node(h)`), link identities, the
  `struct mem_link` record, `struct mem` without its links, the two flags of `enum mem_flags`.
- `links.dfy` (`Links`): `link_push` and `link_pop` on a map from link identities to `prev`/`next`
  records, and what a well-formed ring with a sentinel is.
- `forest.dfy` (`Forest`): a ghost view of who owns what: the list of each owner, the owner of each
  listed allocation and everything below each owner, with the operations unlink, link, release,
  open and close on it and the proof that they keep a forest a forest.
- `rings.dfy` (`Rings`): every owner's list is a ring in the link records, kept by each operation.
- `states.dfy` (`States`): the whole state of one thread's allocator as a value, the invariant, and
  one function per operation of `mem.c` giving the state it leaves behind (`FreeOf`, `CloseOf`,
  `AllocOf`, `StealOf`, `SecureOf`, `IScopeOf`, ...), each with a lemma that it keeps the invariant.
- `teardown.dfy` (`Teardown`): the invariant of the two "free the first child until the list is
  empty" loops of `mem_free` and `_mem_oscope`.
- `cstrings.dfy` (`CStrings`): `strlen`, `strcpy`, `strnlen` and `strncpy` on byte sequences.
- `properties.dfy`, `effects.dfy` (`Properties`, `Effects`): what each operation does in terms a
  caller sees, and the round trips between operations.
- `findings.dfy` (`Findings`): the uninitialised `list` sentinel of new allocations (see Findings).
- `allocator.dfy` (`Allocator`): the class `Allocator` whose single field is the state; every
  function of `mem.c` that changes the state is a method that performs the C stores and loops on that
  field and is proved to produce the state its value function describes; `mem_size`, which changes
  nothing, is the function `States.SizeOf`. New allocations get a self-linked `list`, the store that
  `mem.c` omits (see Findings).

The external calls `malloc`, `calloc`, `mlock` and `vsnprintf` are parameters of the methods: a flag
saying whether the call succeeded, the bytes a `malloc` leaves in a buffer, and the lengths and text
`vsnprintf` produces. `free` is recorded, not performed: the state keeps, for every released
handle, the bytes it held when it was handed back, so that zeroing a secure allocation is visible.

## Model

| member | source | states |
|---|---|---|
| Links.Pushed | mem.c:23-30 | `link_push` adds the item's record and changes no record other than the sentinel's, the old first element's and the item's |
| Links.Popped | mem.c:32-37 | `link_pop` changes only the records of the item's two neighbours and keeps every record |
| Links.PushKeepsRing | mem.c:23-30 | pushing a new element onto a well-formed ring gives a well-formed ring whose elements are the new one followed by the old ones in their old order |
| Links.PopKeepsRing | mem.c:32-37 | popping the element at any position of a well-formed ring gives a well-formed ring of the other elements in their old order |
| Links.PopRecords | mem.c:32-37 | after `link_pop` exactly the predecessor's `next` and the successor's `prev` bypass the item; every other element's links are as before |
| Links.PopUndoesPush | mem.c:23-37 | `link_pop` right after `link_push` restores every link record except the item's own |
| Links.RingFrame | mem.c:23-37 | a ring stays a ring when none of its own records change, so an operation on one list leaves every other list intact |
| Allocator.Allocator.LinkPush | mem.c:23-30 | the four stores of `link_push` produce exactly `Pushed` |
| Allocator.Allocator.LinkPop | mem.c:32-37 | the two stores of `link_pop` produce exactly `Popped` |
| Allocator.Allocator.constructor | mem.c:21 | a thread starts with `stack == NULL`, no allocation and nothing released, and the invariant holds |
| Allocator.Allocator.Free | mem.c:39-53 | `mem_free(m)` on a listed allocation terminates and leaves exactly `FreeOf`: `m` and everything below it released, their bodies (zeroed if secure) handed to `free`, `m` gone from its owner's list; the invariant is kept |
| Allocator.Allocator.Unlink | mem.c:42 | `link_pop(&m->link)` leaves `m` live, unowned and with its own list and everything below it unchanged |
| Allocator.Allocator.Release | mem.c:47-52 | once `m`'s list is empty, a secure `m` is zeroed and unlocked and `m` is handed to `free`; the invariant is kept |
| States.UnlinkKeeps | mem.c:42 | unlinking a listed allocation keeps the invariant; only `m` loses its owner |
| States.ReleaseKeeps | mem.c:47-52 | releasing an unowned allocation with an empty list keeps the invariant, and it had nothing below it |
| States.FreedBytes | mem.c:47-50 | `free` receives all zeros, of the record's size, for a secure record and the body as it is otherwise |
| States.FreeLive | mem.c:39-53 | after `mem_free` every remaining live allocation is still in some list |
| Teardown.EmptyStart | mem.c:44 | the loop invariant of the teardown loop holds before the first iteration |
| Teardown.EmptyNext | mem.c:44-45 | while the sentinel's `next` is not the sentinel, it is the link of a listed allocation that may be freed |
| Teardown.FirstChild | mem.c:44-45 | the successor of the sentinel is the first child; its subtree is part of what is still to be freed and does not contain the owner |
| Teardown.EmptyStep | mem.c:44-45 | freeing the first child keeps the loop invariant with that child's subtree added to what is freed, and the rest to free shrinks |
| Teardown.EmptyEnd | mem.c:44 | when the loop stops the list is empty and everything that was below the owner has been freed |
| Teardown.FreeDone | mem.c:39-53 | releasing `m` after its loop gives exactly `FreeOf` of the state before `mem_free` |
| Teardown.CloseDone | mem.c:75-76 | after the loop of `_mem_oscope`, popping the stack gives exactly `CloseOf` of the state before |
| Effects.FreeEffect | mem.c:39-53 | `mem_free(m)`: a live allocation is released iff it is `m` or below `m`; others keep their records and owners; only `m`'s owner's list changes, losing `m` and keeping its order; every released body went to `free`, zeroed if secure; the scope stack is untouched |
| Effects.FreeBelow | test.c:82-83 | freeing an allocation releases everything below it, whoever put it there |
| Allocator.Allocator.IScope | mem.c:55-67 | a null scope gives the all-zero scope and changes nothing; otherwise the scope gets an empty self-linked list and the old top as `next`, becomes the top, and a copy of it is returned |
| States.IScopeKeeps | mem.c:61-64 | opening a scope that is not already open keeps the invariant |
| States.PushStack | mem.c:63-64 | pushing a new scope keeps the stack a chain of `next` links without repeats, ending in `NULL` |
| States.PopStack | mem.c:78 | `stack = stack->next` leaves the chain of the remaining scopes, without the old top |
| Allocator.Allocator.OScope | mem.c:69-79 | nothing happens unless `scope` is the top of a nonempty stack; otherwise the method terminates in `CloseOf`: everything the scope owns is freed and the enclosing scope is the top; the invariant is kept |
| States.PopKeeps | mem.c:78 | popping a scope whose list is empty keeps the invariant and every owner |
| Effects.CloseEffect | mem.c:69-79 | closing the top scope shrinks the stack by exactly that scope; a live allocation is released iff the scope owned it; the rest keep their records, owners and lists; the released bodies went to `free` |
| Effects.ScopeRoundTrip | mem.h:67-68 | a `mem_scope` block that allocates nothing leaves everything as it was, except the dead scope's own list record |
| Allocator.Allocator.Place | mem.c:93-95 | filling in size and flags, self-linking the new list (the corrected store, see Findings) and pushing onto the top scope's list gives `AllocOf` and keeps the invariant |
| Allocator.Allocator.Malloc | mem.c:100-117 | null and no change without an open scope or when `malloc` fails; otherwise a fresh address, holding what `malloc` left, linked as `AllocOf` says; the new record's `list` is self-linked as corrected in Findings |
| Allocator.Allocator.Calloc | mem.c:81-98 | the same for `count * size` zero bytes; the new record's `list` is self-linked as corrected in Findings |
| Allocator.Allocator.ReallocNull | mem.c:120-129 | `mem_realloc(NULL, size)` behaves as `mem_malloc(size)` |
| Allocator.Allocator.New | mem.h:70-71 | `mem_new(t)` gives a zeroed allocation of `sizeof(t)` bytes, or null as `mem_calloc` does |
| States.NewNodeKeeps | mem.c:108-113 | a record at a fresh address with an empty list keeps the invariant and is owned by nothing yet |
| States.AllocKeeps | mem.c:100-117 | a successful allocation keeps the invariant |
| States.LinkKeeps | mem.c:95 | pushing an unowned allocation onto a live owner outside its subtree keeps the invariant and adds exactly that allocation to the owned ones |
| States.SizeOf | mem.c:131-136 | `mem_size`: the recorded size of a live allocation; 0 for the null pointer |
| States.SizeIsLength | mem.c:131-136 | with well-formed records, `mem_size` of a live allocation is the number of bytes its body holds |
| Effects.AllocFirstChild | mem.c:89-97 | a successful allocation has a fresh address, size `size`, no flags and an empty list, is the first child of the top scope (the sentinel's successor), and leaves every other list, record and the stack unchanged; `mem_size` (mem.c:131-136) then reports `size`, and 0 for null |
| Properties.AllocFreeRoundTrip | mem.c:100-117 | allocating and then freeing the new allocation gives back the state before, except that the handle is spent and its body went to `free` |
| Properties.WriteAfterAlloc | mem.c:175-179 | writing `bytes` into a buffer just allocated gives the allocation of `bytes` |
| Properties.WriteFreeRoundTrip | mem.c:229-236 | allocating, writing and freeing again leaves only the spent handle and the written bytes in `free`'s record |
| States.WriteKeeps | mem.c:179 | writing into a live body of the same size keeps the invariant |
| Allocator.Allocator.Steal | mem.c:138-150 | null and no change if either pointer is null; otherwise `ptr` is returned and the state is `StealOf`: popped from its owner's list and pushed onto `parent`'s; the invariant is kept |
| States.StealKeeps | mem.c:147-148 | stealing into a live allocation outside `ptr`'s subtree keeps the invariant and the set of owned allocations |
| Effects.StealEffect | mem.c:147-149 | `ptr` becomes the first child of `parent` (the sentinel's successor), leaves its old owner's list with the order of the rest kept, brings its whole subtree below `parent`; no record and no other list changes |
| Effects.StealSurvivesClose | test.c:74-81 | an allocation stolen out of the top scope by an allocation that scope does not own stays live when the scope closes and stays below its new parent |
| Allocator.Allocator.Flags | mem.c:152-168 | without the secure flag: true and no change; already secure: true and no change; `mlock` failing: false and no change; otherwise true and `SecureOf` |
| States.SecureKeeps | mem.c:164 | setting the secure bit on a live allocation, which is then locked, keeps the invariant |
| Effects.SecureThenFreeZeroes | mem.c:157-164 | marking an allocation secure changes only its flags and locking; freeing it afterwards hands `free` zeros of its size |
| Allocator.Allocator.Write | mem.c:179 | a copy into a live body gives `WriteOf` and keeps the invariant |
| Allocator.Allocator.Dup | mem.c:170-181 | null as `mem_malloc`; otherwise a new allocation holding exactly the first `size` bytes of the source |
| CStrings.StrLen | mem.c:191 | `strlen` is the index of the first NUL |
| CStrings.StrCpy | mem.c:195 | `strcpy` copies the string and its NUL, `strlen + 1` bytes |
| CStrings.StrCpyLen | mem.c:195 | the copy is a C string of the same length |
| Allocator.Allocator.StrDup | mem.c:183-197 | null for a null string or as `mem_malloc`; otherwise a new allocation of `strlen + 1` bytes holding the string and its NUL |
| CStrings.StrNLen | mem.c:211 | `strnlen(s, n)` is at most `n`, covers no NUL, and stops on a NUL when it is less than `n` |
| CStrings.StrNLenMin | mem.c:211 | on a C string, `strnlen(s, n)` is `min(n, strlen(s))` |
| CStrings.StrNCpyBytes | mem.c:211 | `strncpy` copies the first `min(n, strlen(s))` bytes and pads the rest of the `n` bytes with NUL |
| CStrings.StrNDupBytes | mem.c:211-212 | the result of `mem_strndup` has `n + 1` bytes, the `strncpy` bytes then a NUL, and is a C string of length `strnlen(s, n)` |
| Properties.StrNDupWrites | mem.c:211-212 | the two stores into the new buffer, `strncpy` then the NUL at `n`, leave exactly `StrNDupBytes`, whatever the buffer held |
| Allocator.Allocator.CopyTerminated | mem.c:211-212 | the two stores turn the fresh allocation into the allocation of `StrNDupBytes` |
| Allocator.Allocator.StrNDup | mem.c:199-214 | null for a null string or as `mem_malloc`; otherwise a new allocation of `n + 1` bytes holding `StrNDupBytes` |
| Allocator.Allocator.Vasprintf | mem.c:216-240 | null and no change when the measuring call fails or `mem_malloc` does; the filled allocation when the second call succeeds; when it fails, null and the buffer freed again |
| Allocator.Allocator.FreeTo | mem.c:235 | `mem_free` of the fresh buffer ends in the state its release is known to give |
| Allocator.Allocator.Asprintf | mem.c:242-253 | `mem_asprintf` behaves as `mem_vasprintf` on its arguments |
| Findings.AsWrittenRingsIff | mem.c:81-117 | as written, the new allocation's list is a well-formed ring iff the sentinel the allocator left happens to point at itself both ways |
| Findings.CallocListUnset | mem.c:89-95 | with `calloc`'s zero bytes in the sentinel, the loop guard of `mem_free` holds for an allocation without children, and its "first child" is no allocation |
| Findings.ListStartsClosed | mem.c:108-114 | with the sentinel self-linked, a new allocation's list is an empty ring, the loop guard is false for it, and the invariant holds |

## Left out

- Allocator.Allocator.Place and States.NewNodeOf: new records get a self-linked `list`, the fix
  proposed under Findings; `mem.c` leaves it uninitialised, and `Findings.AllocAsWrittenOf` models
  that. `Malloc`, `Calloc`, `ReallocNull`, `New`, `Dup`, `StrDup`, `StrNDup` and `Vasprintf` build on
  `Place` and so model the corrected allocator.
- Allocator.Allocator.IScope: requires that the scope is not already open. `_mem_iscope` accepts
  that call and then corrupts the `next` chain; the `mem_scope` macro (mem.h:67-68) always passes a
  fresh automatic variable, which meets the requirement.
- `mem_realloc` with a non-null pointer (mem.c:125-126) is not modelled: it returns the header
  rather than the body, leaves `size` as it was and does not repair the neighbours' links when the
  block moves.
- `vsnprintf` is not modelled: `Vasprintf` takes the two lengths it returns and the bytes it writes
  as parameters.
- Allocator.Allocator.Vasprintf: the second length is not tied to the first one, since the model
  has no formatting; any nonnegative second result counts as success.
- `malloc`, `calloc`, `mlock`, `munlock` and `free` are external: their success is a parameter,
  `malloc`'s leftover bytes are a parameter, addresses are fresh handles that are never reused, a
  locked page is membership in `locked`, and `free` is recorded, not performed.
- `containerof` address arithmetic and the `alignas(16)` layout (mem.c:10-18) are replaced by
  handles.
- The thread-local storage of `stack` (mem.c:21) is not modelled; the model is one thread's state.
- `size_t` and `int` wrap-around are not modelled: `count * size`, `size + sizeof(struct mem)` and
  `len + 1` are unbounded.
- Allocator.Allocator.Steal: requires that `parent` is live and not in `ptr`'s subtree, which
  the C code does not check; `mem_steal(a, a)` or stealing into one's own subtree would make the
  ownership a cycle.
- Pointers that libmem did not hand out are excluded by preconditions: `mem_steal`, `mem_flags` with
  the secure bit, `mem_size`, `mem_dup` and `mem_free` are only called on live allocations.
- Allocator.Allocator.Dup: the source must have at least `size` bytes; a null source is not
  modelled.
- Allocator.Allocator.StrDup and Allocator.Allocator.StrNDup: the string must be a C string
  (for `mem_strndup`, a NUL or at least `n` bytes), as `strlen` and `strncpy` require.
- The link records of released allocations are dropped from the state; reading freed memory is not
  modelled.
- Destructors are not modelled: `struct mem` has no destructor field and `mem.h` declares neither
  `mem_destructor` nor a public `mem_free`, although the test program calls both.
- The recursion depth of `mem_free` (one call level per level of the ownership tree) is not bounded.
- The `cleanup` attribute of `mem_scope(name)` (mem.h:67-68) is compiler behaviour; the model
  states what the pair `_mem_iscope` / `_mem_oscope` does, and `Effects.ScopeRoundTrip` the case of
  an empty block.
- Effects.StealSurvivesClose: shows that the stolen allocation itself survives the close, not
  its whole subtree.
- `mem_flags` never undoes a failed lock, and the model claims no fail-closed behaviour for it.

## Findings

| source | as written | input that shows it | evidently intended | confidence | as-written member | corrected member |
|---|---|---|---|---|---|---|
| mem.c:81-117 | `mem_malloc` and `mem_calloc` set `size` and `flags` and link the new record, but never initialise its own `list` sentinel; `mem_free` (mem.c:44) then reads `m->list.next` | `mem_calloc(1, 1)` inside a scope, then closing the scope: `list.next` is NULL, not `&m->list`, so `mem_free` enters its loop for an allocation without children and frees `containerof(NULL, ...)`; after `mem_malloc` the outcome depends on leftover heap bytes | `m->list.prev = m->list.next = &m->list` before the record is used, as `_mem_iscope` does for a scope (mem.c:61-62) | high, not executed | Findings.AllocAsWrittenOf, Findings.AsWrittenRingsIff, Findings.CallocListUnset | States.NewNodeOf, Findings.ListStartsClosed |
