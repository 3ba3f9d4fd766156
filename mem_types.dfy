/** The types of mem.h, and the allocation record of mem.c, with handles in place of addresses. */
module MemTypes {

  datatype Option<T> = None | Some(value: T)

  newtype Byte = x: int | 0 <= x < 256

  /** `enum mem_flags`: a bit set of which only bit 0 is named. */
  type Flags = bv32

  const FlagNone: Flags := 0
  const FlagSecure: Flags := 1

  predicate IsSecure(f: Flags)
  {
    f & FlagSecure != 0
  }

  /** The address of an allocation record (`struct mem`). Addresses are never handed out twice. */
  type Handle = nat

  /** The address of a caller-owned `struct mem_scope`. */
  type ScopeId = nat

  /** Whatever heads a child list: a scope or an allocation. */
  datatype Owner = Scope(id: ScopeId) | Node(h: Handle)

  /** The address of a `struct mem_link`: the `list` sentinel of an owner, the `link` field of an
      allocation (its place in its owner's list), or the null pointer. */
  datatype Link = Null | Head(o: Owner) | Entry(h: Handle)

  /** `struct mem_link` */
  datatype LinkRec = LinkRec(prev: Link, next: Link)

  /** `struct mem` without its two links: the caller-requested size, the flags and the body bytes. */
  datatype Record = Record(size: nat, flags: Flags, body: seq<Byte>)

  /** A `struct mem_scope` read as a value: its `list` links and `next`, the enclosing scope. */
  datatype ScopeValue = ScopeValue(list: LinkRec, next: Option<ScopeId>)

  /** The all-zero `struct mem_scope`. */
  const ZeroScope: ScopeValue := ScopeValue(LinkRec(Null, Null), None)

  ghost predicate Distinct(hs: seq<Handle>)
  {
    forall i, j :: 0 <= i < j < |hs| ==> hs[i] != hs[j]
  }

  function Zeros(n: nat): (r: seq<Byte>)
    ensures |r| == n && forall i :: 0 <= i < n ==> r[i] == 0
  {
    seq(n, _ => 0)
  }
}
