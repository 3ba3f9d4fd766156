/** The C library string functions that mem.c calls, on byte sequences: a C string is a sequence
    of bytes that holds a NUL byte, and its contents are the bytes before the first NUL. */
module CStrings {
  import opened MemTypes

  /** `s` holds a NUL byte, so `strlen` and `strcpy` stop inside it. */
  predicate HasNul(s: seq<Byte>)
  {
    0 in s
  }

  /** `strlen(s)`: the position of the first NUL byte. */
  function StrLen(s: seq<Byte>): (n: nat)
    requires HasNul(s)
    ensures n < |s| && s[n] == 0
    ensures forall i :: 0 <= i < n ==> s[i] != 0
  {
    if s[0] == 0 then 0 else 1 + StrLen(s[1..])
  }

  /** What `strcpy(d, s)` writes: the bytes of `s` up to and including the first NUL. */
  function StrCpy(s: seq<Byte>): (d: seq<Byte>)
    requires HasNul(s)
    ensures |d| == StrLen(s) + 1 && d == s[..|d|]
  {
    s[..StrLen(s) + 1]
  }

  /** The bytes `strncpy(d, s, n)` copies from `s`: it stops after `n` bytes or at the first NUL,
      whichever comes first, so `s` need only be readable that far. */
  function StrNLen(s: seq<Byte>, n: nat): (r: nat)
    requires n <= |s| || HasNul(s)
    ensures r <= n && r <= |s|
    ensures forall i :: 0 <= i < r ==> s[i] != 0
    ensures r < n ==> r < |s| && s[r] == 0
  {
    if n == 0 || s[0] == 0 then 0 else 1 + StrNLen(s[1..], n - 1)
  }

  /** What `strncpy(d, s, n)` writes into the `n` bytes of `d`: the copied bytes, then NUL bytes. */
  function StrNCpy(s: seq<Byte>, n: nat): (d: seq<Byte>)
    requires n <= |s| || HasNul(s)
    ensures |d| == n
  {
    s[..StrNLen(s, n)] + Zeros(n - StrNLen(s, n))
  }

  /** On a C string, `strncpy` copies `min(n, strlen(s))` bytes. */
  lemma {:induction false} StrNLenMin(s: seq<Byte>, n: nat)
    requires HasNul(s)
    ensures StrNLen(s, n) == if n < StrLen(s) then n else StrLen(s)
  {
    if n != 0 && s[0] != 0 {
      StrNLenMin(s[1..], n - 1);
    }
  }

  /** `strncpy(d, s, n)` puts the first `min(n, strlen(s))` bytes of `s` into `d` and fills the rest
      of `d` with NUL bytes. */
  lemma StrNCpyBytes(s: seq<Byte>, n: nat)
    requires HasNul(s)
    ensures var k := if n < StrLen(s) then n else StrLen(s);
      && StrNCpy(s, n)[..k] == s[..k]
      && forall i :: k <= i < n ==> StrNCpy(s, n)[i] == 0
  {
    StrNLenMin(s, n);
  }

  /** The bytes `mem_strndup(s, n)` returns: what `strncpy` writes into `n` bytes, then a NUL; a C
      string of `strnlen(s, n)` bytes. */
  function StrNDupBytes(s: seq<Byte>, n: nat): (d: seq<Byte>)
    requires n <= |s| || HasNul(s)
    ensures |d| == n + 1 && d[..n] == StrNCpy(s, n) && d[n] == 0
    ensures HasNul(d) && StrLen(d) == StrNLen(s, n)
  {
    var d := StrNCpy(s, n) + [0];
    assert d[StrNLen(s, n)] == 0;
    StrLenAt(d, StrNLen(s, n));
    d
  }

  /** `strncpy` fills the first `n` bytes of the buffer and the last one is then set to NUL, so
      whatever the buffer held before, it ends up holding `StrNDupBytes(s, n)`. */
  lemma StrNDupStores(s: seq<Byte>, n: nat, junk: seq<Byte>)
    requires (n <= |s| || HasNul(s)) && |junk| == n + 1
    ensures (StrNCpy(s, n) + junk[n..])[n := 0] == StrNDupBytes(s, n)
  {
  }

  /** `strcpy` writes a C string of the same length. */
  lemma StrCpyLen(s: seq<Byte>)
    requires HasNul(s)
    ensures HasNul(StrCpy(s)) && StrLen(StrCpy(s)) == StrLen(s)
  {
    var d := StrCpy(s);
    assert d[StrLen(s)] == 0;
    StrLenAt(d, StrLen(s));
  }

  /** The first NUL byte of a sequence is where `strlen` stops. */
  lemma {:induction false} StrLenAt(s: seq<Byte>, n: nat)
    requires n < |s| && s[n] == 0 && forall i :: 0 <= i < n ==> s[i] != 0
    ensures HasNul(s) && StrLen(s) == n
  {
    assert s[n] in s;
    if n > 0 {
      StrLenAt(s[1..], n - 1);
    }
  }
}
