/** Byte strings: overwriting a stretch, and the plain copy loop of memcpy and the user-copy calls. */
module Bytes {

  newtype byte = x: int | 0 <= x < 256

  /** The error of a user copy that faults. */
  const EFAULT := 14

  function Min(a: int, b: int): int {
    if a < b then a else b
  }

  /** At most the first `n` bytes. */
  function Take(s: seq<byte>, n: nat): seq<byte> {
    if n < |s| then s[..n] else s
  }

  /** `s` with `t` written over it from position `at` on. */
  function Splice(s: seq<byte>, at: nat, t: seq<byte>): (r: seq<byte>)
    requires at + |t| <= |s|
    ensures |r| == |s|
    ensures forall i :: 0 <= i < |s| ==> r[i] == if at <= i < at + |t| then t[i - at] else s[i]
  {
    s[..at] + t + s[at + |t|..]
  }

  function Concat(ss: seq<seq<byte>>): seq<byte> {
    if ss == [] then [] else ss[0] + Concat(ss[1..])
  }

  function Repeat(s: seq<byte>, k: nat): seq<byte> {
    if k == 0 then [] else s + Repeat(s, k - 1)
  }

  /** memcpy between two different buffers. */
  method CopyBytes(dst: array<byte>, dstAt: nat, src: array<byte>, srcAt: nat, n: nat)
    requires dst != src && dstAt + n <= dst.Length && srcAt + n <= src.Length
    modifies dst
    ensures dst[..] == Splice(old(dst[..]), dstAt, src[srcAt..srcAt + n])
  {
    var i := 0;
    while i < n
      invariant i <= n
      invariant forall k :: 0 <= k < dst.Length ==>
        dst[k] == if dstAt <= k < dstAt + i then src[srcAt + k - dstAt] else old(dst[k])
    {
      dst[dstAt + i] := src[srcAt + i];
      i := i + 1;
    }
  }

  /** How a copy from or to user space goes; after a fault, `left` is what it put into the target. */
  datatype UserCopy = Whole | Faulted(left: seq<byte>)

  /** A copy of no bytes cannot fault. */
  predicate Faults(copy: UserCopy, n: nat) {
    copy.Faulted? && n > 0
  }

  /** What such a copy of `src` stores. */
  function Stored(src: seq<byte>, copy: UserCopy): (r: seq<byte>)
    ensures |r| <= |src|
  {
    match copy
    case Whole => src
    case Faulted(left) => Take(left, |src|)
  }

  /** copy_to_user and copy_from_user. */
  method UserCopyBytes(dst: array<byte>, dstAt: nat, src: array<byte>, srcAt: nat, n: nat, copy: UserCopy)
      returns (failed: bool)
    requires dst != src && dstAt + n <= dst.Length && srcAt + n <= src.Length
    modifies dst
    ensures failed == Faults(copy, n)
    ensures dst[..] == Splice(old(dst[..]), dstAt, Stored(src[srcAt..srcAt + n], copy))
  {
    match copy
    case Whole =>
      CopyBytes(dst, dstAt, src, srcAt, n);
      failed := false;
    case Faulted(left) =>
      ghost var was := dst[..];
      var i := 0;
      while i < n && i < |left|
        invariant i <= n && i <= |left|
        invariant forall k :: 0 <= k < dst.Length ==>
          dst[k] == if dstAt <= k < dstAt + i then left[k - dstAt] else was[k]
      {
        dst[dstAt + i] := left[i];
        i := i + 1;
      }
      assert Take(left, n) == left[..i];
      failed := n > 0;
  }

  lemma SpliceInPrefix(s: seq<byte>, at: nat, t: seq<byte>)
    requires at + |t| <= |s|
    ensures Splice(s, at, t)[..at + |t|] == s[..at] + t
    ensures Splice(s, at, t)[at + |t|..] == s[at + |t|..]
    ensures Splice(s, at, t)[..at] == s[..at]
  {
  }

  /** Two stretches written one behind the other are one stretch. */
  lemma SpliceSplice(s: seq<byte>, at: nat, t: seq<byte>, u: seq<byte>)
    requires at + |t| + |u| <= |s|
    ensures Splice(Splice(s, at, t), at + |t|, u) == Splice(s, at, t + u)
  {
  }

  /** The first `n` bytes of two strings in a row. */
  lemma TakeBoth(s: seq<byte>, t: seq<byte>, n: nat)
    ensures |Take(s, n)| <= n
    ensures Take(s + t, n) == Take(s, n) + Take(t, n - |Take(s, n)|)
  {
    if n < |s| {
      assert (s + t)[..n] == s[..n];
    } else if n < |s + t| {
      assert (s + t)[..n] == s + t[..n - |s|];
    }
  }
}
