/** Reading and writing little-endian fields and byte ranges of a page buffer in place. */
module PageBytes {
  import opened ByteTypes
  import opened LittleEndian

  function U16(s: bytes, off: nat): nat
    requires off + 2 <= |s|
  {
    var lo: nat, hi: nat := s[off], s[off + 1];
    lo + 256 * hi
  }

  function U32(s: bytes, off: nat): nat
    requires off + 4 <= |s|
  {
    FromLE(s[off..off + 4])
  }

  function U64(s: bytes, off: nat): nat
    requires off + 8 <= |s|
  {
    FromLE(s[off..off + 8])
  }

  predicate Fits16(v: nat) { v < 0x1_0000 }
  predicate Fits32(v: nat) { v < 0x1_0000_0000 }
  predicate Fits64(v: nat) { v < 0x1_0000_0000_0000_0000 }

  /** Nothing outside [lo, hi) differs. */
  ghost predicate Changed(s: bytes, s': bytes, lo: int, hi: int) {
    |s'| == |s| && forall k {:trigger s'[k]} :: 0 <= k < |s| && !(lo <= k < hi) ==> s'[k] == s[k]
  }

  /** [lo, hi) is untouched. */
  ghost predicate Same(s: bytes, s': bytes, lo: int, hi: int) {
    |s'| == |s| && forall k {:trigger s'[k]} :: 0 <= k < |s| && lo <= k < hi ==> s'[k] == s[k]
  }

  lemma SameSlice(s: bytes, s': bytes, lo: nat, hi: nat)
    requires Same(s, s', lo, hi) && lo <= hi <= |s|
    ensures s'[lo..hi] == s[lo..hi]
  {
  }

  /** Chaining two changes away from [lo, hi). */
  lemma SameTrans(s: bytes, s1: bytes, s2: bytes, lo: int, hi: int)
    requires Same(s, s1, lo, hi) && Same(s1, s2, lo, hi)
    ensures Same(s, s2, lo, hi)
  {
    forall k | 0 <= k < |s| && lo <= k < hi ensures s2[k] == s[k] { assert s1[k] == s[k]; }
  }

  lemma ChangedSame(s: bytes, s': bytes, a: int, b: int, lo: int, hi: int)
    requires Changed(s, s', a, b) && (hi <= a || b <= lo)
    ensures Same(s, s', lo, hi)
  {
  }

  lemma U16Kept(s: bytes, s': bytes, off: nat)
    requires off + 2 <= |s| && Same(s, s', off, off + 2)
    ensures U16(s', off) == U16(s, off)
  {
    assert s'[off] == s[off] && s'[off + 1] == s[off + 1];
  }

  lemma U32Kept(s: bytes, s': bytes, off: nat)
    requires off + 4 <= |s| && Same(s, s', off, off + 4)
    ensures U32(s', off) == U32(s, off)
  {
    SameSlice(s, s', off, off + 4);
  }

  lemma U64Kept(s: bytes, s': bytes, off: nat)
    requires off + 8 <= |s| && Same(s, s', off, off + 8)
    ensures U64(s', off) == U64(s, off)
  {
    SameSlice(s, s', off, off + 8);
  }

  lemma U64Fits(s: bytes, off: nat)
    requires off + 8 <= |s|
    ensures Fits64(U64(s, off))
  {
    FromLEBound(s[off..off + 8]);
    Widths();
  }

  method WriteU16(a: array<byte>, off: nat, v: nat)
    requires off + 2 <= a.Length && Fits16(v)
    modifies a
    ensures Changed(old(a[..]), a[..], off, off + 2) && U16(a[..], off) == v
  {
    a[off] := v % 256;
    a[off + 1] := v / 256;
  }

  /** `copy_from_slice`. */
  method WriteBytes(a: array<byte>, off: nat, d: bytes)
    requires off + |d| <= a.Length
    modifies a
    ensures Changed(old(a[..]), a[..], off, off + |d|) && a[off..off + |d|] == d
  {
    for i := 0 to |d|
      invariant forall k :: 0 <= k < i ==> a[off + k] == d[k]
      invariant forall k {:trigger a[k]} :: 0 <= k < a.Length && !(off <= k < off + i) ==> a[k] == old(a[k])
    {
      a[off + i] := d[i];
    }
  }

  method WriteU32(a: array<byte>, off: nat, v: nat)
    requires off + 4 <= a.Length && Fits32(v)
    modifies a
    ensures Changed(old(a[..]), a[..], off, off + 4) && U32(a[..], off) == v
  {
    U32Back(v);
    WriteBytes(a, off, LE(v, 4));
    assert a[..][off..off + 4] == a[off..off + 4];
  }

  method WriteU64(a: array<byte>, off: nat, v: nat)
    requires off + 8 <= a.Length && Fits64(v)
    modifies a
    ensures Changed(old(a[..]), a[..], off, off + 8) && U64(a[..], off) == v
  {
    U64Back(v);
    WriteBytes(a, off, LE(v, 8));
    assert a[..][off..off + 8] == a[off..off + 8];
  }

  /** [dst, dst + len) holds what [src, src + len) held. */
  ghost predicate Moved(s: bytes, s': bytes, src: nat, len: nat, dst: nat) {
    src + len <= |s| && dst + len <= |s'|
    && forall k {:trigger s'[k]} :: dst <= k < dst + len ==> s'[k] == s[k - dst + src]
  }

  /** `copy_within`: the ranges may overlap. */
  method CopyWithin(a: array<byte>, src: nat, len: nat, dst: nat)
    requires src + len <= a.Length && dst + len <= a.Length
    modifies a
    ensures Changed(old(a[..]), a[..], dst, dst + len)
    ensures Moved(old(a[..]), a[..], src, len, dst)
  {
    if dst <= src {
      for i := 0 to len
        invariant forall k {:trigger a[k]} :: dst <= k < dst + i ==> a[k] == old(a[k - dst + src])
        invariant forall k {:trigger a[k]} :: 0 <= k < a.Length && !(dst <= k < dst + i) ==> a[k] == old(a[k])
      {
        a[dst + i] := a[src + i];
      }
    } else {
      for i := len downto 0
        invariant forall k {:trigger a[k]} :: dst + i <= k < dst + len ==> a[k] == old(a[k - dst + src])
        invariant forall k {:trigger a[k]} :: 0 <= k < a.Length && !(dst + i <= k < dst + len) ==> a[k] == old(a[k])
      {
        a[dst + i] := a[src + i];
      }
    }
  }

  /** `fill(0)`. */
  method FillZero(a: array<byte>, lo: nat, hi: nat)
    requires lo <= hi <= a.Length
    modifies a
    ensures Changed(old(a[..]), a[..], lo, hi) && forall k :: lo <= k < hi ==> a[k] == 0
  {
    for i := lo to hi
      invariant forall k :: lo <= k < i ==> a[k] == 0
      invariant forall k {:trigger a[k]} :: 0 <= k < a.Length && !(lo <= k < i) ==> a[k] == old(a[k])
    {
      a[i] := 0;
    }
  }
}
