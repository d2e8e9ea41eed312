/** Little-endian integers of a fixed width. */
module LittleEndian {
  import opened ByteTypes

  function Pow256(w: nat): (p: nat)
    ensures p >= 1
  {
    if w == 0 then 1 else 256 * Pow256(w - 1)
  }

  function Digit(n: nat, i: nat): byte { n / Pow256(i) % 256 }

  /** The low `w` bytes of `n`: the source's truncating cast followed by `to_le_bytes`. */
  function LE(n: nat, w: nat): (b: bytes)
    ensures |b| == w
  {
    seq(w, i requires 0 <= i < w => Digit(n, i))
  }

  function FromLE(b: bytes): nat {
    if b == [] then 0 else b[0] + 256 * FromLE(b[1..])
  }

  lemma AtLeastOne(k: nat, p: nat)
    requires k >= 1
    ensures k * p >= p
  {
  }

  lemma DivUnique(a: nat, p: nat, q: nat, r: nat)
    requires r < p && a == q * p + r
    ensures a / p == q && a % p == r
  {
    var d := a / p;
    assert a == d * p + a % p;
    if d < q { AtLeastOne(q - d, p); }
    if d > q { AtLeastOne(d - q, p); }
  }

  lemma DivDiv(n: nat, p: nat)
    requires p > 0
    ensures n / 256 / p == n / (256 * p)
  {
    var q, r := n / (256 * p), n % (256 * p);
    var x := q * p;
    assert n == 256 * x + r;
    assert n / 256 == x + r / 256;
    DivUnique(n / 256, p, q, r / 256);
  }

  /** The bytes above the lowest are those of `n / 256`. */
  lemma LETail(n: nat, w: nat)
    requires w > 0
    ensures LE(n, w)[0] == n % 256 && LE(n, w)[1..] == LE(n / 256, w - 1)
  {
    forall i | 0 <= i < w - 1 ensures LE(n, w)[1..][i] == LE(n / 256, w - 1)[i] {
      DivDiv(n, Pow256(i));
      assert LE(n, w)[i + 1] == Digit(n, i + 1);
    }
  }

  lemma {:induction false} FromLEBound(b: bytes)
    ensures FromLE(b) < Pow256(|b|)
    decreases |b|
  {
    if b != [] { FromLEBound(b[1..]); }
  }

  lemma {:induction false} DecodeEncode(n: nat, w: nat)
    requires n < Pow256(w)
    ensures FromLE(LE(n, w)) == n
    decreases w
  {
    if w != 0 {
      DecodeEncode(n / 256, w - 1);
      LETail(n, w);
    }
  }

  lemma {:induction false} EncodeDecode(b: bytes)
    ensures LE(FromLE(b), |b|) == b
    decreases |b|
  {
    if b != [] {
      EncodeDecode(b[1..]);
      var n := FromLE(b);
      assert n % 256 == b[0] && n / 256 == FromLE(b[1..]);
      LETail(n, |b|);
      assert b == [b[0]] + b[1..];
      assert LE(n, |b|) == [n % 256] + LE(n, |b|)[1..];
    }
  }

  lemma Widths()
    ensures Pow256(1) == 256 && Pow256(2) == 65536 && Pow256(4) == 0x1_0000_0000 && Pow256(8) == 0x1_0000_0000_0000_0000
  {
    assert Pow256(3) == 256 * Pow256(2) && Pow256(4) == 256 * Pow256(3);
    assert Pow256(5) == 256 * Pow256(4) && Pow256(6) == 256 * Pow256(5);
    assert Pow256(7) == 256 * Pow256(6) && Pow256(8) == 256 * Pow256(7);
  }

  /** A `u32` and a `u64` field. */
  lemma U32Back(n: nat)
    requires n < 0x1_0000_0000
    ensures FromLE(LE(n, 4)) == n
  {
    Widths();
    DecodeEncode(n, 4);
  }

  lemma U64Back(n: nat)
    requires n < 0x1_0000_0000_0000_0000
    ensures FromLE(LE(n, 8)) == n
  {
    Widths();
    DecodeEncode(n, 8);
  }
}
