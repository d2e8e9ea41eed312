/**
Key encodings (crates/common/src/types.rs): fixed-width integers, byte strings, and any
nesting of `Option`, fixed arrays and `Vec` over them, with the byte-level comparison the
index uses.  `None` results stand for the source's panics on malformed bytes.
*/
module KeyCodec {
  import opened Options
  import opened ByteTypes
  import opened LittleEndian

  datatype Ordering = Less | Equal | Greater

  datatype Ty =
    | Unit | Bool | UInt(width: nat) | SInt(width: nat) | Char | Bytes | FixedBytes(len: nat)
    | Opt(of: Ty) | Arr(n: nat, of: Ty) | Vec(of: Ty)

  datatype Val = VUnit | VBool(b: bool) | VInt(i: int) | VBytes(s: bytes) | VNone | VSome(v: Val) | VList(items: seq<Val>)

  const USIZE := 0x1_0000_0000_0000_0000

  // ── Varints ────────────────────────────────────────────────────────────────

  function Varint(n: nat): (b: bytes)
    ensures |b| > 0
  {
    if n < 128 then [n] else [128 + n % 128] + Varint(n / 128)
  }

  datatype Read = Read(value: nat, used: nat)

  /** Groups of seven bits, low first; more than ten bytes is a panic. */
  function ReadGroups(data: bytes, shift: nat): Option<Read>
    decreases |data|
  {
    if data == [] then None
    else if data[0] < 128 then Some(Read(data[0], 1))
    else if shift + 7 >= 64 then None
    else match ReadGroups(data[1..], shift + 7)
      case None => None
      case Some(r) => Some(Read(data[0] - 128 + 128 * r.value, r.used + 1))
  }

  function ReadVarint(data: bytes): Option<Read> {
    match ReadGroups(data, 0)
    case None => None
    case Some(r) => Some(Read(Truncated(r.value), r.used))
  }

  function Pow2(k: nat): (p: nat)
    ensures p >= 1
  {
    if k == 0 then 1 else 2 * Pow2(k - 1)
  }

  /** `encode_usize_varint`. */
  method EncodeVarint(n: nat) returns (b: bytes)
    ensures b == Varint(n)
  {
    b := [];
    var value := n;
    while true
      invariant b + Varint(value) == Varint(n)
      decreases value
    {
      var low := value % 128;
      if value / 128 == 0 { return b + [low]; }
      Assoc(b, [128 + low], Varint(value / 128));
      b := b + [128 + low];
      value := value / 128;
    }
  }

  lemma Distribute(p: nat, a: nat, v: nat)
    ensures p * (a + 128 * v) == p * a + (128 * p) * v
  {
  }

  /** The groups from an offset, one byte unfolded. */
  lemma GroupAt(data: bytes, off: nat, shift: nat)
    requires off <= |data|
    ensures var g := ReadGroups(data[off..], shift);
            if off == |data| then g == None
            else if data[off] < 128 then g == Some(Read(data[off], 1))
            else if shift + 7 >= 64 then g == None
            else match ReadGroups(data[off + 1..], shift + 7)
              case None => g == None
              case Some(r) => g == Some(Read(data[off] - 128 + 128 * r.value, r.used + 1))
  {
    if off < |data| { assert data[off..][0] == data[off] && data[off..][1..] == data[off + 1..]; }
  }

  /** `result | (group << shift)`, where `scale` is 2 to the shift. */
  function AddGroup(result: nat, scale: nat, group: nat): nat { result + scale * group }

  /** Bits shifted out of a `usize` are lost. */
  function Truncated(n: nat): nat { n % USIZE }

  /** What is left to read, on top of what has been. */
  ghost predicate Reading(whole: Option<Read>, g: Option<Read>, result: nat, scale: nat, done: nat) {
    match g
    case None => whole == None
    case Some(r) => whole == Some(Read(AddGroup(result, scale, r.value), done + r.used))
  }

  lemma ReadingStep(whole: Option<Read>, g: Option<Read>, result: nat, scale: nat, done: nat, low: nat)
    requires Reading(whole, (match g case None => None case Some(r) => Some(Read(low + 128 * r.value, r.used + 1))), result, scale, done)
    ensures Reading(whole, g, AddGroup(result, scale, low), 128 * scale, done + 1)
  {
    if g.Some? { Distribute(scale, low, g.value.value); }
  }

  lemma ReadingLast(whole: Option<Read>, g: Option<Read>, result: nat, scale: nat, done: nat)
    requires Reading(whole, g, result, scale, done)
    ensures g == None ==> whole == None
    ensures g.Some? ==> whole == Some(Read(AddGroup(result, scale, g.value.value), done + g.value.used))
  {
  }

  /** `decode_usize_varint`, from an offset. */
  method DecodeVarint(data: bytes, from: nat) returns (r: Option<Read>)
    requires from <= |data|
    ensures r == ReadVarint(data[from..])
  {
    var result: nat, shift: nat, off: nat, scale: nat := 0, 0, from, 1;
    ghost var whole := ReadGroups(data[from..], 0);
    assert Reading(whole, whole, 0, 1, 0);
    hide ReadGroups, Reading, AddGroup, Truncated;
    while true
      invariant from <= off <= |data| && shift == 7 * (off - from) < 64
      invariant Reading(whole, ReadGroups(data[off..], shift), result, scale, off - from)
      decreases |data| - off
    {
      GroupAt(data, off, shift);
      ReadingLast(whole, ReadGroups(data[off..], shift), result, scale, off - from);
      if off == |data| { return None; }
      var byte := data[off];
      if byte < 128 { return Some(Read(Truncated(AddGroup(result, scale, byte)), off - from + 1)); }
      if shift + 7 >= 64 { return None; }
      ReadingStep(whole, ReadGroups(data[off + 1..], shift + 7), result, scale, off - from, byte - 128);
      result := AddGroup(result, scale, byte - 128);
      off := off + 1;
      shift := shift + 7;
      scale := 128 * scale;
    }
  }

  lemma {:induction false} VarintGroups(n: nat, rest: bytes, shift: nat, room: nat)
    requires shift == 7 * room <= 63 && n < Pow2(64 - shift)
    ensures ReadGroups(Varint(n) + rest, shift) == Some(Read(n, |Varint(n)|))
    decreases n
  {
    if n >= 128 {
      assert (Varint(n) + rest)[1..] == Varint(n / 128) + rest;
      assert Pow2(1) == 2 * Pow2(0);
      assert shift < 63;
      Shrink(n, 64 - shift);
      VarintGroups(n / 128, rest, shift + 7, room + 1);
    }
  }

  lemma Shrink(n: nat, k: nat)
    requires k >= 7 && n < Pow2(k)
    ensures n / 128 < Pow2(k - 7)
  {
    assert Pow2(k) == 2 * Pow2(k - 1) && Pow2(k - 1) == 2 * Pow2(k - 2) && Pow2(k - 2) == 2 * Pow2(k - 3);
    assert Pow2(k - 3) == 2 * Pow2(k - 4) && Pow2(k - 4) == 2 * Pow2(k - 5) && Pow2(k - 5) == 2 * Pow2(k - 6);
    assert Pow2(k - 6) == 2 * Pow2(k - 7);
  }

  lemma UsizeIsPow()
    ensures Pow2(64) == USIZE
  {
    assert Pow2(2) == 4;
    hide Pow2;
    PowAdd(2, 2);
    PowAdd(4, 4);
    PowAdd(8, 8);
    PowAdd(16, 16);
    PowAdd(32, 32);
  }

  lemma {:induction false} PowAdd(a: nat, b: nat)
    ensures Pow2(a + b) == Pow2(a) * Pow2(b)
    decreases a
  {
    if a > 0 { PowAdd(a - 1, b); }
  }

  /** Decoding takes back the number and exactly its bytes. */
  lemma VarintRoundTrip(n: nat, rest: bytes)
    requires n < USIZE
    ensures ReadVarint(Varint(n) + rest) == Some(Read(n, |Varint(n)|))
  {
    UsizeIsPow();
    VarintGroups(n, rest, 0, 0);
  }

  // ── Types and values ───────────────────────────────────────────────────────

  /** A Unicode scalar value: what `char` ranges over. */
  predicate IsScalar(i: int) { 0 <= i < 0x11_0000 && !(0xD800 <= i < 0xE000) }

  predicate HasType(ty: Ty, v: Val)
    decreases ty
  {
    match ty
    case Unit => v.VUnit?
    case Bool => v.VBool?
    case UInt(w) => v.VInt? && 0 <= v.i < Pow256(w)
    case SInt(w) => v.VInt? && 0 <= 2 * v.i + Pow256(w) && 2 * v.i < Pow256(w)
    case Char => v.VInt? && IsScalar(v.i)
    case Bytes => v.VBytes?
    case FixedBytes(n) => v.VBytes? && |v.s| == n
    case Opt(t) => v.VNone? || (v.VSome? && HasType(t, v.v))
    case Arr(n, t) => v.VList? && |v.items| == n && forall i :: 0 <= i < n ==> HasType(t, v.items[i])
    case Vec(t) => v.VList? && forall i :: 0 <= i < |v.items| ==> HasType(t, v.items[i])
  }

  /** `fixed_width`. */
  function Width(ty: Ty): Option<nat> {
    match ty
    case Unit => Some(0)
    case Bool => Some(1)
    case UInt(w) => Some(w)
    case SInt(w) => Some(w)
    case Char => Some(3)
    case Bytes => None
    case FixedBytes(n) => Some(n)
    case Opt(t) => (match Width(t) case None => None case Some(w) => Some(w + 1))
    case Arr(n, t) => (match Width(t) case None => None case Some(w) => Some(n * w))
    case Vec(_) => None
  }

  // ── Lists of byte strings ──────────────────────────────────────────────────

  function Concat(xs: seq<bytes>): bytes { if xs == [] then [] else xs[0] + Concat(xs[1..]) }

  /** Each item preceded by its length. */
  function Prefixed(xs: seq<bytes>): bytes { if xs == [] then [] else Varint(|xs[0]|) + xs[0] + Prefixed(xs[1..]) }

  /** The end offsets of items laid out from `start`. */
  function Ends(xs: seq<bytes>, start: nat): (b: bytes)
    ensures |b| == 4 * |xs|
  {
    if xs == [] then [] else LE(start + |xs[0]|, 4) + Ends(xs[1..], start + |xs[0]|)
  }

  lemma Assoc(a: bytes, b: bytes, c: bytes)
    ensures a + (b + c) == (a + b) + c
  {
  }

  lemma {:induction false} ConcatSnoc(xs: seq<bytes>, x: bytes)
    ensures Concat(xs + [x]) == Concat(xs) + x
    decreases |xs|
  {
    if xs == [] { assert xs + [x] == [x] && Concat([x]) == x + Concat([x][1..]); }
    else {
      ConcatSnoc(xs[1..], x);
      assert (xs + [x])[0] == xs[0] && (xs + [x])[1..] == xs[1..] + [x];
      Assoc(xs[0], Concat(xs[1..]), x);
    }
  }

  lemma {:induction false} EndsSnoc(xs: seq<bytes>, x: bytes, start: nat)
    ensures Ends(xs + [x], start) == Ends(xs, start) + LE(start + |Concat(xs)| + |x|, 4)
    decreases |xs|
  {
    hide LE;
    if xs == [] { assert xs + [x] == [x] && [x][1..] == []; }
    else {
      var end := start + |xs[0]|;
      EndsSnoc(xs[1..], x, end);
      assert (xs + [x])[0] == xs[0] && (xs + [x])[1..] == xs[1..] + [x];
      Assoc(LE(end, 4), Ends(xs[1..], end), LE(end + |Concat(xs[1..])| + |x|, 4));
    }
  }

  lemma {:induction false} ConcatConcat(a: seq<bytes>, b: seq<bytes>)
    ensures Concat(a + b) == Concat(a) + Concat(b)
    decreases |a|
  {
    if a == [] { assert a + b == b; }
    else {
      ConcatConcat(a[1..], b);
      assert (a + b)[0] == a[0] && (a + b)[1..] == a[1..] + b;
      Assoc(a[0], Concat(a[1..]), Concat(b));
    }
  }

  lemma {:induction false} EndsConcat(a: seq<bytes>, b: seq<bytes>, start: nat)
    ensures Ends(a + b, start) == Ends(a, start) + Ends(b, start + |Concat(a)|)
    decreases |a|
  {
    hide LE;
    if a == [] { assert a + b == b; }
    else {
      var end := start + |a[0]|;
      EndsConcat(a[1..], b, end);
      assert (a + b)[0] == a[0] && (a + b)[1..] == a[1..] + b;
      Assoc(LE(end, 4), Ends(a[1..], end), Ends(b, end + |Concat(a[1..])|));
    }
  }

  /** Where item `i` starts in an array with an end-offset table. */
  ghost function Start(xs: seq<bytes>, i: nat): nat
    requires i <= |xs|
  {
    4 * |xs| + |Concat(xs[..i])|
  }

  lemma Slices(a: bytes, x: bytes, c: bytes)
    ensures (a + x + c)[|a|..|a| + |x|] == x && (a + x + c)[|a| + |x|..] == c
  {
  }

  lemma Around(xs: seq<bytes>, i: nat)
    requires i < |xs|
    ensures xs == xs[..i] + ([xs[i]] + xs[i + 1..]) && xs[..i + 1] == xs[..i] + [xs[i]]
    ensures ([xs[i]] + xs[i + 1..])[0] == xs[i] && ([xs[i]] + xs[i + 1..])[1..] == xs[i + 1..]
  {
  }

  /** The table and the data, cut at item `i`. */
  lemma CutTable(xs: seq<bytes>, i: nat)
    requires i < |xs|
    ensures Start(xs, i + 1) == Start(xs, i) + |xs[i]|
    ensures Ends(xs, 4 * |xs|) == Ends(xs[..i], 4 * |xs|) + (LE(Start(xs, i + 1), 4) + Ends(xs[i + 1..], Start(xs, i + 1)))
    ensures Concat(xs) == Concat(xs[..i]) + (xs[i] + Concat(xs[i + 1..]))
    ensures |Ends(xs[..i], 4 * |xs|)| == 4 * i
    ensures Start(xs, i) == |Ends(xs[..i], 4 * |xs|)| + 4 + |Ends(xs[i + 1..], Start(xs, i + 1))| + |Concat(xs[..i])|
  {
    hide LE, Concat, Ends;
    var front, x, back := xs[..i], xs[i], xs[i + 1..];
    Around(xs, i);
    EndsConcat(front, [x] + back, 4 * |xs|);
    ConcatConcat(front, [x] + back);
    ConcatSnoc(front, x);
    ConsItem(x, back, Start(xs, i));
  }

  lemma ConsItem(x: bytes, back: seq<bytes>, start: nat)
    ensures Concat([x] + back) == x + Concat(back)
    ensures Ends([x] + back, start) == LE(start + |x|, 4) + Ends(back, start + |x|)
  {
    hide LE;
    assert ([x] + back)[0] == x && ([x] + back)[1..] == back;
  }

  /** The table holds item `i`'s end offset, and its bytes lie between the offsets around it. */
  lemma ItemByEnds(xs: seq<bytes>, i: nat, b: bytes)
    requires i < |xs| && b == Ends(xs, 4 * |xs|) + Concat(xs) && |b| < 0x1_0000_0000
    ensures var start, end := Start(xs, i), Start(xs, i + 1);
            start <= end <= |b| && b[start..end] == xs[i] && FromLE(b[4 * i..4 * i + 4]) == end
  {
    hide LE, FromLE, Concat, Ends, Start;
    CutTable(xs, i);
    var start, end := Start(xs, i), Start(xs, i + 1);
    Layout(b, Ends(xs[..i], 4 * |xs|), LE(end, 4), Ends(xs[i + 1..], end), Concat(xs[..i]), xs[i], Concat(xs[i + 1..]),
           4 * i, start, end);
    U32Back(end);
  }

  lemma Layout(b: bytes, t1: bytes, t2: bytes, t3: bytes, front: bytes, x: bytes, back: bytes, k: nat, start: nat, end: nat)
    requires b == (t1 + (t2 + t3)) + (front + (x + back))
    requires k == |t1| && |t2| == 4 && start == |t1| + 4 + |t3| + |front| && end == start + |x|
    ensures k + 4 <= |b| && b[k..k + 4] == t2 && end <= |b| && b[start..end] == x
  {
    var more, pre := t3 + (front + (x + back)), t1 + (t2 + t3) + front;
    assert b == t1 + t2 + more;
    Slices(t1, t2, more);
    assert b == pre + x + back;
    Slices(pre, x, back);
  }

  // ── Encoding ───────────────────────────────────────────────────────────────

  function Zeros(n: nat): (b: bytes)
    ensures |b| == n
  {
    seq(n, _ => 0)
  }

  predicate AllTyped(t: Ty, vs: seq<Val>) { forall i {:trigger vs[i]} :: 0 <= i < |vs| ==> HasType(t, vs[i]) }

  /** `as_bytes`. */
  function Enc(ty: Ty, v: Val): bytes
    requires HasType(ty, v)
    decreases ty, 0
  {
    match ty
    case Unit => []
    case Bool => [if v.b then 1 else 0]
    case UInt(w) => LE(v.i, w)
    case SInt(w) => LE(if v.i < 0 then v.i + Pow256(w) else v.i, w)
    case Char => LE(v.i, 3)
    case Bytes => v.s
    case FixedBytes(_) => v.s
    case Opt(t) =>
      if v.VSome? then [1] + Enc(t, v.v)
      else [0] + (match Width(t) case None => [] case Some(w) => Zeros(w))
    case Arr(n, t) => Arrayed(Width(t).Some?, EncEach(t, v.items))
    case Vec(t) => Counted(Width(t).Some?, EncEach(t, v.items))
  }

  function EncEach(t: Ty, vs: seq<Val>): (xs: seq<bytes>)
    requires AllTyped(t, vs)
    ensures |xs| == |vs|
    decreases t, 1
  {
    seq(|vs|, i requires 0 <= i < |vs| => Enc(t, vs[i]))
  }

  function Arrayed(isFixed: bool, xs: seq<bytes>): bytes {
    if isFixed then Concat(xs) else Ends(xs, 4 * |xs|) + Concat(xs)
  }

  function Counted(isFixed: bool, xs: seq<bytes>): bytes {
    Varint(|xs|) + if isFixed then Concat(xs) else Prefixed(xs)
  }

  /** Lengths within the source's own limits: `usize` counts, and `u32` end offsets (a panic beyond). */
  predicate Encodable(ty: Ty, v: Val)
    requires HasType(ty, v)
    decreases ty
  {
    match ty
    case Opt(t) => v.VSome? ==> Encodable(t, v.v)
    case Arr(n, t) =>
      (forall i :: 0 <= i < n ==> Encodable(t, v.items[i])) && (Width(t).None? ==> |Enc(ty, v)| < 0x1_0000_0000)
    case Vec(t) =>
      |v.items| < USIZE
      && forall i :: 0 <= i < |v.items| ==> Encodable(t, v.items[i]) && |Enc(t, v.items[i])| < USIZE
    case _ => true
  }

  /** `xs` are the encodings of `vs`, all within limits. */
  ghost predicate Encodes(t: Ty, vs: seq<Val>, xs: seq<bytes>) {
    |xs| == |vs|
    && forall i {:trigger xs[i]} {:trigger vs[i]} :: 0 <= i < |vs| ==>
         HasType(t, vs[i]) && Encodable(t, vs[i]) && xs[i] == Enc(t, vs[i])
         && (match Width(t) case None => true case Some(w) => |xs[i]| == w)
  }

  lemma EncodesTail(t: Ty, vs: seq<Val>, xs: seq<bytes>)
    requires Encodes(t, vs, xs) && vs != []
    ensures Encodes(t, vs[1..], xs[1..])
  {
    hide HasType, Encodable, Enc, Width;
    assert forall i {:trigger xs[1..][i]} :: 0 <= i < |vs| - 1 ==> xs[1..][i] == xs[i + 1] && vs[1..][i] == vs[i + 1];
    assert forall i {:trigger vs[1..][i]} :: 0 <= i < |vs| - 1 ==> vs[1..][i] == vs[i + 1] && xs[1..][i] == xs[i + 1];
  }

  lemma {:induction false} EncWidth(ty: Ty, v: Val)
    requires HasType(ty, v) && Width(ty).Some?
    ensures |Enc(ty, v)| == Width(ty).value
    decreases ty, 0
  {
    match ty
    case Opt(t) => if v.VSome? { EncWidth(t, v.v); }
    case Arr(n, t) =>
      forall i | 0 <= i < n ensures |EncEach(t, v.items)[i]| == Width(t).value { EncWidth(t, v.items[i]); }
      ConcatWidth(EncEach(t, v.items), Width(t).value);
    case _ =>
  }

  lemma {:induction false} ConcatWidth(xs: seq<bytes>, w: nat)
    requires forall i {:trigger xs[i]} :: 0 <= i < |xs| ==> |xs[i]| == w
    ensures |Concat(xs)| == |xs| * w
    decreases |xs|
  {
    if xs != [] {
      ConcatWidth(xs[1..], w);
      assert |xs| * w == w + (|xs| - 1) * w;
    }
  }

  lemma EachEncodes(t: Ty, vs: seq<Val>)
    requires AllTyped(t, vs) && forall i {:trigger vs[i]} :: 0 <= i < |vs| ==> Encodable(t, vs[i])
    ensures Encodes(t, vs, EncEach(t, vs))
  {
    hide HasType, Encodable, Enc, Width;
    forall i | 0 <= i < |vs| ensures Width(t).Some? ==> |Enc(t, vs[i])| == Width(t).value {
      if Width(t).Some? { EncWidth(t, vs[i]); }
    }
  }

  // ── Decoding ───────────────────────────────────────────────────────────────

  /** `from_bytes`. */
  function Dec(ty: Ty, b: bytes): Option<Val>
    decreases ty, 0
  {
    match ty
    case Unit => Some(VUnit)
    case Bool => if b == [] || b[0] > 1 then None else Some(VBool(b[0] == 1))
    case UInt(w) => if |b| == w then Some(VInt(FromLE(b))) else None
    case SInt(w) =>
      if |b| == w then Some(VInt(if 2 * FromLE(b) < Pow256(w) then FromLE(b) else FromLE(b) - Pow256(w))) else None
    case Char => if |b| >= 3 && IsScalar(FromLE(b[..3])) then Some(VInt(FromLE(b[..3]))) else None
    case Bytes => Some(VBytes(b))
    case FixedBytes(n) => if |b| == n then Some(VBytes(b)) else None
    case Opt(t) =>
      if b == [] || b[0] > 1 then None else if b[0] == 0 then Some(VNone)
      else (match Dec(t, b[1..]) case None => None case Some(v) => Some(VSome(v)))
    case Arr(n, t) =>
      (match Width(t)
       case Some(w) => Listed(DecFixed(t, w, b, n))
       case None => if 4 * n <= |b| then Listed(DecByEnds(t, b, 0, n, 4 * n)) else None)
    case Vec(t) =>
      (match ReadVarint(b)
       case None => None
       case Some(r) =>
         if r.used > |b| then None
         else match Width(t)
           case Some(w) => Listed(DecFixed(t, w, b[r.used..], r.value))
           case None => Listed(DecPrefixed(t, b[r.used..], r.value)))
  }

  function Listed(vs: Option<seq<Val>>): Option<Val> { match vs case None => None case Some(items) => Some(VList(items)) }

  function Cons(v: Option<Val>, vs: Option<seq<Val>>): Option<seq<Val>> {
    if v.Some? && vs.Some? then Some([v.value] + vs.value) else None
  }

  function DecFixed(t: Ty, w: nat, b: bytes, n: nat): Option<seq<Val>>
    decreases t, n + 1
  {
    if n == 0 then Some([]) else if |b| < w then None else Cons(Dec(t, b[..w]), DecFixed(t, w, b[w..], n - 1))
  }

  function DecPrefixed(t: Ty, b: bytes, n: nat): Option<seq<Val>>
    decreases t, n + 1
  {
    if n == 0 then Some([])
    else match ReadVarint(b)
      case None => None
      case Some(r) =>
        if r.used + r.value > |b| then None
        else Cons(Dec(t, b[r.used..r.used + r.value]), DecPrefixed(t, b[r.used + r.value..], n - 1))
  }

  /** Items `i` to `n` of an array with an end-offset table. */
  function DecByEnds(t: Ty, b: bytes, i: nat, n: nat, start: nat): Option<seq<Val>>
    requires i <= n && 4 * n <= |b|
    decreases t, n - i + 1
  {
    if i == n then Some([])
    else
      var end := FromLE(b[4 * i..4 * i + 4]);
      if start <= end <= |b| then Cons(Dec(t, b[start..end]), DecByEnds(t, b, i + 1, n, end)) else None
  }

  // ── Round trip ─────────────────────────────────────────────────────────────

  lemma ScalarBack(ty: Ty, v: Val)
    requires HasType(ty, v) && (ty.UInt? || ty.SInt? || ty.Char?)
    ensures Dec(ty, Enc(ty, v)) == Some(v)
  {
    match ty
    case UInt(w) => hide LE; DecodeEncode(v.i, w);
    case SInt(w) => hide LE; SignedBack(v.i, w);
    case Char => hide LE; CharBack(v.i, Enc(ty, v));
  }

  lemma SignedBack(i: int, w: nat)
    requires 0 <= 2 * i + Pow256(w) && 2 * i < Pow256(w)
    ensures var n := if i < 0 then i + Pow256(w) else i;
            FromLE(LE(n, w)) == n && i == if 2 * n < Pow256(w) then n else n - Pow256(w)
  {
    DecodeEncode(if i < 0 then i + Pow256(w) else i, w);
  }

  lemma CharBack(i: nat, b: bytes)
    requires IsScalar(i) && b == LE(i, 3)
    ensures |b| == 3 && FromLE(b[..3]) == i
  {
    Widths();
    assert Pow256(3) == 256 * Pow256(2);
    DecodeEncode(i, 3);
    assert b[..3] == b;
  }

  /** Decoding inverts encoding, at every type. */
  lemma {:induction false} RoundTrip(ty: Ty, v: Val)
    requires HasType(ty, v) && Encodable(ty, v)
    ensures Dec(ty, Enc(ty, v)) == Some(v)
    decreases ty, 0
  {
    match ty
    case UInt(_) => ScalarBack(ty, v);
    case SInt(_) => ScalarBack(ty, v);
    case Char => ScalarBack(ty, v);
    case Opt(t) =>
      if v.VSome? {
        RoundTrip(t, v.v);
        assert Enc(ty, v)[1..] == Enc(t, v.v);
      }
    case Arr(n, t) => ArrRoundTrip(n, t, v);
    case Vec(t) => VecRoundTrip(t, v);
    case _ =>
  }

  lemma {:induction false} ArrRoundTrip(n: nat, t: Ty, v: Val)
    requires HasType(Arr(n, t), v) && Encodable(Arr(n, t), v)
    ensures Dec(Arr(n, t), Enc(Arr(n, t), v)) == Some(v)
    decreases t, n + 2
  {
    var xs, b := EncEach(t, v.items), Enc(Arr(n, t), v);
    EachEncodes(t, v.items);
    hide Width, Encodes, EncEach;
    if Width(t).Some? { FixedRoundTrip(t, v.items, xs, b); }
    else {
      assert v.items[0..] == v.items && xs[..0] == [];
      EndsRoundTrip(t, v.items, xs, b, 0);
    }
  }

  lemma {:induction false} VecRoundTrip(t: Ty, v: Val)
    requires HasType(Vec(t), v) && Encodable(Vec(t), v)
    ensures Dec(Vec(t), Enc(Vec(t), v)) == Some(v)
    decreases t, |v.items| + 2
  {
    var xs, b := EncEach(t, v.items), Enc(Vec(t), v);
    EachEncodes(t, v.items);
    var body := if Width(t).Some? then Concat(xs) else Prefixed(xs);
    VarintRoundTrip(|xs|, body);
    assert b[|Varint(|xs|)|..] == body;
    if Width(t).Some? { FixedRoundTrip(t, v.items, xs, body); }
    else {
      forall i | 0 <= i < |xs| ensures |xs[i]| < USIZE { assert xs[i] == Enc(t, v.items[i]); }
      PrefixedRoundTrip(t, v.items, xs, body);
    }
  }

  lemma {:induction false} FixedRoundTrip(t: Ty, vs: seq<Val>, xs: seq<bytes>, b: bytes)
    requires Encodes(t, vs, xs) && Width(t).Some? && b == Concat(xs)
    ensures DecFixed(t, Width(t).value, b, |vs|) == Some(vs)
    decreases t, |vs| + 1
  {
    hide Encodable, Enc, HasType, Dec, Width;
    if vs != [] {
      EncodesTail(t, vs, xs);
      assert xs[0] == Enc(t, vs[0]);
      RoundTrip(t, vs[0]);
      FixedRoundTrip(t, vs[1..], xs[1..], Concat(xs[1..]));
      assert b[..|xs[0]|] == xs[0] && b[|xs[0]|..] == Concat(xs[1..]);
      assert vs == [vs[0]] + vs[1..];
    }
  }

  lemma {:induction false} PrefixedRoundTrip(t: Ty, vs: seq<Val>, xs: seq<bytes>, b: bytes)
    requires Encodes(t, vs, xs) && b == Prefixed(xs) && forall i {:trigger xs[i]} :: 0 <= i < |xs| ==> |xs[i]| < USIZE
    ensures DecPrefixed(t, b, |vs|) == Some(vs)
    decreases t, |vs| + 1
  {
    hide Encodable, Enc, HasType, Dec, Width, Varint, ReadVarint;
    if vs != [] {
      EncodesTail(t, vs, xs);
      assert xs[0] == Enc(t, vs[0]);
      RoundTrip(t, vs[0]);
      PrefixedRoundTrip(t, vs[1..], xs[1..], Prefixed(xs[1..]));
      ItemAhead(b, xs[0], Prefixed(xs[1..]));
      assert vs == [vs[0]] + vs[1..];
    }
  }

  /** A length-prefixed item at the front. */
  lemma ItemAhead(b: bytes, x: bytes, more: bytes)
    requires |x| < USIZE && b == Varint(|x|) + x + more
    ensures ReadVarint(b) == Some(Read(|x|, |Varint(|x|)|))
    ensures var at := |Varint(|x|)|; at + |x| <= |b| && b[at..at + |x|] == x && b[at + |x|..] == more
  {
    hide ReadVarint, Varint;
    Assoc(Varint(|x|), x, more);
    VarintRoundTrip(|x|, x + more);
    Slices(Varint(|x|), x, more);
  }

  lemma {:induction false} EndsRoundTrip(t: Ty, vs: seq<Val>, xs: seq<bytes>, b: bytes, i: nat)
    requires Encodes(t, vs, xs) && b == Ends(xs, 4 * |xs|) + Concat(xs) && |b| < 0x1_0000_0000 && i <= |xs|
    ensures DecByEnds(t, b, i, |xs|, Start(xs, i)) == Some(vs[i..])
    decreases t, |xs| - i + 1
  {
    hide Encodable, Enc, HasType, Dec, Width, LE, FromLE, Concat, Ends;
    if i < |xs| {
      ItemByEnds(xs, i, b);
      assert xs[i] == Enc(t, vs[i]);
      RoundTrip(t, vs[i]);
      EndsRoundTrip(t, vs, xs, b, i + 1);
      assert vs[i..] == [vs[i]] + vs[i + 1..];
    }
  }

  // ── Order ──────────────────────────────────────────────────────────────────

  function CmpInt(a: int, b: int): Ordering { if a < b then Less else if a == b then Equal else Greater }

  function CmpBytes(a: bytes, b: bytes): Ordering
    decreases |a|
  {
    if a == [] then (if b == [] then Equal else Less)
    else if b == [] then Greater
    else if a[0] != b[0] then CmpInt(a[0], b[0])
    else CmpBytes(a[1..], b[1..])
  }

  /** The structural order on values of one type: lists element by element, a prefix first, `None` first. */
  function Cmp(ty: Ty, a: Val, b: Val): Ordering
    requires HasType(ty, a) && HasType(ty, b)
    decreases ty, 0
  {
    match ty
    case Unit => Equal
    case Bool => CmpInt(if a.b then 1 else 0, if b.b then 1 else 0)
    case UInt(_) => CmpInt(a.i, b.i)
    case SInt(_) => CmpInt(a.i, b.i)
    case Char => CmpInt(a.i, b.i)
    case Bytes => CmpBytes(a.s, b.s)
    case FixedBytes(_) => CmpBytes(a.s, b.s)
    case Opt(t) =>
      if a.VNone? then (if b.VNone? then Equal else Less) else if b.VNone? then Greater else Cmp(t, a.v, b.v)
    case Arr(_, t) => CmpList(t, a.items, b.items)
    case Vec(t) => CmpList(t, a.items, b.items)
  }

  function CmpList(t: Ty, xs: seq<Val>, ys: seq<Val>): Ordering
    requires AllTyped(t, xs) && AllTyped(t, ys)
    decreases t, |xs| + 1
  {
    if xs == [] then (if ys == [] then Equal else Less)
    else if ys == [] then Greater
    else if Cmp(t, xs[0], ys[0]) != Equal then Cmp(t, xs[0], ys[0])
    else CmpList(t, xs[1..], ys[1..])
  }

  function Flip(o: Ordering): Ordering { match o case Less => Greater case Equal => Equal case Greater => Less }

  lemma {:induction false} CmpBytesLaws(a: bytes, b: bytes, c: bytes)
    ensures CmpBytes(a, b) == Equal <==> a == b
    ensures CmpBytes(b, a) == Flip(CmpBytes(a, b))
    ensures CmpBytes(a, b) == Less && CmpBytes(b, c) == Less ==> CmpBytes(a, c) == Less
    decreases |a|
  {
    if a != [] && b != [] {
      CmpBytesLaws(a[1..], b[1..], if c == [] then [] else c[1..]);
      assert a == [a[0]] + a[1..] && b == [b[0]] + b[1..];
    }
  }

  /** Equality, antisymmetry and transitivity: a total order at every type. */
  lemma {:induction false} CmpLaws(ty: Ty, a: Val, b: Val, c: Val)
    requires HasType(ty, a) && HasType(ty, b) && HasType(ty, c)
    ensures Cmp(ty, a, b) == Equal <==> a == b
    ensures Cmp(ty, b, a) == Flip(Cmp(ty, a, b))
    ensures Cmp(ty, a, b) == Less && Cmp(ty, b, c) == Less ==> Cmp(ty, a, c) == Less
    decreases ty, 0
  {
    match ty
    case Bytes => CmpBytesLaws(a.s, b.s, c.s);
    case FixedBytes(_) => CmpBytesLaws(a.s, b.s, c.s);
    case Opt(t) => if a.VSome? && b.VSome? { CmpLaws(t, a.v, b.v, if c.VSome? then c.v else a.v); }
    case Arr(_, t) => CmpListLaws(t, a.items, b.items, c.items);
    case Vec(t) => CmpListLaws(t, a.items, b.items, c.items);
    case _ =>
  }

  lemma {:induction false} CmpListLaws(t: Ty, xs: seq<Val>, ys: seq<Val>, zs: seq<Val>)
    requires AllTyped(t, xs) && AllTyped(t, ys) && AllTyped(t, zs)
    ensures CmpList(t, xs, ys) == Equal <==> xs == ys
    ensures CmpList(t, ys, xs) == Flip(CmpList(t, xs, ys))
    ensures CmpList(t, xs, ys) == Less && CmpList(t, ys, zs) == Less ==> CmpList(t, xs, zs) == Less
    decreases t, |xs| + 1
  {
    hide Cmp, HasType;
    if xs != [] && ys != [] {
      CmpLaws(t, xs[0], ys[0], if zs == [] then xs[0] else zs[0]);
      if zs != [] { CmpLaws(t, ys[0], zs[0], xs[0]); CmpLaws(t, xs[0], zs[0], ys[0]); }
      CmpListLaws(t, xs[1..], ys[1..], if zs == [] then [] else zs[1..]);
      assert xs == [xs[0]] + xs[1..] && ys == [ys[0]] + ys[1..];
    }
  }

  // ── The same order, said directly ──────────────────────────────────────────

  /** The strings agree before `i` and `a` is smaller there. */
  ghost predicate SmallerAt(a: bytes, b: bytes, i: nat) { i < |a| && i < |b| && a[..i] == b[..i] && a[i] < b[i] }

  /** A proper prefix, or smaller at the first difference. */
  ghost predicate BytesBefore(a: bytes, b: bytes) { a < b || exists i: nat :: SmallerAt(a, b, i) }

  ghost predicate BeforeAt(t: Ty, xs: seq<Val>, ys: seq<Val>, i: nat)
    requires AllTyped(t, xs) && AllTyped(t, ys)
    decreases t, 1
  {
    i < |xs| && i < |ys| && xs[..i] == ys[..i] && Before(t, xs[i], ys[i])
  }

  ghost predicate ListBefore(t: Ty, xs: seq<Val>, ys: seq<Val>)
    requires AllTyped(t, xs) && AllTyped(t, ys)
    decreases t, 2
  {
    xs < ys || exists i: nat :: BeforeAt(t, xs, ys, i)
  }

  /**
  What comes before what, type by type: numbers and characters by value, false before true,
  `None` before every `Some`, and strings and lists by a proper prefix or the first difference.
  */
  ghost predicate Before(ty: Ty, a: Val, b: Val)
    requires HasType(ty, a) && HasType(ty, b)
    decreases ty, 0
  {
    match ty
    case Unit => false
    case Bool => !a.b && b.b
    case UInt(_) => a.i < b.i
    case SInt(_) => a.i < b.i
    case Char => a.i < b.i
    case Bytes => BytesBefore(a.s, b.s)
    case FixedBytes(_) => BytesBefore(a.s, b.s)
    case Opt(t) => b.VSome? && (a.VNone? || Before(t, a.v, b.v))
    case Arr(_, t) => ListBefore(t, a.items, b.items)
    case Vec(t) => ListBefore(t, a.items, b.items)
  }

  /** The three answers, told from that order alone. */
  ghost predicate Says(ty: Ty, a: Val, b: Val, r: Ordering)
    requires HasType(ty, a) && HasType(ty, b)
  {
    (r == Less <==> Before(ty, a, b)) && (r == Equal <==> a == b) && (r == Greater <==> Before(ty, b, a))
  }

  lemma {:induction false} BytesLess(a: bytes, b: bytes)
    ensures CmpBytes(a, b) == Less <==> BytesBefore(a, b)
    decreases |a|
  {
    if a != [] && b != [] {
      var x, y := a[1..], b[1..];
      BytesLess(x, y);
      assert a == [a[0]] + x && b == [b[0]] + y;
      if a[0] < b[0] { assert SmallerAt(a, b, 0); }
      if a[0] == b[0] {
        if i: nat :| SmallerAt(x, y, i) {
          assert a[..i + 1] == [a[0]] + x[..i] && b[..i + 1] == [b[0]] + y[..i];
          assert SmallerAt(a, b, i + 1);
        }
      }
      if i: nat :| SmallerAt(a, b, i) {
        if i > 0 {
          assert a[..i][0] == a[0] && b[..i][0] == b[0];
          assert x[..i - 1] == a[..i][1..] && y[..i - 1] == b[..i][1..];
          assert SmallerAt(x, y, i - 1);
        }
      }
    }
  }

  /** The first difference is at the front, or it is the first difference of the tails. */
  lemma ListBeforeUp(t: Ty, xs: seq<Val>, ys: seq<Val>)
    requires AllTyped(t, xs) && AllTyped(t, ys) && xs != [] && ys != []
    requires Before(t, xs[0], ys[0]) || (xs[0] == ys[0] && ListBefore(t, xs[1..], ys[1..]))
    ensures ListBefore(t, xs, ys)
  {
    hide HasType, Before;
    var us, vs := xs[1..], ys[1..];
    assert xs == [xs[0]] + us && ys == [ys[0]] + vs;
    if Before(t, xs[0], ys[0]) { assert BeforeAt(t, xs, ys, 0); }
    else if i: nat :| BeforeAt(t, us, vs, i) {
      assert xs[..i + 1] == [xs[0]] + us[..i] && ys[..i + 1] == [ys[0]] + vs[..i];
      assert BeforeAt(t, xs, ys, i + 1);
    }
  }

  lemma ListBeforeDown(t: Ty, xs: seq<Val>, ys: seq<Val>)
    requires AllTyped(t, xs) && AllTyped(t, ys) && xs != [] && ys != [] && ListBefore(t, xs, ys)
    ensures Before(t, xs[0], ys[0]) || (xs[0] == ys[0] && ListBefore(t, xs[1..], ys[1..]))
  {
    hide HasType, Before;
    var us, vs := xs[1..], ys[1..];
    if xs < ys { assert us < vs; }
    else {
      var i: nat :| BeforeAt(t, xs, ys, i);
      if i > 0 {
        assert xs[..i][0] == xs[0] && ys[..i][0] == ys[0];
        assert us[..i - 1] == xs[..i][1..] && vs[..i - 1] == ys[..i][1..];
        assert BeforeAt(t, us, vs, i - 1);
      }
    }
  }

  lemma {:induction false} ListLess(t: Ty, xs: seq<Val>, ys: seq<Val>)
    requires AllTyped(t, xs) && AllTyped(t, ys)
    ensures CmpList(t, xs, ys) == Less <==> ListBefore(t, xs, ys)
    decreases t, |xs| + 1
  {
    if xs != [] && ys != [] {
      ListLess(t, xs[1..], ys[1..]);
      ValueLess(t, xs[0], ys[0]);
      CmpLaws(t, xs[0], ys[0], xs[0]);
      hide Cmp, HasType, Before, ListBefore;
      if CmpList(t, xs, ys) == Less { ListBeforeUp(t, xs, ys); }
      if ListBefore(t, xs, ys) { ListBeforeDown(t, xs, ys); }
    }
  }

  lemma {:induction false} ValueLess(ty: Ty, a: Val, b: Val)
    requires HasType(ty, a) && HasType(ty, b)
    ensures Cmp(ty, a, b) == Less <==> Before(ty, a, b)
    decreases ty, 0
  {
    match ty
    case Bytes => BytesLess(a.s, b.s);
    case FixedBytes(_) => BytesLess(a.s, b.s);
    case Opt(t) => if a.VSome? && b.VSome? { ValueLess(t, a.v, b.v); }
    case Arr(_, t) => ListLess(t, a.items, b.items);
    case Vec(t) => ListLess(t, a.items, b.items);
    case _ =>
  }

  /** The structural comparison is that order, at every type. */
  lemma CmpSays(ty: Ty, a: Val, b: Val)
    requires HasType(ty, a) && HasType(ty, b)
    ensures Says(ty, a, b, Cmp(ty, a, b))
  {
    ValueLess(ty, a, b);
    ValueLess(ty, b, a);
    CmpLaws(ty, a, b, a);
    hide Cmp, Before, HasType;
  }

  // ── Byte-level comparison ──────────────────────────────────────────────────

  /** Slice comparison. */
  method CompareBytes(a: bytes, b: bytes) returns (r: Ordering)
    ensures r == CmpBytes(a, b)
  {
    var i := 0;
    while i < |a| && i < |b|
      invariant 0 <= i <= |a| && i <= |b|
      invariant CmpBytes(a, b) == CmpBytes(a[i..], b[i..])
    {
      assert a[i..][0] == a[i] && b[i..][0] == b[i] && a[i..][1..] == a[i + 1..] && b[i..][1..] == b[i + 1..];
      if a[i] != b[i] { return CmpInt(a[i], b[i]); }
      i := i + 1;
    }
    return CmpInt(|a|, |b|);
  }

  /** `Key::compare` works on encodings; `a` and `b` are the values they stand for. */
  method Compare(ty: Ty, d1: bytes, d2: bytes, ghost a: Val, ghost b: Val) returns (r: Ordering)
    requires HasType(ty, a) && HasType(ty, b) && Encodable(ty, a) && Encodable(ty, b) && d1 == Enc(ty, a) && d2 == Enc(ty, b)
    ensures r == Cmp(ty, a, b) && Says(ty, a, b, r)
    decreases ty, 1
  {
    CmpSays(ty, a, b);
    hide Says, Before;
    match ty
    case Unit => r := Equal;
    case Bool => r := CmpInt(d1[0], d2[0]);
    case UInt(_) => r := CompareScalar(ty, d1, d2, a, b);
    case SInt(_) => r := CompareScalar(ty, d1, d2, a, b);
    case Char => r := CompareScalar(ty, d1, d2, a, b);
    case Bytes => r := CompareBytes(d1, d2);
    case FixedBytes(_) => r := CompareBytes(d1, d2);
    case Opt(t) =>
      if d1[0] == 0 { r := if d2[0] == 0 then Equal else Less; }
      else if d2[0] == 0 { r := Greater; }
      else {
        assert d1[1..] == Enc(t, a.v) && d2[1..] == Enc(t, b.v);
        r := Compare(t, d1[1..], d2[1..], a.v, b.v);
      }
    case Arr(n, t) => r := CompareArr(n, t, d1, d2, a, b);
    case Vec(t) => r := CompareVec(t, d1, d2, a, b);
  }

  method CompareScalar(ty: Ty, d1: bytes, d2: bytes, ghost a: Val, ghost b: Val) returns (r: Ordering)
    requires (ty.UInt? || ty.SInt? || ty.Char?) && HasType(ty, a) && HasType(ty, b) && d1 == Enc(ty, a) && d2 == Enc(ty, b)
    ensures r == Cmp(ty, a, b)
  {
    ScalarBack(ty, a);
    ScalarBack(ty, b);
    r := CmpInt(Dec(ty, d1).value.i, Dec(ty, d2).value.i);
  }

  method CompareArr(n: nat, t: Ty, d1: bytes, d2: bytes, ghost a: Val, ghost b: Val) returns (r: Ordering)
    requires HasType(Arr(n, t), a) && HasType(Arr(n, t), b) && Encodable(Arr(n, t), a) && Encodable(Arr(n, t), b)
    requires d1 == Enc(Arr(n, t), a) && d2 == Enc(Arr(n, t), b)
    ensures r == CmpList(t, a.items, b.items)
    decreases t, 3
  {
    ghost var us, vs, xs, ys := a.items, b.items, EncEach(t, a.items), EncEach(t, b.items);
    EachEncodes(t, us);
    EachEncodes(t, vs);
    assert us[..n] == us && vs[..n] == vs;
    if Width(t).Some? {
      assert d1[0..] == d1 && d2[0..] == d2;
      r := CompareFixed(t, Width(t).value, d1, d2, 0, 0, n, us, vs, xs, ys);
    } else { r := CompareByEnds(t, d1, d2, n, us, vs, xs, ys); }
  }

  method CompareVec(t: Ty, d1: bytes, d2: bytes, ghost a: Val, ghost b: Val) returns (r: Ordering)
    requires HasType(Vec(t), a) && HasType(Vec(t), b) && Encodable(Vec(t), a) && Encodable(Vec(t), b)
    requires d1 == Enc(Vec(t), a) && d2 == Enc(Vec(t), b)
    ensures r == CmpList(t, a.items, b.items)
    decreases t, 3
  {
    ghost var us, vs, xs, ys := a.items, b.items, EncEach(t, a.items), EncEach(t, b.items);
    EachEncodes(t, us);
    EachEncodes(t, vs);
    assert forall i {:trigger xs[i]} :: 0 <= i < |xs| ==> xs[i] == Enc(t, us[i]) && |xs[i]| < USIZE;
    assert forall i {:trigger ys[i]} :: 0 <= i < |ys| ==> ys[i] == Enc(t, vs[i]) && |ys[i]| < USIZE;
    hide HasType, Encodable, Enc, EncEach, Cmp, Encodes;
    var c1 := VecCount(d1, Width(t).Some?, xs);
    var c2 := VecCount(d2, Width(t).Some?, ys);
    var common := if c1.value < c2.value then c1.value else c2.value;
    if Width(t).Some? {
      r := CompareFixed(t, Width(t).value, d1, d2, c1.used, c2.used, common, us, vs, xs, ys);
    } else {
      r := ComparePrefixed(t, d1, d2, c1.used, c2.used, common, us, vs, xs, ys);
    }
    PrefixOrder(t, us, vs, common);
    if r == Equal { r := CmpInt(c1.value, c2.value); }
  }

  /** The count in front of a `Vec`, and what follows it. */
  method VecCount(d: bytes, isFixed: bool, ghost xs: seq<bytes>) returns (r: Read)
    requires d == Counted(isFixed, xs) && |xs| < USIZE
    ensures r.value == |xs| && r.used <= |d| && d[r.used..] == if isFixed then Concat(xs) else Prefixed(xs)
  {
    ghost var body := if isFixed then Concat(xs) else Prefixed(xs);
    VarintRoundTrip(|xs|, body);
    assert d[0..] == d && d[|Varint(|xs|)|..] == body;
    var c := DecodeVarint(d, 0);
    r := c.value;
  }

  /** Lists agreeing on their first `n` items compare by those, then by length. */
  lemma {:induction false} PrefixOrder(t: Ty, us: seq<Val>, vs: seq<Val>, n: nat)
    requires AllTyped(t, us) && AllTyped(t, vs) && (n == |us| <= |vs| || n == |vs| <= |us|)
    ensures var r := CmpList(t, us[..n], vs[..n]); CmpList(t, us, vs) == if r == Equal then CmpInt(|us|, |vs|) else r
    decreases n
  {
    hide Cmp, HasType;
    if n > 0 {
      PrefixOrder(t, us[1..], vs[1..], n - 1);
      assert us[..n][1..] == us[1..][..n - 1] && vs[..n][1..] == vs[1..][..n - 1];
    }
  }

  lemma StepList(t: Ty, us: seq<Val>, vs: seq<Val>, n: nat, i: nat)
    requires AllTyped(t, us) && AllTyped(t, vs) && i < n <= |us| && n <= |vs|
    ensures CmpList(t, us[..n][i..], vs[..n][i..])
            == if Cmp(t, us[i], vs[i]) != Equal then Cmp(t, us[i], vs[i]) else CmpList(t, us[..n][i + 1..], vs[..n][i + 1..])
  {
    hide Cmp, HasType;
    var a, b := us[..n][i..], vs[..n][i..];
    assert a[0] == us[i] && b[0] == vs[i] && a[1..] == us[..n][i + 1..] && b[1..] == vs[..n][i + 1..];
  }

  /** Nothing left to compare; nothing compared yet. */
  lemma ListEnds(t: Ty, us: seq<Val>, vs: seq<Val>, n: nat)
    requires AllTyped(t, us) && AllTyped(t, vs) && n <= |us| && n <= |vs|
    ensures CmpList(t, us[..n][n..], vs[..n][n..]) == Equal
    ensures us[..n][0..] == us[..n] && vs[..n][0..] == vs[..n]
  {
  }

  lemma NextFixed(xs: seq<bytes>, d: bytes, off: nat, i: nat)
    requires i < |xs| && off <= |d| && d[off..] == Concat(xs[i..])
    ensures var end := off + |xs[i]|; end <= |d| && d[off..end] == xs[i] && d[end..] == Concat(xs[i + 1..])
  {
    assert xs[i..][0] == xs[i] && xs[i..][1..] == xs[i + 1..];
    var b, x, more := d[off..], xs[i], Concat(xs[i + 1..]);
    assert b == x + more;
    hide *;
    assert b[..|x|] == x && b[|x|..] == more;
    assert d[off..off + |x|] == b[..|x|] && d[off + |x|..] == b[|x|..];
  }

  /** Item by item at a fixed width; `n` items of each side are looked at. */
  method CompareFixed(t: Ty, w: nat, d1: bytes, d2: bytes, from1: nat, from2: nat, n: nat,
                      ghost us: seq<Val>, ghost vs: seq<Val>, ghost xs: seq<bytes>, ghost ys: seq<bytes>)
    returns (r: Ordering)
    requires Encodes(t, us, xs) && Encodes(t, vs, ys) && AllTyped(t, us) && AllTyped(t, vs)
    requires n <= |xs| && n <= |ys| && Width(t) == Some(w)
    requires from1 <= |d1| && from2 <= |d2| && d1[from1..] == Concat(xs) && d2[from2..] == Concat(ys)
    ensures r == CmpList(t, us[..n], vs[..n])
    decreases t, 2
  {
    hide Cmp, CmpList, HasType, Enc, Encodable, Concat;
    var off1: nat, off2: nat := from1, from2;
    assert xs[0..] == xs && ys[0..] == ys;
    ListEnds(t, us, vs, n);
    for i := 0 to n
      invariant off1 <= |d1| && off2 <= |d2| && d1[off1..] == Concat(xs[i..]) && d2[off2..] == Concat(ys[i..])
      invariant CmpList(t, us[..n], vs[..n]) == CmpList(t, us[..n][i..], vs[..n][i..])
    {
      NextFixed(xs, d1, off1, i);
      NextFixed(ys, d2, off2, i);
      StepList(t, us, vs, n, i);
      assert xs[i] == Enc(t, us[i]) && ys[i] == Enc(t, vs[i]) && |xs[i]| == w == |ys[i]|;
      var c := Compare(t, d1[off1..off1 + w], d2[off2..off2 + w], us[i], vs[i]);
      if c != Equal { return c; }
      off1, off2 := off1 + w, off2 + w;
    }
    return Equal;
  }

  method ComparePrefixed(t: Ty, d1: bytes, d2: bytes, from1: nat, from2: nat, n: nat,
                         ghost us: seq<Val>, ghost vs: seq<Val>, ghost xs: seq<bytes>, ghost ys: seq<bytes>)
    returns (r: Ordering)
    requires Encodes(t, us, xs) && Encodes(t, vs, ys) && AllTyped(t, us) && AllTyped(t, vs) && n <= |xs| && n <= |ys|
    requires forall i {:trigger xs[i]} :: 0 <= i < |xs| ==> |xs[i]| < USIZE
    requires forall i {:trigger ys[i]} :: 0 <= i < |ys| ==> |ys[i]| < USIZE
    requires from1 <= |d1| && from2 <= |d2| && d1[from1..] == Prefixed(xs) && d2[from2..] == Prefixed(ys)
    ensures r == CmpList(t, us[..n], vs[..n])
    decreases t, 2
  {
    hide Cmp, CmpList, HasType, Enc, Encodable, Prefixed, Width;
    var off1: nat, off2: nat := from1, from2;
    assert xs[0..] == xs && ys[0..] == ys;
    ListEnds(t, us, vs, n);
    for i := 0 to n
      invariant off1 <= |d1| && off2 <= |d2| && d1[off1..] == Prefixed(xs[i..]) && d2[off2..] == Prefixed(ys[i..])
      invariant CmpList(t, us[..n], vs[..n]) == CmpList(t, us[..n][i..], vs[..n][i..])
    {
      StepList(t, us, vs, n, i);
      assert xs[i] == Enc(t, us[i]) && ys[i] == Enc(t, vs[i]);
      var at1, end1 := NextPrefixed(d1, off1, xs, i);
      var at2, end2 := NextPrefixed(d2, off2, ys, i);
      var c := Compare(t, d1[at1..end1], d2[at2..end2], us[i], vs[i]);
      if c != Equal { return c; }
      off1, off2 := end1, end2;
    }
    return Equal;
  }

  /** Reads one length prefix: the item lies in [at, end). */
  method NextPrefixed(d: bytes, off: nat, ghost xs: seq<bytes>, ghost i: nat) returns (at: nat, end: nat)
    requires i < |xs| && |xs[i]| < USIZE && off <= |d| && d[off..] == Prefixed(xs[i..])
    ensures at <= end <= |d| && d[at..end] == xs[i] && d[end..] == Prefixed(xs[i + 1..])
  {
    ghost var b, x, more := d[off..], xs[i], Prefixed(xs[i + 1..]);
    assert xs[i..][0] == xs[i] && xs[i..][1..] == xs[i + 1..];
    assert b == Varint(|x|) + x + more;
    hide *;
    var len := DecodeVarint(d, off);
    ItemAhead(b, x, more);
    at := off + len.value.used;
    end := at + len.value.value;
    SubSlices(d, off, len.value.used, len.value.value);
  }

  lemma SubSlices(b: bytes, off: nat, k: nat, m: nat)
    requires off + k + m <= |b|
    ensures b[off..][k..k + m] == b[off + k..off + k + m] && b[off..][k + m..] == b[off + k + m..]
  {
  }

  method CompareByEnds(t: Ty, d1: bytes, d2: bytes, n: nat,
                       ghost us: seq<Val>, ghost vs: seq<Val>, ghost xs: seq<bytes>, ghost ys: seq<bytes>)
    returns (r: Ordering)
    requires Encodes(t, us, xs) && Encodes(t, vs, ys) && AllTyped(t, us) && AllTyped(t, vs) && |us| == |vs| == n
    requires d1 == Ends(xs, 4 * |xs|) + Concat(xs) && d2 == Ends(ys, 4 * |ys|) + Concat(ys)
    requires |d1| < 0x1_0000_0000 && |d2| < 0x1_0000_0000
    ensures r == CmpList(t, us[..n], vs[..n])
    decreases t, 2
  {
    hide Cmp, CmpList, HasType, Enc, Encodable, Concat, Ends, Width, Start, LE, FromLE;
    var start1: nat, start2: nat := 4 * n, 4 * n;
    ListEnds(t, us, vs, n);
    StartsAtTable(xs);
    StartsAtTable(ys);
    for i := 0 to n
      invariant start1 == Start(xs, i) && start2 == Start(ys, i)
      invariant CmpList(t, us[..n], vs[..n]) == CmpList(t, us[..n][i..], vs[..n][i..])
    {
      StepList(t, us, vs, n, i);
      assert xs[i] == Enc(t, us[i]) && ys[i] == Enc(t, vs[i]);
      var end1 := EndOf(d1, i, start1, xs);
      var end2 := EndOf(d2, i, start2, ys);
      var c := Compare(t, d1[start1..end1], d2[start2..end2], us[i], vs[i]);
      if c != Equal { return c; }
      start1, start2 := end1, end2;
    }
    return Equal;
  }

  lemma StartsAtTable(xs: seq<bytes>)
    ensures Start(xs, 0) == 4 * |xs|
  {
    assert xs[..0] == [];
  }

  /** Reads the end offset of item `i`. */
  method EndOf(d: bytes, i: nat, start: nat, ghost xs: seq<bytes>) returns (end: nat)
    requires i < |xs| && d == Ends(xs, 4 * |xs|) + Concat(xs) && |d| < 0x1_0000_0000 && start == Start(xs, i)
    ensures end == Start(xs, i + 1) && start <= end <= |d| && d[start..end] == xs[i]
  {
    ItemByEnds(xs, i, d);
    end := FromLE(d[4 * i..4 * i + 4]);
  }

  // ── The encoders and decoders as the source runs them ──────────────────────

  /** `Value::as_bytes`. */
  method Encode(ty: Ty, v: Val) returns (b: bytes)
    requires HasType(ty, v)
    ensures b == Enc(ty, v)
    decreases ty, 1
  {
    match ty
    case Opt(t) =>
      if v.VSome? {
        var x := Encode(t, v.v);
        b := [1] + x;
      } else {
        b := [0] + (if Width(t).Some? then Zeros(Width(t).value) else []);
      }
    case Arr(n, t) =>
      if Width(t).Some? { b := EncodeAll(t, v.items); } else { b := EncodeWithEnds(t, v.items); }
    case Vec(t) =>
      b := EncodeVarint(|v.items|);
      if Width(t).Some? {
        var body := EncodeAll(t, v.items);
        b := b + body;
      } else {
        var body := EncodePrefixed(t, v.items);
        b := b + body;
      }
    case _ => b := Enc(ty, v);
  }

  method EncodeAll(t: Ty, vs: seq<Val>) returns (b: bytes)
    requires AllTyped(t, vs)
    ensures b == Concat(EncEach(t, vs))
    decreases t, 2
  {
    ghost var xs := EncEach(t, vs);
    hide Enc, HasType, Concat;
    b := [];
    ConcatNone(xs);
    for i := 0 to |vs|
      invariant b == Concat(xs[..i])
    {
      var x := Encode(t, vs[i]);
      assert x == xs[i];
      Around(xs, i);
      ConcatSnoc(xs[..i], x);
      b := b + x;
    }
    assert xs[..|vs|] == xs;
  }

  lemma ConcatNone(xs: seq<bytes>)
    ensures Concat(xs[..0]) == [] && Prefixed(xs[|xs|..]) == [] && xs[0..] == xs
  {
  }

  method EncodePrefixed(t: Ty, vs: seq<Val>) returns (b: bytes)
    requires AllTyped(t, vs)
    ensures b == Prefixed(EncEach(t, vs))
    decreases t, 2
  {
    ghost var xs := EncEach(t, vs);
    hide Enc, HasType, Varint;
    b := [];
    ConcatNone(xs);
    assert [] + Prefixed(xs) == Prefixed(xs);
    for i := 0 to |vs|
      invariant b + Prefixed(xs[i..]) == Prefixed(xs)
    {
      var x := Encode(t, vs[i]);
      var len := EncodeVarint(|x|);
      assert x == xs[i] && xs[i..][0] == x && xs[i..][1..] == xs[i + 1..];
      Assoc(b, len + x, Prefixed(xs[i + 1..]));
      b := b + (len + x);
    }
    assert b + [] == b;
  }

  /** The end offsets are patched into the front as the items are appended. */
  method EncodeWithEnds(t: Ty, vs: seq<Val>) returns (b: bytes)
    requires AllTyped(t, vs)
    ensures b == Ends(EncEach(t, vs), 4 * |vs|) + Concat(EncEach(t, vs))
    decreases t, 2
  {
    ghost var xs := EncEach(t, vs);
    var n := |vs|;
    b := Zeros(4 * n);
    assert xs[..0] == [] && b == Ends([], 4 * n) + Zeros(4 * n) + Concat([]);
    hide Enc, HasType, Concat, Ends, LE, Zeros;
    for i := 0 to n
      invariant b == Table(xs, n, i)
    {
      var x := Encode(t, vs[i]);
      assert x == xs[i];
      TableStep(xs, n, i, b);
      b := b + x;
      b := b[..4 * i] + LE(|b|, 4) + b[4 * i + 4..];
    }
    assert xs[..n] == xs;
    NoZeros(Ends(xs, 4 * n), Concat(xs));
  }

  /** The buffer after `i` of `n` items. */
  ghost function Table(xs: seq<bytes>, n: nat, i: nat): bytes
    requires i <= |xs| && i <= n
  {
    Ends(xs[..i], 4 * n) + Zeros(4 * (n - i)) + Concat(xs[..i])
  }

  lemma TableStep(xs: seq<bytes>, n: nat, i: nat, b: bytes)
    requires i < n == |xs| && b == Table(xs, n, i)
    ensures var b' := b + xs[i]; 4 * i + 4 <= |b'| && b'[..4 * i] + LE(|b'|, 4) + b'[4 * i + 4..] == Table(xs, n, i + 1)
  {
    Around(xs, i);
    ConcatSnoc(xs[..i], xs[i]);
    EndsSnoc(xs[..i], xs[i], 4 * n);
    var table, data, end := Ends(xs[..i], 4 * n), Concat(xs[..i]), LE(|b| + |xs[i]|, 4);
    assert |table| == 4 * i && b == table + Zeros(4 * (n - i)) + data;
    assert Table(xs, n, i + 1) == (table + end) + Zeros(4 * (n - i - 1)) + (data + xs[i]);
    hide *;
    PatchTable(table, data, xs[i], end, n - i);
  }

  lemma NoZeros(table: bytes, data: bytes)
    ensures table + Zeros(0) + data == table + data
  {
  }

  lemma PatchTable(table: bytes, data: bytes, x: bytes, end: bytes, left: nat)
    requires left > 0 && |end| == 4
    ensures var b := table + Zeros(4 * left) + data + x;
            b[..|table|] + end + b[|table| + 4..] == (table + end) + Zeros(4 * (left - 1)) + (data + x)
  {
  }

  function Prepend(vs: seq<Val>, rest: Option<seq<Val>>): Option<seq<Val>> {
    if rest.Some? then Some(vs + rest.value) else None
  }

  lemma PrependStep(vs: seq<Val>, v: Val, rest: Option<seq<Val>>)
    ensures Prepend(vs, Cons(Some(v), rest)) == Prepend(vs + [v], rest)
  {
    if rest.Some? { assert vs + ([v] + rest.value) == (vs + [v]) + rest.value; }
  }

  lemma PrependNil(rest: Option<seq<Val>>, vs: seq<Val>)
    ensures Prepend([], rest) == rest && Prepend(vs, Some([])) == Some(vs)
  {
    if rest.Some? { assert [] + rest.value == rest.value; }
    assert vs + [] == vs;
  }

  /** `Value::from_bytes`. */
  method Decode(ty: Ty, b: bytes) returns (r: Option<Val>)
    ensures r == Dec(ty, b)
    decreases ty, 1
  {
    match ty
    case Opt(t) =>
      if b == [] || b[0] > 1 { return None; }
      if b[0] == 0 { return Some(VNone); }
      var x := Decode(t, b[1..]);
      r := if x.Some? then Some(VSome(x.value)) else None;
    case Arr(n, t) =>
      if Width(t).Some? {
        var items := DecodeFixed(t, Width(t).value, b, n);
        r := Listed(items);
      } else if 4 * n <= |b| {
        var items := DecodeByEnds(t, b, n);
        r := Listed(items);
      } else { r := None; }
    case Vec(t) =>
      assert b[0..] == b;
      var c := DecodeVarint(b, 0);
      if c.None? || c.value.used > |b| { return None; }
      if Width(t).Some? {
        var items := DecodeFixed(t, Width(t).value, b[c.value.used..], c.value.value);
        r := Listed(items);
      } else {
        var items := DecodePrefixed(t, b[c.value.used..], c.value.value);
        r := Listed(items);
      }
    case _ => r := Dec(ty, b);
  }

  method DecodeFixed(t: Ty, w: nat, b: bytes, n: nat) returns (r: Option<seq<Val>>)
    ensures r == DecFixed(t, w, b, n)
    decreases t, 2
  {
    hide Dec;
    var items: seq<Val>, off: nat := [], 0;
    assert b[0..] == b;
    PrependNil(DecFixed(t, w, b, n), []);
    for i := 0 to n
      invariant off <= |b| && DecFixed(t, w, b, n) == Prepend(items, DecFixed(t, w, b[off..], n - i))
    {
      if |b| < off + w { return None; }
      assert b[off..][..w] == b[off..off + w] && b[off..][w..] == b[off + w..];
      var x := Decode(t, b[off..off + w]);
      if x.None? { return None; }
      PrependStep(items, x.value, DecFixed(t, w, b[off + w..], n - i - 1));
      items, off := items + [x.value], off + w;
    }
    PrependNil(None, items);
    return Some(items);
  }

  method DecodePrefixed(t: Ty, b: bytes, n: nat) returns (r: Option<seq<Val>>)
    ensures r == DecPrefixed(t, b, n)
    decreases t, 2
  {
    hide Dec, ReadVarint;
    var items: seq<Val>, off: nat := [], 0;
    assert b[0..] == b;
    PrependNil(DecPrefixed(t, b, n), []);
    for i := 0 to n
      invariant off <= |b| && DecPrefixed(t, b, n) == Prepend(items, DecPrefixed(t, b[off..], n - i))
    {
      var len := DecodeVarint(b, off);
      if len.None? { return None; }
      var at := off + len.value.used;
      var end := at + len.value.value;
      if |b| < end { return None; }
      SubSlices(b, off, len.value.used, len.value.value);
      var x := Decode(t, b[at..end]);
      if x.None? { return None; }
      PrependStep(items, x.value, DecPrefixed(t, b[end..], n - i - 1));
      items, off := items + [x.value], end;
    }
    PrependNil(None, items);
    return Some(items);
  }

  method DecodeByEnds(t: Ty, b: bytes, n: nat) returns (r: Option<seq<Val>>)
    requires 4 * n <= |b|
    ensures r == DecByEnds(t, b, 0, n, 4 * n)
    decreases t, 2
  {
    hide Dec, FromLE;
    var items: seq<Val>, start: nat := [], 4 * n;
    PrependNil(DecByEnds(t, b, 0, n, 4 * n), []);
    for i := 0 to n
      invariant DecByEnds(t, b, 0, n, 4 * n) == Prepend(items, DecByEnds(t, b, i, n, start))
    {
      var end := FromLE(b[4 * i..4 * i + 4]);
      if !(start <= end <= |b|) { return None; }
      var x := Decode(t, b[start..end]);
      if x.None? { return None; }
      PrependStep(items, x.value, DecByEnds(t, b, i + 1, n, end));
      items, start := items + [x.value], end;
    }
    PrependNil(None, items);
    return Some(items);
  }
}
