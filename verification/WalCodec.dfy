/**
The WAL record format (crates/storage/src/wal.rs): `append`'s serialization, the parser
`next_record`, and the torn-tail scan of `new_with_options`.  The checksum is any function
of the preceding bytes.
*/
module WalCodec {
  import opened Options
  import opened ByteTypes
  import opened LittleEndian
  import opened PageLayout

  type U32 = n: nat | n < 0x1_0000_0000
  type U64 = n: nat | n < 0x1_0000_0000_0000_0000
  type Page = b: bytes | |b| == PAGE_SIZE witness seq(PAGE_SIZE, _ => 0)
  type Crc = bytes -> U32

  datatype RecordType =
    | Insert | SetXMax | Commit | Abort | LeafSplit | InternalSplit | InsertDownLink
    | NewRoot | PageCompact | MarkHalfDead | UnlinkPage | Checkpoint | OverflowWrite | OverflowFree

  datatype Block = Block(page: U64, flags: byte, fpi: Option<Page>, data: Option<bytes>)

  datatype Record = Record(lsn: U64, ty: RecordType, txn: U64, blocks: seq<Block>, main: Option<bytes>)

  datatype Error = Eof | InvalidType(code: byte) | ChecksumMismatch

  /** What `next_record` finds at the front of `b`; `at` counts bytes read before an error. */
  datatype Next = End | Bad(err: Error, at: nat) | Got(rec: Record, len: U32, rest: bytes)

  function TypeCode(ty: RecordType): byte {
    match ty
    case Insert => 0 case SetXMax => 1 case Commit => 2 case Abort => 3
    case LeafSplit => 4 case InternalSplit => 5 case InsertDownLink => 6 case NewRoot => 7
    case PageCompact => 8 case MarkHalfDead => 9 case UnlinkPage => 10 case Checkpoint => 11
    case OverflowWrite => 12 case OverflowFree => 13
  }

  function TypeOf(code: byte): Option<RecordType> {
    match code
    case 0 => Some(Insert) case 1 => Some(SetXMax) case 2 => Some(Commit) case 3 => Some(Abort)
    case 4 => Some(LeafSplit) case 5 => Some(InternalSplit) case 6 => Some(InsertDownLink) case 7 => Some(NewRoot)
    case 8 => Some(PageCompact) case 9 => Some(MarkHalfDead) case 10 => Some(UnlinkPage) case 11 => Some(Checkpoint)
    case 12 => Some(OverflowWrite) case 13 => Some(OverflowFree)
    case _ => None
  }

  // ── Serialization ──────────────────────────────────────────────────────────

  function Opt(o: Option<bytes>): bytes { if o.Some? then o.value else [] }

  function OptPage(o: Option<Page>): bytes { if o.Some? then o.value else [] }

  function BlockHeader(k: Block): (h: bytes)
    ensures |h| == 11
  {
    LE(k.page, 8) + [k.flags] + LE(|Opt(k.data)|, 2)
  }

  function SerBlock(k: Block): bytes { BlockHeader(k) + (OptPage(k.fpi) + Opt(k.data)) }

  function SerBlocks(ks: seq<Block>): bytes {
    if ks == [] then [] else SerBlock(ks[0]) + SerBlocks(ks[1..])
  }

  /** The fixed header of a record of `size` bytes; casts to field widths truncate. */
  function Header(r: Record, size: nat): (h: bytes)
    ensures |h| == 24
  {
    LE(r.lsn, 8) + LE(size, 4) + [TypeCode(r.ty), |r.blocks| % 256] + LE(r.txn, 8) + LE(|Opt(r.main)|, 2)
  }

  function Size(r: Record): nat { 28 + |SerBlocks(r.blocks)| + |Opt(r.main)| }

  /** A record up to its checksum, with `size` in its length field. */
  function Body(r: Record, size: nat): bytes { Header(r, size) + (SerBlocks(r.blocks) + Opt(r.main)) }

  /** Everything the checksum covers. */
  function SerBody(r: Record): bytes { Body(r, Size(r)) }

  function Ser(crc: Crc, r: Record): (b: bytes)
    ensures |b| == Size(r)
  {
    SerBody(r) + LE(crc(SerBody(r)), 4)
  }

  function SerAll(crc: Crc, rs: seq<Record>): bytes {
    if rs == [] then [] else Ser(crc, rs[0]) + SerAll(crc, rs[1..])
  }

  // ── Parsing ────────────────────────────────────────────────────────────────

  function ParseBlock(b: bytes): (r: Option<(Block, bytes)>)
    ensures r.Some? ==> |r.value.1| <= |b| && r.value.1 == b[|b| - |r.value.1|..]
  {
    if |b| < 11 then None
    else
      FromLEBound(b[..8]);
      Widths();
      var flags := b[8];
      var dataLen := FromLE(b[9..11]);
      var fpiLen := if flags % 2 == 1 then PAGE_SIZE else 0;
      if |b| < 11 + fpiLen + dataLen then None
      else
        var fpi := if flags % 2 == 1 then Some(b[11..11 + PAGE_SIZE]) else None;
        var data := if dataLen > 0 then Some(b[11 + fpiLen..11 + fpiLen + dataLen]) else None;
        Some((Block(FromLE(b[..8]), flags, fpi, data), b[11 + fpiLen + dataLen..]))
  }

  function ParseBlocks(n: nat, b: bytes): (r: Option<(seq<Block>, bytes)>)
    ensures r.Some? ==> |r.value.1| <= |b| && r.value.1 == b[|b| - |r.value.1|..]
  {
    if n == 0 then Some(([], b))
    else match ParseBlock(b)
      case None => None
      case Some((k, rest)) =>
        match ParseBlocks(n - 1, rest)
        case None => None
        case Some((ks, rest')) => Some(([k] + ks, rest'))
  }

  function Parse(crc: Crc, b: bytes): Next {
    if b == [] then End
    else if |b| < 13 then Bad(Eof, |b|)
    else match TypeOf(b[12])
      case None => Bad(InvalidType(b[12]), 13)
      case Some(ty) =>
        if |b| < 24 then Bad(Eof, |b|)
        else match ParseBlocks(b[13], b[24..])
          case None => Bad(Eof, |b|)
          case Some((blocks, rest)) => ParseTail(crc, b, ty, blocks, rest)
  }

  /** Main data and checksum, once the blocks are read. */
  function ParseTail(crc: Crc, b: bytes, ty: RecordType, blocks: seq<Block>, rest: bytes): Next
    requires |b| >= 24 && |rest| <= |b| - 24
  {
    FromLEBound(b[..8]);
    FromLEBound(b[8..12]);
    FromLEBound(b[14..22]);
    Widths();
    var mainLen := FromLE(b[22..24]);
    if |rest| < mainLen + 4 then Bad(Eof, |b|)
    else
      var main := if mainLen > 0 then Some(rest[..mainLen]) else None;
      var rest' := rest[mainLen + 4..];
      var end := |b| - |rest'|;
      if FromLE(rest[mainLen..mainLen + 4]) != crc(b[..end - 4]) then Bad(ChecksumMismatch, end)
      else Got(Record(FromLE(b[..8]), ty, FromLE(b[14..22]), blocks, main), FromLE(b[8..12]), rest')
  }

  // ── Well-formed records ────────────────────────────────────────────────────

  /** Payloads that are there are nonempty and fit their 16-bit length field. */
  predicate PayloadOk(o: Option<bytes>) { o.Some? ==> 0 < |o.value| < 65536 }

  predicate BlockOk(k: Block) { (k.fpi.Some? <==> k.flags % 2 == 1) && PayloadOk(k.data) }

  /** Counts and lengths fit their fields. */
  predicate FieldsOk(r: Record) { |r.blocks| < 256 && PayloadOk(r.main) && forall k :: k in r.blocks ==> BlockOk(k) }

  predicate WellFormed(r: Record) { FieldsOk(r) && Size(r) < 0x1_0000_0000 }

  lemma TypeRoundTrip(ty: RecordType)
    ensures TypeOf(TypeCode(ty)) == Some(ty)
  {
  }

  lemma BlockHeaderFields(k: Block)
    ensures var h := BlockHeader(k);
            FromLE(h[..8]) == k.page && h[8] == k.flags && (|Opt(k.data)| < 65536 ==> FromLE(h[9..11]) == |Opt(k.data)|)
  {
    Widths();
    var h := BlockHeader(k);
    DecodeEncode(k.page, 8);
    if |Opt(k.data)| < 65536 { DecodeEncode(|Opt(k.data)|, 2); }
    assert h[..8] == LE(k.page, 8) && h[9..11] == LE(|Opt(k.data)|, 2);
  }

  lemma Cut(a: bytes, b: bytes)
    ensures (a + b)[..|a|] == a && (a + b)[|a|..] == b
  {
  }

  /** `y` sits behind `x`, at offset `|x|`. */
  lemma CutMiddle(x: bytes, y: bytes, z: bytes)
    ensures (x + (y + z))[|x|..|x| + |y|] == y && (x + (y + z))[|x| + |y|..] == z
  {
  }

  /** Slices inside the front part do not see the back part. */
  lemma SliceFront(h: bytes, x: bytes, i: nat, j: nat)
    requires i <= j <= |h|
    ensures (h + x)[i..j] == h[i..j]
  {
  }

  lemma ParseBlockFrom(k: Block, h: bytes, post: bytes)
    requires BlockOk(k) && |h| == 11
    requires FromLE(h[..8]) == k.page && h[8] == k.flags && FromLE(h[9..11]) == |Opt(k.data)|
    ensures ParseBlock(h + (OptPage(k.fpi) + (Opt(k.data) + post))) == Some((k, post))
  {
    var data, fpi := Opt(k.data), OptPage(k.fpi);
    var x := fpi + (data + post);
    SliceFront(h, x, 0, 8);
    SliceFront(h, x, 9, 11);
    CutMiddle(h, fpi, data + post);
    assert h + x == (h + fpi) + (data + post);
    CutMiddle(h + fpi, data, post);
  }

  lemma BlockRoundTrip(k: Block, post: bytes)
    requires BlockOk(k)
    ensures ParseBlock(SerBlock(k) + post) == Some((k, post))
  {
    var h := BlockHeader(k);
    BlockHeaderFields(k);
    ParseBlockFrom(k, h, post);
    Assoc(h, OptPage(k.fpi), Opt(k.data), post);
  }

  lemma Assoc3(a: bytes, b: bytes, c: bytes)
    ensures (a + b) + c == a + (b + c)
  {
  }

  lemma Assoc(a: bytes, b: bytes, c: bytes, d: bytes)
    ensures (a + (b + c)) + d == a + (b + (c + d))
  {
  }

  lemma ParseBlocksCons(b: bytes, k: Block, rest: bytes, ks: seq<Block>, rest': bytes)
    requires ParseBlock(b) == Some((k, rest)) && ParseBlocks(|ks|, rest) == Some((ks, rest'))
    ensures ParseBlocks(|ks| + 1, b) == Some(([k] + ks, rest'))
  {
  }

  lemma {:induction false} BlocksRoundTrip(ks: seq<Block>, post: bytes)
    requires forall k :: k in ks ==> BlockOk(k)
    ensures ParseBlocks(|ks|, SerBlocks(ks) + post) == Some((ks, post))
    decreases |ks|
  {
    if ks == [] { assert SerBlocks(ks) + post == post; }
    else {
      var first, more, tail := SerBlock(ks[0]), SerBlocks(ks[1..]), ks[1..];
      BlocksRoundTrip(tail, post);
      BlockRoundTrip(ks[0], more + post);
      ParseBlocksCons(first + (more + post), ks[0], more + post, tail, post);
      Assoc3(first, more, post);
      assert [ks[0]] + tail == ks;
    }
  }

  lemma HeaderSlices(a: bytes, b: bytes, c: bytes, d: bytes, e: bytes)
    requires |a| == 8 && |b| == 4 && |c| == 2 && |d| == 8 && |e| == 2
    ensures var h := a + b + c + d + e;
            h[..8] == a && h[8..12] == b && h[12] == c[0] && h[13] == c[1] && h[14..22] == d && h[22..24] == e
  {
  }

  lemma HeaderFields(r: Record, size: nat)
    ensures var h := Header(r, size);
            FromLE(h[..8]) == r.lsn && (size < 0x1_0000_0000 ==> FromLE(h[8..12]) == size)
            && h[12] == TypeCode(r.ty) && h[13] == |r.blocks| % 256 && FromLE(h[14..22]) == r.txn
            && (|Opt(r.main)| < 65536 ==> FromLE(h[22..24]) == |Opt(r.main)|)
  {
    Widths();
    DecodeEncode(r.lsn, 8);
    DecodeEncode(r.txn, 8);
    if size < 0x1_0000_0000 { DecodeEncode(size, 4); }
    if |Opt(r.main)| < 65536 { DecodeEncode(|Opt(r.main)|, 2); }
    HeaderSlices(LE(r.lsn, 8), LE(size, 4), [TypeCode(r.ty), |r.blocks| % 256], LE(r.txn, 8), LE(|Opt(r.main)|, 2));
  }

  lemma ParseFrom(crc: Crc, r: Record, h: bytes, size: U32, sum: bytes, post: bytes)
    requires FieldsOk(r) && |h| == 24 && |sum| == 4
    requires FromLE(h[..8]) == r.lsn && FromLE(h[8..12]) == size && FromLE(h[14..22]) == r.txn
    requires h[12] == TypeCode(r.ty) && h[13] == |r.blocks| && FromLE(h[22..24]) == |Opt(r.main)|
    ensures var body := h + (SerBlocks(r.blocks) + Opt(r.main));
            Parse(crc, body + (sum + post))
            == if FromLE(sum) == crc(body) then Got(r, size, post) else Bad(ChecksumMismatch, |body| + 4)
  {
    hide ParseBlocks, SerBlocks, FromLE, ParseBlock, Size, ParseTail;
    var main, blocks := Opt(r.main), SerBlocks(r.blocks);
    var rest := main + (sum + post);
    var b := h + (blocks + rest);
    SliceFront(h, blocks + rest, 0, 8);
    SliceFront(h, blocks + rest, 8, 12);
    SliceFront(h, blocks + rest, 14, 22);
    SliceFront(h, blocks + rest, 22, 24);
    Cut(h, blocks + rest);
    TypeRoundTrip(r.ty);
    BlocksRoundTrip(r.blocks, rest);
    var body := h + (blocks + main);
    assert b == body + (sum + post) by { Assoc(h, blocks, main, sum + post); }
    Cut(body, sum + post);
    TailFrom(crc, r, b, body, size, sum, post);
  }

  lemma TailFrom(crc: Crc, r: Record, b: bytes, body: bytes, size: U32, sum: bytes, post: bytes)
    requires |b| >= 24 && |sum| == 4 && PayloadOk(r.main) && b == body + (sum + post) && |body| >= 24 + |Opt(r.main)|
    requires FromLE(b[..8]) == r.lsn && FromLE(b[8..12]) == size && FromLE(b[14..22]) == r.txn && FromLE(b[22..24]) == |Opt(r.main)|
    ensures ParseTail(crc, b, r.ty, r.blocks, Opt(r.main) + (sum + post))
            == if FromLE(sum) == crc(body) then Got(r, size, post) else Bad(ChecksumMismatch, |body| + 4)
  {
    hide FromLE;
    var main := Opt(r.main);
    CutMiddle(main, sum, post);
    Cut(main, sum + post);
    Cut(body, sum + post);
  }

  /** Bytes laid out as a record are accepted if and only if the checksum matches. */
  lemma ChecksumDecides(crc: Crc, r: Record, size: U32, sum: bytes, post: bytes)
    requires FieldsOk(r) && |sum| == 4
    ensures Parse(crc, Body(r, size) + (sum + post))
            == if FromLE(sum) == crc(Body(r, size)) then Got(r, size, post) else Bad(ChecksumMismatch, |Body(r, size)| + 4)
  {
    HeaderFields(r, size);
    var h := Header(r, size);
    hide Parse, Header, FromLE, LE, SerBlocks;
    ParseFrom(crc, r, h, size, sum, post);
  }

  /** Parsing inverts serialization, whatever follows. */
  lemma RoundTrip(crc: Crc, r: Record, post: bytes)
    requires WellFormed(r)
    ensures Parse(crc, Ser(crc, r) + post) == Got(r, Size(r), post)
  {
    var sum := LE(crc(SerBody(r)), 4);
    Widths();
    DecodeEncode(crc(SerBody(r)), 4);
    ChecksumDecides(crc, r, Size(r), sum, post);
    assert Ser(crc, r) + post == SerBody(r) + (sum + post);
  }

  // ── Nothing else is accepted ───────────────────────────────────────────────

  lemma TypeBack(code: byte)
    requires TypeOf(code).Some?
    ensures TypeCode(TypeOf(code).value) == code
  {
  }

  lemma Split3(b: bytes, i: nat, j: nat)
    requires i <= j <= |b|
    ensures b == b[..i] + (b[i..j] + b[j..])
  {
  }

  lemma HeaderJoins(h: bytes)
    requires |h| == 24
    ensures h == h[..8] + h[8..12] + [h[12], h[13]] + h[14..22] + h[22..24]
  {
  }

  lemma BlockHeaderBack(h: bytes, k: Block)
    requires |h| == 11 && FromLE(h[..8]) == k.page && h[8] == k.flags && FromLE(h[9..11]) == |Opt(k.data)|
    ensures h == BlockHeader(k)
  {
    EncodeDecode(h[..8]);
    EncodeDecode(h[9..11]);
    hide LE, FromLE;
    assert h == h[..8] + [h[8]] + h[9..11];
  }

  /** Four consecutive pieces. */
  lemma Pieces(b: bytes, i: nat, j: nat, k: nat)
    requires i <= j <= k <= |b|
    ensures b == (b[..i] + (b[i..j] + b[j..k])) + b[k..]
  {
  }

  lemma BlockBack(b: bytes)
    requires ParseBlock(b).Some?
    ensures var (k, rest) := ParseBlock(b).value; BlockOk(k) && b == SerBlock(k) + rest
  {
    var (k, rest) := ParseBlock(b).value;
    FromLEBound(b[9..11]);
    Widths();
    assert b[..11][..8] == b[..8] && b[..11][9..11] == b[9..11];
    var f := 11 + |OptPage(k.fpi)|;
    var g := f + |Opt(k.data)|;
    assert OptPage(k.fpi) == b[11..f] && Opt(k.data) == b[f..g] && rest == b[g..];
    assert BlockOk(k);
    BlockHeaderBack(b[..11], k);
    hide ParseBlock, FromLE, LE, BlockHeader;
    Pieces(b, 11, f, g);
  }

  lemma {:induction false} BlocksBack(n: nat, b: bytes)
    requires ParseBlocks(n, b).Some?
    ensures var (ks, rest) := ParseBlocks(n, b).value; |ks| == n && (forall k :: k in ks ==> BlockOk(k)) && b == SerBlocks(ks) + rest
    decreases n
  {
    hide ParseBlock, SerBlock, BlockOk;
    if n > 0 {
      var (k, more) := ParseBlock(b).value;
      BlockBack(b);
      BlocksBack(n - 1, more);
      var (ks, rest) := ParseBlocks(n - 1, more).value;
      assert ([k] + ks)[1..] == ks;
      Assoc3(SerBlock(k), SerBlocks(ks), rest);
    }
  }

  /** The tail's part of it. */
  lemma TailBack(crc: Crc, b: bytes, ty: RecordType, blocks: seq<Block>, rest: bytes)
    requires |b| >= 24 && |rest| <= |b| - 24 && rest == b[|b| - |rest|..] && ParseTail(crc, b, ty, blocks, rest).Got?
    ensures var Got(r, size, post) := ParseTail(crc, b, ty, blocks, rest);
            r.ty == ty && r.blocks == blocks && PayloadOk(r.main) && FromLE(b[22..24]) == |Opt(r.main)|
            && FromLE(b[..8]) == r.lsn && FromLE(b[8..12]) == size && FromLE(b[14..22]) == r.txn
            && |post| + 4 <= |b| && rest == Opt(r.main) + (LE(crc(b[..|b| - |post| - 4]), 4) + post)
  {
    FromLEBound(b[22..24]);
    Widths();
    hide FromLE, LE, Pow256;
    var p, n := ParseTail(crc, b, ty, blocks, rest), FromLE(b[22..24]);
    assert p.rest == rest[n + 4..] && Opt(p.rec.main) == rest[..n];
    EncodeDecode(rest[n..n + 4]);
    Split3(rest, n, n + 4);
  }

  /** An accepted record, taken apart. */
  lemma ParsedParts(crc: Crc, b: bytes) returns (tail: bytes)
    requires Parse(crc, b).Got?
    ensures |b| >= 24 && |tail| <= |b| - 24 && tail == b[|b| - |tail|..] && TypeOf(b[12]).Some?
    ensures var r := Parse(crc, b).rec;
            ParseBlocks(b[13], b[24..]) == Some((r.blocks, tail))
            && Parse(crc, b) == ParseTail(crc, b, TypeOf(b[12]).value, r.blocks, tail)
  {
    hide ParseBlocks, FromLE, LE;
    tail := ParseBlocks(b[13], b[24..]).value.1;
  }

  lemma HeadSlices(b: bytes)
    requires |b| >= 24
    ensures var h := b[..24];
            h[..8] == b[..8] && h[8..12] == b[8..12] && h[12] == b[12] && h[13] == b[13] && h[14..22] == b[14..22] && h[22..24] == b[22..24]
  {
  }

  /** Every part of an accepted record, put back into bytes. */
  lemma PartsBack(crc: Crc, b: bytes, tail: bytes)
    requires |b| >= 24 && |tail| <= |b| - 24 && tail == b[|b| - |tail|..] && TypeOf(b[12]).Some? && Parse(crc, b).Got?
    requires ParseBlocks(b[13], b[24..]) == Some((Parse(crc, b).rec.blocks, tail))
    requires Parse(crc, b) == ParseTail(crc, b, TypeOf(b[12]).value, Parse(crc, b).rec.blocks, tail)
    ensures var Got(r, size, rest) := Parse(crc, b);
            FieldsOk(r) && b[..24] == Header(r, size) && b[24..] == SerBlocks(r.blocks) + tail && |rest| + 4 <= |b|
            && tail == Opt(r.main) + (LE(crc(b[..|b| - |rest| - 4]), 4) + rest)
  {
    hide Parse, ParseTail, ParseBlocks, SerBlocks, ParseBlock, Header, FromLE, LE, TypeOf, BlockOk;
    var Got(r, size, rest) := Parse(crc, b);
    BlocksBack(b[13], b[24..]);
    TailBack(crc, b, TypeOf(b[12]).value, r.blocks, tail);
    HeadSlices(b);
    HeaderBack(b[..24], r, size);
  }

  /** Whatever the parser accepts is a record laid out as `append` would, checksum and all. */
  lemma AcceptedBytes(crc: Crc, b: bytes)
    requires Parse(crc, b).Got?
    ensures FieldsOk(Parse(crc, b).rec)
    ensures var body := Body(Parse(crc, b).rec, Parse(crc, b).len); b == body + (LE(crc(body), 4) + Parse(crc, b).rest)
  {
    hide *;
    var tail := ParsedParts(crc, b);
    PartsBack(crc, b, tail);
    var p := Parse(crc, b);
    JoinBack(b, p.rec, p.len, LE(crc(b[..|b| - |p.rest| - 4]), 4), p.rest, tail);
  }

  lemma JoinBack(b: bytes, r: Record, size: nat, sum: bytes, rest: bytes, tail: bytes)
    requires |b| >= 24 && b[..24] == Header(r, size) && b[24..] == SerBlocks(r.blocks) + tail
    requires tail == Opt(r.main) + (sum + rest) && |sum| == 4
    ensures b == Body(r, size) + (sum + rest) && b[..|b| - |rest| - 4] == Body(r, size)
  {
    var h, blocks, main := Header(r, size), SerBlocks(r.blocks), Opt(r.main);
    hide Header, SerBlocks, Opt;
    assert b == h + b[24..];
    Assoc(h, blocks, main, sum + rest);
    Cut(h + (blocks + main), sum + rest);
  }

  lemma HeaderBack(h: bytes, r: Record, size: U32)
    requires |h| == 24 && TypeOf(h[12]) == Some(r.ty) && h[13] == |r.blocks| && FromLE(h[22..24]) == |Opt(r.main)|
    requires FromLE(h[..8]) == r.lsn && FromLE(h[8..12]) == size && FromLE(h[14..22]) == r.txn
    ensures h == Header(r, size)
  {
    TypeBack(h[12]);
    EncodeDecode(h[..8]);
    EncodeDecode(h[8..12]);
    EncodeDecode(h[14..22]);
    EncodeDecode(h[22..24]);
    HeaderJoins(h);
  }

  /** Exactly those bytes are accepted. */
  lemma ParseIff(crc: Crc, b: bytes, r: Record, size: U32, rest: bytes)
    ensures Parse(crc, b) == Got(r, size, rest)
            <==> FieldsOk(r) && b == Body(r, size) + (LE(crc(Body(r, size)), 4) + rest)
  {
    hide Parse, Body, FromLE, LE;
    if Parse(crc, b) == Got(r, size, rest) { AcceptedBytes(crc, b); }
    if FieldsOk(r) {
      Widths();
      DecodeEncode(crc(Body(r, size)), 4);
      ChecksumDecides(crc, r, size, LE(crc(Body(r, size)), 4), rest);
    }
  }

  // ── Exactly the well-formed records ────────────────────────────────────────

  lemma ParsedOk(crc: Crc, b: bytes)
    requires Parse(crc, b).Got?
    ensures FieldsOk(Parse(crc, b).rec)
  {
    AcceptedBytes(crc, b);
  }

  /**
  `append` truncates lengths to their field widths, so a record comes back unchanged if and
  only if it is well formed: in particular only if its main data is shorter than 65536 bytes.
  */
  lemma RoundTripIff(crc: Crc, r: Record, post: bytes)
    ensures WellFormed(r) <==>
              (var p := Parse(crc, Ser(crc, r) + post); p.Got? && p.rec == r && p.len == Size(r) && p.rest == post)
  {
    if WellFormed(r) { RoundTrip(crc, r, post); }
    else if Parse(crc, Ser(crc, r) + post).Got? { ParsedOk(crc, Ser(crc, r) + post); }
  }

  // ── Torn records ───────────────────────────────────────────────────────────

  lemma PrefixOfConcat(a: bytes, b: bytes, j: nat)
    requires j <= |a| + |b|
    ensures (a + b)[..j] == if j <= |a| then a[..j] else a + b[..j - |a|]
  {
  }

  lemma TornBlock(k: Block, j: nat)
    requires BlockOk(k) && j < |SerBlock(k)|
    ensures ParseBlock(SerBlock(k)[..j]) == None
  {
    var h, x := BlockHeader(k), OptPage(k.fpi) + Opt(k.data);
    PrefixOfConcat(h, x, j);
    if j > 11 {
      BlockHeaderFields(k);
      SliceFront(h, x[..j - 11], 9, 11);
    }
  }

  lemma {:induction false} TornBlocks(ks: seq<Block>, j: nat)
    requires (forall k :: k in ks ==> BlockOk(k)) && j < |SerBlocks(ks)|
    ensures ParseBlocks(|ks|, SerBlocks(ks)[..j]) == None
    decreases |ks|
  {
    hide ParseBlock, SerBlock, BlockOk;
    var first, more := SerBlock(ks[0]), SerBlocks(ks[1..]);
    PrefixOfConcat(first, more, j);
    if j < |first| { TornBlock(ks[0], j); }
    else {
      assert forall k :: k in ks[1..] ==> k in ks;
      TornBlocks(ks[1..], j - |first|);
      BlockRoundTrip(ks[0], more[..j - |first|]);
      if j == |first| { assert first[..j] == first + more[..0]; }
    }
  }

  /** A record cut short anywhere, but not to nothing, reads as end of file. */
  lemma TornRecord(crc: Crc, r: Record, j: nat)
    requires WellFormed(r) && 0 < j < |Ser(crc, r)|
    ensures Parse(crc, Ser(crc, r)[..j]) == Bad(Eof, j)
  {
    var h, blocks, main := Header(r, Size(r)), SerBlocks(r.blocks), Opt(r.main);
    var sum := LE(crc(SerBody(r)), 4);
    Assoc(h, blocks, main, sum);
    var x := blocks + (main + sum);
    assert Ser(crc, r) == h + x;
    HeaderFields(r, Size(r));
    TypeRoundTrip(r.ty);
    TornFrom(crc, r, h, x, j);
  }

  lemma TornFrom(crc: Crc, r: Record, h: bytes, x: bytes, j: nat)
    requires WellFormed(r) && |h| == 24 && 0 < j < |h + x|
    requires |x| == |SerBlocks(r.blocks)| + |Opt(r.main)| + 4 && SerBlocks(r.blocks) <= x
    requires TypeOf(h[12]) == Some(r.ty) && h[13] == |r.blocks| && FromLE(h[22..24]) == |Opt(r.main)|
    ensures Parse(crc, (h + x)[..j]) == Bad(Eof, j)
  {
    var blocks := SerBlocks(r.blocks);
    PrefixOfConcat(h, x, j);
    if j >= 24 {
      var y := x[..j - 24];
      assert (h + x)[..j] == h + y;
      Cut(h, y);
      SliceFront(h, y, 22, 24);
      if |y| < |blocks| {
        assert y == blocks[..|y|];
        TornBlocks(r.blocks, |y|);
      } else {
        assert y == blocks + y[|blocks|..];
        BlocksRoundTrip(r.blocks, y[|blocks|..]);
      }
    }
  }

  lemma ParseWhole(crc: Crc, r: Record)
    requires WellFormed(r)
    ensures Parse(crc, Ser(crc, r)) == Got(r, Size(r), [])
  {
    RoundTrip(crc, r, []);
    assert Ser(crc, r) + [] == Ser(crc, r);
  }

  /** `a` reads as exactly `r`, and none of its proper prefixes reads as a record. */
  ghost predicate Encodes(crc: Crc, a: bytes, r: Record) {
    Parse(crc, a).Got? && Parse(crc, a).rec == r && forall j :: 0 < j < |a| ==> Parse(crc, a[..j]).Bad?
  }

  lemma SerEncodes(crc: Crc, r: Record)
    requires WellFormed(r)
    ensures Encodes(crc, Ser(crc, r), r)
  {
    ParseWhole(crc, r);
    forall j | 0 < j < |Ser(crc, r)| ensures Parse(crc, Ser(crc, r)[..j]).Bad? { TornRecord(crc, r, j); }
  }

  lemma EncodingsPrefixFree(crc: Crc, a: bytes, b: bytes, r: Record, q: Record)
    requires Encodes(crc, a, r) && Encodes(crc, b, q) && a <= b
    ensures a == b && r == q
  {
    assert a == b[..|a|] && a != [];
  }

  /** No record's encoding is a proper prefix of another's. */
  lemma PrefixFree(crc: Crc, r: Record, q: Record)
    requires WellFormed(r) && WellFormed(q) && Ser(crc, r) <= Ser(crc, q)
    ensures r == q
  {
    SerEncodes(crc, r);
    SerEncodes(crc, q);
    EncodingsPrefixFree(crc, Ser(crc, r), Ser(crc, q), r, q);
  }

  // ── Opening a log ──────────────────────────────────────────────────────────

  datatype Tail = Clean | Broken(err: Error, at: nat)

  /** Records read from a segment, the bytes they take, and how the scan ended. */
  datatype Scan = Scan(recs: seq<Record>, good: nat, tail: Tail)

  function ScanFrom(crc: Crc, b: bytes): Scan
    decreases |b|
  {
    match Parse(crc, b)
    case End => Scan([], 0, Clean)
    case Bad(err, at) => Scan([], 0, Broken(err, at))
    case Got(r, _, rest) =>
      ParseConsumes(crc, b);
      var s := ScanFrom(crc, rest);
      After([r], |b| - |rest|, s)
  }

  /** A scan that continues where records `done` of `n` bytes left off. */
  function After(done: seq<Record>, n: nat, s: Scan): Scan {
    Scan(done + s.recs, n + s.good, match s.tail case Clean => Clean case Broken(e, at) => Broken(e, n + at))
  }

  lemma ParseConsumes(crc: Crc, b: bytes)
    requires Parse(crc, b).Got?
    ensures |Parse(crc, b).rest| < |b|
  {
  }

  /** Opening: the resumed counters and the last segment as it is left on disk. */
  datatype Opened = Refused(err: Error) | Opened(nextLsn: nat, flushedLsn: nat, lastSegment: bytes)

  function BumpAll(next: nat, recs: seq<Record>): nat
    decreases |recs|
  {
    if recs == [] then next else BumpAll(if recs[0].lsn >= next then recs[0].lsn + 1 else next, recs[1..])
  }

  function LastLsn(flushed: nat, recs: seq<Record>): nat { if recs == [] then flushed else recs[|recs| - 1].lsn }

  /** A broken tail is cut off only at the end of the last segment. */
  predicate Recoverable(s: Scan, len: nat) { s.tail.Broken? && (s.tail.err == Eof || s.tail.at == len) }

  function OpenFrom(crc: Crc, segs: seq<bytes>, next: nat, flushed: nat): Opened
    decreases |segs|
  {
    if segs == [] then Opened(next, flushed, [])
    else
      var s := ScanFrom(crc, segs[0]);
      var next', flushed' := BumpAll(next, s.recs), LastLsn(flushed, s.recs);
      if |segs| > 1 then
        if s.tail.Clean? then OpenFrom(crc, segs[1..], next', flushed') else Refused(s.tail.err)
      else if s.tail.Clean? then Opened(next', flushed', segs[0])
      else if Recoverable(s, |segs[0]|) && s.good <= |segs[0]| then Opened(next', flushed', segs[0][..s.good])
      else Refused(s.tail.err)
  }

  /** Reading back a run of records and whatever stops the scan behind them. */
  lemma {:induction false} ScanUpTo(crc: Crc, rs: seq<Record>, t: bytes)
    requires !Parse(crc, t).Got? && forall r :: r in rs ==> WellFormed(r)
    ensures var n, p := |SerAll(crc, rs)|, Parse(crc, t);
            ScanFrom(crc, SerAll(crc, rs) + t) == Scan(rs, n, if p.End? then Clean else Broken(p.err, n + p.at))
    decreases |rs|
  {
    hide Parse, Ser, ScanFrom, WellFormed;
    if rs == [] {
      assert SerAll(crc, rs) + t == t;
      ScanStops(crc, t);
    } else {
      var first, more := Ser(crc, rs[0]), SerAll(crc, rs[1..]);
      ScanUpTo(crc, rs[1..], t);
      RoundTrip(crc, rs[0], more + t);
      Assoc3(first, more, t);
      ScanCons(crc, first + (more + t), rs[0], more + t);
      assert [rs[0]] + rs[1..] == rs;
    }
  }

  /** Reading back a run of records and whatever is left of one more. */
  lemma ScanRecords(crc: Crc, rs: seq<Record>, q: Record, j: nat)
    requires WellFormed(q) && j < |Ser(crc, q)| && forall r :: r in rs ==> WellFormed(r)
    ensures var n := |SerAll(crc, rs)|;
            ScanFrom(crc, SerAll(crc, rs) + Ser(crc, q)[..j]) == Scan(rs, n, if j == 0 then Clean else Broken(Eof, n + j))
  {
    hide Parse, Ser, ScanFrom, WellFormed;
    if j == 0 { ParseNothing(crc); } else { TornRecord(crc, q, j); }
    ScanUpTo(crc, rs, Ser(crc, q)[..j]);
  }

  lemma ParseNothing(crc: Crc)
    ensures Parse(crc, []) == End
  {
  }

  lemma ScanStops(crc: Crc, b: bytes)
    requires !Parse(crc, b).Got?
    ensures var p := Parse(crc, b); ScanFrom(crc, b) == Scan([], 0, if p.End? then Clean else Broken(p.err, p.at))
  {
  }

  lemma ScanCons(crc: Crc, b: bytes, r: Record, rest: bytes)
    requires Parse(crc, b).Got? && Parse(crc, b).rec == r && Parse(crc, b).rest == rest
    ensures |rest| < |b|
    ensures ScanFrom(crc, b) == After([r], |b| - |rest|, ScanFrom(crc, rest))
  {
    hide Parse;
    ParseConsumes(crc, b);
  }

  ghost function Flatten(lists: seq<seq<Record>>): seq<Record> {
    if lists == [] then [] else lists[0] + Flatten(lists[1..])
  }

  /** LSNs climb, starting above `from`. */
  ghost predicate Climbs(rs: seq<Record>, from: nat)
    decreases |rs|
  {
    rs == [] || (rs[0].lsn > from && Climbs(rs[1..], rs[0].lsn))
  }

  lemma {:induction false} ClimbsConcat(a: seq<Record>, b: seq<Record>, from: nat)
    requires Climbs(a + b, from)
    ensures Climbs(a, from) && Climbs(b, LastLsn(from, a))
    ensures LastLsn(from, a + b) == LastLsn(LastLsn(from, a), b)
    decreases |a|
  {
    if a == [] { assert a + b == b; }
    else {
      assert (a + b)[0] == a[0] && (a + b)[1..] == a[1..] + b;
      ClimbsConcat(a[1..], b, a[0].lsn);
    }
  }

  /** Over climbing LSNs the counter resumes one past the last. */
  lemma {:induction false} BumpClimbs(rs: seq<Record>, from: nat)
    requires Climbs(rs, from)
    ensures BumpAll(from + 1, rs) == LastLsn(from, rs) + 1
    decreases |rs|
  {
    if rs != [] { BumpClimbs(rs[1..], rs[0].lsn); }
  }

  /** The segment files of a log: all whole, the last followed by the front of a torn write. */
  ghost function Segments(crc: Crc, lists: seq<seq<Record>>, torn: bytes): seq<bytes>
    decreases |lists|
  {
    if lists == [] then []
    else if |lists| == 1 then [SerAll(crc, lists[0]) + torn]
    else [SerAll(crc, lists[0])] + Segments(crc, lists[1..], torn)
  }

  /** The last segment: cut back to its whole records. */
  lemma OpenLast(crc: Crc, rs: seq<Record>, q: Record, j: nat, from: nat)
    requires WellFormed(q) && j < |Ser(crc, q)| && Climbs(rs, from) && forall r :: r in rs ==> WellFormed(r)
    ensures OpenFrom(crc, [SerAll(crc, rs) + Ser(crc, q)[..j]], from + 1, from)
            == Opened(LastLsn(from, rs) + 1, LastLsn(from, rs), SerAll(crc, rs))
  {
    hide ScanFrom, Ser, SerAll, Climbs, WellFormed, BumpAll;
    BumpClimbs(rs, from);
    ScanRecords(crc, rs, q, j);
    var t := Ser(crc, q)[..j];
    Cut(SerAll(crc, rs), t);
    assert j == 0 ==> SerAll(crc, rs) + t == SerAll(crc, rs);
  }

  /** A whole segment before it: its records raise the counters. */
  lemma OpenCons(crc: Crc, rs: seq<Record>, q: Record, later: seq<bytes>, from: nat)
    requires WellFormed(q) && later != [] && Climbs(rs, from) && forall r :: r in rs ==> WellFormed(r)
    ensures OpenFrom(crc, [SerAll(crc, rs)] + later, from + 1, from)
            == OpenFrom(crc, later, LastLsn(from, rs) + 1, LastLsn(from, rs))
  {
    hide ScanFrom, Ser, SerAll, Climbs, WellFormed, BumpAll;
    BumpClimbs(rs, from);
    ScanRecords(crc, rs, q, 0);
    assert SerAll(crc, rs) + Ser(crc, q)[..0] == SerAll(crc, rs);
    assert ([SerAll(crc, rs)] + later)[1..] == later;
  }

  lemma {:induction false} OpenSegments(crc: Crc, lists: seq<seq<Record>>, q: Record, j: nat, from: nat)
    requires lists != [] && WellFormed(q) && j < |Ser(crc, q)|
    requires Climbs(Flatten(lists), from) && forall r :: r in Flatten(lists) ==> WellFormed(r)
    ensures var last := LastLsn(from, Flatten(lists));
            OpenFrom(crc, Segments(crc, lists, Ser(crc, q)[..j]), from + 1, from)
            == Opened(last + 1, last, SerAll(crc, lists[|lists| - 1]))
    decreases |lists|
  {
    hide Ser, SerAll, Climbs, OpenFrom, WellFormed, LastLsn;
    var rs, rest := lists[0], Flatten(lists[1..]);
    ClimbsConcat(rs, rest, from);
    assert forall r :: r in rs ==> r in Flatten(lists);
    assert forall r :: r in rest ==> r in Flatten(lists);
    if |lists| == 1 {
      assert rs + rest == rs;
      OpenLast(crc, rs, q, j, from);
    } else {
      OpenCons(crc, rs, q, Segments(crc, lists[1..], Ser(crc, q)[..j]), from);
      OpenSegments(crc, lists[1..], q, j, LastLsn(from, rs));
    }
  }

  /**
  Torn tail: a log of well-formed records with climbing LSNs whose last segment ends in any
  proper front part of one more record opens to exactly those records, cut back to the last
  whole one, and resumes at the last LSN plus one.
  */
  lemma OpenAfterTornWrite(crc: Crc, lists: seq<seq<Record>>, q: Record, j: nat)
    requires lists != [] && WellFormed(q) && j < |Ser(crc, q)|
    requires Climbs(Flatten(lists), 0) && forall r :: r in Flatten(lists) ==> WellFormed(r)
    ensures var last := LastLsn(0, Flatten(lists));
            OpenFrom(crc, Segments(crc, lists, Ser(crc, q)[..j]), 1, 0)
            == Opened(last + 1, last, SerAll(crc, lists[|lists| - 1]))
  {
    hide *;
    OpenSegments(crc, lists, q, j, 0);
  }

  /** The same damage before the last segment is refused, never cut off. */
  lemma MidLogDamageRefused(crc: Crc, rs: seq<Record>, q: Record, j: nat, later: seq<bytes>, next: nat, flushed: nat)
    requires WellFormed(q) && 0 < j < |Ser(crc, q)| && later != [] && forall r :: r in rs ==> WellFormed(r)
    ensures OpenFrom(crc, [SerAll(crc, rs) + Ser(crc, q)[..j]] + later, next, flushed) == Refused(Eof)
  {
    ScanRecords(crc, rs, q, j);
  }

  /**
  What damage does to opening: records, then bytes that do not read as one.  Before the last
  segment it is refused.  In the last it is cut off if the log ends inside the damage or
  right behind it, and refused if more follows.
  */
  lemma OpenDamaged(crc: Crc, rs: seq<Record>, t: bytes, later: seq<bytes>, next: nat, flushed: nat)
    requires Parse(crc, t).Bad? && forall r :: r in rs ==> WellFormed(r)
    ensures var Bad(err, at) := Parse(crc, t);
            OpenFrom(crc, [SerAll(crc, rs) + t] + later, next, flushed)
            == if later == [] && (err == Eof || at == |t|) then Opened(BumpAll(next, rs), LastLsn(flushed, rs), SerAll(crc, rs))
               else Refused(err)
  {
    ScanUpTo(crc, rs, t);
    Cut(SerAll(crc, rs), t);
    hide Parse, SerAll, ScanFrom, WellFormed, BumpAll;
    assert later == [] ==> [SerAll(crc, rs) + t] + later == [SerAll(crc, rs) + t];
  }

  /** A record whose checksum does not match is never taken: refused, or cut off at the very end of the log. */
  lemma DamagedRecordNotTaken(crc: Crc, rs: seq<Record>, r: Record, size: U32, sum: bytes, post: bytes,
                              later: seq<bytes>, next: nat, flushed: nat)
    requires FieldsOk(r) && |sum| == 4 && FromLE(sum) != crc(Body(r, size)) && forall q :: q in rs ==> WellFormed(q)
    ensures OpenFrom(crc, [SerAll(crc, rs) + (Body(r, size) + (sum + post))] + later, next, flushed)
            == if later == [] && post == [] then Opened(BumpAll(next, rs), LastLsn(flushed, rs), SerAll(crc, rs))
               else Refused(ChecksumMismatch)
  {
    ChecksumDecides(crc, r, size, sum, post);
    hide Parse, OpenFrom, SerAll, WellFormed, BumpAll, FromLE, Body;
    OpenDamaged(crc, rs, Body(r, size) + (sum + post), later, next, flushed);
  }

  // ── The loops ──────────────────────────────────────────────────────────────

  function Prepend(done: seq<Block>, r: Option<(seq<Block>, bytes)>): Option<(seq<Block>, bytes)> {
    match r
    case None => None
    case Some((ks, rest)) => Some((done + ks, rest))
  }

  /** The loop over a record's blocks. */
  method ReadBlocks(n: nat, b: bytes) returns (r: Option<(seq<Block>, bytes)>)
    ensures r == ParseBlocks(n, b)
  {
    hide ParseBlock;
    var blocks: seq<Block>, rest := [], b;
    assert ParseBlocks(n, b).Some? ==> [] + ParseBlocks(n, b).value.0 == ParseBlocks(n, b).value.0;
    for i := 0 to n
      invariant ParseBlocks(n, b) == Prepend(blocks, ParseBlocks(n - i, rest))
    {
      var k := ParseBlock(rest);
      if k.None? { return None; }
      PrependStep(blocks, n - i, rest);
      blocks, rest := blocks + [k.value.0], k.value.1;
    }
    assert blocks + [] == blocks;
    r := Some((blocks, rest));
  }

  /** `next_record`: header fields, blocks, main data, checksum. */
  method NextRecord(crc: Crc, b: bytes) returns (n: Next)
    ensures n == Parse(crc, b)
  {
    hide ParseBlocks, ParseTail;
    if b == [] { return End; }
    if |b| < 13 { return Bad(Eof, |b|); }
    var ty := TypeOf(b[12]);
    if ty.None? { return Bad(InvalidType(b[12]), 13); }
    if |b| < 24 { return Bad(Eof, |b|); }
    var blocks := ReadBlocks(b[13], b[24..]);
    if blocks.None? { return Bad(Eof, |b|); }
    n := ParseTail(crc, b, ty.value, blocks.value.0, blocks.value.1);
  }

  lemma PrependStep(done: seq<Block>, n: nat, b: bytes)
    requires n > 0 && ParseBlock(b).Some?
    ensures var (k, rest) := ParseBlock(b).value;
            Prepend(done, ParseBlocks(n, b)) == Prepend(done + [k], ParseBlocks(n - 1, rest))
  {
    var (k, rest) := ParseBlock(b).value;
    var r := ParseBlocks(n - 1, rest);
    if r.Some? { assert done + ([k] + r.value.0) == (done + [k]) + r.value.0; }
  }

  /** One segment's scan in `new_with_options`. */
  method ScanSegment(crc: Crc, b: bytes, next0: nat, flushed0: nat)
    returns (next: nat, flushed: nat, good: nat, tail: Tail)
    ensures var s := ScanFrom(crc, b);
            next == BumpAll(next0, s.recs) && flushed == LastLsn(flushed0, s.recs) && good == s.good && tail == s.tail
    ensures good <= |b|
  {
    hide Parse, ScanFrom;
    next, flushed, good, tail := next0, flushed0, 0, Clean;
    var rest := b;
    ghost var done: seq<Record> := [];
    assert [] + ScanFrom(crc, b).recs == ScanFrom(crc, b).recs;
    while true
      invariant good + |rest| == |b|
      invariant ScanFrom(crc, b) == After(done, good, ScanFrom(crc, rest))
      invariant flushed == LastLsn(flushed0, done)
      invariant var more := ScanFrom(crc, rest).recs; BumpAll(next0, done + more) == BumpAll(next, more)
      decreases |rest|
    {
      var n := NextRecord(crc, rest);
      if !n.Got? {
        ScanStops(crc, rest);
        assert done + [] == done;
        if n.Bad? { tail := Broken(n.err, good + n.at); }
        return;
      }
      ScanCons(crc, rest, n.rec, n.rest);
      AfterAfter(done, good, n.rec, |rest| - |n.rest|, ScanFrom(crc, n.rest));
      if n.rec.lsn >= next { next := n.rec.lsn + 1; }
      flushed := n.rec.lsn;
      good := good + (|rest| - |n.rest|);
      done := done + [n.rec];
      rest := n.rest;
    }
  }

  lemma AfterAfter(done: seq<Record>, good: nat, r: Record, n: nat, s: Scan)
    ensures After(done, good, After([r], n, s)) == After(done + [r], good + n, s)
    ensures After([r], n, s).recs == [r] + s.recs && ([r] + s.recs)[1..] == s.recs
    ensures done + ([r] + s.recs) == (done + [r]) + s.recs
  {
  }

  method OpenLog(crc: Crc, segs: seq<bytes>) returns (o: Opened)
    ensures o == OpenFrom(crc, segs, 1, 0)
  {
    var next, flushed := 1, 0;
    var i := 0;
    while i < |segs|
      invariant i <= |segs| && (i == |segs| ==> segs == [])
      invariant OpenFrom(crc, segs, 1, 0) == OpenFrom(crc, segs[i..], next, flushed)
    {
      var good, tail;
      ghost var rest := segs[i..];
      assert rest[0] == segs[i] && rest[1..] == segs[i + 1..];
      next, flushed, good, tail := ScanSegment(crc, segs[i], next, flushed);
      if i == |segs| - 1 {
        if tail.Clean? { return Opened(next, flushed, segs[i]); }
        if tail.err == Eof || tail.at == |segs[i]| { return Opened(next, flushed, segs[i][..good]); }
        return Refused(tail.err);
      }
      if tail.Broken? { return Refused(tail.err); }
      i := i + 1;
    }
    return Opened(next, flushed, []);
  }
}
