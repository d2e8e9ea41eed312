/**
The checkpoint record's payload (crates/storage/src/wal.rs, `log_checkpoint` and
`CheckpointData::from_bytes`): parsing accepts exactly the serialized payloads, and the
whole record survives the log exactly when the payload fits its 16-bit length field.
*/
module CkptCodec {
  import opened Options
  import opened ByteTypes
  import opened LittleEndian
  import W = WalCodec

  datatype Data = Data(redo: nat, nextTxn: nat, horizon: nat, root: nat, nextPage: nat, active: seq<nat>, pinned: seq<nat>)

  const U64_LIMIT := 0x1_0000_0000_0000_0000

  function Words(ws: seq<nat>): (b: bytes)
    ensures |b| == 8 * |ws|
  {
    if ws == [] then [] else LE(ws[0], 8) + Words(ws[1..])
  }

  function Fixed(c: Data): seq<nat> { [c.redo, c.nextTxn, c.horizon, c.root, c.nextPage] }

  function Payload(c: Data): bytes {
    Words(Fixed(c)) + (LE(|c.active|, 4) + (Words(c.active) + (LE(|c.pinned|, 4) + Words(c.pinned))))
  }

  predicate AllFit(ws: seq<nat>) { forall i {:trigger ws[i]} :: 0 <= i < |ws| ==> ws[i] < U64_LIMIT }

  /** Values within their field widths. */
  predicate Fits(c: Data) {
    AllFit(Fixed(c)) && AllFit(c.active) && AllFit(c.pinned) && |c.active| < 0x1_0000_0000 && |c.pinned| < 0x1_0000_0000
  }

  /** The first `n` words of `b`. */
  function ReadWords(b: bytes, n: nat): (ws: seq<nat>)
    requires 8 * n <= |b|
    ensures |ws| == n
  {
    if n == 0 then [] else [FromLE(b[..8])] + ReadWords(b[8..], n - 1)
  }

  /** `from_bytes`; `None` for its `CorruptedLog` errors. */
  function Parse(b: bytes): Option<Data> {
    if |b| < 48 then None
    else
      var n := FromLE(b[40..44]);
      if 8 * n > |b| - 48 then None
      else
        var m := FromLE(b[44 + 8 * n..48 + 8 * n]);
        if |b| != 48 + 8 * n + 8 * m then None
        else
          var f := ReadWords(b[..40], 5);
          Some(Data(f[0], f[1], f[2], f[3], f[4], ReadWords(b[44..44 + 8 * n], n), ReadWords(b[48 + 8 * n..], m)))
  }

  lemma {:induction false} WordsBack(ws: seq<nat>)
    requires AllFit(ws)
    ensures ReadWords(Words(ws), |ws|) == ws
    decreases |ws|
  {
    hide LE, FromLE;
    if ws != [] {
      U64Back(ws[0]);
      WordsBack(ws[1..]);
      assert Words(ws)[..8] == LE(ws[0], 8) && Words(ws)[8..] == Words(ws[1..]);
      assert ws == [ws[0]] + ws[1..];
    }
  }

  lemma {:induction false} ReadBack(b: bytes, n: nat)
    requires |b| == 8 * n
    ensures |ReadWords(b, n)| == n && AllFit(ReadWords(b, n)) && Words(ReadWords(b, n)) == b
    decreases n
  {
    hide LE, FromLE;
    if n > 0 {
      Word(b[..8]);
      ReadBack(b[8..], n - 1);
      var ws := ReadWords(b, n);
      assert ws[1..] == ReadWords(b[8..], n - 1) && b == b[..8] + b[8..];
    }
  }

  lemma Word(b: bytes)
    requires |b| == 8
    ensures FromLE(b) < U64_LIMIT && LE(FromLE(b), 8) == b
  {
    FromLEBound(b);
    Widths();
    EncodeDecode(b);
  }

  lemma Count(b: bytes)
    requires |b| == 4
    ensures FromLE(b) < 0x1_0000_0000 && LE(FromLE(b), 4) == b
  {
    FromLEBound(b);
    Widths();
    EncodeDecode(b);
  }

  /** Five pieces end to end, and where each of them lies. */
  lemma Pieces(a: bytes, n: bytes, x: bytes, m: bytes, y: bytes)
    requires |a| == 40 && |n| == 4 && |m| == 4
    ensures var b, k := a + (n + (x + (m + y))), |x|;
            b[..40] == a && b[40..44] == n && b[44..44 + k] == x && b[44 + k..48 + k] == m && b[48 + k..] == y
  {
  }

  lemma PayloadParses(c: Data)
    requires Fits(c)
    ensures Parse(Payload(c)) == Some(c)
  {
    var n, m := |c.active|, |c.pinned|;
    Pieces(Words(Fixed(c)), LE(n, 4), Words(c.active), LE(m, 4), Words(c.pinned));
    U32Back(n);
    U32Back(m);
    WordsBack(Fixed(c));
    WordsBack(c.active);
    WordsBack(c.pinned);
    hide LE, FromLE, Words, ReadWords;
  }

  lemma ParsedIsPayload(b: bytes)
    requires Parse(b).Some?
    ensures Fits(Parse(b).value) && Payload(Parse(b).value) == b
  {
    hide LE, FromLE, Words, ReadWords;
    var c, n := Parse(b).value, FromLE(b[40..44]);
    var m := FromLE(b[44 + 8 * n..48 + 8 * n]);
    Count(b[40..44]);
    Count(b[44 + 8 * n..48 + 8 * n]);
    ReadBack(b[..40], 5);
    ReadBack(b[44..44 + 8 * n], n);
    ReadBack(b[48 + 8 * n..], m);
    assert Fixed(c) == ReadWords(b[..40], 5);
    assert b == b[..40] + (b[40..44] + (b[44..44 + 8 * n] + (b[44 + 8 * n..48 + 8 * n] + b[48 + 8 * n..])));
  }

  /** Parsing accepts a byte string exactly when it is a payload, and gives back what was serialized. */
  lemma ParseIff(b: bytes, c: Data)
    ensures Parse(b) == Some(c) <==> Fits(c) && b == Payload(c)
  {
    if Parse(b).Some? { ParsedIsPayload(b); }
    if Fits(c) && b == Payload(c) { PayloadParses(c); }
  }

  function Record(lsn: W.U64, c: Data): W.Record { W.Record(lsn, W.Checkpoint, 0, [], Some(Payload(c))) }

  /** With more than 8185 ids in its two lists a checkpoint record does not come back from the log. */
  lemma CheckpointSurvivesIff(crc: W.Crc, lsn: W.U64, c: Data, post: bytes)
    ensures |c.active| + |c.pinned| <= 8185 <==>
              (var p := W.Parse(crc, W.Ser(crc, Record(lsn, c)) + post); p.Got? && p.rec == Record(lsn, c) && p.rest == post)
  {
    var r := Record(lsn, c);
    assert |Payload(c)| == 48 + 8 * (|c.active| + |c.pinned|);
    W.RoundTripIff(crc, r, post);
    assert W.WellFormed(r) <==> |Payload(c)| < 65536;
    hide W.Parse, W.Ser, W.WellFormed, Payload;
    if W.Parse(crc, W.Ser(crc, r) + post).Got? { W.ParsedOk(crc, W.Ser(crc, r) + post); }
  }

  /** Reads `n` words from an offset. */
  method ReadList(b: bytes, from: nat, n: nat) returns (ws: seq<nat>)
    requires from + 8 * n <= |b|
    ensures ws == ReadWords(b[from..from + 8 * n], n)
  {
    hide FromLE;
    ws := [];
    var pos := from;
    ghost var whole := ReadWords(b[from..from + 8 * n], n);
    assert [] + whole == whole;
    for i := 0 to n
      invariant pos == from + 8 * i && whole == ws + ReadWords(b[pos..from + 8 * n], n - i)
    {
      var rest := b[pos..from + 8 * n];
      assert rest[..8] == b[pos..pos + 8] && rest[8..] == b[pos + 8..from + 8 * n];
      assert ws + ([FromLE(b[pos..pos + 8])] + ReadWords(rest[8..], n - i - 1))
          == (ws + [FromLE(b[pos..pos + 8])]) + ReadWords(rest[8..], n - i - 1);
      ws := ws + [FromLE(b[pos..pos + 8])];
      pos := pos + 8;
    }
    assert ws + [] == ws;
  }

  /** `CheckpointData::from_bytes`. */
  method FromBytes(b: bytes) returns (r: Option<Data>)
    ensures r == Parse(b)
  {
    if |b| < 48 { return None; }
    var f := ReadList(b, 0, 5);
    assert b[0..40] == b[..40];
    var n := FromLE(b[40..44]);
    if n > (|b| - 48) / 8 { return None; }
    var active := ReadList(b, 44, n);
    var pos := 44 + 8 * n;
    var m := FromLE(b[pos..pos + 4]);
    if m > (|b| - pos - 4) / 8 { return None; }
    var pinned := ReadList(b, pos + 4, m);
    if pos + 4 + 8 * m != |b| { return None; }
    ReadBack(b[..40], 5);
    assert b[48 + 8 * n..48 + 8 * n + 8 * m] == b[48 + 8 * n..];
    return Some(Data(f[0], f[1], f[2], f[3], f[4], active, pinned));
  }
}
