/** Bytes are naturals below 256. */
module ByteTypes {
  type byte = b: nat | b < 256
  type bytes = seq<byte>
}

/**
The WAL's circular byte buffer (crates/storage/src/wal.rs, `WalBuffer`), refining a FIFO
queue of serialized records.
*/
module WalBuffer {
  import opened ByteTypes

  datatype Entry = Entry(lsn: nat, data: bytes)
  datatype BufferedRecord = BufferedRecord(lsn: nat, len: nat)
  datatype PushResult = Ok | RecordTooLarge | BufferFull

  /** All queued bytes, oldest first. */
  function Flat(q: seq<Entry>): bytes {
    if q == [] then [] else q[0].data + Flat(q[1..])
  }

  lemma FlatNil(q: seq<Entry>)
    requires q == []
    ensures Flat(q) == []
  {
  }

  lemma {:induction false} FlatConcat(a: seq<Entry>, b: seq<Entry>)
    ensures Flat(a + b) == Flat(a) + Flat(b)
    decreases |a|
  {
    if a == [] { assert a + b == b; }
    else {
      FlatConcat(a[1..], b);
      assert (a + b)[0] == a[0] && (a + b)[1..] == a[1..] + b;
    }
  }

  lemma FlatOne(e: Entry)
    ensures Flat([e]) == e.data
  {
    assert [e][1..] == [];
  }

  /** Splitting the queued bytes around record `i`. */
  lemma FlatAt(q: seq<Entry>, i: nat)
    requires i < |q|
    ensures Flat(q[..i + 1]) == Flat(q[..i]) + q[i].data
    ensures Flat(q) == Flat(q[..i + 1]) + Flat(q[i + 1..])
  {
    hide Flat;
    FlatConcat(q[..i], [q[i]]);
    FlatOne(q[i]);
    assert q[..i + 1] == q[..i] + [q[i]];
    FlatConcat(q[..i + 1], q[i + 1..]);
    assert q == q[..i + 1] + q[i + 1..];
  }

  function Wrap(x: nat, cap: nat): nat { if x < cap then x else x - cap }

  /** Moving a ring position forward by at most one lap. */
  function Advance(pos: nat, n: nat, cap: nat): (r: nat)
    requires pos < cap && n <= cap
    ensures r == Wrap(pos + n, cap) < cap
  {
    assert pos + n >= cap ==> (pos + n) / cap == 1;
    (pos + n) % cap
  }

  ghost function RingAt(ring: bytes, pos: nat, i: nat): byte
    requires pos < |ring| && i < |ring|
  {
    ring[Wrap(pos + i, |ring|)]
  }

  /** `len` bytes read from a ring, starting at `pos`. */
  ghost function Ring(ring: bytes, pos: nat, len: nat): (r: bytes)
    requires pos < |ring| && len <= |ring|
    ensures |r| == len && forall i :: 0 <= i < len ==> r[i] == RingAt(ring, pos, i)
  {
    seq(len, i requires 0 <= i < len => RingAt(ring, pos, i))
  }

  class Buffer {
    var data: array<byte>
    var readPos: nat
    var writePos: nat
    var records: seq<BufferedRecord>
    ghost var queue: seq<Entry>

    ghost predicate Valid()
      reads this, data
    {
      readPos < data.Length && writePos < data.Length
      && |records| == |queue|
      && (forall i :: 0 <= i < |queue| ==>
            records[i] == BufferedRecord(queue[i].lsn, |queue[i].data|) && queue[i].data != [])
      && |Flat(queue)| <= data.Length
      && writePos == Wrap(readPos + |Flat(queue)|, data.Length)
      && Flat(queue) == Ring(data[..], readPos, |Flat(queue)|)
    }

    constructor (capacity: nat)
      requires capacity > 0
      ensures Valid() && queue == [] && fresh(data) && data.Length == capacity
    {
      data := new byte[capacity](_ => 0);
      readPos, writePos, records, queue := 0, 0, [], [];
    }

    /** An empty and an exactly full ring have equal positions; the records tell them apart. */
    method UsedSpace() returns (used: nat)
      requires Valid()
      ensures used == |Flat(queue)|
    {
      if records == [] { return 0; }
      FlatAt(queue, 0);
      if writePos == readPos { used := data.Length; }
      else if writePos > readPos { used := writePos - readPos; }
      else { used := data.Length - readPos + writePos; }
    }

    method PushRecord(lsn: nat, record: bytes) returns (r: PushResult)
      requires Valid() && record != []
      modifies this, data
      ensures Valid() && data == old(data)
      ensures r == (if |record| > data.Length then RecordTooLarge
                    else if |record| > data.Length - |Flat(old(queue))| then BufferFull
                    else Ok)
      ensures queue == if r.Ok? then old(queue) + [Entry(lsn, record)] else old(queue)
    {
      if |record| > data.Length { return RecordTooLarge; }
      var used := UsedSpace();
      if |record| > data.Length - used { return BufferFull; }
      ghost var before := Flat(queue);
      CopyIntoRing(record);
      records := records + [BufferedRecord(lsn, |record|)];
      queue := queue + [Entry(lsn, record)];
      FlatConcat(old(queue), [Entry(lsn, record)]);
      FlatOne(Entry(lsn, record));
      return Ok;
    }

    method CopyIntoRing(record: bytes)
      requires Valid() && |record| <= data.Length - |Flat(queue)|
      modifies data, `writePos
      ensures writePos == Wrap(readPos + |Flat(queue)| + |record|, data.Length)
      ensures Flat(queue) + record == Ring(data[..], readPos, |Flat(queue)| + |record|)
    {
      hide Flat;
      var first := if |record| < data.Length - writePos then |record| else data.Length - writePos;
      forall i | 0 <= i < first { data[writePos + i] := record[i]; }
      forall i | 0 <= i < |record| - first { data[i] := record[first + i]; }
      forall i | 0 <= i < |Flat(queue)|
        ensures RingAt(data[..], readPos, i) == RingAt(old(data[..]), readPos, i)
      {
      }
      RingAppend(old(data[..]), data[..], readPos, Flat(queue), record);
      writePos := Advance(writePos, |record|, data.Length);
    }

    /** Total length and last LSN of the buffered records, if any. */
    method BufferedPrefixLen() returns (some: bool, total: nat, lastLsn: nat)
      requires Valid()
      ensures some <==> queue != []
      ensures some ==> total == |Flat(queue)| && lastLsn == queue[|queue| - 1].lsn
    {
      total, lastLsn := 0, 0;
      for i := 0 to |records|
        invariant total == |Flat(queue[..i])|
        invariant i > 0 ==> lastLsn == queue[i - 1].lsn
      {
        FlatAt(queue, i);
        total, lastLsn := total + records[i].len, records[i].lsn;
      }
      assert queue[..|queue|] == queue;
      some := records != [];
    }

    /** The drain: the queued records come out whole, in order, across any wraparound. */
    method CopyRecords() returns (out: seq<Entry>)
      requires Valid()
      ensures out == queue
    {
      out := [];
      var cursor := readPos;
      for i := 0 to |records|
        invariant out == queue[..i]
        invariant |Flat(queue[..i])| <= data.Length
        invariant cursor == Wrap(readPos + |Flat(queue[..i])|, data.Length) < data.Length
      {
        ghost var start := |Flat(queue[..i])|;
        FlatAt(queue, i);
        assert Flat(queue)[start..start + |queue[i].data|] == queue[i].data;
        var chunk;
        chunk, cursor := CopyOne(data, readPos, Flat(queue), start, records[i].len, cursor);
        assert queue[..i + 1] == queue[..i] + [queue[i]];
        out := out + [Entry(records[i].lsn, chunk)];
      }
    }

    /** Drops `k` whole records, `n` bytes in all, from the front. */
    method ConsumePrefix(n: nat, ghost k: nat)
      requires Valid() && k <= |queue| && n == |Flat(queue[..k])|
      modifies `readPos, `writePos, `records, `queue
      ensures Valid() && queue == old(queue)[k..]
    {
      hide Flat;
      PopRecords(n, k);
      PrefixLength(queue, k);
      RingDrop(data[..], readPos, Flat(queue), n);
      readPos := Advance(readPos, n, data.Length);
      queue := queue[k..];
      if records == [] {
        FlatNil(queue);
        readPos, writePos := 0, 0;
      }
    }

    /** The loop of `consume_prefix`: pops records until `n` bytes are accounted for. */
    method PopRecords(n: nat, ghost k: nat)
      requires Valid() && k <= |queue| && n == |Flat(queue[..k])|
      modifies `records
      ensures records == old(records)[k..]
    {
      var remaining := n;
      ghost var dropped := 0;
      while remaining > 0
        invariant dropped <= k && records == old(records)[dropped..]
        invariant remaining == n - |Flat(queue[..dropped])|
      {
        FlatAt(queue, dropped);
        PrefixGrows(queue, dropped, k);
        remaining := remaining - records[0].len;
        records := records[1..];
        dropped := dropped + 1;
      }
      PrefixGrows(queue, dropped, k);
    }
  }

  /** Copies one record's bytes out of the ring, in at most two contiguous chunks. */
  method CopyOne(ring: array<byte>, ghost pos: nat, ghost flat: bytes, ghost start: nat, len: nat, from: nat)
    returns (chunk: bytes, cursor: nat)
    requires pos < ring.Length && |flat| <= ring.Length && flat == Ring(ring[..], pos, |flat|)
    requires start + len <= |flat| && from == Wrap(pos + start, ring.Length) < ring.Length
    ensures chunk == flat[start..start + len]
    ensures cursor == Wrap(pos + start + len, ring.Length) < ring.Length
  {
    hide Ring, Advance;
    var left: nat := len;
    chunk, cursor := [], from;
    while left > 0
      invariant left + |chunk| == len && chunk == flat[start..start + |chunk|]
      invariant cursor == Wrap(pos + start + |chunk|, ring.Length) < ring.Length
    {
      var n := if left < ring.Length - cursor then left else ring.Length - cursor;
      RingChunk(ring[..], pos, flat, start + |chunk|, n);
      ghost var done := start + |chunk|;
      assert flat[start..done] + flat[done..done + n] == flat[start..done + n];
      assert ring[cursor..cursor + n] == ring[..][cursor..cursor + n];
      chunk := chunk + ring[cursor..cursor + n];
      left := left - n;
      cursor := Advance(cursor, n, ring.Length);
    }
  }

  lemma PrefixLength(q: seq<Entry>, k: nat)
    requires k <= |q|
    ensures Flat(q) == Flat(q[..k]) + Flat(q[k..])
  {
    FlatConcat(q[..k], q[k..]);
    assert q == q[..k] + q[k..];
  }

  /** Longer prefixes of nonempty records hold strictly more bytes. */
  lemma PrefixGrows(q: seq<Entry>, j: nat, k: nat)
    requires j <= k <= |q| && forall i :: 0 <= i < |q| ==> q[i].data != []
    ensures |Flat(q[..j])| <= |Flat(q[..k])|
    ensures j < k ==> |Flat(q[..j])| + |q[j].data| <= |Flat(q[..k])|
    ensures |Flat(q[..j])| == |Flat(q[..k])| <==> j == k
  {
    PrefixLength(q[..k], j);
    assert q[..k][..j] == q[..j];
    if j < k {
      FlatAt(q[..k][j..], 0);
      assert q[..k][j..][0] == q[j];
    }
  }

  /** Writing behind the queued bytes appends to them, across the end of the ring. */
  lemma RingAppend(old_: bytes, new_: bytes, pos: nat, flat: bytes, rec: bytes)
    requires |old_| == |new_| && pos < |old_| && |flat| + |rec| <= |old_|
    requires flat == Ring(old_, pos, |flat|)
    requires forall i :: 0 <= i < |rec| ==> RingAt(new_, Wrap(pos + |flat|, |old_|), i) == rec[i]
    requires forall i :: 0 <= i < |flat| ==> RingAt(new_, pos, i) == RingAt(old_, pos, i)
    ensures flat + rec == Ring(new_, pos, |flat| + |rec|)
  {
    forall i | 0 <= i < |flat| + |rec| ensures (flat + rec)[i] == RingAt(new_, pos, i) {
      if i >= |flat| { assert rec[i - |flat|] == RingAt(new_, Wrap(pos + |flat|, |old_|), i - |flat|); }
    }
  }

  /** A run of queued bytes that does not cross the end of the ring is contiguous there. */
  lemma RingChunk(ring: bytes, pos: nat, flat: bytes, off: nat, n: nat)
    requires pos < |ring| && |flat| <= |ring| && flat == Ring(ring, pos, |flat|)
    requires off + n <= |flat| && Wrap(pos + off, |ring|) + n <= |ring|
    ensures var cursor := Wrap(pos + off, |ring|); ring[cursor..cursor + n] == flat[off..off + n]
  {
    var cursor := Wrap(pos + off, |ring|);
    var a, b := ring[cursor..cursor + n], flat[off..off + n];
    forall i | 0 <= i < n ensures a[i] == b[i] {
      assert flat[off + i] == RingAt(ring, pos, off + i);
    }
  }

  lemma RingDrop(ring: bytes, pos: nat, flat: bytes, n: nat)
    requires pos < |ring| && |flat| <= |ring| && flat == Ring(ring, pos, |flat|) && n <= |flat|
    ensures flat[n..] == Ring(ring, Wrap(pos + n, |ring|), |flat| - n)
  {
    var a, b := flat[n..], Ring(ring, Wrap(pos + n, |ring|), |flat| - n);
    forall i | 0 <= i < |flat| - n ensures a[i] == b[i] {
      assert flat[n + i] == RingAt(ring, pos, n + i) == RingAt(ring, Wrap(pos + n, |ring|), i);
    }
  }
}
