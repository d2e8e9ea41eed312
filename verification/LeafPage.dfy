/**
The leaf page (crates/storage/src/page/leaf.rs) as bytes: header, high key, slot directory
growing up, records growing down.  Every mutator is an in-place method on the buffer,
specified by what it does to the decoded records.
*/
module LeafPage {
  import opened ByteTypes
  import opened PageLayout
  import opened PageBytes
  import opened Redo

  const LEAF: byte := 1

  predicate Whole(s: bytes) { |s| == PAGE_SIZE }

  function Count(s: bytes): nat requires Whole(s) { U16(s, 2) }
  function FreeStart(s: bytes): nat requires Whole(s) { U16(s, 4) }
  function FreeEnd(s: bytes): nat requires Whole(s) { U16(s, 6) }
  function HighLen(s: bytes): nat requires Whole(s) { U16(s, 40) }
  function Base(s: bytes): nat requires Whole(s) { SlotBase(HighLen(s)) }

  predicate Bounded(s: bytes) {
    Whole(s) && FreeStart(s) == Base(s) + 4 * Count(s) && FreeStart(s) <= FreeEnd(s) <= PAGE_SIZE
  }

  // ── Records ────────────────────────────────────────────────────────────────

  datatype Slot = Slot(base: nat, size: nat)

  /** The slot's bytes are one record, of exactly the size its lengths ask for. */
  predicate RecOk(s: bytes, x: Slot) {
    REC_HEADER <= x.size && x.base + x.size <= |s| && x.size == RecTotalSize(U16(s, x.base), U16(s, x.base + 2))
  }

  function RowAt(s: bytes, x: Slot): Row
    requires RecOk(s, x)
  {
    var b, kl, vl := x.base, U16(s, x.base), U16(s, x.base + 2);
    Row(s[b + REC_HEADER..b + REC_HEADER + kl], s[b + REC_HEADER + Even(kl)..b + REC_HEADER + Even(kl) + vl],
        s[b + 4], U64(s, b + 8), U64(s, b + 16))
  }

  predicate Apart(x: Slot, y: Slot) { x.base + x.size <= y.base || y.base + y.size <= x.base }

  /** Records of a directory lie above the free gap and do not overlap. */
  ghost predicate DirOk(s: bytes, free: nat, dir: seq<Slot>) {
    (forall i {:trigger dir[i]} :: 0 <= i < |dir| ==> free <= dir[i].base && RecOk(s, dir[i]))
    && (forall i, j {:trigger dir[i], dir[j]} :: 0 <= i < j < |dir| ==> Apart(dir[i], dir[j]))
  }

  ghost function RowsIn(s: bytes, free: nat, dir: seq<Slot>): seq<Row>
    requires DirOk(s, free, dir)
  {
    seq(|dir|, i requires 0 <= i < |dir| => RowAt(s, dir[i]))
  }

  lemma SameWithin(s: bytes, s': bytes, lo: int, hi: int, a: int, b: int)
    requires Same(s, s', lo, hi) && lo <= a && b <= hi
    ensures Same(s, s', a, b)
  {
  }

  /** Key and value lie inside the record, after its header. */
  lemma RecInside(s: bytes, x: Slot)
    requires RecOk(s, x)
    ensures U16(s, x.base) <= Even(U16(s, x.base))
    ensures REC_HEADER + Even(U16(s, x.base)) + U16(s, x.base + 2) <= x.size
  {
  }

  /** The same lengths, key and value bytes. */
  lemma BodyKept(s: bytes, s': bytes, x: Slot)
    requires RecOk(s, x) && Same(s, s', x.base, x.base + 8) && Same(s, s', x.base + REC_HEADER, x.base + x.size)
    ensures RecOk(s', x) && RowAt(s', x).key == RowAt(s, x).key && RowAt(s', x).val == RowAt(s, x).val
    ensures RowAt(s', x).recType == RowAt(s, x).recType
  {
    var b, kl, vl := x.base, U16(s, x.base), U16(s, x.base + 2);
    U16Kept(s, s', b);
    U16Kept(s, s', b + 2);
    RecInside(s, x);
    var e := Even(kl);
    hide Even, RecTotalSize, U16, U64;
    SameSlice(s, s', b + REC_HEADER, b + REC_HEADER + kl);
    SameSlice(s, s', b + REC_HEADER + e, b + REC_HEADER + e + vl);
  }

  lemma RecKept(s: bytes, s': bytes, x: Slot)
    requires RecOk(s, x) && Same(s, s', x.base, x.base + x.size)
    ensures RecOk(s', x) && RowAt(s', x) == RowAt(s, x)
  {
    BodyKept(s, s', x);
    hide RecTotalSize, Even, U16, U64;
    U64Kept(s, s', x.base + 8);
    U64Kept(s, s', x.base + 16);
  }

  lemma DirKept(s: bytes, s': bytes, free: nat, dir: seq<Slot>)
    requires DirOk(s, free, dir) && Same(s, s', free, |s|)
    ensures DirOk(s', free, dir) && RowsIn(s', free, dir) == RowsIn(s, free, dir)
  {
    forall i | 0 <= i < |dir| ensures RecOk(s', dir[i]) && RowAt(s', dir[i]) == RowAt(s, dir[i]) {
      SameWithin(s, s', free, |s|, dir[i].base, dir[i].base + dir[i].size);
      RecKept(s, s', dir[i]);
    }
  }

  lemma DirInsert(s: bytes, free: nat, dir: seq<Slot>, pos: nat, x: Slot)
    requires DirOk(s, free, dir) && pos <= |dir| && RecOk(s, x) && x.base + x.size == free
    ensures DirOk(s, x.base, InsertAt(dir, pos, x))
    ensures RowsIn(s, x.base, InsertAt(dir, pos, x)) == InsertAt(RowsIn(s, free, dir), pos, RowAt(s, x))
  {
    hide RowAt, RecOk;
    var dir' := InsertAt(dir, pos, x);
    assert forall i :: 0 <= i < |dir'| ==> dir'[i] == if i < pos then dir[i] else if i == pos then x else dir[i - 1];
  }

  lemma DirRemove(s: bytes, free: nat, dir: seq<Slot>, pos: nat)
    requires DirOk(s, free, dir) && pos < |dir|
    ensures DirOk(s, free, RemoveAt(dir, pos))
    ensures RowsIn(s, free, RemoveAt(dir, pos)) == RemoveAt(RowsIn(s, free, dir), pos)
  {
    hide RowAt, RecOk;
    var dir' := RemoveAt(dir, pos);
    assert forall i :: 0 <= i < |dir'| ==> dir'[i] == if i < pos then dir[i] else dir[i + 1];
  }

  // ── The slot directory ─────────────────────────────────────────────────────

  function SlotAt(s: bytes, off: nat): Slot
    requires off + 4 <= |s|
  {
    Slot(U16(s, off), U16(s, off + 2))
  }

  function DirAt(s: bytes, base: nat, n: nat): seq<Slot>
    requires base + 4 * n <= |s|
  {
    seq(n, i requires 0 <= i < n => SlotAt(s, base + 4 * i))
  }

  function Dir(s: bytes): seq<Slot>
    requires Bounded(s)
  {
    DirAt(s, Base(s), Count(s))
  }

  /** The same four bytes, `gap` further down, are the same slot. */
  lemma SlotMoved(s: bytes, s': bytes, off: nat, gap: int)
    requires 0 <= off - gap && off + 4 <= |s'| && off - gap + 4 <= |s|
    requires forall k {:trigger s'[k]} :: off <= k < off + 4 ==> s'[k] == s[k - gap]
    ensures SlotAt(s', off) == SlotAt(s, off - gap)
  {
    assert s'[off] == s[off - gap] && s'[off + 1] == s[off + 1 - gap]
           && s'[off + 2] == s[off + 2 - gap] && s'[off + 3] == s[off + 3 - gap];
  }

  lemma DirShiftUp(s: bytes, s': bytes, base: nat, n: nat, pos: nat, x: Slot)
    requires |s'| == |s| && pos <= n && base + 4 * (n + 1) <= |s|
    requires Same(s, s', base, base + 4 * pos) && SlotAt(s', base + 4 * pos) == x
    requires forall k {:trigger s'[k]} :: base + 4 * (pos + 1) <= k < base + 4 * (n + 1) ==> s'[k] == s[k - SLOT_SIZE]
    ensures DirAt(s', base, n + 1) == InsertAt(DirAt(s, base, n), pos, x)
  {
    hide SlotAt;
    var d, d' := DirAt(s, base, n), DirAt(s', base, n + 1);
    forall i | 0 <= i < n + 1 ensures d'[i] == InsertAt(d, pos, x)[i] {
      if i < pos { SlotMoved(s, s', base + 4 * i, 0); }
      else if i > pos { SlotMoved(s, s', base + 4 * i, SLOT_SIZE); }
    }
  }

  lemma DirShiftDown(s: bytes, s': bytes, base: nat, n: nat, pos: nat)
    requires |s'| == |s| && pos < n && base + 4 * n <= |s|
    requires Same(s, s', base, base + 4 * pos)
    requires forall k {:trigger s'[k]} :: base + 4 * pos <= k < base + 4 * (n - 1) ==> s'[k] == s[k + SLOT_SIZE]
    ensures DirAt(s', base, n - 1) == RemoveAt(DirAt(s, base, n), pos)
  {
    hide SlotAt;
    var d, d' := DirAt(s, base, n), DirAt(s', base, n - 1);
    forall i | 0 <= i < n - 1 ensures d'[i] == RemoveAt(d, pos)[i] {
      SlotMoved(s, s', base + 4 * i, if i < pos then 0 else -SLOT_SIZE);
    }
  }

  lemma DirSame(s: bytes, s': bytes, base: nat, n: nat)
    requires base + 4 * n <= |s| && Same(s, s', base, base + 4 * n)
    ensures DirAt(s', base, n) == DirAt(s, base, n)
  {
    hide SlotAt;
    forall i | 0 <= i < n ensures SlotAt(s', base + 4 * i) == SlotAt(s, base + 4 * i) {
      SlotMoved(s, s', base + 4 * i, 0);
    }
  }

  // ── The page ───────────────────────────────────────────────────────────────

  ghost predicate Wf(s: bytes) { Bounded(s) && DirOk(s, FreeEnd(s), Dir(s)) }

  ghost function Rows(s: bytes): seq<Row>
    requires Wf(s)
  {
    RowsIn(s, FreeEnd(s), Dir(s))
  }

  /** Type, flags, page id, LSN, links and high key. */
  ghost predicate HeaderKept(s: bytes, s': bytes)
    requires Whole(s)
  {
    Same(s, s', 0, 2) && Same(s, s', 8, Base(s))
  }

  /** A new record at `x`, its slot at `pos`, the later slots moved up by one. */
  ghost predicate Inserted(s: bytes, s': bytes, pos: nat, x: Slot)
    requires Bounded(s) && pos <= Count(s)
  {
    var at := Base(s) + 4 * pos;
    Same(s, s', 0, 2) && Same(s, s', 8, at) && Same(s, s', FreeEnd(s), PAGE_SIZE)
    && Count(s') == Count(s) + 1 && FreeStart(s') == FreeStart(s) + SLOT_SIZE && FreeEnd(s') == x.base
    && FreeStart(s) + SLOT_SIZE <= x.base && x.base + x.size == FreeEnd(s) && RecOk(s', x) && SlotAt(s', at) == x
    && forall k {:trigger s'[k]} :: at + SLOT_SIZE <= k < FreeStart(s) + SLOT_SIZE ==> s'[k] == s[k - SLOT_SIZE]
  }

  lemma InsertedDecodes(s: bytes, s': bytes, pos: nat, x: Slot)
    requires Wf(s) && pos <= Count(s) && Inserted(s, s', pos, x)
    ensures Wf(s') && Rows(s') == InsertAt(Rows(s), pos, RowAt(s', x)) && HeaderKept(s, s')
  {
    hide RowAt, RecOk, SlotAt;
    U16Kept(s, s', 40);
    SameWithin(s, s', 8, Base(s) + 4 * pos, Base(s), Base(s) + 4 * pos);
    DirShiftUp(s, s', Base(s), Count(s), pos, x);
    DirKept(s, s', FreeEnd(s), Dir(s));
    DirInsert(s', FreeEnd(s), Dir(s), pos, x);
  }

  // ── Mutators ───────────────────────────────────────────────────────────────

  method WriteRecHeader(a: array<byte>, b: nat, kl: nat, vl: nat, recType: byte, xmin: nat, xmax: nat)
    requires b + REC_HEADER <= a.Length && Fits16(kl) && Fits16(vl) && Fits64(xmin) && Fits64(xmax)
    modifies a
    ensures Changed(old(a[..]), a[..], b, b + REC_HEADER)
    ensures U16(a[..], b) == kl && U16(a[..], b + 2) == vl && a[b + 4] == recType
    ensures U64(a[..], b + 8) == xmin && U64(a[..], b + 16) == xmax
  {
    WriteU64(a, b + 8, xmin);
    ghost var s1 := a[..];
    WriteU64(a, b + 16, xmax);
    ghost var s2 := a[..];
    SameSlice(s1, s2, b + 8, b + 16);
    WriteU16(a, b, kl);
    WriteU16(a, b + 2, vl);
    a[b + 4] := recType;
    SameSlice(s2, a[..], b + 8, b + 16);
    SameSlice(s2, a[..], b + 16, b + 24);
  }

  method WriteRecord(a: array<byte>, x: Slot, row: Row)
    requires x.base + x.size <= a.Length && x.size == RecTotalSize(|row.key|, |row.val|) && x.size < 0x1_0000
    requires Fits64(row.xmin) && Fits64(row.xmax)
    modifies a
    ensures Changed(old(a[..]), a[..], x.base, x.base + x.size) && RecOk(a[..], x) && RowAt(a[..], x) == row
  {
    hide Even, U16, U64, RowAt, RecOk;
    var b, kl, vl := x.base, |row.key|, |row.val|;
    WriteRecHeader(a, b, kl, vl, row.recType, row.xmin, row.xmax);
    ghost var s1 := a[..];
    WriteBytes(a, b + REC_HEADER, row.key);
    ghost var s2 := a[..];
    WriteBytes(a, b + REC_HEADER + Even(kl), row.val);
    ghost var s3 := a[..];
    RecWritten(s1, s2, s3, x, row);
  }

  /** Header first, then key, then value: the record decodes to the row. */
  lemma RecWritten(s1: bytes, s2: bytes, s3: bytes, x: Slot, row: Row)
    requires x.base + x.size <= |s1| && x.size == RecTotalSize(|row.key|, |row.val|)
    requires U16(s1, x.base) == |row.key| && U16(s1, x.base + 2) == |row.val| && s1[x.base + 4] == row.recType
    requires U64(s1, x.base + 8) == row.xmin && U64(s1, x.base + 16) == row.xmax
    requires var k := x.base + REC_HEADER; Changed(s1, s2, k, k + |row.key|) && s2[k..k + |row.key|] == row.key
    requires var v := x.base + REC_HEADER + Even(|row.key|);
             Changed(s2, s3, v, v + |row.val|) && s3[v..v + |row.val|] == row.val
    ensures RecOk(s3, x) && RowAt(s3, x) == row
  {
    var b, kl, vl := x.base, |row.key|, |row.val|;
    var e := Even(kl);
    assert kl <= e && REC_HEADER + e + vl <= x.size;
    hide Even, RecTotalSize;
    SameSlice(s2, s3, b + REC_HEADER, b + REC_HEADER + kl);
    ChangedSame(s1, s2, b + REC_HEADER, b + REC_HEADER + kl, b, b + REC_HEADER);
    ChangedSame(s2, s3, b + REC_HEADER + e, b + REC_HEADER + e + vl, b, b + REC_HEADER);
    SameTrans(s1, s2, s3, b, b + REC_HEADER);
    U16Kept(s1, s3, b);
    U16Kept(s1, s3, b + 2);
    SameSlice(s1, s3, b + 8, b + 16);
    SameSlice(s1, s3, b + 16, b + 24);
  }

  /** The three free-space fields of the header. */
  method WriteCounts(a: array<byte>, n: nat, freeStart: nat, freeEnd: nat)
    requires a.Length == PAGE_SIZE && Fits16(n) && Fits16(freeStart) && Fits16(freeEnd)
    modifies a
    ensures Changed(old(a[..]), a[..], 2, 8)
    ensures Count(a[..]) == n && FreeStart(a[..]) == freeStart && FreeEnd(a[..]) == freeEnd
  {
    WriteU16(a, 2, n);
    WriteU16(a, 4, freeStart);
    WriteU16(a, 6, freeEnd);
  }

  method WriteSlot(a: array<byte>, off: nat, x: Slot)
    requires off + SLOT_SIZE <= a.Length && Fits16(x.base) && Fits16(x.size)
    modifies a
    ensures Changed(old(a[..]), a[..], off, off + SLOT_SIZE) && SlotAt(a[..], off) == x
  {
    WriteU16(a, off, x.base);
    WriteU16(a, off + 2, x.size);
  }

  /** The four writes of an insertion, in order, amount to `Inserted`. */
  lemma WritesInsert(s: bytes, s1: bytes, s2: bytes, s3: bytes, s4: bytes, pos: nat, x: Slot)
    requires Wf(s) && pos <= Count(s) && FreeStart(s) + SLOT_SIZE <= x.base && x.base + x.size == FreeEnd(s)
    requires Changed(s, s1, x.base, FreeEnd(s)) && RecOk(s1, x)
    requires var at := Base(s) + 4 * pos;
             Changed(s1, s2, at + SLOT_SIZE, FreeStart(s) + SLOT_SIZE)
             && Moved(s1, s2, at, 4 * (Count(s) - pos), at + SLOT_SIZE)
             && Changed(s2, s3, at, at + SLOT_SIZE) && SlotAt(s3, at) == x
    requires Changed(s3, s4, 2, 8)
             && Count(s4) == Count(s) + 1 && FreeStart(s4) == FreeStart(s) + SLOT_SIZE && FreeEnd(s4) == x.base
    ensures Inserted(s, s4, pos, x) && RowAt(s4, x) == RowAt(s1, x)
  {
    var at, end := Base(s) + 4 * pos, FreeStart(s) + SLOT_SIZE;
    assert LEAF_HEADER <= Base(s) && at + SLOT_SIZE <= end;
    hide Even, RowAt, DirOk, RecTotalSize, U16, RecOk, SlotAt, Changed, Same, Moved;
    InsertSpares(s1, s2, s3, s4, at, end, x.base, x.base + x.size);
    RecKept(s1, s4, x);
    SlotMoved(s3, s4, at, 0);
    InsertFrames(s, s1, s4, x.base, x.base + x.size, at);
    ShiftKept(s, s1, s2, s3, s4, at, end, x.base, x.base + x.size);
  }

  /** What the last three of the writes leave alone. */
  lemma InsertSpares(s1: bytes, s2: bytes, s3: bytes, s4: bytes, at: nat, end: nat, lo: nat, hi: nat)
    requires 8 <= at && at + SLOT_SIZE <= end <= lo <= hi
    requires Changed(s1, s2, at + SLOT_SIZE, end) && Changed(s2, s3, at, at + SLOT_SIZE) && Changed(s3, s4, 2, 8)
    ensures Same(s1, s4, lo, hi) && Same(s1, s4, 0, 2) && Same(s1, s4, 8, at) && Same(s1, s4, hi, PAGE_SIZE)
  {
    hide Changed, Same;
    SameAfter3(s1, s2, s3, s4, at + SLOT_SIZE, end, at, at + SLOT_SIZE, 2, 8, lo, hi);
    SameAfter3(s1, s2, s3, s4, at + SLOT_SIZE, end, at, at + SLOT_SIZE, 2, 8, 0, 2);
    SameAfter3(s1, s2, s3, s4, at + SLOT_SIZE, end, at, at + SLOT_SIZE, 2, 8, 8, at);
    SameAfter3(s1, s2, s3, s4, at + SLOT_SIZE, end, at, at + SLOT_SIZE, 2, 8, hi, PAGE_SIZE);
  }

  lemma ShiftKept(s: bytes, s1: bytes, s2: bytes, s3: bytes, s4: bytes, at: nat, end: nat, lo: nat, hi: nat)
    requires 8 <= at && at + SLOT_SIZE <= end <= lo <= hi <= |s| && Changed(s, s1, lo, hi) && |s1| == |s2|
    requires Moved(s1, s2, at, end - at - SLOT_SIZE, at + SLOT_SIZE)
    requires Changed(s2, s3, at, at + SLOT_SIZE) && Changed(s3, s4, 2, 8)
    ensures forall k {:trigger s4[k]} :: at + SLOT_SIZE <= k < end ==> s4[k] == s[k - SLOT_SIZE]
  {
    forall k | at + SLOT_SIZE <= k < end ensures s4[k] == s[k - SLOT_SIZE] {
      assert s4[k] == s3[k] == s2[k] && s1[k - SLOT_SIZE] == s[k - SLOT_SIZE];
    }
  }

  lemma InsertFrames(s: bytes, s1: bytes, s4: bytes, lo: int, hi: int, at: int)
    requires |s| == PAGE_SIZE && Changed(s, s1, lo, hi) && 8 <= at <= lo <= hi
    requires Same(s1, s4, 0, 2) && Same(s1, s4, 8, at) && Same(s1, s4, hi, PAGE_SIZE)
    ensures Same(s, s4, 0, 2) && Same(s, s4, 8, at) && Same(s, s4, hi, PAGE_SIZE)
  {
    ChangedSame(s, s1, lo, hi, 0, 2);
    ChangedSame(s, s1, lo, hi, 8, at);
    ChangedSame(s, s1, lo, hi, hi, PAGE_SIZE);
    SameTrans(s, s1, s4, 0, 2);
    SameTrans(s, s1, s4, 8, at);
    SameTrans(s, s1, s4, hi, PAGE_SIZE);
  }

  lemma SameAfter3(s: bytes, s1: bytes, s2: bytes, s3: bytes, a1: int, b1: int, a2: int, b2: int, a3: int, b3: int, lo: int, hi: int)
    requires Changed(s, s1, a1, b1) && Changed(s1, s2, a2, b2) && Changed(s2, s3, a3, b3)
    requires (hi <= a1 || b1 <= lo) && (hi <= a2 || b2 <= lo) && (hi <= a3 || b3 <= lo)
    ensures Same(s, s3, lo, hi)
  {
    ChangedSame(s, s1, a1, b1, lo, hi);
    ChangedSame(s1, s2, a2, b2, lo, hi);
    ChangedSame(s2, s3, a3, b3, lo, hi);
    SameTrans(s, s1, s2, lo, hi);
    SameTrans(s, s2, s3, lo, hi);
  }

  /** `insert_raw`: refused exactly when the free gap is too small, else an insertion at `pos`. */
  method InsertRaw(a: array<byte>, pos: nat, key: bytes, val: bytes, recType: byte) returns (ok: bool)
    requires Wf(a[..]) && pos <= Count(a[..])
    modifies a
    ensures ok <==> FreeEnd(old(a[..])) - FreeStart(old(a[..])) >= SLOT_SIZE + RecTotalSize(|key|, |val|)
    ensures !ok ==> a[..] == old(a[..])
    ensures ok ==> Wf(a[..]) && Rows(a[..]) == InsertAt(old(Rows(a[..])), pos, Row(key, val, recType, 0, 0))
    ensures HeaderKept(old(a[..]), a[..])
  {
    ok := PutRecord(a, pos, Row(key, val, recType, 0, 0));
  }

  /** Shared by `insert_raw` and the builder's push, which is the case `pos == n`. */
  method PutRecord(a: array<byte>, pos: nat, row: Row) returns (ok: bool)
    requires Wf(a[..]) && pos <= Count(a[..]) && Fits64(row.xmin) && Fits64(row.xmax)
    modifies a
    ensures ok <==> FreeEnd(old(a[..])) - FreeStart(old(a[..])) >= SLOT_SIZE + RecTotalSize(|row.key|, |row.val|)
    ensures !ok ==> a[..] == old(a[..])
    ensures ok ==> Wf(a[..]) && Rows(a[..]) == InsertAt(old(Rows(a[..])), pos, row)
                   && FreeEnd(a[..]) - FreeStart(a[..])
                      == FreeEnd(old(a[..])) - FreeStart(old(a[..])) - SLOT_SIZE - RecTotalSize(|row.key|, |row.val|)
    ensures HeaderKept(old(a[..]), a[..])
  {
    ghost var s := a[..];
    var freeStart, freeEnd := FreeStart(a[..]), FreeEnd(a[..]);
    var size := RecTotalSize(|row.key|, |row.val|);
    if freeEnd - freeStart < SLOT_SIZE + size { return false; }
    hide RowAt, Rows, DirOk, InsertAt, U16, SlotAt, RecOk, Even, Changed, Same;
    var x := Slot(freeEnd - size, size);
    WriteInsertion(a, pos, x, row);
    InsertedDecodes(s, a[..], pos, x);
    return true;
  }

  /** Record, slot shift, slot and counts, in the source's order. */
  method WriteInsertion(a: array<byte>, pos: nat, x: Slot, row: Row)
    requires Wf(a[..]) && pos <= Count(a[..]) && Fits64(row.xmin) && Fits64(row.xmax)
    requires x.size == RecTotalSize(|row.key|, |row.val|)
    requires FreeStart(a[..]) + SLOT_SIZE <= x.base && x.base + x.size == FreeEnd(a[..])
    modifies a
    ensures Inserted(old(a[..]), a[..], pos, x) && RowAt(a[..], x) == row
  {
    ghost var s := a[..];
    var n, freeStart, at := Count(a[..]), FreeStart(a[..]), Base(a[..]) + 4 * pos;
    hide RowAt, DirOk, U16, SlotAt, RecOk, Even, Changed, Same, Inserted, Moved;
    WriteRecord(a, x, row);
    ghost var s1 := a[..];
    CopyWithin(a, at, 4 * (n - pos), at + SLOT_SIZE);
    ghost var s2 := a[..];
    WriteSlot(a, at, x);
    ghost var s3 := a[..];
    WriteCounts(a, n + 1, freeStart + SLOT_SIZE, x.base);
    WritesInsert(s, s1, s2, s3, a[..], pos, x);
  }

  /** `remove`: the slot goes, the record's bytes stay behind as dead space. */
  method Remove(a: array<byte>, pos: nat)
    requires Wf(a[..]) && pos < Count(a[..])
    modifies a
    ensures Wf(a[..]) && Rows(a[..]) == RemoveAt(old(Rows(a[..])), pos)
    ensures FreeEnd(a[..]) == FreeEnd(old(a[..])) && FreeStart(a[..]) == FreeStart(old(a[..])) - SLOT_SIZE
    ensures HeaderKept(old(a[..]), a[..])
  {
    ghost var s := a[..];
    var n, freeStart, freeEnd, base := Count(a[..]), FreeStart(a[..]), FreeEnd(a[..]), Base(a[..]);
    hide RowAt, Rows, DirOk, RemoveAt;
    var at := base + 4 * pos;
    CopyWithin(a, at + SLOT_SIZE, 4 * (n - pos - 1), at);
    ghost var s1 := a[..];
    FillZero(a, base + 4 * (n - 1), base + 4 * n);
    ghost var s2 := a[..];
    WriteCounts(a, n - 1, freeStart - SLOT_SIZE, freeEnd);
    RemovedDecodes(s, s1, s2, a[..], pos);
  }

  lemma RemovedDecodes(s: bytes, s1: bytes, s2: bytes, s3: bytes, pos: nat)
    requires Wf(s) && pos < Count(s)
    requires var at := Base(s) + 4 * pos;
             Changed(s, s1, at, FreeStart(s) - SLOT_SIZE)
             && Moved(s, s1, at + SLOT_SIZE, 4 * (Count(s) - pos - 1), at)
    requires Changed(s1, s2, FreeStart(s) - SLOT_SIZE, FreeStart(s))
    requires Changed(s2, s3, 2, 8)
             && Count(s3) == Count(s) - 1 && FreeStart(s3) == FreeStart(s) - SLOT_SIZE && FreeEnd(s3) == FreeEnd(s)
    ensures Wf(s3) && Rows(s3) == RemoveAt(Rows(s), pos) && HeaderKept(s, s3)
  {
    var at := Base(s) + 4 * pos;
    assert LEAF_HEADER <= Base(s);
    forall k | 0 <= k < PAGE_SIZE && (k < 2 || 8 <= k < at || FreeStart(s) <= k) ensures s3[k] == s[k] {
      assert s3[k] == s2[k] == s1[k];
    }
    forall k | at <= k < FreeStart(s) - SLOT_SIZE ensures s3[k] == s[k + SLOT_SIZE] { assert s3[k] == s2[k] == s1[k]; }
    U16Kept(s, s3, 40);
    hide RowAt, RecOk, SlotAt, Even;
    DirShiftDown(s, s3, Base(s), Count(s), pos);
    DirKept(s, s3, FreeEnd(s), Dir(s));
    DirRemove(s3, FreeEnd(s), Dir(s), pos);
  }

  datatype Stamp = Xmin | Xmax

  function Stamped(row: Row, field: Stamp, v: nat): Row { if field.Xmin? then row.(xmin := v) else row.(xmax := v) }

  /** `set_xmin` and `set_xmax`: one field of one record, everything else as it was. */
  method SetStamp(a: array<byte>, pos: nat, field: Stamp, v: nat)
    requires Wf(a[..]) && pos < Count(a[..]) && Fits64(v)
    modifies a
    ensures Wf(a[..]) && Rows(a[..]) == old(Rows(a[..]))[pos := Stamped(old(Rows(a[..]))[pos], field, v)]
    ensures HeaderKept(old(a[..]), a[..]) && FreeStart(a[..]) == FreeStart(old(a[..])) && FreeEnd(a[..]) == FreeEnd(old(a[..]))
  {
    ghost var s := a[..];
    var x := SlotAt(a[..], Base(a[..]) + 4 * pos);
    assert x == Dir(s)[pos] && RecOk(s, x);
    var off := x.base + if field.Xmin? then 8 else 16;
    WriteU64(a, off, v);
    StampDecodes(s, a[..], pos, field, v);
  }

  lemma StampDecodes(s: bytes, s': bytes, pos: nat, field: Stamp, v: nat)
    requires Wf(s) && pos < Count(s)
    requires var off := Dir(s)[pos].base + if field.Xmin? then 8 else 16;
             off + 8 <= |s| && Changed(s, s', off, off + 8) && U64(s', off) == v
    ensures Wf(s') && Rows(s') == Rows(s)[pos := Stamped(Rows(s)[pos], field, v)] && HeaderKept(s, s')
    ensures FreeStart(s') == FreeStart(s) && FreeEnd(s') == FreeEnd(s)
  {
    var dir, x := Dir(s), Dir(s)[pos];
    assert RecOk(s, x) && FreeEnd(s) <= x.base;
    U16Kept(s, s', 2);
    U16Kept(s, s', 4);
    U16Kept(s, s', 6);
    U16Kept(s, s', 40);
    DirSame(s, s', Base(s), Count(s));
    StampedRec(s, s', x, field, v);
    forall i | 0 <= i < |dir| ensures RecOk(s', dir[i]) && (i != pos ==> RowAt(s', dir[i]) == RowAt(s, dir[i])) {
      if i != pos {
        assert Apart(dir[i], x) || Apart(x, dir[i]) by { if i < pos { assert Apart(dir[i], dir[pos]); } else { assert Apart(dir[pos], dir[i]); } }
        RecKept(s, s', dir[i]);
      }
    }
  }

  lemma StampedRec(s: bytes, s': bytes, x: Slot, field: Stamp, v: nat)
    requires RecOk(s, x)
    requires var off := x.base + if field.Xmin? then 8 else 16; Changed(s, s', off, off + 8) && U64(s', off) == v
    ensures RecOk(s', x) && RowAt(s', x) == Stamped(RowAt(s, x), field, v)
  {
    BodyKept(s, s', x);
    hide RecTotalSize, Even, U16, U64;
    if field.Xmin? { U64Kept(s, s', x.base + 16); } else { U64Kept(s, s', x.base + 8); }
  }
}
