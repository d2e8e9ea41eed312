/**
Redo on bytes (crates/storage/src/recovery/mod.rs, `redo_record` and `apply_data`): the
LSN gate, the page mutators and the LSN stamp, run in place on a page buffer, do to the
decoded page exactly what `Redo` says.
*/
module RedoPages {
  import opened Options
  import opened ByteTypes
  import opened PageLayout
  import opened PageBytes
  import opened Redo
  import L = LeafPage
  import B = LeafBuilder
  import I = InternalPage

  // ── Flags ──────────────────────────────────────────────────────────────────

  predicate Incomplete(flags: byte) { flags % 2 == 1 }
  predicate HalfDead(flags: byte) { flags / 2 % 2 == 1 }

  /** `clear_incomplete_split` on the flag byte. */
  function WithoutIncomplete(flags: byte): (f: byte)
    ensures !Incomplete(f) && HalfDead(f) == HalfDead(flags)
  {
    if Incomplete(flags) then flags - 1 else flags
  }

  /** `set_half_dead` on the flag byte. */
  function WithHalfDead(flags: byte): (f: byte)
    ensures HalfDead(f) && Incomplete(f) == Incomplete(flags)
  {
    if HalfDead(flags) then flags else flags + 2
  }

  // ── Leaf pages ─────────────────────────────────────────────────────────────

  ghost predicate IsLeaf(s: bytes) { L.Wf(s) && s[0] == L.LEAF }

  /** Dead space: what removed records have left between the free gap and the records. */
  ghost function Waste(s: bytes): (w: nat)
    requires L.Wf(s)
    ensures w == 0 <==> B.Packed(s)
  {
    B.RowsFit(s);
    PAGE_SIZE - L.Base(s) - RowBytes(L.Rows(s)) - (L.FreeEnd(s) - L.FreeStart(s))
  }

  ghost function LeafOf(rows: seq<Row>, high: bytes, h: B.Head): (c: Content) {
    Leaf(rows, high, h.right, h.prev, Incomplete(h.flags), HalfDead(h.flags))
  }

  /** The decoded page. */
  ghost function LeafContent(s: bytes): (c: Content)
    ensures IsLeaf(s) ==> c.Leaf? && c.rows == L.Rows(s) && |c.rows| == L.Count(s)
  {
    if IsLeaf(s) then LeafOf(L.Rows(s), B.High(s), B.HeadOf(s)) else Zero
  }

  predicate LeafOp(op: Op) {
    match op
    case InsertRow(slot, key, val, recType, xmin) => Fits64(xmin)
    case SetXmax(slot, xmax) => Fits64(xmax)
    case SetRight(right) => Fits64(right)
    case SetPrev(prev) => Fits64(prev)
    case ClearIncomplete => true
    case SetHalfDead => true
    case _ => false
  }

  /** An insertion finds room beside the records and `waste` dead bytes; other changes need none. */
  predicate Room(op: Op, c: Content, waste: nat) {
    op.InsertRow? && c.Leaf? ==> RowRoom(c, op.key, op.val, waste)
  }

  predicate RowRoom(c: Content, key: bytes, val: bytes, waste: nat)
    requires c.Leaf?
  {
    SlotBase(|c.high|) + RowBytes(c.rows) + waste + SLOT_SIZE + RecTotalSize(|key|, |val|) <= PAGE_SIZE
  }

  /** The free gap takes a record exactly when the decoded page has room beside the dead space. */
  lemma GapIsFit(s: bytes, key: bytes, val: bytes)
    requires IsLeaf(s)
    ensures RowRoom(LeafContent(s), key, val, Waste(s)) <==> L.FreeEnd(s) - L.FreeStart(s) >= SLOT_SIZE + RecTotalSize(|key|, |val|)
    ensures RowRoom(LeafContent(s), key, val, 0) <==> RowFits(LeafContent(s), key, val)
  {
    B.BaseOf(s);
    hide L.DirOk, L.Dir, U16, U64, RowBytes, RecTotalSize;
  }

  lemma InsertedBytes(rows: seq<Row>, slot: nat, row: Row)
    requires slot <= |rows|
    ensures RowBytes(InsertAt(rows, slot, row)) == RowBytes(rows) + SLOT_SIZE + RecTotalSize(|row.key|, |row.val|)
  {
    hide RecTotalSize;
    assert rows == rows[..slot] + rows[slot..];
    RowBytesConcat(rows[..slot], rows[slot..]);
    RowBytesConcat(rows[..slot] + [row], rows[slot..]);
    B.AppendedBytes(rows[..slot], row);
  }

  /** Same header, other records, and as much less room as they take more. */
  lemma RowsChanged(s: bytes, s': bytes, rows: seq<Row>)
    requires IsLeaf(s) && L.Wf(s') && L.HeaderKept(s, s') && L.Rows(s') == rows
    requires L.FreeEnd(s') - L.FreeStart(s') + RowBytes(rows) == L.FreeEnd(s) - L.FreeStart(s) + RowBytes(LeafContent(s).rows)
    ensures IsLeaf(s') && LeafContent(s') == LeafContent(s).(rows := rows) && Waste(s') == Waste(s)
  {
    B.HeaderDecodes(s, s');
    B.BaseOf(s);
    B.BaseOf(s');
    assert s'[0] == s[0];
    hide L.DirOk, L.Dir, L.Rows, U16, U64, RowBytes, B.High, B.HeadOf;
  }

  lemma {:induction false} SameSizes(a: seq<Row>, b: seq<Row>)
    requires |a| == |b| && forall i {:trigger a[i]} :: 0 <= i < |a| ==> |a[i].key| == |b[i].key| && |a[i].val| == |b[i].val|
    ensures RowBytes(a) == RowBytes(b)
    decreases |a|
  {
    hide RecTotalSize;
    if a != [] {
      assert |a[0].key| == |b[0].key| && |a[0].val| == |b[0].val|;
      assert forall i {:trigger a[1..][i]} :: 0 <= i < |a| - 1 ==> a[1..][i] == a[i + 1] && b[1..][i] == b[i + 1];
      SameSizes(a[1..], b[1..]);
    }
  }

  lemma StampSizes(rows: seq<Row>, slot: nat, field: L.Stamp, v: nat)
    requires slot < |rows|
    ensures RowBytes(rows[slot := L.Stamped(rows[slot], field, v)]) == RowBytes(rows)
  {
    SameSizes(rows, rows[slot := L.Stamped(rows[slot], field, v)]);
  }

  method Insert(a: array<byte>, slot: nat, row: Row) returns (ok: bool)
    requires IsLeaf(a[..]) && slot <= |LeafContent(a[..]).rows| && Fits64(row.xmin) && Fits64(row.xmax)
    modifies a
    ensures ok <==> RowRoom(LeafContent(old(a[..])), row.key, row.val, Waste(old(a[..])))
    ensures !ok ==> a[..] == old(a[..])
    ensures ok ==> IsLeaf(a[..]) && Waste(a[..]) == Waste(old(a[..]))
                   && LeafContent(a[..]) == LeafContent(old(a[..])).(rows := InsertAt(LeafContent(old(a[..])).rows, slot, row))
  {
    ghost var s := a[..];
    GapIsFit(s, row.key, row.val);
    InsertedBytes(LeafContent(s).rows, slot, row);
    hide RowFits, RowRoom, Waste, RecTotalSize, RowBytes, L.DirOk, L.Dir, L.Rows, U16, U64, LeafOf;
    ok := L.PutRecord(a, slot, row);
    if ok { RowsChanged(s, a[..], InsertAt(LeafContent(s).rows, slot, row)); }
  }

  method Restamp(a: array<byte>, slot: nat, field: L.Stamp, v: nat)
    requires IsLeaf(a[..]) && slot < |LeafContent(a[..]).rows| && Fits64(v)
    modifies a
    ensures IsLeaf(a[..]) && Waste(a[..]) == Waste(old(a[..]))
    ensures var rows := LeafContent(old(a[..])).rows;
            LeafContent(a[..]) == LeafContent(old(a[..])).(rows := rows[slot := L.Stamped(rows[slot], field, v)])
  {
    ghost var s, rows := a[..], LeafContent(a[..]).rows;
    hide RowBytes, L.DirOk, L.Dir, L.Rows, U16, U64, LeafOf, L.HeaderKept, L.Stamped;
    L.SetStamp(a, slot, field, v);
    StampSizes(rows, slot, field, v);
    RowsChanged(s, a[..], rows[slot := L.Stamped(rows[slot], field, v)]);
  }

  /** `insert_raw` creates the record with no creator, `set_xmin` stamps it. */
  method InsertAndStamp(a: array<byte>, slot: nat, row: Row) returns (ok: bool)
    requires IsLeaf(a[..]) && slot <= |LeafContent(a[..]).rows| && row.xmax == 0 && Fits64(row.xmin)
    modifies a
    ensures ok <==> RowRoom(LeafContent(old(a[..])), row.key, row.val, Waste(old(a[..])))
    ensures !ok ==> a[..] == old(a[..])
    ensures ok ==> IsLeaf(a[..]) && Waste(a[..]) == Waste(old(a[..]))
                   && LeafContent(a[..]) == LeafContent(old(a[..])).(rows := InsertAt(LeafContent(old(a[..])).rows, slot, row))
  {
    hide IsLeaf, LeafContent, RowFits, RowRoom, Waste, L.Wf;
    ghost var c := LeafContent(a[..]);
    ok := Insert(a, slot, row.(xmin := 0));
    if ok {
      Restamp(a, slot, L.Xmin, row.xmin);
      assert InsertAt(c.rows, slot, row.(xmin := 0))[slot := row] == InsertAt(c.rows, slot, row);
    }
  }

  /** `apply_data` on a leaf: fails where the decoded operation does, or where dead space leaves no gap for it. */
  method ApplyLeaf(a: array<byte>, op: Op) returns (ok: bool)
    requires IsLeaf(a[..]) && LeafOp(op)
    modifies a
    ensures ok <==> Redo.Apply(op, LeafContent(old(a[..]))).Some? && Room(op, LeafContent(old(a[..])), Waste(old(a[..])))
    ensures !ok ==> a[..] == old(a[..])
    ensures ok ==> IsLeaf(a[..]) && LeafContent(a[..]) == Redo.Apply(op, LeafContent(old(a[..]))).value
    ensures ok ==> Waste(a[..]) == Waste(old(a[..]))
  {
    ghost var s := a[..];
    var n := B.NumPairs(a);
    hide IsLeaf, LeafContent, Waste, U16, U64, L.Wf, RecTotalSize, RowBytes;
    match op
    case InsertRow(slot, key, val, recType, xmin) =>
      if slot > n { return false; }
      ok := InsertAndStamp(a, slot, Row(key, val, recType, xmin, 0));
    case SetXmax(slot, xmax) =>
      if slot >= n { return false; }
      Restamp(a, slot, L.Xmax, xmax);
      ok := true;
    case SetRight(right) =>
      SetLink(a, 32, right);
      ok := true;
    case SetPrev(prev) =>
      SetLink(a, 24, prev);
      ok := true;
    case ClearIncomplete =>
      SetFlags(a, true);
      ok := true;
    case SetHalfDead =>
      SetFlags(a, false);
      ok := true;
  }

  method SetLink(a: array<byte>, off: nat, v: nat)
    requires IsLeaf(a[..]) && (off == 24 || off == 32) && Fits64(v)
    modifies a
    ensures IsLeaf(a[..]) && Waste(a[..]) == Waste(old(a[..]))
    ensures var c := LeafContent(old(a[..])); LeafContent(a[..]) == if off == 24 then c.(prev := v) else Leaf(c.rows, c.high, v, c.prev, c.incomplete, c.halfDead)
  {
    ghost var s := a[..];
    WriteU64(a, off, v);
    B.FieldsSet(s, a[..], off, off + 8);
    if off == 24 { U64Kept(s, a[..], 32); } else { U64Kept(s, a[..], 24); }
    assert a[..][0] == s[0] && a[..][1] == s[1];
    hide L.DirOk, L.Dir, L.Rows, U16, U64, RowBytes, B.High;
  }

  /** Clears INCOMPLETE_SPLIT, or sets HALF_DEAD. */
  method SetFlags(a: array<byte>, clear: bool)
    requires IsLeaf(a[..])
    modifies a
    ensures IsLeaf(a[..]) && Waste(a[..]) == Waste(old(a[..]))
    ensures var c := LeafContent(old(a[..]));
            LeafContent(a[..]) == if clear then Leaf(c.rows, c.high, c.right, c.prev, false, c.halfDead) else c.(halfDead := true)
  {
    ghost var s := a[..];
    a[1] := if clear then WithoutIncomplete(a[1]) else WithHalfDead(a[1]);
    B.FieldsSet(s, a[..], 1, 2);
    U64Kept(s, a[..], 24);
    U64Kept(s, a[..], 32);
    assert a[..][0] == s[0];
    hide L.DirOk, L.Dir, L.Rows, U16, U64, RowBytes, B.High;
  }

  // ── Internal pages ─────────────────────────────────────────────────────────

  const INTERNAL: byte := 2

  ghost predicate IsInternal(s: bytes) { I.Wf(s) && s[0] == INTERNAL }

  ghost function InternalContent(s: bytes): (c: Content)
    ensures IsInternal(s) ==> c.Internal? && c.keys == I.Keys(s) && c.children == I.Children(s)
    ensures IsInternal(s) ==> |c.keys| == I.Count(s) && |c.children| == I.Count(s) + 1
  {
    if IsInternal(s) then Internal(I.Children(s), I.Keys(s), I.High(s), U64(s, 24), Incomplete(s[1])) else Zero
  }

  predicate InternalOp(op: Op) {
    match op
    case InsertDownlink(at, sep, child) => Fits64(child)
    case RemoveKey(_, _) => true
    case ClearIncomplete => true
    case _ => false
  }

  /** `can_fit` is exact. */
  lemma RoomIsFit(s: bytes, sep: bytes)
    requires IsInternal(s)
    ensures KeyFits(InternalContent(s), sep) <==> I.FreeBytes(s) >= 12 + |sep|
  {
    I.LastEnd(s);
    hide KeyBytes, U16, U32, U64, I.KeyStart;
  }

  /** What the mutators leave alone decodes to the same high key, link and flags. */
  lemma SectionsChanged(s: bytes, s': bytes, c: Content)
    requires IsInternal(s) && c == InternalContent(s) && c.Internal? && I.Wf(s') && I.RestKept(s, s') && I.High(s') == I.High(s)
    ensures IsInternal(s') && InternalContent(s') == c.(keys := I.Keys(s'), children := I.Children(s'))
  {
    assert s'[0] == s[0] && s'[1] == s[1];
    U64Kept(s, s', 24);
    hide I.Keys, I.Children, I.High, U16, U32, U64, I.KeyStart;
  }

  /** `apply_data` on an internal page. */
  method ApplyInternal(a: array<byte>, op: Op) returns (ok: bool)
    requires IsInternal(a[..]) && InternalOp(op)
    modifies a
    ensures ok <==> Redo.Apply(op, InternalContent(old(a[..]))).Some?
    ensures !ok ==> a[..] == old(a[..])
    ensures ok ==> IsInternal(a[..]) && InternalContent(a[..]) == Redo.Apply(op, InternalContent(old(a[..]))).value
  {
    ghost var s := a[..];
    var n := I.Count(a[..]);
    match op
    case InsertDownlink(at, sep, child) =>
      if at > n { return false; }
      RoomIsFit(s, sep);
      hide KeyFits, I.Keys, I.Children, I.High, I.FreeBytes, U16, U32, U64;
      ok := I.InsertKeyAndRightChild(a, at, sep, child);
      if ok { SectionsChanged(s, a[..], InternalContent(s)); }
    case RemoveKey(index, keepRight) =>
      if index >= n { return false; }
      hide I.Keys, I.Children, I.High, U16, U32, U64;
      I.RemoveKeyAt(a, index, keepRight);
      SectionsChanged(s, a[..], InternalContent(s));
      ok := true;
    case ClearIncomplete =>
      a[1] := WithoutIncomplete(a[1]);
      InternalHeaderSet(s, a[..], 1, 2);
      U64Kept(s, a[..], 24);
      ok := true;
  }

  lemma InternalHeaderSet(s: bytes, s': bytes, lo: nat, hi: nat)
    requires IsInternal(s) && Changed(s, s', lo, hi) && I.Outside(lo, hi)
    ensures IsInternal(s') && I.Keys(s') == I.Keys(s) && I.Children(s') == I.Children(s) && I.High(s') == I.High(s)
  {
    I.HeaderSet(s, s', lo, hi);
    assert s'[0] == s[0];
  }

  // ── Gate, apply, stamp ─────────────────────────────────────────────────────

  ghost function LeafPageOf(s: bytes): Page
    requires IsLeaf(s)
  {
    Page(U64(s, 16), LeafContent(s))
  }

  ghost function InternalPageOf(s: bytes): Page
    requires IsInternal(s)
  {
    Page(U64(s, 16), InternalContent(s))
  }

  method StampLeaf(a: array<byte>, lsn: nat)
    requires IsLeaf(a[..]) && Fits64(lsn)
    modifies a
    ensures IsLeaf(a[..]) && LeafPageOf(a[..]) == Page(lsn, LeafContent(old(a[..]))) && Waste(a[..]) == Waste(old(a[..]))
  {
    ghost var s := a[..];
    WriteU64(a, 16, lsn);
    LeafStamped(s, a[..]);
  }

  lemma LeafStamped(s: bytes, s': bytes)
    requires IsLeaf(s) && Changed(s, s', 16, 24)
    ensures IsLeaf(s') && LeafContent(s') == LeafContent(s) && Waste(s') == Waste(s)
  {
    B.FieldsSet(s, s', 16, 24);
    U64Kept(s, s', 24);
    U64Kept(s, s', 32);
    assert s'[0] == s[0] && s'[1] == s[1];
    hide L.DirOk, L.Dir, L.Rows, U16, U64, RowBytes, B.High;
  }

  /** `redo_record`'s turn for one leaf block. */
  method RedoLeaf(a: array<byte>, lsn: nat, op: Op) returns (ok: bool)
    requires IsLeaf(a[..]) && LeafOp(op) && Fits64(lsn)
    modifies a
    ensures ok <==> var q := LeafPageOf(old(a[..]));
                    RedoBlock(q, lsn, op).Some? && (lsn <= q.lsn || Room(op, q.content, Waste(old(a[..]))))
    ensures ok ==> IsLeaf(a[..]) && LeafPageOf(a[..]) == RedoBlock(LeafPageOf(old(a[..])), lsn, op).value
    ensures ok ==> Waste(a[..]) == Waste(old(a[..]))
  {
    hide LeafContent, Redo.Apply, Room, Waste, L.DirOk, L.Dir, L.Rows, RowBytes, LeafOp;
    var was := U64(a[..], 16);
    if lsn <= was { return true; }
    ok := ApplyAndStamp(a, lsn, op);
  }

  method ApplyAndStamp(a: array<byte>, lsn: nat, op: Op) returns (ok: bool)
    requires IsLeaf(a[..]) && LeafOp(op) && Fits64(lsn)
    modifies a
    ensures ok <==> Redo.Apply(op, LeafContent(old(a[..]))).Some? && Room(op, LeafContent(old(a[..])), Waste(old(a[..])))
    ensures ok ==> IsLeaf(a[..]) && LeafPageOf(a[..]) == Page(lsn, Redo.Apply(op, LeafContent(old(a[..]))).value)
    ensures ok ==> Waste(a[..]) == Waste(old(a[..]))
  {
    hide LeafContent, LeafPageOf, Redo.Apply, Room, Waste, L.DirOk, L.Dir, L.Rows, L.Bounded, RowBytes, LeafOp, U16, U64;
    ok := ApplyLeaf(a, op);
    if ok { StampLeaf(a, lsn); }
  }

  /** `redo_record`'s turn for one internal block. */
  method RedoInternal(a: array<byte>, lsn: nat, op: Op) returns (ok: bool)
    requires IsInternal(a[..]) && InternalOp(op) && Fits64(lsn)
    modifies a
    ensures ok <==> RedoBlock(InternalPageOf(old(a[..])), lsn, op).Some?
    ensures ok ==> IsInternal(a[..]) && InternalPageOf(a[..]) == RedoBlock(InternalPageOf(old(a[..])), lsn, op).value
  {
    hide InternalContent, Redo.Apply, I.KeyStart, I.Rises, InternalOp, U16;
    var was := U64(a[..], 16);
    if lsn <= was { return true; }
    ok := ApplyInternal(a, op);
    if ok { StampInternal(a, lsn); }
  }

  method StampInternal(a: array<byte>, lsn: nat)
    requires IsInternal(a[..]) && Fits64(lsn)
    modifies a
    ensures IsInternal(a[..]) && InternalPageOf(a[..]) == Page(lsn, InternalContent(old(a[..])))
  {
    ghost var s := a[..];
    WriteU64(a, 16, lsn);
    InternalStamped(s, a[..]);
  }

  lemma InternalStamped(s: bytes, s': bytes)
    requires IsInternal(s) && Changed(s, s', 16, 24)
    ensures IsInternal(s') && InternalContent(s') == InternalContent(s)
  {
    InternalHeaderSet(s, s', 16, 24);
    U64Kept(s, s', 24);
    assert s'[1] == s[1];
    hide I.Keys, I.Children, I.High, U16, U32, U64, I.Wf;
  }

  // ── Page 0 and full-page images ────────────────────────────────────────────

  const META: byte := 3

  ghost predicate IsMeta(s: bytes) { |s| == PAGE_SIZE && s[0] == META }

  ghost function MetaPageOf(s: bytes): Page
    requires IsMeta(s)
  {
    Page(U64(s, 16), Meta(U64(s, 32), U64(s, 48)))
  }

  /** `meta::set_root` and `meta::set_lsn`; nothing else on the page changes. */
  method SetRootAndStamp(a: array<byte>, lsn: nat, root: PageId)
    requires IsMeta(a[..]) && Fits64(lsn) && Fits64(root)
    modifies a
    ensures IsMeta(a[..]) && MetaPageOf(a[..]) == Page(lsn, Meta(root, U64(old(a[..]), 48)))
    ensures Same(old(a[..]), a[..], 0, 16) && Same(old(a[..]), a[..], 24, 32) && Same(old(a[..]), a[..], 40, PAGE_SIZE)
  {
    ghost var s := a[..];
    WriteU64(a, 32, root);
    ghost var s1 := a[..];
    WriteU64(a, 16, lsn);
    assert a[..][0] == s1[0] == s[0];
    U64Kept(s1, a[..], 32);
    assert Same(s, s1, 48, 56) && Same(s1, a[..], 48, 56);
    SameTrans(s, s1, a[..], 48, 56);
    U64Kept(s, a[..], 48);
    SameTrans(s, s1, a[..], 0, 16);
    SameTrans(s, s1, a[..], 24, 32);
    SameTrans(s, s1, a[..], 40, PAGE_SIZE);
    hide U64;
  }

  /** `redo_record`'s turn for page 0. */
  method RedoMeta(a: array<byte>, lsn: nat, root: PageId)
    requires IsMeta(a[..]) && Fits64(lsn) && Fits64(root)
    modifies a
    ensures IsMeta(a[..]) && RedoBlock(MetaPageOf(old(a[..])), lsn, SetRoot(root)) == Some(MetaPageOf(a[..]))
  {
    hide U64;
    var was := U64(a[..], 16);
    if lsn > was { SetRootAndStamp(a, lsn, root); }
  }

  /** `redo_record`'s turn for an image: whatever the buffer held, it becomes the imaged page. */
  method RedoImage(a: array<byte>, lsn: nat, image: bytes)
    requires a.Length == PAGE_SIZE == |image| && Fits64(lsn)
    modifies a
    ensures lsn <= U64(old(a[..]), 16) ==> a[..] == old(a[..])
    ensures lsn > U64(old(a[..]), 16) && IsLeaf(image) ==>
              IsLeaf(a[..]) && ImageRedone(U64(old(a[..]), 16), lsn, LeafContent(image), LeafPageOf(a[..]))
    ensures lsn > U64(old(a[..]), 16) && IsInternal(image) ==>
              IsInternal(a[..]) && ImageRedone(U64(old(a[..]), 16), lsn, InternalContent(image), InternalPageOf(a[..]))
  {
    hide IsLeaf, IsInternal, LeafContent, InternalContent, U64, Waste;
    var was := U64(a[..], 16);
    if lsn > was {
      WriteBytes(a, 0, image);
      assert a[..] == a[0..PAGE_SIZE] == image;
      WriteU64(a, 16, lsn);
      if IsLeaf(image) { LeafStamped(image, a[..]); }
      if IsInternal(image) { InternalStamped(image, a[..]); }
    }
  }

  /** Redo of the image on any page last changed at `was` gives `q`, which holds exactly the imaged content. */
  ghost predicate ImageRedone(was: nat, lsn: nat, c: Content, q: Page) {
    q == Page(lsn, c) && forall c0 :: RedoBlock(Page(was, c0), lsn, Image(c)) == Some(q)
  }
}
