/**
Block payloads (crates/storage/src/wal.rs, the `log_*` functions, and
crates/storage/src/recovery/mod.rs, `apply_data`): what each logged page change is written
as, and how redo, going by record type and block index, reads it.
*/
module OpCodec {
  import opened Options
  import opened ByteTypes
  import opened LittleEndian
  import opened PageBytes
  import opened Redo
  import W = WalCodec

  const ROLE_LEFT: byte := 0
  const ROLE_RIGHT: byte := 1
  const ROLE_PARENT: byte := 2

  /** Which block of which record carries the change. */
  predicate Carries(ty: W.RecordType, index: nat, op: Op) {
    match op
    case InsertRow(_, _, _, _, _) => ty == W.Insert && index == 0
    case SetXmax(_, _) => ty == W.SetXMax && index == 0
    case InsertDownlink(_, _, _) => ty == W.InsertDownLink && index == 0
    case ClearIncomplete => (ty == W.InsertDownLink && index == 1) || (ty == W.NewRoot && index == 2)
    case SetRoot(_) => ty == W.NewRoot && index == 1
    case SetHalfDead => ty == W.MarkHalfDead && index == 0
    case SetRight(_) => ty == W.UnlinkPage
    case SetPrev(_) => ty == W.UnlinkPage
    case RemoveKey(_, _) => ty == W.UnlinkPage
    case Image(_) => false
  }

  /** The data part the writer puts in the block; lengths and slots are cast to 16 bits. */
  function Payload(op: Op): Option<bytes> {
    match op
    case InsertRow(slot, key, val, recType, xmin) =>
      Some((LE(slot, 2) + LE(|key|, 2) + LE(|val|, 2) + [recType] + LE(xmin, 8)) + (key + val))
    case SetXmax(slot, xmax) => Some(LE(slot, 2) + LE(xmax, 8))
    case InsertDownlink(at, sep, child) => Some((LE(at, 2) + LE(|sep|, 2) + LE(child, 8)) + sep)
    case SetRoot(root) => Some(LE(root, 8))
    case SetRight(right) => Some([ROLE_LEFT] + LE(right, 8))
    case SetPrev(prev) => Some([ROLE_RIGHT] + LE(prev, 8))
    case RemoveKey(index, keepRight) => Some([ROLE_PARENT] + LE(index, 2) + [if keepRight then 1 else 0])
    case _ => None
  }

  /** What redo reads: a change, nothing to do, or a panic on a payload that is missing or too short. */
  datatype Reading = Does(op: Op) | Nothing | Panics

  function ReadInsert(d: bytes): Reading {
    if |d| < 15 then Panics
    else
      var k, v := U16(d, 2), U16(d, 4);
      if |d| < 15 + k + v then Panics
      else Does(InsertRow(U16(d, 0), d[15..15 + k], d[15 + k..15 + k + v], d[6], U64(d, 7)))
  }

  function ReadDownlink(d: bytes): Reading {
    if |d| < 12 then Panics
    else
      var n := U16(d, 2);
      if |d| < 12 + n then Panics else Does(InsertDownlink(U16(d, 0), d[12..12 + n], U64(d, 4)))
  }

  function ReadUnlink(d: bytes): Reading {
    if d == [] then Panics
    else if d[0] == ROLE_LEFT then (if |d| < 9 then Panics else Does(SetRight(U64(d, 1))))
    else if d[0] == ROLE_RIGHT then (if |d| < 9 then Panics else Does(SetPrev(U64(d, 1))))
    else if d[0] == ROLE_PARENT then (if |d| < 4 then Panics else Does(RemoveKey(U16(d, 1), d[3] == 1)))
    else Panics
  }

  /** `apply_data`'s dispatch. */
  function Read(ty: W.RecordType, index: nat, data: Option<bytes>): Reading {
    if ty == W.Insert && index == 0 then (if data.None? then Panics else ReadInsert(data.value))
    else if ty == W.SetXMax && index == 0 then
      (if data.None? || |data.value| < 10 then Panics else Does(SetXmax(U16(data.value, 0), U64(data.value, 2))))
    else if ty == W.InsertDownLink && index == 0 then (if data.None? then Panics else ReadDownlink(data.value))
    else if ty == W.MarkHalfDead && index == 0 then Does(SetHalfDead)
    else if ty == W.UnlinkPage then (if data.None? then Panics else ReadUnlink(data.value))
    else if ty == W.InsertDownLink && index == 1 then Does(ClearIncomplete)
    else if ty == W.NewRoot && index == 1 then
      (if data.None? || |data.value| < 8 then Panics else Does(SetRoot(U64(data.value, 0))))
    else if ty == W.NewRoot && index == 2 then Does(ClearIncomplete)
    else Nothing
  }

  /** Fields within their widths. */
  predicate Fits(op: Op) {
    match op
    case InsertRow(slot, key, val, _, xmin) => Fits16(slot) && Fits16(|key|) && Fits16(|val|) && Fits64(xmin)
    case SetXmax(slot, xmax) => Fits16(slot) && Fits64(xmax)
    case InsertDownlink(at, sep, child) => Fits16(at) && Fits16(|sep|) && Fits64(child)
    case SetRoot(root) => Fits64(root)
    case SetRight(right) => Fits64(right)
    case SetPrev(prev) => Fits64(prev)
    case RemoveKey(index, _) => Fits16(index)
    case _ => true
  }

  // ── Round trip ─────────────────────────────────────────────────────────────

  lemma Two(n: nat)
    ensures LE(n, 2)[0] == n % 256 && LE(n, 2)[1] == n / 256 % 256
    ensures Fits16(n) ==> (n % 256) + 256 * (n / 256 % 256) == n
  {
    LETail(n, 2);
    LETail(n / 256, 1);
  }

  lemma InsertBack(slot: nat, key: bytes, val: bytes, recType: byte, xmin: nat)
    requires Fits(InsertRow(slot, key, val, recType, xmin))
    ensures ReadInsert(Payload(InsertRow(slot, key, val, recType, xmin)).value) == Does(InsertRow(slot, key, val, recType, xmin))
  {
    var d := Payload(InsertRow(slot, key, val, recType, xmin)).value;
    Two(slot);
    Two(|key|);
    Two(|val|);
    U64Back(xmin);
    hide LE, FromLE;
    assert d[7..15] == LE(xmin, 8);
    assert d[15..15 + |key|] == key && d[15 + |key|..15 + |key| + |val|] == val;
  }

  lemma DownlinkBack(at: nat, sep: bytes, child: nat)
    requires Fits(InsertDownlink(at, sep, child))
    ensures ReadDownlink(Payload(InsertDownlink(at, sep, child)).value) == Does(InsertDownlink(at, sep, child))
  {
    var d := Payload(InsertDownlink(at, sep, child)).value;
    Two(at);
    Two(|sep|);
    U64Back(child);
    hide LE, FromLE;
    assert d[4..12] == LE(child, 8);
    assert d[12..12 + |sep|] == sep;
  }

  lemma SmallBack(op: Op)
    requires Fits(op) && (op.SetXmax? || op.SetRoot?)
    ensures op.SetXmax? ==> Read(W.SetXMax, 0, Payload(op)) == Does(op)
    ensures op.SetRoot? ==> Read(W.NewRoot, 1, Payload(op)) == Does(op)
  {
    var d := Payload(op).value;
    hide LE, FromLE;
    if op.SetXmax? {
      Two(op.slot);
      U64Back(op.xmax);
      assert d[2..10] == LE(op.xmax, 8);
    } else {
      U64Back(op.root);
      assert d[0..8] == LE(op.root, 8);
    }
  }

  lemma UnlinkBack(op: Op)
    requires Fits(op) && (op.SetRight? || op.SetPrev? || op.RemoveKey?)
    ensures ReadUnlink(Payload(op).value) == Does(op)
  {
    var d := Payload(op).value;
    hide LE, FromLE;
    if op.RemoveKey? { Two(op.index); }
    else {
      var v := if op.SetRight? then op.right else op.prev;
      U64Back(v);
      assert d[1..9] == LE(v, 8);
    }
  }

  /** Redo reads only changes whose fields fit, and only from the block that carries them. */
  lemma ReadsCarried(ty: W.RecordType, index: nat, data: Option<bytes>)
    requires Read(ty, index, data).Does?
    ensures Carries(ty, index, Read(ty, index, data).op) && Fits(Read(ty, index, data).op)
  {
    if data.Some? {
      var d := data.value;
      if |d| >= 15 { U64Fits(d, 7); }
      if |d| >= 12 { U64Fits(d, 4); }
      if |d| >= 10 { U64Fits(d, 2); }
      if |d| >= 9 { U64Fits(d, 1); }
      if |d| >= 8 { U64Fits(d, 0); }
    }
    hide U64;
  }

  /** What the writer logs is what redo applies, exactly when its fields fit their widths. */
  lemma RoundTrip(ty: W.RecordType, index: nat, op: Op)
    requires Carries(ty, index, op)
    ensures Read(ty, index, Payload(op)) == Does(op) <==> Fits(op)
  {
    if Read(ty, index, Payload(op)) == Does(op) { ReadsCarried(ty, index, Payload(op)); }
    else if Fits(op) {
      match op
      case InsertRow(slot, key, val, recType, xmin) => InsertBack(slot, key, val, recType, xmin);
      case InsertDownlink(at, sep, child) => DownlinkBack(at, sep, child);
      case SetXmax(_, _) => SmallBack(op);
      case SetRoot(_) => SmallBack(op);
      case SetRight(_) => UnlinkBack(op);
      case SetPrev(_) => UnlinkBack(op);
      case RemoveKey(_, _) => UnlinkBack(op);
      case _ =>
    }
  }
}
