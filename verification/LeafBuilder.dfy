/**
Rebuilding leaf pages (crates/storage/src/page/leaf.rs, `LeafPageBuilder`, `compact` and
`position`): disjoint records always fit again, a built page has no dead space, and
compaction keeps exactly the records that are not vacuumable.
*/
module LeafBuilder {
  import opened Options
  import opened ByteTypes
  import opened PageLayout
  import opened PageBytes
  import opened Redo
  import opened LeafPage
  import opened Sets

  // ── Disjoint records fit again ─────────────────────────────────────────────

  ghost function Range(lo: nat, hi: nat): (r: set<nat>)
    ensures forall k {:trigger k in r} :: k in r <==> lo <= k < hi
    decreases hi
  {
    if hi <= lo then {} else Range(lo, hi - 1) + {hi - 1}
  }

  lemma {:induction false} RangeSize(lo: nat, hi: nat)
    requires lo <= hi
    ensures |Range(lo, hi)| == hi - lo
    decreases hi - lo
  {
    if lo < hi {
      RangeSize(lo, hi - 1);
    }
  }

  ghost function Sizes(dir: seq<Slot>): nat { if dir == [] then 0 else dir[0].size + Sizes(dir[1..]) }

  ghost function Cover(dir: seq<Slot>): set<nat> {
    if dir == [] then {} else Range(dir[0].base, dir[0].base + dir[0].size) + Cover(dir[1..])
  }

  lemma {:induction false} InCover(dir: seq<Slot>, k: nat)
    requires k in Cover(dir)
    ensures exists i :: 0 <= i < |dir| && dir[i].base <= k < dir[i].base + dir[i].size
    decreases |dir|
  {
    if dir[0].base <= k < dir[0].base + dir[0].size {}
    else {
      InCover(dir[1..], k);
      var i :| 0 <= i < |dir[1..]| && dir[1..][i].base <= k < dir[1..][i].base + dir[1..][i].size;
      assert dir[i + 1] == dir[1..][i];
    }
  }

  ghost predicate Scattered(dir: seq<Slot>) {
    forall i, j {:trigger dir[i], dir[j]} :: 0 <= i < j < |dir| ==> Apart(dir[i], dir[j])
  }

  lemma {:induction false} CoverSize(dir: seq<Slot>)
    requires Scattered(dir)
    ensures |Cover(dir)| == Sizes(dir)
    decreases |dir|
  {
    hide Range;
    if dir != [] {
      var x, rest := dir[0], dir[1..];
      assert forall i :: 0 <= i < |rest| ==> rest[i] == dir[i + 1];
      CoverSize(rest);
      RangeSize(x.base, x.base + x.size);
      forall k | k in Cover(rest) ensures k !in Range(x.base, x.base + x.size) {
        InCover(rest, k);
        var i :| 0 <= i < |rest| && rest[i].base <= k < rest[i].base + rest[i].size;
        assert Apart(dir[0], dir[i + 1]);
      }
    }
  }

  lemma SizesFit(dir: seq<Slot>, lo: nat, hi: nat)
    requires Scattered(dir) && lo <= hi && forall i :: 0 <= i < |dir| ==> lo <= dir[i].base && dir[i].base + dir[i].size <= hi
    ensures Sizes(dir) <= hi - lo
  {
    hide Range;
    CoverSize(dir);
    RangeSize(lo, hi);
    forall k | k in Cover(dir) ensures k in Range(lo, hi) { InCover(dir, k); }
    SubsetSize(Cover(dir), Range(lo, hi));
  }

  lemma {:induction false} RowBytesOf(rows: seq<Row>, dir: seq<Slot>)
    requires |rows| == |dir| && forall i :: 0 <= i < |dir| ==> dir[i].size == RecTotalSize(|rows[i].key|, |rows[i].val|)
    ensures RowBytes(rows) == 4 * |dir| + Sizes(dir)
    decreases |dir|
  {
    hide RecTotalSize;
    if dir != [] {
      assert forall i :: 0 <= i < |dir[1..]| ==> dir[1..][i] == dir[i + 1] && rows[1..][i] == rows[i + 1];
      RowBytesOf(rows[1..], dir[1..]);
    }
  }

  /** Whatever dead space a page has, its records and its free gap fit beside it. */
  lemma RowsFit(s: bytes)
    requires Wf(s)
    ensures Base(s) + RowBytes(Rows(s)) <= Base(s) + RowBytes(Rows(s)) + FreeEnd(s) - FreeStart(s) <= PAGE_SIZE
  {
    var dir, rows := Dir(s), Rows(s);
    forall i | 0 <= i < |dir| ensures dir[i].size == RecTotalSize(|rows[i].key|, |rows[i].val|) {
      assert RecOk(s, dir[i]) && rows[i] == RowAt(s, dir[i]);
    }
    RowBytesOf(rows, dir);
    SizesFit(dir, FreeEnd(s), PAGE_SIZE);
  }

  // ── Building ───────────────────────────────────────────────────────────────

  ghost function High(s: bytes): bytes
    requires Bounded(s)
  {
    s[LEAF_HEADER..LEAF_HEADER + HighLen(s)]
  }

  /** Page type, flags, page id, LSN, left and right link. */
  datatype Head = Head(kind: byte, flags: byte, id: nat, lsn: nat, prev: nat, right: nat)

  ghost function HeadOf(s: bytes): Head
    requires Whole(s)
  {
    Head(s[0], s[1], U64(s, 8), U64(s, 16), U64(s, 24), U64(s, 32))
  }

  lemma HeaderDecodes(s: bytes, s': bytes)
    requires Bounded(s) && HeaderKept(s, s')
    ensures Whole(s') && HeadOf(s') == HeadOf(s) && HighLen(s') == HighLen(s) && (Bounded(s') ==> High(s') == High(s))
  {
    assert LEAF_HEADER + HighLen(s) <= Base(s);
    SameSlice(s, s', 8, 16);
    SameSlice(s, s', 16, 24);
    SameSlice(s, s', 24, 32);
    SameSlice(s, s', 32, 40);
    U16Kept(s, s', 40);
    SameSlice(s, s', LEAF_HEADER, LEAF_HEADER + HighLen(s));
  }

  ghost predicate Packed(s: bytes) {
    Wf(s) && FreeEnd(s) - FreeStart(s) == PAGE_SIZE - Base(s) - RowBytes(Rows(s))
  }

  class Builder {
    const data: array<byte>

    ghost predicate Valid()
      reads this, data
    {
      data.Length == PAGE_SIZE && Packed(data[..])
    }

    ghost function Page(): bytes
      reads this, data
    {
      data[..]
    }

    constructor (pageId: nat, data: array<byte>)
      requires data.Length == PAGE_SIZE && Fits64(pageId)
      modifies data
      ensures this.data == data && Valid()
      ensures Rows(Page()) == [] && High(Page()) == [] && HeadOf(Page()) == Head(LEAF, 0, pageId, 0, 0, 0)
    {
      this.data := data;
      new;
      FillZero(data, 0, PAGE_SIZE);
      data[0] := LEAF;
      WriteU64(data, 8, pageId);
      ghost var s1 := data[..];
      assert forall k {:trigger s1[k]} :: 16 <= k < PAGE_SIZE ==> s1[k] == 0;
      WriteU16(data, 4, SlotBase(0));
      WriteU16(data, 6, PAGE_SIZE);
      BlankPage(s1, data[..], pageId);
    }

    /** `set_high_key`, before any push. */
    method SetHighKey(key: bytes)
      requires Valid() && Rows(Page()) == [] && SlotBase(|key|) <= PAGE_SIZE
      modifies data
      ensures Valid() && Rows(Page()) == [] && High(Page()) == key && HeadOf(Page()) == old(HeadOf(Page()))
    {
      ghost var s := data[..];
      WriteU16(data, 40, |key|);
      WriteBytes(data, LEAF_HEADER, key);
      WriteU16(data, 4, SlotBase(|key|));
      HighKeySet(s, data[..], key);
    }

    /** `set_prev_page` and `set_rightlink`. */
    method SetLinks(prev: nat, right: nat)
      requires Valid() && Fits64(prev) && Fits64(right)
      modifies data
      ensures Valid() && Rows(Page()) == old(Rows(Page())) && High(Page()) == old(High(Page()))
      ensures HeadOf(Page()) == old(HeadOf(Page())).(prev := prev, right := right)
    {
      ghost var s := data[..];
      WriteU64(data, 32, right);
      ghost var s1 := data[..];
      WriteU64(data, 24, prev);
      SameSlice(s1, data[..], 32, 40);
      FieldsSet(s, data[..], 24, 40);
      SameSlice(s, data[..], 8, 16);
      SameSlice(s, data[..], 16, 24);
    }

    /** The last header writes of `compact`: LSN and flags. */
    method SetLsnAndFlags(lsn: nat, flags: byte)
      requires Valid() && Fits64(lsn)
      modifies data
      ensures Valid() && Rows(Page()) == old(Rows(Page())) && High(Page()) == old(High(Page()))
      ensures HeadOf(Page()) == old(HeadOf(Page())).(lsn := lsn, flags := flags)
    {
      ghost var s := data[..];
      WriteU64(data, 16, lsn);
      ghost var s1 := data[..];
      FieldsSet(s, s1, 16, 24);
      data[1] := flags;
      FieldsSet(s1, data[..], 1, 2);
      SameSlice(s1, data[..], 16, 24);
      SameSlice(s, data[..], 8, 16);
      SameSlice(s, data[..], 24, 32);
      SameSlice(s, data[..], 32, 40);
    }

    /** `push_with_mvcc_raw`; the source panics where `requires` asks for room. */
    method Push(row: Row)
      requires Valid() && Fits64(row.xmin) && Fits64(row.xmax)
      requires Base(Page()) + RowBytes(Rows(Page()) + [row]) <= PAGE_SIZE
      modifies data
      ensures Valid() && Rows(Page()) == old(Rows(Page())) + [row]
      ensures High(Page()) == old(High(Page())) && HeadOf(Page()) == old(HeadOf(Page())) && Base(Page()) == old(Base(Page()))
    {
      ghost var s := data[..];
      var n := Count(data[..]);
      assert |Rows(s)| == n;
      AppendedBytes(Rows(s), row);
      hide Rows, RowBytes, DirOk, Dir, U16, U64, RecTotalSize, Even;
      var ok := PutRecord(data, n, row);
      assert InsertAt(Rows(s), n, row) == Rows(s) + [row];
      HeaderDecodes(s, data[..]);
    }
  }

  lemma AppendedBytes(rows: seq<Row>, row: Row)
    ensures RowBytes(rows + [row]) == RowBytes(rows) + SLOT_SIZE + RecTotalSize(|row.key|, |row.val|)
  {
    RowBytesConcat(rows, [row]);
    assert [row][1..] == [];
  }

  lemma BlankPage(s: bytes, s': bytes, pageId: nat)
    requires |s| == PAGE_SIZE && s[0] == LEAF && s[1] == 0 && U64(s, 8) == pageId
    requires forall k {:trigger s[k]} :: (2 <= k < 8 || 16 <= k < PAGE_SIZE) ==> s[k] == 0
    requires Changed(s, s', 4, 8) && U16(s', 4) == SlotBase(0) && U16(s', 6) == PAGE_SIZE
    ensures Packed(s') && Rows(s') == [] && High(s') == [] && HeadOf(s') == Head(LEAF, 0, pageId, 0, 0, 0)
  {
    assert s'[2] == 0 && s'[3] == 0 && s'[40] == 0 && s'[41] == 0;
    SameSlice(s, s', 8, 16);
    ZeroField(s', 16);
    ZeroField(s', 24);
    ZeroField(s', 32);
  }

  lemma ZeroField(s: bytes, off: nat)
    requires off + 8 <= |s| && forall k {:trigger s[k]} :: off <= k < off + 8 ==> s[k] == 0
    ensures U64(s, off) == 0
  {
    ZeroValue(s[off..off + 8]);
  }

  lemma {:induction false} ZeroValue(b: bytes)
    requires forall k {:trigger b[k]} :: 0 <= k < |b| ==> b[k] == 0
    ensures LittleEndian.FromLE(b) == 0
    decreases |b|
  {
    if b != [] { ZeroValue(b[1..]); }
  }

  lemma HighKeySet(s: bytes, s': bytes, key: bytes)
    requires Packed(s) && Rows(s) == [] && SlotBase(|key|) <= PAGE_SIZE && |s'| == PAGE_SIZE
    requires HighLen(s') == |key| && s'[LEAF_HEADER..LEAF_HEADER + |key|] == key && FreeStart(s') == SlotBase(|key|)
    requires Same(s, s', 0, 4) && Same(s, s', 6, 40)
    ensures Packed(s') && Rows(s') == [] && High(s') == key && HeadOf(s') == HeadOf(s)
  {
    U16Kept(s, s', 2);
    U16Kept(s, s', 6);
    SameSlice(s, s', 8, 16);
    SameSlice(s, s', 16, 24);
    SameSlice(s, s', 24, 32);
    SameSlice(s, s', 32, 40);
  }

  /** Header fields away from the counts do not matter to the records. */
  lemma FieldsSet(s: bytes, s': bytes, lo: nat, hi: nat)
    requires Wf(s) && Changed(s, s', lo, hi) && (hi <= 2 || 8 <= lo <= hi <= 40)
    ensures Wf(s') && Rows(s') == Rows(s) && High(s') == High(s)
    ensures Base(s') == Base(s) && FreeStart(s') == FreeStart(s) && FreeEnd(s') == FreeEnd(s)
  {
    U16Kept(s, s', 2);
    U16Kept(s, s', 4);
    U16Kept(s, s', 6);
    U16Kept(s, s', 40);
    DirSame(s, s', Base(s), Count(s));
    DirKept(s, s', FreeEnd(s), Dir(s));
    SameSlice(s, s', LEAF_HEADER, LEAF_HEADER + HighLen(s));
  }

  // ── Compaction ─────────────────────────────────────────────────────────────

  /** `is_vacuumable`'s answer for slot, xmin and xmax: each slot's is read at its own moment. */
  type Vacuumable = (nat, nat, nat) -> bool

  function Live(rows: seq<Row>, dead: Vacuumable): seq<Row> {
    if rows == [] then []
    else if dead(|rows| - 1, rows[|rows| - 1].xmin, rows[|rows| - 1].xmax) then Live(rows[..|rows| - 1], dead)
    else Live(rows[..|rows| - 1], dead) + [rows[|rows| - 1]]
  }

  /** The overflow chains the dropped records pointed to; `first` decodes a descriptor. */
  function Orphans(rows: seq<Row>, dead: Vacuumable, first: bytes -> Option<PageId>): seq<PageId> {
    if rows == [] then []
    else
      var r, rest := rows[|rows| - 1], Orphans(rows[..|rows| - 1], dead, first);
      if dead(|rows| - 1, r.xmin, r.xmax) && r.recType == 1 && first(r.val).Some? then rest + [first(r.val).value] else rest
  }

  lemma {:induction false} LiveBytes(rows: seq<Row>, dead: Vacuumable)
    ensures RowBytes(Live(rows, dead)) <= RowBytes(rows) && |Live(rows, dead)| <= |rows|
    decreases |rows|
  {
    if rows != [] {
      var front, r := rows[..|rows| - 1], rows[|rows| - 1];
      LiveBytes(front, dead);
      assert rows == front + [r];
      RowBytesConcat(front, [r]);
      RowBytesConcat(Live(front, dead), [r]);
    }
  }

  /** Nothing dropped, nothing changed. */
  lemma {:induction false} AllLive(rows: seq<Row>, dead: Vacuumable)
    requires |Live(rows, dead)| == |rows|
    ensures Live(rows, dead) == rows
    decreases |rows|
  {
    hide RowBytes;
    if rows != [] {
      var front, r := rows[..|rows| - 1], rows[|rows| - 1];
      LiveBytes(front, dead);
      assert !dead(|rows| - 1, r.xmin, r.xmax);
      AllLive(front, dead);
      assert rows == front + [r];
    }
  }

  method NumPairs(a: array<byte>) returns (n: nat)
    requires Wf(a[..])
    ensures n == Count(a[..]) == |Rows(a[..])|
  {
    n := Count(a[..]);
  }

  /** Reads slot `i`. */
  method GetRow(a: array<byte>, i: nat) returns (row: Row)
    requires Wf(a[..]) && i < Count(a[..])
    ensures row == Rows(a[..])[i] && Fits64(row.xmin) && Fits64(row.xmax)
  {
    var s := a[..];
    var x := SlotAt(s, Base(s) + 4 * i);
    assert x == Dir(s)[i] && RecOk(s, x);
    U64Fits(s, x.base + 8);
    U64Fits(s, x.base + 16);
    row := RowAt(s, x);
  }

  /** What the first loop has collected from `rows`. */
  ghost predicate Gathered(rows: seq<Row>, dead: Vacuumable, first: bytes -> Option<PageId>,
                           live: seq<Row>, removed: nat, orphans: seq<PageId>) {
    live == Live(rows, dead) && removed + |live| == |rows| && orphans == Orphans(rows, dead, first)
    && forall k {:trigger live[k]} :: 0 <= k < |live| ==> Fits64(live[k].xmin) && Fits64(live[k].xmax)
  }

  lemma GatherStep(rows: seq<Row>, i: nat, dead: Vacuumable, first: bytes -> Option<PageId>,
                   live: seq<Row>, removed: nat, orphans: seq<PageId>)
    requires i < |rows| && Fits64(rows[i].xmin) && Fits64(rows[i].xmax) && Gathered(rows[..i], dead, first, live, removed, orphans)
    ensures var row := rows[i];
            Gathered(rows[..i + 1], dead, first,
                     if dead(i, row.xmin, row.xmax) then live else live + [row],
                     if dead(i, row.xmin, row.xmax) then removed + 1 else removed,
                     if dead(i, row.xmin, row.xmax) && row.recType == 1 && first(row.val).Some? then orphans + [first(row.val).value] else orphans)
  {
    assert rows[..i + 1][..i] == rows[..i];
  }

  /** First loop of `compact`. */
  method Gather(a: array<byte>, dead: Vacuumable, first: bytes -> Option<PageId>)
    returns (live: seq<Row>, removed: nat, orphans: seq<PageId>)
    requires Wf(a[..])
    ensures live == Live(Rows(a[..]), dead) && removed == |Rows(a[..])| - |live| && orphans == Orphans(Rows(a[..]), dead, first)
    ensures forall i {:trigger live[i]} :: 0 <= i < |live| ==> Fits64(live[i].xmin) && Fits64(live[i].xmax)
  {
    live, removed, orphans := [], 0, [];
    ghost var rows := Rows(a[..]);
    var n := Count(a[..]);
    assert |rows| == n && rows[..0] == [];
    assert Gathered(rows[..0], dead, first, live, removed, orphans);
    hide Wf, Rows, Count, Gathered;
    for i := 0 to n
      invariant Gathered(rows[..i], dead, first, live, removed, orphans)
    {
      var row := GetRow(a, i);
      GatherStep(rows, i, dead, first, live, removed, orphans);
      if dead(i, row.xmin, row.xmax) {
        removed := removed + 1;
        if row.recType == 1 {
          var pid := first(row.val);
          if pid.Some? { orphans := orphans + [pid.value]; }
        }
      } else { live := live + [row]; }
    }
    assert rows[..n] == rows;
    assert Gathered(rows, dead, first, live, removed, orphans);
  }

  /** Pushes `rows` onto a fresh builder; the full-page assertion never fires. */
  method PushAll(b: Builder, rows: seq<Row>)
    requires b.Valid() && Rows(b.Page()) == [] && Base(b.Page()) + RowBytes(rows) <= PAGE_SIZE
    requires forall i {:trigger rows[i]} :: 0 <= i < |rows| ==> Fits64(rows[i].xmin) && Fits64(rows[i].xmax)
    modifies b.data
    ensures b.Valid() && Rows(b.Page()) == rows && High(b.Page()) == old(High(b.Page())) && HeadOf(b.Page()) == old(HeadOf(b.Page()))
  {
    hide Rows, DirOk, Dir, High, HeadOf, RowBytes, U16, U64;
    for i := 0 to |rows|
      invariant b.Valid() && Rows(b.Page()) == rows[..i]
      invariant Base(b.Page()) == old(Base(b.Page()))
      invariant High(b.Page()) == old(High(b.Page())) && HeadOf(b.Page()) == old(HeadOf(b.Page()))
    {
      assert rows[..i + 1] == rows[..i] + [rows[i]] && rows == rows[..i + 1] + rows[i + 1..];
      RowBytesConcat(rows[..i + 1], rows[i + 1..]);
      b.Push(rows[i]);
    }
    assert rows[..|rows|] == rows;
  }

  /**
  `compact`: exactly the records that are not vacuumable remain, in order, with links,
  flags, LSN and high key; a page with nothing to drop is not touched.
  */
  method Compact(a: array<byte>, pageId: nat, dead: Vacuumable, first: bytes -> Option<PageId>)
    returns (removed: nat, orphans: seq<PageId>)
    requires Wf(a[..]) && Fits64(pageId)
    modifies a
    ensures Wf(a[..]) && Rows(a[..]) == Live(old(Rows(a[..])), dead)
    ensures removed == |old(Rows(a[..]))| - |Rows(a[..])|
    ensures orphans == if removed == 0 then [] else Orphans(old(Rows(a[..])), dead, first)
    ensures removed == 0 ==> a[..] == old(a[..])
    ensures removed > 0 ==>
              High(a[..]) == old(High(a[..])) && HeadOf(a[..]) == old(HeadOf(a[..])).(kind := LEAF, id := pageId)
  {
    ghost var s := a[..];
    var live, dropped, chains := Gather(a, dead, first);
    LiveBytes(Rows(s), dead);
    if dropped == 0 {
      AllLive(Rows(s), dead);
      return 0, [];
    }
    var high, flags, lsn, prev, right := ReadHead(a);
    RowsFit(s);
    hide Wf, Rows, Base, High, HeadOf, Packed, RowBytes, Live, Orphans, U16, U64;
    Rebuild(a, pageId, high, flags, lsn, prev, right, live);
    return dropped, chains;
  }

  method ReadHead(a: array<byte>) returns (high: bytes, flags: byte, lsn: nat, prev: nat, right: nat)
    requires Wf(a[..])
    ensures high == High(a[..]) && Base(a[..]) == SlotBase(|high|) && Fits64(lsn) && Fits64(prev) && Fits64(right)
    ensures var h := HeadOf(a[..]); flags == h.flags && lsn == h.lsn && prev == h.prev && right == h.right
  {
    var s := a[..];
    U64Fits(s, 16);
    U64Fits(s, 24);
    U64Fits(s, 32);
    return s[LEAF_HEADER..LEAF_HEADER + HighLen(s)], s[1], U64(s, 16), U64(s, 24), U64(s, 32);
  }

  /** A page built from scratch with this header and these records. */
  method Rebuild(a: array<byte>, pageId: nat, high: bytes, flags: byte, lsn: nat, prev: nat, right: nat, rows: seq<Row>)
    requires a.Length == PAGE_SIZE && Fits64(pageId) && Fits64(lsn) && Fits64(prev) && Fits64(right)
    requires SlotBase(|high|) + RowBytes(rows) <= PAGE_SIZE
    requires forall i {:trigger rows[i]} :: 0 <= i < |rows| ==> Fits64(rows[i].xmin) && Fits64(rows[i].xmax)
    modifies a
    ensures Packed(a[..]) && Rows(a[..]) == rows && High(a[..]) == high && HeadOf(a[..]) == Head(LEAF, flags, pageId, lsn, prev, right)
  {
    var b := new Builder(pageId, a);
    if high != [] { b.SetHighKey(high); }
    b.SetLinks(prev, right);
    BaseOf(a[..]);
    PushAll(b, rows);
    b.SetLsnAndFlags(lsn, flags);
  }

  lemma BaseOf(s: bytes)
    requires Bounded(s)
    ensures Base(s) == SlotBase(|High(s)|)
  {
  }

  // ── Search in a page ───────────────────────────────────────────────────────

  type Rank = bytes -> real

  predicate InOrder(rows: seq<Row>, rank: Rank) {
    forall i, j {:trigger rows[i], rows[j]} :: 0 <= i < j < |rows| ==> rank(rows[i].key) <= rank(rows[j].key)
  }

  /** The first `n` keys are smaller, the others greater than `k`. */
  ghost predicate Smaller(rows: seq<Row>, rank: Rank, n: nat, k: real) {
    n <= |rows| && forall i {:trigger rows[i]} :: 0 <= i < n ==> rank(rows[i].key) < k
  }

  ghost predicate Greater(rows: seq<Row>, rank: Rank, n: nat, k: real) {
    n <= |rows| && forall i {:trigger rows[i]} :: n <= i < |rows| ==> k < rank(rows[i].key)
  }

  lemma Narrow(rows: seq<Row>, rank: Rank, mid: nat, k: real)
    requires InOrder(rows, rank) && mid < |rows|
    ensures rank(rows[mid].key) < k ==> Smaller(rows, rank, mid + 1, k)
    ensures rank(rows[mid].key) > k ==> Greater(rows, rank, mid, k)
  {
    forall i | 0 <= i < mid ensures rank(rows[i].key) <= rank(rows[mid].key) {}
    forall i | mid < i < |rows| ensures rank(rows[mid].key) <= rank(rows[i].key) {}
  }

  /** `position`: a slot with the key, or else where it belongs. */
  method Position(a: array<byte>, rank: Rank, key: bytes) returns (at: nat, found: bool)
    requires Wf(a[..]) && InOrder(Rows(a[..]), rank)
    ensures at <= |Rows(a[..])|
    ensures found ==> at < |Rows(a[..])| && rank(Rows(a[..])[at].key) == rank(key)
    ensures !found ==> Smaller(Rows(a[..]), rank, at, rank(key)) && Greater(Rows(a[..]), rank, at, rank(key))
  {
    ghost var rows := Rows(a[..]);
    var k := rank(key);
    var lo, hi := 0, Count(a[..]);
    assert |rows| == hi;
    hide Rows, RowsIn, DirOk, Dir, DirAt, SlotAt, RowAt, RecOk, U16, U64, Base, SlotBase;
    assert Smaller(rows, rank, lo, k) && Greater(rows, rank, hi, k);
    hide Smaller, Greater, InOrder;
    while lo < hi
      invariant 0 <= lo <= hi <= |rows| && Smaller(rows, rank, lo, k) && Greater(rows, rank, hi, k)
    {
      var mid := lo + (hi - lo) / 2;
      var row := GetRow(a, mid);
      Narrow(rows, rank, mid, k);
      if rank(row.key) < k { lo := mid + 1; }
      else if rank(row.key) > k { hi := mid; }
      else { return mid, true; }
    }
    return lo, false;
  }
}
