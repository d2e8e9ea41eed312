/**
Page redo (crates/storage/src/recovery/mod.rs, `redo_record` and `apply_data`).  A log
record's LSN is its position in the log, counting from 1; `apply_data`'s payloads are
taken as `OpCodec` reads them.
*/
module Redo {
  import opened Options
  import opened ByteTypes
  import opened PageLayout

  type PageId = nat

  datatype Row = Row(key: bytes, val: bytes, recType: byte, xmin: nat, xmax: nat)

  datatype Content =
    | Zero
    | Leaf(rows: seq<Row>, high: bytes, right: PageId, prev: PageId, incomplete: bool, halfDead: bool)
    | Internal(children: seq<PageId>, keys: seq<bytes>, high: bytes, right: PageId, incomplete: bool)
    | Meta(root: PageId, freeSpace: PageId)
    | Opaque(image: bytes)                    // overflow and free-space pages: only ever imaged

  datatype Page = Page(lsn: nat, content: Content)

  /** One block's redo: a full-page image, or the physiological change its record type names. */
  datatype Op =
    | Image(content: Content)
    | InsertRow(slot: nat, key: bytes, val: bytes, recType: byte, xmin: nat)
    | SetXmax(slot: nat, xmax: nat)
    | InsertDownlink(at: nat, sep: bytes, child: PageId)
    | ClearIncomplete
    | SetHalfDead
    | SetRight(right: PageId)
    | SetPrev(prev: PageId)
    | RemoveKey(index: nat, keepRight: bool)
    | SetRoot(root: PageId)

  datatype Block = Block(page: PageId, op: Op)

  function RowBytes(rows: seq<Row>): nat {
    if rows == [] then 0 else SLOT_SIZE + RecTotalSize(|rows[0].key|, |rows[0].val|) + RowBytes(rows[1..])
  }

  lemma {:induction false} RowBytesConcat(a: seq<Row>, b: seq<Row>)
    ensures RowBytes(a + b) == RowBytes(a) + RowBytes(b)
    decreases |a|
  {
    if a == [] { assert a + b == b; }
    else {
      assert (a + b)[0] == a[0] && (a + b)[1..] == a[1..] + b;
      RowBytesConcat(a[1..], b);
    }
  }

  /** `insert_raw`'s space test on a page without dead space. */
  predicate RowFits(c: Content, key: bytes, val: bytes)
    requires c.Leaf?
  {
    SlotBase(|c.high|) + RowBytes(c.rows) + SLOT_SIZE + RecTotalSize(|key|, |val|) <= PAGE_SIZE
  }

  function KeyBytes(keys: seq<bytes>): nat { if keys == [] then 0 else |keys[0]| + KeyBytes(keys[1..]) }

  /** `can_fit` on an internal page. */
  predicate KeyFits(c: Content, sep: bytes)
    requires c.Internal?
  {
    40 + (|c.keys| + 1) * 8 + |c.keys| * 4 + KeyBytes(c.keys) + |c.high| + 12 + |sep| <= PAGE_SIZE
  }

  function InsertAt<T>(s: seq<T>, i: nat, x: T): seq<T>
    requires i <= |s|
  {
    s[..i] + [x] + s[i..]
  }

  function RemoveAt<T>(s: seq<T>, i: nat): seq<T>
    requires i < |s|
  {
    s[..i] + s[i + 1..]
  }

  /** `apply_data`, or the image copy; `None` where the source fails or panics. */
  function Apply(op: Op, c: Content): Option<Content> {
    match op
    case Image(image) => Some(image)
    case InsertRow(slot, key, val, recType, xmin) =>
      if c.Leaf? && slot <= |c.rows| && RowFits(c, key, val)
      then Some(c.(rows := InsertAt(c.rows, slot, Row(key, val, recType, xmin, 0)))) else None
    case SetXmax(slot, xmax) =>
      if c.Leaf? && slot < |c.rows| then Some(c.(rows := c.rows[slot := c.rows[slot].(xmax := xmax)])) else None
    case InsertDownlink(at, sep, child) =>
      if c.Internal? && at <= |c.keys| && at + 1 <= |c.children| && KeyFits(c, sep)
      then Some(c.(keys := InsertAt(c.keys, at, sep), children := InsertAt(c.children, at + 1, child))) else None
    case ClearIncomplete =>
      Some(if c.Leaf? || c.Internal? then c.(incomplete := false) else c)
    case SetHalfDead => Some(if c.Leaf? then c.(halfDead := true) else c)
    case SetRight(right) => if c.Leaf? then Some(Leaf(c.rows, c.high, right, c.prev, c.incomplete, c.halfDead)) else None
    case SetPrev(prev) => if c.Leaf? then Some(c.(prev := prev)) else None
    case RemoveKey(index, keepRight) =>
      if c.Internal? && index < |c.keys| && |c.children| == |c.keys| + 1
      then Some(c.(keys := RemoveAt(c.keys, index), children := RemoveAt(c.children, if keepRight then index else index + 1)))
      else None
    case SetRoot(root) => if c.Meta? then Some(c.(root := root)) else None
  }

  // ── Redo of one record ─────────────────────────────────────────────────────

  type Pages = map<PageId, Page>

  /** `ensure_page`: a page past the end of the file is all zeros. */
  function Get(pages: Pages, p: PageId): Page { if p in pages then pages[p] else Page(0, Zero) }

  /** LSN gate, apply, stamp. */
  function RedoBlock(q: Page, lsn: nat, op: Op): Option<Page> {
    if lsn <= q.lsn then Some(q)
    else match Apply(op, q.content)
      case None => None
      case Some(c) => Some(Page(lsn, c))
  }

  function RedoBlocks(pages: Pages, lsn: nat, blocks: seq<Block>): Option<Pages>
    decreases |blocks|
  {
    if blocks == [] then Some(pages)
    else
      var b := blocks[0];
      match RedoBlock(Get(pages, b.page), lsn, b.op)
      case None => None
      case Some(q) => RedoBlocks(pages[b.page := q], lsn, blocks[1..])
  }

  predicate DistinctPages(blocks: seq<Block>) {
    forall i, j :: 0 <= i < j < |blocks| ==> blocks[i].page != blocks[j].page
  }

  function OpFor(blocks: seq<Block>, p: PageId): Option<Op>
    decreases |blocks|
  {
    if blocks == [] then None else if blocks[0].page == p then Some(blocks[0].op) else OpFor(blocks[1..], p)
  }

  lemma {:induction false} OpForAbsent(blocks: seq<Block>, p: PageId)
    requires forall i :: 0 <= i < |blocks| ==> blocks[i].page != p
    ensures OpFor(blocks, p) == None
    decreases |blocks|
  {
    if blocks != [] {
      assert blocks[0].page != p;
      forall i | 0 <= i < |blocks[1..]| ensures blocks[1..][i].page != p { assert blocks[i + 1].page != p; }
      OpForAbsent(blocks[1..], p);
    }
  }

  /** Every gated block of the record applies. */
  ghost predicate Applies(pages: Pages, lsn: nat, blocks: seq<Block>) {
    forall p {:trigger OpFor(blocks, p)} ::
      OpFor(blocks, p).Some? ==> RedoBlock(Get(pages, p), lsn, OpFor(blocks, p).value).Some?
  }

  /** Redo of a record acts on each page by its own block alone. */
  lemma {:induction false} RedoBlocksPointwise(pages: Pages, lsn: nat, blocks: seq<Block>)
    requires DistinctPages(blocks) && Applies(pages, lsn, blocks)
    ensures var r := RedoBlocks(pages, lsn, blocks);
            r.Some? && forall p {:trigger Get(r.value, p)} ::
              Get(r.value, p) == match OpFor(blocks, p)
                                 case None => Get(pages, p)
                                 case Some(op) => RedoBlock(Get(pages, p), lsn, op).value
    decreases |blocks|
  {
    if blocks != [] {
      var b, rest := blocks[0], blocks[1..];
      assert OpFor(blocks, b.page) == Some(b.op);
      var pages' := pages[b.page := RedoBlock(Get(pages, b.page), lsn, b.op).value];
      forall i | 0 <= i < |rest| ensures rest[i].page != b.page { assert blocks[i + 1] == rest[i]; }
      OpForAbsent(rest, b.page);
      forall p | OpFor(rest, p).Some? ensures RedoBlock(Get(pages', p), lsn, OpFor(rest, p).value).Some? {
        assert OpFor(blocks, p) == OpFor(rest, p);
      }
      RedoBlocksPointwise(pages', lsn, rest);
      var r := RedoBlocks(pages, lsn, blocks).value;
      forall p ensures Get(r, p) == match OpFor(blocks, p)
                                    case None => Get(pages, p)
                                    case Some(op) => RedoBlock(Get(pages, p), lsn, op).value {
        assert p != b.page ==> OpFor(blocks, p) == OpFor(rest, p);
      }
    }
  }

  // ── Replay from the beginning ──────────────────────────────────────────────

  type Log = seq<seq<Block>>

  /** Page `p` after the first `n` records, over the initially created pages. */
  ghost function Replay(init: Pages, log: Log, n: nat, p: PageId): Page
    requires n <= |log|
  {
    if n == 0 then Get(init, p)
    else
      var q := Replay(init, log, n - 1, p);
      match OpFor(log[n - 1], p)
      case None => q
      case Some(op) => match Apply(op, q.content) case None => q case Some(c) => Page(n, c)
  }

  /** The log as the engine writes it: each change was possible on the page it found. */
  ghost predicate ValidLog(init: Pages, log: Log) {
    (forall p {:trigger Get(init, p)} :: Get(init, p).lsn == 0)
    && forall n {:trigger ValidRecord(init, log, n)} :: 0 <= n < |log| ==> ValidRecord(init, log, n)
  }

  ghost predicate ValidRecord(init: Pages, log: Log, n: nat)
    requires n < |log|
  {
    DistinctPages(log[n])
    && forall p {:trigger OpFor(log[n], p)} ::
         OpFor(log[n], p).Some? ==> Apply(OpFor(log[n], p).value, Replay(init, log, n, p).content).Some?
  }

  lemma {:induction false} ReplayLsn(init: Pages, log: Log, m: nat, n: nat, p: PageId)
    requires m <= n <= |log| && Get(init, p).lsn == 0
    ensures Replay(init, log, m, p).lsn <= Replay(init, log, n, p).lsn <= n
    decreases n
  {
    if n > 0 {
      ReplayLsn(init, log, if m < n then m else n - 1, n - 1, p);
    }
  }

  /** Past a page's last change, more records leave it as it is. */
  lemma {:induction false} ReplayStable(init: Pages, log: Log, l: nat, n: nat, p: PageId)
    requires l <= n <= |log| && Get(init, p).lsn == 0 && Replay(init, log, n, p).lsn <= l
    ensures Replay(init, log, l, p) == Replay(init, log, n, p)
    decreases n
  {
    if l < n {
      ReplayLsn(init, log, n - 1, n - 1, p);
      ReplayStable(init, log, l, n - 1, p);
    }
  }

  lemma {:induction false} ReplayPrefix(init: Pages, log: Log, log': Log, n: nat, p: PageId)
    requires n <= |log| && n <= |log'| && log[..n] == log'[..n]
    ensures Replay(init, log, n, p) == Replay(init, log', n, p)
    decreases n
  {
    if n > 0 {
      assert log[n - 1] == log[..n][n - 1] == log'[n - 1];
      assert log[..n - 1] == log[..n][..n - 1] == log'[..n - 1];
      ReplayPrefix(init, log, log', n - 1, p);
    }
  }

  /** `q` is page `p` as it was after some of the log. */
  ghost predicate IsImage(init: Pages, log: Log, p: PageId, q: Page) {
    q.lsn <= |log| && q == Replay(init, log, q.lsn, p)
  }

  /** `q` is such an image, and holds every change among the first `n` records. */
  ghost predicate UpTo(init: Pages, log: Log, n: nat, p: PageId, q: Page)
    requires n <= |log|
  {
    IsImage(init, log, p, q) && Replay(init, log, n, p).lsn <= q.lsn
  }

  /** One gated redo step: an image holding the first `n` records comes to hold `n + 1`. */
  lemma RedoStep(init: Pages, log: Log, n: nat, p: PageId, q: Page)
    requires ValidLog(init, log) && n < |log| && UpTo(init, log, n, p, q)
    ensures var r := if OpFor(log[n], p).None? then Some(q) else RedoBlock(q, n + 1, OpFor(log[n], p).value);
            r.Some? && UpTo(init, log, n + 1, p, r.value)
  {
    assert Get(init, p).lsn == 0 && ValidRecord(init, log, n);
    ReplayLsn(init, log, n + 1, n + 1, p);
    if q.lsn <= n { ReplayStable(init, log, q.lsn, n, p); }
  }

  lemma UpToEnd(init: Pages, log: Log, p: PageId, q: Page)
    requires ValidLog(init, log) && UpTo(init, log, |log|, p, q)
    ensures q == Replay(init, log, |log|, p)
  {
    assert Get(init, p).lsn == 0;
    ReplayStable(init, log, q.lsn, |log|, p);
  }

  // ── Redo of the log ────────────────────────────────────────────────────────

  /** The redo pass over records `from + 1`, `from + 2`, ... */
  function RedoAll(pages: Pages, log: Log, from: nat): Option<Pages>
    requires from <= |log|
    decreases |log| - from
  {
    if from == |log| then Some(pages)
    else match RedoBlocks(pages, from + 1, log[from])
      case None => None
      case Some(pages') => RedoAll(pages', log, from + 1)
  }

  ghost predicate AllUpTo(init: Pages, log: Log, n: nat, pages: Pages)
    requires n <= |log|
  {
    forall p {:trigger Get(pages, p)} :: UpTo(init, log, n, p, Get(pages, p))
  }

  lemma RedoRecordKeeps(init: Pages, log: Log, n: nat, pages: Pages)
    requires ValidLog(init, log) && n < |log| && AllUpTo(init, log, n, pages)
    ensures var r := RedoBlocks(pages, n + 1, log[n]); r.Some? && AllUpTo(init, log, n + 1, r.value)
  {
    assert ValidRecord(init, log, n);
    forall p | OpFor(log[n], p).Some? ensures RedoBlock(Get(pages, p), n + 1, OpFor(log[n], p).value).Some? {
      RedoStep(init, log, n, p, Get(pages, p));
    }
    RedoBlocksPointwise(pages, n + 1, log[n]);
    var r := RedoBlocks(pages, n + 1, log[n]).value;
    forall p ensures UpTo(init, log, n + 1, p, Get(r, p)) { RedoStep(init, log, n, p, Get(pages, p)); }
  }

  /**
  Convergence: if every page is an image of its own history holding at least the first
  `from` records, different pages at different prefixes, then redo does not fail and brings
  every page to the state of the whole log.
  */
  lemma {:induction false} RedoConverges(init: Pages, log: Log, from: nat, pages: Pages)
    requires ValidLog(init, log) && from <= |log| && AllUpTo(init, log, from, pages)
    ensures var r := RedoAll(pages, log, from);
            r.Some? && forall p {:trigger Get(r.value, p)} :: Get(r.value, p) == Replay(init, log, |log|, p)
    decreases |log| - from
  {
    if from == |log| {
      forall p ensures Get(pages, p) == Replay(init, log, |log|, p) { UpToEnd(init, log, p, Get(pages, p)); }
    } else {
      RedoRecordKeeps(init, log, from, pages);
      RedoConverges(init, log, from + 1, RedoBlocks(pages, from + 1, log[from]).value);
    }
  }

  /** Running recovery again, from any earlier redo point, changes nothing. */
  lemma RedoIdempotent(init: Pages, log: Log, from: nat, pages: Pages, again: nat)
    requires ValidLog(init, log) && from <= |log| && AllUpTo(init, log, from, pages) && again <= |log|
    ensures var r := RedoAll(pages, log, from);
            r.Some? && var r2 := RedoAll(r.value, log, again);
            r2.Some? && forall p {:trigger Get(r2.value, p)} :: Get(r2.value, p) == Get(r.value, p)
  {
    RedoConverges(init, log, from, pages);
    var r := RedoAll(pages, log, from).value;
    forall p ensures UpTo(init, log, again, p, Get(r, p)) {
      assert Get(init, p).lsn == 0;
      var q := Get(r, p);
      assert q == Replay(init, log, |log|, p);
      ReplayLsn(init, log, again, |log|, p);
      ReplayStable(init, log, q.lsn, |log|, p);
    }
    RedoConverges(init, log, again, r);
  }
}
