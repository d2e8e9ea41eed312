/**
Whether splitting makes room (crates/storage/src/index/smo.rs, `split_and_insert`, once
compaction has not): on the decoded records of the leaf, with no other writer about.
*/
module SplitInsert {
  import opened ByteTypes
  import opened PageLayout
  import opened Redo
  import opened LeafBuilder
  import opened LeafSplit
  import R = InternalRouting

  /** What becomes of the new record: put in, an InsufficientSpace error, or splits without end. */
  datatype Outcome = Inserted | NoSpace | Endless

  /** `can_fit_direct` on a rebuilt page. */
  predicate Takes(rows: seq<Row>, highLen: nat, rec: Row) {
    LeafBytes(rows, highLen) + SLOT_SIZE + RecTotalSize(|rec.key|, |rec.val|) <= PAGE_SIZE
  }

  /**
  Split; a key below the separator must fit in the lower half, any other goes on with the
  upper half.  A page with one record is its own upper half, so going on gets nowhere.
  */
  function SplitAndInsert(rows: seq<Row>, rank: Rank, highLen: nat, rec: Row): Outcome
    requires rows != []
    decreases |rows|
  {
    var mid := Cut(rows, rank);
    if rank(rec.key) < rank(rows[mid].key) then (if Takes(rows[..mid], |rows[mid].key|, rec) then Inserted else NoSpace)
    else if Takes(rows[mid..], highLen, rec) then Inserted
    else if mid == 0 then Endless
    else SplitAndInsert(rows[mid..], rank, highLen, rec)
  }

  lemma LastBytes(rows: seq<Row>)
    requires rows != []
    ensures RowBytes([rows[|rows| - 1]]) <= RowBytes(rows)
  {
    var front, last := rows[..|rows| - 1], [rows[|rows| - 1]];
    assert rows == front + last;
    RowBytesConcat(front, last);
  }

  /** The splits go on for ever exactly when the key is not below the page's last and does not fit beside it alone. */
  lemma {:induction false} EndlessIff(rows: seq<Row>, rank: Rank, highLen: nat, rec: Row)
    requires rows != [] && InOrder(rows, rank)
    ensures var last := rows[|rows| - 1];
            SplitAndInsert(rows, rank, highLen, rec) == Endless <==> rank(last.key) <= rank(rec.key) && !Takes([last], highLen, rec)
    decreases |rows|
  {
    hide RowBytes, RecTotalSize, Cut;
    var mid, last := Cut(rows, rank), rows[|rows| - 1];
    var right := rows[mid..];
    assert right[|right| - 1] == last && rank(rows[mid].key) <= rank(last.key);
    LastBytes(right);
    if mid == 0 { assert rows == [last] && right == rows; }
    else { EndlessIff(right, rank, highLen, rec); }
  }

  /** The page to insert into after `n` splits, each time taking the upper half. */
  function After(rows: seq<Row>, rank: Rank, n: nat): (r: seq<Row>)
    requires rows != []
    ensures r != []
    decreases n
  {
    if n == 0 then rows else After(rows[Cut(rows, rank)..], rank, n - 1)
  }

  /** `n` splits, and after each the record goes to the upper half and finds no room there. */
  ghost predicate StillSplitting(rows: seq<Row>, rank: Rank, highLen: nat, rec: Row, n: nat)
    requires rows != []
    decreases n
  {
    n > 0 ==>
      var mid := Cut(rows, rank);
      rank(rows[mid].key) <= rank(rec.key) && !Takes(rows[mid..], highLen, rec)
      && StillSplitting(rows[mid..], rank, highLen, rec, n - 1)
  }

  /** The next split sends the record to a lower half with no room for it. */
  predicate LowerRefuses(rows: seq<Row>, rank: Rank, rec: Row)
    requires rows != []
  {
    var mid := Cut(rows, rank);
    rank(rec.key) < rank(rows[mid].key) && !Takes(rows[..mid], |rows[mid].key|, rec)
  }

  lemma {:induction false} GoesOn(rows: seq<Row>, rank: Rank, highLen: nat, rec: Row, n: nat)
    requires rows != [] && SplitAndInsert(rows, rank, highLen, rec) == Endless
    ensures StillSplitting(rows, rank, highLen, rec, n)
    decreases n
  {
    hide Takes, Cut;
    if n > 0 {
      if Cut(rows, rank) == 0 { assert rows[0..] == rows; }
      GoesOn(rows[Cut(rows, rank)..], rank, highLen, rec, n - 1);
    }
  }

  lemma {:induction false} Stops(rows: seq<Row>, rank: Rank, highLen: nat, rec: Row) returns (n: nat)
    requires rows != [] && SplitAndInsert(rows, rank, highLen, rec) != Endless
    ensures !StillSplitting(rows, rank, highLen, rec, n)
    decreases |rows|
  {
    hide Takes, Cut;
    var mid := Cut(rows, rank);
    if rank(rec.key) < rank(rows[mid].key) || Takes(rows[mid..], highLen, rec) { n := 1; }
    else {
      n := Stops(rows[mid..], rank, highLen, rec);
      n := n + 1;
    }
  }

  /** `Endless` is what it says: after any number of splits the record is still not in. */
  lemma EndlessIsForever(rows: seq<Row>, rank: Rank, highLen: nat, rec: Row)
    requires rows != []
    ensures SplitAndInsert(rows, rank, highLen, rec) == Endless <==> forall n: nat :: StillSplitting(rows, rank, highLen, rec, n)
  {
    if SplitAndInsert(rows, rank, highLen, rec) == Endless {
      forall n: nat ensures StillSplitting(rows, rank, highLen, rec, n) { GoesOn(rows, rank, highLen, rec, n); }
    } else { var n := Stops(rows, rank, highLen, rec); }
  }

  /** Once one record is left, no split changes the page. */
  lemma {:induction false} LastStays(rows: seq<Row>, rank: Rank, n: nat)
    requires rows != [] && n >= |rows|
    ensures After(rows, rank, n) == [rows[|rows| - 1]]
    decreases n
  {
    hide Cut;
    var right := rows[Cut(rows, rank)..];
    assert right[|right| - 1] == rows[|rows| - 1];
    if n > 1 { LastStays(right, rank, n - 1); }
    else {
      assert right == rows;
      assert After(right, rank, 0) == right;
    }
  }

  /** Refused at the split after `n` splits to the right. */
  ghost predicate RefusedAfter(rows: seq<Row>, rank: Rank, highLen: nat, rec: Row, n: nat)
    requires rows != []
  {
    StillSplitting(rows, rank, highLen, rec, n) && LowerRefuses(After(rows, rank, n), rank, rec)
  }

  /** Refused exactly when, after some splits to the right, the next one sends it to a lower half without room. */
  lemma {:induction false} NoSpaceIff(rows: seq<Row>, rank: Rank, highLen: nat, rec: Row)
    requires rows != []
    ensures SplitAndInsert(rows, rank, highLen, rec) == NoSpace <==> exists n: nat :: RefusedAfter(rows, rank, highLen, rec, n)
    decreases |rows|
  {
    hide Takes, Cut;
    var mid := Cut(rows, rank);
    var right := rows[mid..];
    if SplitAndInsert(rows, rank, highLen, rec) == NoSpace {
      if rank(rec.key) < rank(rows[mid].key) { assert RefusedAfter(rows, rank, highLen, rec, 0); }
      else {
        NoSpaceIff(right, rank, highLen, rec);
        var n: nat :| RefusedAfter(right, rank, highLen, rec, n);
        assert RefusedAfter(rows, rank, highLen, rec, n + 1);
      }
    } else {
      forall n: nat ensures !RefusedAfter(rows, rank, highLen, rec, n) { NotRefused(rows, rank, highLen, rec, n); }
    }
  }

  lemma {:induction false} NotRefused(rows: seq<Row>, rank: Rank, highLen: nat, rec: Row, n: nat)
    requires rows != [] && SplitAndInsert(rows, rank, highLen, rec) != NoSpace
    ensures !RefusedAfter(rows, rank, highLen, rec, n)
    decreases n
  {
    hide Takes, Cut;
    if n > 0 && StillSplitting(rows, rank, highLen, rec, n) {
      if Cut(rows, rank) == 0 { assert rows[0..] == rows; }
      NotRefused(rows[Cut(rows, rank)..], rank, highLen, rec, n - 1);
    }
  }

  const OVERFLOW_THRESHOLD := 2048

  /** Below the only record of a page, a record within the size limits goes into the empty lower half. */
  lemma BelowOnlyRecord(only: Row, rank: Rank, highLen: nat, rec: Row)
    requires rank(rec.key) < rank(only.key)
    requires |only.key| <= R.MAX_KEY_SIZE && |rec.key| <= R.MAX_KEY_SIZE && |rec.val| <= OVERFLOW_THRESHOLD
    ensures SplitAndInsert([only], rank, highLen, rec) == Inserted
  {
    assert [only][..0] == [];
  }

  /** A record with an 8-byte key, told apart by its first byte, and a value of the largest inline size. */
  function Large(k: byte): (r: Row)
    ensures |r.key| == 8 && |r.val| == OVERFLOW_THRESHOLD
  {
    Row([k, 0, 0, 0, 0, 0, 0, 0], seq(OVERFLOW_THRESHOLD, _ => 0), 0, 0, 0)
  }

  /** Two such records do not fit on one page: inserting the second above the first never ends. */
  lemma EndlessExample()
    ensures InOrder([Large(1)], R.FirstByte) && LeafBytes([Large(1)], 0) <= PAGE_SIZE && !Takes([Large(1)], 0, Large(2))
    ensures SplitAndInsert([Large(1)], R.FirstByte, 0, Large(2)) == Endless
  {
    OneRow(Large(1));
    EndlessIff([Large(1)], R.FirstByte, 0, Large(2));
  }

  /** Below the first it goes into the empty lower half; between a large and a small one it is refused. */
  lemma RefusedExample(small: Row)
    requires |small.key| == 8 && small.key[0] == 3 && |small.val| <= 8
    ensures SplitAndInsert([Large(1)], R.FirstByte, 0, Large(0)) == Inserted
    ensures var rows := [Large(1), small];
            InOrder(rows, R.FirstByte) && LeafBytes(rows, 0) <= PAGE_SIZE && SplitAndInsert(rows, R.FirstByte, 0, Large(2)) == NoSpace
  {
    OneRow(Large(1));
    OneRow(small);
    var rows := [Large(1), small];
    assert rows == [Large(1)] + [small] && rows[..1] == [Large(1)];
    RowBytesConcat([Large(1)], [small]);
    assert RunEnd(rows, R.FirstByte, 3.0, 1) == 2 && RunStart(rows, R.FirstByte, 3.0, 1) == 1;
    assert [Large(1)][..0] == [];
  }

  lemma OneRow(r: Row)
    ensures RowBytes([r]) == SLOT_SIZE + RecTotalSize(|r.key|, |r.val|)
  {
    assert [r][1..] == [];
  }
}
