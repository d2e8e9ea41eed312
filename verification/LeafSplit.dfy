/**
The leaf split (crates/storage/src/index/smo.rs, `split_leaf_ly`): where it cuts, why both
halves fit, and the two rebuilt pages.  `rank` is the key order seen through an embedding into the reals:
`K::compare(a, b)` is the order of `rank(a)` and `rank(b)`.
*/
module LeafSplit {
  import opened ByteTypes
  import opened PageLayout
  import opened Redo
  import opened PageBytes
  import opened LeafPage
  import opened LeafBuilder

  predicate OneKey(rows: seq<Row>, rank: Rank) {
    forall i, j :: 0 <= i < |rows| && 0 <= j < |rows| ==> rank(rows[i].key) == rank(rows[j].key)
  }

  /** Lower keys left of the separator, the others right of it. */
  ghost predicate CutAt(left: seq<Row>, right: seq<Row>, rank: Rank, sep: real) {
    (forall i {:trigger left[i]} :: 0 <= i < |left| ==> rank(left[i].key) <= sep)
    && (forall i {:trigger right[i]} :: 0 <= i < |right| ==> sep <= rank(right[i].key))
  }

  /** The separator's own key is not on the left. */
  ghost predicate KeptRight(left: seq<Row>, rank: Rank, sep: real) {
    forall i {:trigger left[i]} :: 0 <= i < |left| ==> rank(left[i].key) < sep
  }

  /** Bytes a leaf page with these records and a high key of this length takes. */
  function LeafBytes(rows: seq<Row>, highLen: nat): nat { SlotBase(highLen) + RowBytes(rows) }

  /** The end of the run of key `k` that starts at or before `at` ... */
  function RunEnd(rows: seq<Row>, rank: Rank, k: real, at: nat): (e: nat)
    requires at <= |rows|
    ensures at <= e <= |rows|
    decreases |rows| - at
  {
    if at < |rows| && rank(rows[at].key) == k then RunEnd(rows, rank, k, at + 1) else at
  }

  /** ... and its start. */
  function RunStart(rows: seq<Row>, rank: Rank, k: real, at: nat): (b: nat)
    requires at <= |rows|
    ensures b <= at
  {
    if at > 0 && rank(rows[at - 1].key) == k then RunStart(rows, rank, k, at - 1) else at
  }

  /** Where the page is cut: past the middle key's run, else before it, else at the middle. */
  function Cut(rows: seq<Row>, rank: Rank): (mid: nat)
    requires rows != []
    ensures mid < |rows| && (mid > 0 <==> |rows| > 1)
  {
    var target := |rows| / 2;
    var k := rank(rows[target].key);
    var at := if RunEnd(rows, rank, k, target) < |rows| then RunEnd(rows, rank, k, target) else RunStart(rows, rank, k, target);
    if at == 0 then target else at
  }

  /** The scan for a position where the key changes: forward from the middle, else backward, else the middle. */
  method SplitPoint(rows: seq<Row>, rank: Rank) returns (mid: nat)
    requires |rows| >= 1 && InOrder(rows, rank)
    ensures mid == Cut(rows, rank) && mid < |rows| && (mid > 0 <==> |rows| > 1)
    ensures mid > 0 ==> rank(rows[mid - 1].key) < rank(rows[mid].key) || OneKey(rows, rank)
    ensures forall i :: |rows| / 2 <= i < mid || mid <= i <= |rows| / 2 ==> rank(rows[i].key) == rank(rows[|rows| / 2].key)
    ensures mid < |rows| / 2 ==> forall i :: mid <= i < |rows| ==> rank(rows[i].key) == rank(rows[|rows| / 2].key)
  {
    var n := |rows|;
    var target := n / 2;
    var key := rank(rows[target].key);
    var at := target;
    while at < n && rank(rows[at].key) == key
      invariant target <= at <= n && RunEnd(rows, rank, key, target) == RunEnd(rows, rank, key, at)
      invariant forall i :: target <= i < at ==> rank(rows[i].key) == key
    {
      at := at + 1;
    }
    if at >= n {
      at := target;
      while at > 0 && rank(rows[at - 1].key) == key
        invariant 0 <= at <= target && RunStart(rows, rank, key, target) == RunStart(rows, rank, key, at)
        invariant forall i :: at <= i < n ==> rank(rows[i].key) == key
      {
        at := at - 1;
      }
    }
    mid := if at == 0 then target else at;
  }

  /** The record the separator is copied from makes room for it as the left half's high key. */
  lemma HalvesFit(rows: seq<Row>, mid: nat, highLen: nat)
    requires mid < |rows| && LeafBytes(rows, highLen) <= PAGE_SIZE
    ensures LeafBytes(rows[..mid], |rows[mid].key|) <= PAGE_SIZE && LeafBytes(rows[mid..], highLen) <= PAGE_SIZE
  {
    assert rows == rows[..mid] + rows[mid..] && rows[mid..][0] == rows[mid];
    RowBytesConcat(rows[..mid], rows[mid..]);
    assert RowBytes(rows[mid..]) >= RecTotalSize(|rows[mid].key|, |rows[mid].val|);
  }

  /** `split_leaf_ly` on the decoded records: the halves and the separator. */
  method SplitLeaf(rows: seq<Row>, rank: Rank, highLen: nat) returns (left: seq<Row>, sep: bytes, right: seq<Row>)
    requires rows != [] && InOrder(rows, rank) && LeafBytes(rows, highLen) <= PAGE_SIZE
    ensures left == rows[..Cut(rows, rank)] && right == rows[Cut(rows, rank)..] && sep == right[0].key
    ensures left + right == rows && (left != [] <==> |rows| > 1)
    ensures CutAt(left, right, rank, rank(sep)) && (KeptRight(left, rank, rank(sep)) <==> !OneKey(rows, rank) || |rows| == 1)
    ensures LeafBytes(left, |sep|) <= PAGE_SIZE && LeafBytes(right, highLen) <= PAGE_SIZE
  {
    hide Cut, RunEnd, RunStart, RowBytes;
    var mid := SplitPoint(rows, rank);
    left, sep, right := rows[..mid], rows[mid].key, rows[mid..];
    HalvesFit(rows, mid, highLen);
    if mid == 0 {}
    else if OneKey(rows, rank) { assert rank(left[0].key) == rank(rows[0].key) == rank(sep); }
    else {
      forall i | 0 <= i < |left| ensures rank(left[i].key) < rank(sep) {
        assert rank(rows[i].key) <= rank(rows[mid - 1].key);
      }
    }
  }

  const INCOMPLETE_SPLIT: byte := 1

  method ReadRows(a: array<byte>) returns (rows: seq<Row>)
    requires Wf(a[..])
    ensures rows == Rows(a[..])
    ensures forall i {:trigger rows[i]} :: 0 <= i < |rows| ==> Fits64(rows[i].xmin) && Fits64(rows[i].xmax)
  {
    rows := [];
    ghost var all := Rows(a[..]);
    var n := Count(a[..]);
    assert |all| == n;
    hide Rows, RowsIn, DirOk, Dir, DirAt, SlotAt, RowAt, RecOk, U16, U64, Base, SlotBase;
    for i := 0 to n
      invariant rows == all[..i]
      invariant forall k {:trigger rows[k]} :: 0 <= k < |rows| ==> Fits64(rows[k].xmin) && Fits64(rows[k].xmax)
    {
      var row := GetRow(a, i);
      rows := rows + [row];
    }
  }

  /** The page rebuilds of `split_leaf_ly`: `a` keeps the lower half, `b` becomes its right sibling. */
  method SplitLeafPage(a: array<byte>, b: array<byte>, leafId: nat, rightId: nat, rank: Rank)
    requires Wf(a[..]) && Count(a[..]) >= 1 && InOrder(Rows(a[..]), rank)
    requires b.Length == PAGE_SIZE && a != b && Fits64(leafId) && Fits64(rightId)
    modifies a, b
    ensures Wf(a[..]) && Wf(b[..]) && Rows(a[..]) + Rows(b[..]) == old(Rows(a[..]))
    ensures Rows(b[..]) != [] && (Rows(a[..]) != [] <==> old(Count(a[..])) > 1)
    ensures |Rows(a[..])| == Cut(old(Rows(a[..])), rank)
    ensures High(a[..]) == Rows(b[..])[0].key && High(b[..]) == old(High(a[..]))
    ensures CutAt(Rows(a[..]), Rows(b[..]), rank, rank(High(a[..])))
    ensures KeptRight(Rows(a[..]), rank, rank(High(a[..]))) <==> !OneKey(old(Rows(a[..])), rank) || old(Count(a[..])) == 1
    ensures HeadOf(a[..]) == Head(LEAF, INCOMPLETE_SPLIT, leafId, 0, old(HeadOf(a[..])).prev, rightId)
    ensures HeadOf(b[..]) == Head(LEAF, 0, rightId, 0, leafId, old(HeadOf(a[..])).right)
  {
    var left, sep, upper, high := Halve(a, rank);
    var _, _, _, prev, right := ReadHead(a);
    hide Wf, Rows, Base, High, HeadOf, RowBytes, InOrder, U16, U64, Bounded, OneKey, CutAt, KeptRight, Cut;
    Rebuild(b, rightId, high, 0, 0, leafId, right, upper);
    Rebuild(a, leafId, sep, INCOMPLETE_SPLIT, 0, prev, rightId, left);
  }

  /** Reads the page and cuts its records. */
  method Halve(a: array<byte>, rank: Rank) returns (left: seq<Row>, sep: bytes, right: seq<Row>, high: bytes)
    requires Wf(a[..]) && Count(a[..]) >= 1 && InOrder(Rows(a[..]), rank)
    ensures left + right == Rows(a[..]) && right != [] && sep == right[0].key && high == High(a[..])
    ensures |left| == Cut(Rows(a[..]), rank) && (left != [] <==> Count(a[..]) > 1)
    ensures CutAt(left, right, rank, rank(sep))
    ensures KeptRight(left, rank, rank(sep)) <==> !OneKey(Rows(a[..]), rank) || Count(a[..]) == 1
    ensures LeafBytes(left, |sep|) <= PAGE_SIZE && LeafBytes(right, |high|) <= PAGE_SIZE
    ensures forall i {:trigger left[i]} :: 0 <= i < |left| ==> Fits64(left[i].xmin) && Fits64(left[i].xmax)
    ensures forall i {:trigger right[i]} :: 0 <= i < |right| ==> Fits64(right[i].xmin) && Fits64(right[i].xmax)
  {
    hide Wf, Rows, High, HeadOf, RowBytes, InOrder, U16, U64, Bounded, SlotBase, Cut, RunEnd, RunStart, OneKey, CutAt, KeptRight, Base, RecTotalSize;
    var rows := ReadRows(a);
    var h, _, _, _, _ := ReadHead(a);
    high := h;
    RowsFit(a[..]);
    RowCount(a[..]);
    left, sep, right := SplitLeaf(rows, rank, |high|);
    StampsFit(rows, |left|);
  }

  lemma StampsFit(rows: seq<Row>, mid: nat)
    requires mid <= |rows| && forall i {:trigger rows[i]} :: 0 <= i < |rows| ==> Fits64(rows[i].xmin) && Fits64(rows[i].xmax)
    ensures forall i {:trigger rows[..mid][i]} :: 0 <= i < mid ==> Fits64(rows[..mid][i].xmin) && Fits64(rows[..mid][i].xmax)
    ensures forall i {:trigger rows[mid..][i]} ::
              0 <= i < |rows| - mid ==> Fits64(rows[mid..][i].xmin) && Fits64(rows[mid..][i].xmax)
  {
    assert forall i :: 0 <= i < |rows| - mid ==> rows[mid..][i] == rows[mid + i];
  }

  lemma RowCount(s: bytes)
    requires Wf(s)
    ensures |Rows(s)| == Count(s)
  {
  }
}
