/**
Finding the visible version of a key on its leaf (crates/storage/src/index/mod.rs,
`duplicate_slot_bounds` and `find_visible_slot`): the whole run of equal keys is searched,
whichever of them the binary search happens to hit.
*/
module LeafSearch {
  import opened Options
  import opened ByteTypes
  import opened Transaction
  import opened Redo
  import opened LeafPage
  import opened LeafBuilder

  /** Slots [first, past) are exactly those with the key. */
  ghost predicate IsRun(rows: seq<Row>, rank: Rank, k: real, first: nat, past: nat) {
    first <= past <= |rows|
    && forall i {:trigger rows[i]} :: 0 <= i < |rows| ==> (first <= i < past <==> rank(rows[i].key) == k)
  }

  lemma RunFromEdges(rows: seq<Row>, rank: Rank, k: real, first: nat, past: nat)
    requires InOrder(rows, rank) && first < past <= |rows|
    requires forall i {:trigger rows[i]} :: first <= i < past ==> rank(rows[i].key) == k
    requires first > 0 ==> rank(rows[first - 1].key) != k
    requires past < |rows| ==> rank(rows[past].key) != k
    ensures IsRun(rows, rank, k, first, past)
  {
    forall i | 0 <= i < |rows| && !(first <= i < past) ensures rank(rows[i].key) != k {
      if i < first { assert rank(rows[i].key) <= rank(rows[first - 1].key) <= rank(rows[first].key); }
      else { assert rank(rows[past - 1].key) <= rank(rows[past].key) <= rank(rows[i].key) || i == past; }
    }
  }

  method DuplicateSlotBounds(a: array<byte>, rank: Rank, key: bytes, known: nat) returns (first: nat, past: nat)
    requires Wf(a[..]) && InOrder(Rows(a[..]), rank) && known < |Rows(a[..])| && rank(Rows(a[..])[known].key) == rank(key)
    ensures IsRun(Rows(a[..]), rank, rank(key), first, past)
  {
    hide *;
    first := ScanBack(a, rank, rank(key), known);
    past := ScanForward(a, rank, rank(key), known);
    RunFromEdges(Rows(a[..]), rank, rank(key), first, past);
  }

  method ScanBack(a: array<byte>, rank: Rank, k: real, known: nat) returns (first: nat)
    requires Wf(a[..]) && known < |Rows(a[..])| && rank(Rows(a[..])[known].key) == k
    ensures first <= known && (first > 0 ==> rank(Rows(a[..])[first - 1].key) != k)
    ensures forall i {:trigger Rows(a[..])[i]} :: first <= i <= known ==> rank(Rows(a[..])[i].key) == k
  {
    hide *;
    var n := NumPairs(a);
    ghost var rows := Rows(a[..]);
    first := known;
    while first > 0
      invariant first <= known
      invariant forall i {:trigger rows[i]} :: first <= i <= known ==> rank(rows[i].key) == k
    {
      var row := GetRow(a, first - 1);
      if rank(row.key) != k { break; }
      first := first - 1;
    }
  }

  method ScanForward(a: array<byte>, rank: Rank, k: real, known: nat) returns (past: nat)
    requires Wf(a[..]) && known < |Rows(a[..])| && rank(Rows(a[..])[known].key) == k
    ensures known < past <= |Rows(a[..])| && (past < |Rows(a[..])| ==> rank(Rows(a[..])[past].key) != k)
    ensures forall i {:trigger Rows(a[..])[i]} :: known <= i < past ==> rank(Rows(a[..])[i].key) == k
  {
    hide *;
    var n := NumPairs(a);
    ghost var rows := Rows(a[..]);
    past := known + 1;
    while past < n
      invariant known < past <= n
      invariant forall i {:trigger rows[i]} :: known <= i < past ==> rank(rows[i].key) == k
    {
      var row := GetRow(a, past);
      if rank(row.key) != k { break; }
      past := past + 1;
    }
  }

  ghost predicate Seen(row: Row, self: nat, snap: Snapshot, clog: Clog) {
    TxnVisible(self, Version(row.xmin, row.xmax), snap, clog)
  }

  /** A visible version of the key at slot `at`. */
  ghost predicate Match(rows: seq<Row>, rank: Rank, k: real, at: nat, self: nat, snap: Snapshot, clog: Clog) {
    at < |rows| && rank(rows[at].key) == k && Seen(rows[at], self, snap, clog)
  }

  /** The first visible version of the key on the page, or none if there is none. */
  method FindVisibleSlot(a: array<byte>, rank: Rank, key: bytes, self: nat, snap: Snapshot, clog: Clog) returns (r: Option<nat>)
    requires Wf(a[..]) && InOrder(Rows(a[..]), rank)
    ensures r.Some? ==> Match(Rows(a[..]), rank, rank(key), r.value, self, snap, clog)
    ensures forall j: nat {:trigger Match(Rows(a[..]), rank, rank(key), j, self, snap, clog)} ::
              Match(Rows(a[..]), rank, rank(key), j, self, snap, clog) ==> r.Some? && r.value <= j
  {
    ghost var rows := Rows(a[..]);
    var start, found := Position(a, rank, key);
    if !found {
      NoneEqual(rows, rank, start, rank(key));
      return None;
    }
    hide Wf, Rows, InOrder, TxnVisible;
    var first, past := DuplicateSlotBounds(a, rank, key, start);
    r := ScanVisible(a, first, past, self, snap, clog);
  }

  lemma NoneEqual(rows: seq<Row>, rank: Rank, at: nat, k: real)
    requires Smaller(rows, rank, at, k) && Greater(rows, rank, at, k)
    ensures forall i {:trigger rows[i]} :: 0 <= i < |rows| ==> rank(rows[i].key) != k
  {
  }

  method ScanVisible(a: array<byte>, first: nat, past: nat, self: nat, snap: Snapshot, clog: Clog) returns (r: Option<nat>)
    requires Wf(a[..]) && first <= past <= |Rows(a[..])|
    ensures r.Some? ==> first <= r.value < past && Seen(Rows(a[..])[r.value], self, snap, clog)
    ensures forall j {:trigger Rows(a[..])[j]} ::
              first <= j < (if r.Some? then r.value else past) ==> !Seen(Rows(a[..])[j], self, snap, clog)
  {
    hide Wf, Rows, TxnVisible;
    var n := NumPairs(a);
    ghost var rows := Rows(a[..]);
    var i := first;
    while i < past
      invariant first <= i <= past
      invariant forall j {:trigger rows[j]} :: first <= j < i ==> !Seen(rows[j], self, snap, clog)
    {
      var row := GetRow(a, i);
      if TxnVisible(self, Version(row.xmin, row.xmax), snap, clog) { return Some(i); }
      i := i + 1;
    }
    return None;
  }
}
