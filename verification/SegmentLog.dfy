/**
The segmented log (`SegmentWriter` and `reclaim_segments_below` in
crates/storage/src/wal.rs).  A segment file is the list of records appended to it.
*/
module SegmentLog {
  import opened ByteTypes
  import opened WalBuffer

  datatype Segment = Segment(index: nat, recs: seq<Entry>)

  datatype WriteResult = Written | TooLarge

  /** Bytes in a segment file. */
  function Size(recs: seq<Entry>): nat { |Flat(recs)| }

  /** What a reader of the directory sees: the segments' records one after the other. */
  ghost function Log(segs: seq<Segment>): seq<Entry> {
    if segs == [] then [] else segs[0].recs + Log(segs[1..])
  }

  lemma {:induction false} LogConcat(a: seq<Segment>, b: seq<Segment>)
    ensures Log(a + b) == Log(a) + Log(b)
    decreases |a|
  {
    if a == [] { assert a + b == b; }
    else {
      LogConcat(a[1..], b);
      assert (a + b)[0] == a[0] && (a + b)[1..] == a[1..] + b;
    }
  }

  lemma LogSplit(segs: seq<Segment>, k: nat)
    requires k <= |segs|
    ensures Log(segs) == Log(segs[..k]) + Log(segs[k..])
  {
    LogConcat(segs[..k], segs[k..]);
    assert segs == segs[..k] + segs[k..];
  }

  ghost predicate Ascending(log: seq<Entry>) {
    forall i, j :: 0 <= i < j < |log| ==> log[i].lsn < log[j].lsn
  }

  ghost predicate InIndexOrder(segs: seq<Segment>) {
    forall i, j :: 0 <= i < j < |segs| ==> segs[i].index < segs[j].index
  }

  /** No file is longer than the segment size. */
  ghost predicate AllWithin(segs: seq<Segment>, size: nat) {
    forall i :: 0 <= i < |segs| ==> Size(segs[i].recs) <= size
  }

  class Writer {
    const segmentSize: nat
    var segments: seq<Segment>   // the directory, in index order; the last is open for append
    var offset: nat

    ghost predicate Valid()
      reads this
    {
      segments != [] && offset == Size(segments[|segments| - 1].recs) <= segmentSize && InIndexOrder(segments)
    }

    /** `open` on a directory as it is: the last file goes on if it has room, else the next one is started. */
    constructor (size: nat, existing: seq<Segment>)
      requires InIndexOrder(existing)
      ensures Valid() && segmentSize == size && Log(segments) == Log(existing)
      ensures existing <= segments && |segments| <= |existing| + 1
      ensures |segments| == |existing| + 1 <==> existing == [] || Size(existing[|existing| - 1].recs) >= size
    {
      var index, used := 1, 0;
      if existing != [] {
        var last := existing[|existing| - 1];
        index, used := last.index, Size(last.recs);
      }
      var rolls := used >= size;
      if rolls { index, used := index + 1, 0; }
      segmentSize := size;
      offset := used;
      segments := if existing == [] || rolls then existing + [Segment(index, [])] else existing;
      LogConcat(existing, [Segment(index, [])]);
      LogOne(Segment(index, []));
    }

    method Rotate()
      requires Valid()
      modifies this
      ensures Valid() && Log(segments) == old(Log(segments)) && offset == 0
      ensures segments[|segments| - 1].recs == [] && segments[..|segments| - 1] == old(segments)
      ensures old(AllWithin(segments, segmentSize)) ==> AllWithin(segments, segmentSize)
    {
      var next := Segment(segments[|segments| - 1].index + 1, []);
      LogConcat(segments, [next]);
      assert Log([next]) == [] by { assert [next][1..] == []; }
      segments := segments + [next];
      offset := 0;
    }

    /** Appends one record whole, in a fresh segment if the current one has no room. */
    method WriteRecord(lsn: nat, record: bytes) returns (r: WriteResult)
      requires Valid()
      modifies this
      ensures Valid()
      ensures r == if |record| > segmentSize then TooLarge else Written
      ensures Log(segments) == old(Log(segments)) + if r.Written? then [Entry(lsn, record)] else []
      ensures old(AllWithin(segments, segmentSize)) ==> AllWithin(segments, segmentSize)
    {
      if |record| > segmentSize { return TooLarge; }
      if offset > 0 && offset + |record| > segmentSize { Rotate(); }
      WriteAll(Entry(lsn, record));
      return Written;
    }

    method WriteAll(e: Entry)
      requires Valid() && offset + |e.data| <= segmentSize
      modifies this
      ensures Valid() && Log(segments) == old(Log(segments)) + [e]
      ensures old(AllWithin(segments, segmentSize)) ==> AllWithin(segments, segmentSize)
    {
      var init, last := segments[..|segments| - 1], segments[|segments| - 1];
      assert segments == init + [last];
      ExtendLast(init, last, e);
      segments := init + [last.(recs := last.recs + [e])];
      offset := offset + |e.data|;
    }

    /**
    Deletes the segments entirely below `redo`: the files before the first whose successor
    starts above it.  `deleted` files go, all from the front, never the last.
    */
    method ReclaimBelow(redo: nat) returns (deleted: nat)
      requires Valid() && Ascending(Log(segments))
      modifies `segments
      ensures Valid() && deleted < old(|segments|) && segments == old(segments)[deleted..]
      ensures forall e :: e in Log(old(segments)[..deleted]) ==> e.lsn < redo
      ensures Log(old(segments)) == Log(old(segments)[..deleted]) + Log(segments)
      ensures |segments| == 1 || segments[1].recs == [] || segments[1].recs[0].lsn > redo
      ensures Log(old(segments)) != [] ==> Log(segments) != []
    {
      deleted := CountReclaimable(redo);
      LogSplit(segments, deleted);
      if deleted > 0 { BelowNext(segments, deleted, redo); }
      else { assert segments[..0] == []; }
      segments := segments[deleted..];
    }

    /** The scan: how many files from the front have a successor starting at or below `redo`. */
    method CountReclaimable(redo: nat) returns (k: nat)
      requires Valid()
      ensures k < |segments|
      ensures k > 0 ==> segments[k].recs != [] && segments[k].recs[0].lsn <= redo
      ensures k + 1 == |segments| || segments[k + 1].recs == [] || segments[k + 1].recs[0].lsn > redo
    {
      var active := segments[|segments| - 1].index;
      k := 0;
      for i := 0 to |segments|
        invariant i == k < |segments|
        invariant k > 0 ==> segments[k].recs != [] && segments[k].recs[0].lsn <= redo
      {
        if segments[i].index >= active { break; }
        if i + 1 >= |segments| { break; }
        if segments[i + 1].recs == [] || segments[i + 1].recs[0].lsn > redo { break; }
        k := k + 1;
      }
    }
  }

  lemma LogOne(seg: Segment)
    ensures Log([seg]) == seg.recs
  {
    assert [seg][1..] == [];
  }

  lemma ExtendLast(init: seq<Segment>, last: Segment, e: Entry)
    ensures Log(init + [last.(recs := last.recs + [e])]) == Log(init + [last]) + [e]
    ensures Size(last.recs + [e]) == Size(last.recs) + |e.data|
  {
    LogConcat(init, [last.(recs := last.recs + [e])]);
    LogOne(last.(recs := last.recs + [e]));
    LogConcat(init, [last]);
    LogOne(last);
    FlatConcat(last.recs, [e]);
    FlatOne(e);
  }

  /** Records before a segment that starts at or below `redo` are below `redo`. */
  lemma BelowNext(segs: seq<Segment>, k: nat, redo: nat)
    requires 0 < k < |segs| && segs[k].recs != [] && segs[k].recs[0].lsn <= redo
    requires Ascending(Log(segs))
    ensures forall e :: e in Log(segs[..k]) ==> e.lsn < redo
    ensures Log(segs[k..]) != []
  {
    LogSplit(segs, k);
    var a, b := Log(segs[..k]), Log(segs[k..]);
    assert b[0] == segs[k].recs[0];
    forall e | e in a ensures e.lsn < redo {
      var i :| 0 <= i < |a| && a[i] == e;
      assert Log(segs)[i] == e && Log(segs)[|a|] == b[0];
    }
  }
}
