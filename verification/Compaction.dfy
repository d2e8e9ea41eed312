/**
Compaction and the sweep (crates/storage/src/page/leaf.rs, `compact`, as
crates/storage/src/index/mod.rs, `vacuum`, calls it): if every record a page drops was
accepted by a sweep, no live snapshot reads the page differently.
*/
module Compaction {
  import opened Transaction
  import opened Redo
  import opened LeafBuilder
  import opened SnapshotIsolation

  datatype Viewer = Writer(t: nat) | Observer(token: nat)

  /** In `s`, `who` is live and reads through `snap`. */
  ghost predicate Watches(s: Sys, who: Viewer, snap: Snapshot) {
    match who
    case Writer(t) => InPhase(s, t, Running) && s.txns[t].snap == snap
    case Observer(k) => k in s.readers && s.readers[k].snap == snap
  }

  predicate Sees(who: Viewer, r: Row, snap: Snapshot, clog: Clog) {
    match who
    case Writer(t) => TxnVisible(t, Version(r.xmin, r.xmax), snap, clog)
    case Observer(_) => RecordVisible(Version(r.xmin, r.xmax), snap, clog)
  }

  /** The records of a page that `who` reads, in order. */
  ghost function View(rows: seq<Row>, who: Viewer, snap: Snapshot, clog: Clog): seq<Row> {
    if rows == [] then []
    else
      var r, rest := rows[|rows| - 1], View(rows[..|rows| - 1], who, snap, clog);
      if Sees(who, r, snap, clog) then rest + [r] else rest
  }

  /**
  In some run of the coordinator with the versions of `r`'s key, a sweep accepted `r` in
  `s`, and the run went on to a state where `who` is live.
  */
  ghost predicate Swept(s0: Sys, before: seq<Step>, s: Sys, after: seq<Step>, s': Sys, r: Row) {
    Init(s0) && Runs(s0, before, s) && Accepted(s) && Runs(s, after, s')
    && s.versions[s.vac.id] == Version(r.xmin, r.xmax)
    && (s.vac.xminProbe == Known(Aborted) ==> ClogAborted(s'.tm.clog, r.xmin))
  }

  ghost predicate Justified(r: Row, who: Viewer, snap: Snapshot, clog: Clog) {
    exists s0, before, s, after, s' ::
      Swept(s0, before, s, after, s', r) && Watches(s', who, snap) && s'.tm.clog == clog
  }

  lemma JustifiedUnseen(r: Row, who: Viewer, snap: Snapshot, clog: Clog)
    requires Justified(r, who, snap, clog)
    ensures !Sees(who, r, snap, clog)
  {
    var s0, before, s, after, s' :| Swept(s0, before, s, after, s', r) && Watches(s', who, snap) && s'.tm.clog == clog;
    hide Runs, Init;
    VacuumSafety(s0, before, s, after, s');
    assert who.Writer? ==> !CanSee(s', who.t, s.versions[s.vac.id]);
  }

  lemma {:induction false} ViewConcat(a: seq<Row>, r: Row, who: Viewer, snap: Snapshot, clog: Clog)
    ensures View(a + [r], who, snap, clog) == View(a, who, snap, clog) + if Sees(who, r, snap, clog) then [r] else []
  {
    assert (a + [r])[..|a|] == a;
  }

  /** Each slot's verdict may come from its own run of reads; the page still reads the same to everyone live. */
  lemma {:induction false} CompactKeepsView(rows: seq<Row>, dead: Vacuumable, who: Viewer, snap: Snapshot, clog: Clog)
    requires forall i {:trigger rows[i]} :: 0 <= i < |rows| && dead(i, rows[i].xmin, rows[i].xmax) ==> Justified(rows[i], who, snap, clog)
    ensures View(Live(rows, dead), who, snap, clog) == View(rows, who, snap, clog)
    decreases |rows|
  {
    hide Justified, Sees;
    if rows != [] {
      var front, r := rows[..|rows| - 1], rows[|rows| - 1];
      forall i | 0 <= i < |front| && dead(i, front[i].xmin, front[i].xmax) ensures Justified(front[i], who, snap, clog) {
        assert front[i] == rows[i];
      }
      CompactKeepsView(front, dead, who, snap, clog);
      ViewConcat(Live(front, dead), r, who, snap, clog);
      if dead(|rows| - 1, r.xmin, r.xmax) { JustifiedUnseen(r, who, snap, clog); }
    }
  }
}
