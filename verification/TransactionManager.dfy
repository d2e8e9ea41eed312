/** The least element of a finite set, with a default for the empty set. */
module Mins {

  ghost function MinOr(s: set<nat>, default: nat): (m: nat)
    ensures s == {} ==> m == default
    ensures s != {} ==> m in s && forall x :: x in s ==> m <= x
    decreases |s|
  {
    if s == {} then default
    else
      var x :| x in s;
      var rest := s - {x};
      if rest == {} then
        assert s == {x};
        x
      else
        var m := MinOr(rest, default);
        assert forall y :: y in s ==> y == x || y in rest;
        if x < m then x else m
  }

  method ComputeMin(s: set<nat>, default: nat) returns (m: nat)
    ensures m == MinOr(s, default)
  {
    m := default;
    var todo := s;
    ghost var done := {};
    while todo != {}
      invariant done + todo == s && done !! todo
      invariant done == {} ==> m == default
      invariant done != {} ==> m in done && forall x :: x in done ==> m <= x
      decreases todo
    {
      var x :| x in todo;
      if todo == s || x < m { m := x; }
      todo := todo - {x};
      done := done + {x};
    }
  }
}

/**
The transaction coordinator (crates/db-core/src/transaction_manager.rs).  `Tm` is the
state as a value; each of its step functions is one critical section of the source, so
`begin`, `mark_committed` and `mark_aborted` are two steps each.  The class runs them.
*/
module TransactionManager {
  import opened Transaction
  import opened Mins

  datatype Tm = Tm(
    next: nat,                 // next_txn_id
    clog: Clog,
    vacuumHorizon: nat,
    active: map<nat, nat>,     // in-flight txn -> xmin of its snapshot
    readers: map<nat, nat>,    // reader token -> xmin of its snapshot
    nextToken: nat)
  {
    /** xmins of every published snapshot. */
    ghost function Pins(): set<nat> { active.Values + readers.Values }

    ghost function GlobalXmin(): nat { MinOr(Pins(), next) }

    /** The snapshot `begin` hands out: it counts its own id as in flight. */
    ghost function BeginSnapshot(): Snapshot {
      Snapshot(MinOr(active.Keys, next), next + 1, active.Keys + {next})
    }

    ghost function BeginActive(): Tm {
      this.(next := next + 1, active := active[next := MinOr(active.Keys, next)])
    }

    function BeginClog(t: nat): Tm { this.(clog := clog[t := Active]) }

    function SettleClog(t: nat, commit: bool): Tm {
      this.(clog := clog[t := if commit then Committed else Aborted])
    }

    function SettleActive(t: nat): Tm { this.(active := active - {t}) }

    ghost function ReadSnapshot(): Snapshot {
      Snapshot(MinOr(active.Keys, next), next, active.Keys)
    }

    ghost function PublishReader(): Tm {
      this.(readers := readers[nextToken := MinOr(active.Keys, next)], nextToken := nextToken + 1)
    }

    function EndRead(token: nat): Tm { this.(readers := readers - {token}) }

    function PublishHorizon(h: nat): Tm {
      this.(vacuumHorizon := if h > vacuumHorizon then h else vacuumHorizon)
    }

    /** Does `truncate_clog(committedHorizon)` keep an entry? */
    predicate Retained(committedHorizon: nat, t: nat, st: Status) {
      match st
      case Active => true
      case Committed => t >= committedHorizon
      case Aborted => t >= vacuumHorizon
    }

    function TruncateClog(committedHorizon: nat): Tm {
      this.(clog := map t | t in clog && Retained(committedHorizon, t, clog[t]) :: clog[t])
    }
  }

  class Manager {
    var nextTxnId: nat
    var clog: Clog
    var vacuumHorizon: nat
    var active: map<nat, nat>
    var readers: map<nat, nat>
    var nextReaderToken: nat

    ghost function View(): Tm
      reads this
    {
      Tm(nextTxnId, clog, vacuumHorizon, active, readers, nextReaderToken)
    }

    constructor ()
      ensures View() == Tm(1, map[], 0, map[], map[], 0)
    {
      nextTxnId, clog, vacuumHorizon := 1, map[], 0;
      active, readers, nextReaderToken := map[], map[], 0;
    }

    method GlobalXmin() returns (h: nat)
      ensures h == View().GlobalXmin()
    {
      h := ComputeMin(active.Values + readers.Values, nextTxnId);
    }

    method Begin() returns (t: nat, snap: Snapshot)
      modifies this
      ensures t == old(nextTxnId) && snap == old(View()).BeginSnapshot()
      ensures View() == old(View()).BeginActive().BeginClog(t)
    {
      t := nextTxnId;
      nextTxnId := nextTxnId + 1;
      var xmin := ComputeMin(active.Keys, t);
      snap := Snapshot(xmin, nextTxnId, active.Keys + {t});
      active := active[t := xmin];
      clog := clog[t := Active];
    }

    method ReadSnapshot() returns (snap: Snapshot, token: nat)
      modifies this
      ensures token == old(nextReaderToken) && snap == old(View()).ReadSnapshot()
      ensures View() == old(View()).PublishReader()
    {
      var xmin := ComputeMin(active.Keys, nextTxnId);
      snap := Snapshot(xmin, nextTxnId, active.Keys);
      token := nextReaderToken;
      nextReaderToken := nextReaderToken + 1;
      readers := readers[token := xmin];
    }

    method EndRead(token: nat)
      modifies this
      ensures View() == old(View()).EndRead(token)
      ensures (forall p :: p in old(View()).Pins() ==> p <= nextTxnId) ==> old(View()).GlobalXmin() <= View().GlobalXmin()
    {
      readers := readers - {token};
    }

    method MarkCommitted(t: nat)
      modifies this
      ensures View() == old(View()).SettleClog(t, true).SettleActive(t)
      ensures forall snap: Snapshot :: IsCommitted(snap, t, clog) <==> t == 0 || (t < snap.xmax && t !in snap.active)
      ensures forall snap: Snapshot, u :: u != t ==> IsCommitted(snap, u, clog) == IsCommitted(snap, u, old(clog))
    {
      clog := clog[t := Committed];
      active := active - {t};
    }

    method MarkAborted(t: nat)
      modifies this
      ensures View() == old(View()).SettleClog(t, false).SettleActive(t)
      ensures forall snap: Snapshot :: IsCommitted(snap, t, clog) <==> t == 0
      ensures forall snap: Snapshot, u :: u != t ==> IsCommitted(snap, u, clog) == IsCommitted(snap, u, old(clog))
    {
      clog := clog[t := Aborted];
      active := active - {t};
    }

    method PublishVacuumHorizon(h: nat)
      modifies this
      ensures View() == old(View()).PublishHorizon(h) && vacuumHorizon >= old(vacuumHorizon) && vacuumHorizon >= h
    {
      if h > vacuumHorizon { vacuumHorizon := h; }
    }

    method TruncateClog(committedHorizon: nat)
      modifies this
      ensures View() == old(View()).TruncateClog(committedHorizon)
      ensures forall snap: Snapshot, t :: t >= vacuumHorizon ==> IsCommitted(snap, t, clog) == IsCommitted(snap, t, old(clog))
      ensures forall t :: committedHorizon <= t && vacuumHorizon <= t ==> (t in clog <==> t in old(clog))
    {
      var tm := Tm(nextTxnId, clog, vacuumHorizon, active, readers, nextReaderToken);
      clog := map t | t in clog && tm.Retained(committedHorizon, t, clog[t]) :: clog[t];
    }

    method SettledStatusOf(t: nat) returns (st: Status)
      ensures st == SettledStatus(clog, View().GlobalXmin(), t)
    {
      if ClogCommitted(clog, t) { return Committed; }
      if ClogAborted(clog, t) { return Aborted; }
      var h := GlobalXmin();
      st := if t < h then Committed else Active;
    }
  }
}
