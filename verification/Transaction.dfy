/**
Visibility, vacuum and write-conflict rules of the MVCC layer
(crates/db-core/src/transaction.rs, crates/storage/src/index/mod.rs).
Transaction ids are unbounded naturals; id 0 is the always-committed system id.
*/
module Transaction {

  datatype Status = Active | Committed | Aborted

  type Clog = map<nat, Status>

  /** A point-in-time view: who was in flight (`active`) below `xmax`. */
  datatype Snapshot = Snapshot(xmin: nat, xmax: nat, active: set<nat>)

  /** A row version: creating and deleting transaction (0 = not deleted). */
  datatype Version = Version(xmin: nat, xmax: nat)

  predicate ClogCommitted(clog: Clog, t: nat) {
    t == 0 || (t in clog && clog[t] == Committed)
  }

  predicate ClogAborted(clog: Clog, t: nat) {
    t in clog && clog[t] == Aborted
  }

  /** `Snapshot::is_committed`: snapshot bounds first, then presumed commit. */
  predicate IsCommitted(snap: Snapshot, t: nat, clog: Clog) {
    if t == 0 then true
    else if t >= snap.xmax then false
    else if t in snap.active then false
    else !ClogAborted(clog, t)
  }

  /** `Snapshot::is_in_progress`. */
  predicate IsInProgress(snap: Snapshot, t: nat, clog: Clog) {
    if t == 0 then false
    else if ClogCommitted(clog, t) || ClogAborted(clog, t) then false
    else if t < snap.xmin then false
    else if t >= snap.xmax then true
    else t in snap.active
  }

  /** The free function `is_visible`. */
  predicate RecordVisible(v: Version, snap: Snapshot, clog: Clog) {
    if !IsCommitted(snap, v.xmin, clog) then false
    else if v.xmax == 0 then true
    else !IsCommitted(snap, v.xmax, clog)
  }

  /** `Transaction::is_visible`: own deletes hide, own inserts show. */
  predicate TxnVisible(self: nat, v: Version, snap: Snapshot, clog: Clog) {
    if v.xmax == self then false
    else if v.xmin == self then true
    else RecordVisible(v, snap, clog)
  }

  datatype Verdict = Proceed | WaitFor(blocker: nat) | WriteConflict

  /** `check_write_conflict`: first writer wins. */
  function CheckWriteConflict(xmax: nat, self: nat, snap: Snapshot, clog: Clog): Verdict {
    if xmax == 0 || xmax == self then Proceed
    else if IsInProgress(snap, xmax, clog) then WaitFor(xmax)
    else if ClogAborted(clog, xmax) then Proceed
    else WriteConflict
  }

  /** One version's share of `check_insert_conflict`; `None` lets the insert go on. */
  datatype InsertVerdict = Pass | Duplicate | Wait(blocker: nat)

  function CheckInsertConflict(v: Version, self: nat, snap: Snapshot, clog: Clog): InsertVerdict {
    if v.xmin != self && IsInProgress(snap, v.xmin, clog) then Wait(v.xmin)
    else if TxnVisible(self, v, snap, clog) then Duplicate
    else if v.xmax != 0 && v.xmax != self && IsInProgress(snap, v.xmax, clog) then Wait(v.xmax)
    else Pass
  }

  /** `settled_status`, with the three reads taken at one moment. */
  function SettledStatus(clog: Clog, globalXmin: nat, t: nat): Status {
    if ClogCommitted(clog, t) then Committed
    else if ClogAborted(clog, t) then Aborted
    else if t < globalXmin then Committed
    else Active
  }

  /** `is_vacuumable`, with all reads taken at one moment. */
  predicate IsVacuumable(v: Version, horizon: nat, clog: Clog, globalXmin: nat) {
    if SettledStatus(clog, globalXmin, v.xmin) == Aborted then true
    else if v.xmax == 0 || SettledStatus(clog, globalXmin, v.xmax) != Committed then false
    else v.xmax < horizon
  }
}
