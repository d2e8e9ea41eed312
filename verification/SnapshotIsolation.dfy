/**
Snapshot isolation over every interleaving.  The state holds the coordinator, the row
versions of one key, the updates under way and a vacuum sweep; each `Step` is one
critical section of the source.  `txns`, `clock` and `claims` are history: they record
when a transaction left the active set and who ever claimed a version, and no step's
effect reads them.
*/
module SnapshotIsolation {
  import opened Transaction
  import opened Mins
  import opened Sets
  import opened TransactionManager

  // ── State ──────────────────────────────────────────────────────────────────

  datatype Phase =
    | Begun                     // in the active set, CLOG entry not yet written
    | Running                   // CLOG entry Active; may read and write
    | Settling(commit: bool)    // CLOG entry final, still in the active set
    | Done(commit: bool)        // left the active set

  datatype Txn = Txn(snap: Snapshot, began: nat, phase: Phase, doneAt: nat)
  datatype Reader = Reader(snap: Snapshot, began: nat)

  /** How far `settled_status` got: its three reads happen at different moments. */
  datatype Probe = Unread | NotCommitted | NotAborted | Known(status: Status)

  /** A sweep's horizon, the versions it has yet to pass, and the one whose page it is on. */
  datatype Vacuum =
    | Idle
    | Sweeping(h: nat, todo: set<nat>)
    | Examining(h: nat, todo: set<nat>, id: nat, xminProbe: Probe, xmaxProbe: Probe)

  /** A write call between two of its critical sections: a row claimed, or the insert check passed. */
  datatype Call = Updating(id: nat) | Inserting

  datatype Sys = Sys(
    tm: Tm,
    versions: map<nat, Version>,
    calls: map<nat, Call>,     // txn -> the call whose new version is not yet in
    vac: Vacuum,
    txns: map<nat, Txn>,
    readers: map<nat, Reader>,
    clock: nat,
    claims: map<nat, set<nat>>)

  datatype Step =
    | BeginActive | BeginClog(t: nat) | SettleClog(t: nat, commit: bool) | SettleActive(t: nat)
    | ReadSnapshot | EndRead(token: nat) | Truncate(committedHorizon: nat)
    | UpdateClaim(t: nat, id: nat) | UpdateCreate(t: nat, newId: nat) | Delete(t: nat, id: nat)
    | InsertCheck(t: nat) | InsertCreate(t: nat, newId: nat) | GiveUp(t: nat)
    | VacStart | VacPick(id: nat) | VacProbeXmin | VacProbeXmax | VacRemove | VacKeep | VacFinish | VacAbandon

  // ── Transitions ────────────────────────────────────────────────────────────

  ghost predicate InPhase(s: Sys, t: nat, p: Phase) { t in s.txns && s.txns[t].phase == p }

  ghost predicate CanSee(s: Sys, t: nat, v: Version)
    requires t in s.txns
  {
    TxnVisible(t, v, s.txns[t].snap, s.tm.clog)
  }

  /** A vacuum examining a version holds its page latch, so no writer claims it. */
  ghost predicate Latched(s: Sys, id: nat) { s.vac.Examining? && s.vac.id == id }

  /** Running, and not inside a write call: ready for its next one. */
  ghost predicate Ready(s: Sys, t: nat) { InPhase(s, t, Running) && t !in s.calls }

  ghost predicate Updates(s: Sys, t: nat) { t in s.calls && s.calls[t].Updating? }

  ghost predicate Inserts(s: Sys, t: nat) { t in s.calls && s.calls[t].Inserting? }

  ghost predicate Unused(s: Sys, id: nat) { id !in s.versions && id !in s.claims }

  /** `find_visible_slot` found `id` and `check_write_conflict` let `t` claim it. */
  ghost predicate MayClaim(s: Sys, t: nat, id: nat) {
    Ready(s, t) && id in s.versions && !Latched(s, id)
    && CanSee(s, t, s.versions[id])
    && CheckWriteConflict(s.versions[id].xmax, t, s.txns[t].snap, s.tm.clog) == Proceed
  }

  /** `check_insert_conflict` passes on every version of the key. */
  ghost predicate MayInsert(s: Sys, t: nat) {
    Ready(s, t)
    && forall id :: id in s.versions ==>
         CheckInsertConflict(s.versions[id], t, s.txns[t].snap, s.tm.clog) == Pass
  }

  /** The next of `settled_status`'s reads for transaction `x`. */
  ghost function ProbeOnce(tm: Tm, x: nat, p: Probe): Probe {
    match p
    case Unread => if ClogCommitted(tm.clog, x) then Known(Committed) else NotCommitted
    case NotCommitted => if ClogAborted(tm.clog, x) then Known(Aborted) else NotAborted
    case NotAborted => Known(if x < tm.GlobalXmin() then Committed else Active)
    case Known(_) => p
  }

  /** What `is_vacuumable` answers once it has the statuses it needs. */
  ghost predicate Accepted(s: Sys) {
    s.vac.Examining? && s.vac.id in s.versions
    && var v := s.versions[s.vac.id];
       (s.vac.xminProbe == Known(Aborted)
        || (s.vac.xminProbe.Known? && v.xmax != 0 && s.vac.xmaxProbe == Known(Committed) && v.xmax < s.vac.h))
  }

  /** `is_vacuumable` has its answer, and it is no. */
  ghost predicate Refused(s: Sys) {
    s.vac.Examining? && s.vac.id in s.versions && s.vac.xminProbe.Known? && s.vac.xminProbe.status != Aborted
    && var v := s.versions[s.vac.id];
       (v.xmax == 0 || (s.vac.xmaxProbe.Known? && (s.vac.xmaxProbe.status != Committed || v.xmax >= s.vac.h)))
  }

  ghost predicate Enabled(s: Sys, step: Step) {
    match step
    case BeginActive => true
    case BeginClog(t) => InPhase(s, t, Begun)
    case SettleClog(t, _) => Ready(s, t)
    case SettleActive(t) => t in s.txns && s.txns[t].phase.Settling?
    case ReadSnapshot => true
    case EndRead(token) => token in s.readers
    case Truncate(_) => true
    case UpdateClaim(t, id) => MayClaim(s, t, id)
    case UpdateCreate(t, newId) => InPhase(s, t, Running) && Updates(s, t) && Unused(s, newId)
    case Delete(t, id) => MayClaim(s, t, id)
    case InsertCheck(t) => MayInsert(s, t)
    case InsertCreate(t, newId) => InPhase(s, t, Running) && Inserts(s, t) && Unused(s, newId)
    case GiveUp(t) => t in s.calls
    case VacStart => s.vac.Idle?
    case VacPick(id) => s.vac.Sweeping? && id in s.versions
    case VacProbeXmin => s.vac.Examining? && s.vac.id in s.versions
    case VacProbeXmax => s.vac.Examining? && s.vac.id in s.versions
    case VacRemove => Accepted(s)
    case VacKeep => Refused(s)
    case VacFinish => s.vac.Sweeping? && s.vac.todo == {}
    case VacAbandon => s.vac.Sweeping?
  }

  ghost function Claim(s: Sys, t: nat, id: nat): Sys
    requires id in s.versions
  {
    s.(versions := s.versions[id := s.versions[id].(xmax := t)],
       claims := s.claims[id := (if id in s.claims then s.claims[id] else {}) + {t}])
  }

  ghost function Create(s: Sys, t: nat, newId: nat): Sys {
    s.(versions := s.versions[newId := Version(t, 0)], claims := s.claims[newId := {}])
  }

  ghost function SetPhase(s: Sys, t: nat, p: Phase): Sys
    requires t in s.txns
  {
    s.(txns := s.txns[t := s.txns[t].(phase := p)])
  }

  ghost function Apply(s: Sys, step: Step): Sys
    requires Enabled(s, step)
  {
    match step
    case BeginActive =>
      s.(tm := s.tm.BeginActive(),
         txns := s.txns[s.tm.next := Txn(s.tm.BeginSnapshot(), s.clock, Begun, 0)])
    case BeginClog(t) => SetPhase(s, t, Running).(tm := s.tm.BeginClog(t))
    case SettleClog(t, commit) => SetPhase(s, t, Settling(commit)).(tm := s.tm.SettleClog(t, commit))
    case SettleActive(t) =>
      s.(tm := s.tm.SettleActive(t), clock := s.clock + 1,
         txns := s.txns[t := s.txns[t].(phase := Done(s.txns[t].phase.commit), doneAt := s.clock)])
    case ReadSnapshot =>
      s.(tm := s.tm.PublishReader(),
         readers := s.readers[s.tm.nextToken := Reader(s.tm.ReadSnapshot(), s.clock)])
    case EndRead(token) => s.(tm := s.tm.EndRead(token), readers := s.readers - {token})
    case Truncate(h) => s.(tm := s.tm.TruncateClog(h))
    case UpdateClaim(t, id) => Claim(s, t, id).(calls := s.calls[t := Updating(id)])
    case UpdateCreate(t, newId) => Create(s, t, newId).(calls := s.calls - {t})
    case Delete(t, id) => Claim(s, t, id)
    case InsertCheck(t) => s.(calls := s.calls[t := Inserting])
    case InsertCreate(t, newId) => Create(s, t, newId).(calls := s.calls - {t})
    case GiveUp(t) => s.(calls := s.calls - {t})
    case VacStart => s.(vac := Sweeping(s.tm.GlobalXmin(), s.versions.Keys))
    case VacPick(id) => s.(vac := Examining(s.vac.h, s.vac.todo, id, Unread, Unread))
    case VacProbeXmin =>
      s.(vac := s.vac.(xminProbe := ProbeOnce(s.tm, s.versions[s.vac.id].xmin, s.vac.xminProbe)))
    case VacProbeXmax =>
      s.(vac := s.vac.(xmaxProbe := ProbeOnce(s.tm, s.versions[s.vac.id].xmax, s.vac.xmaxProbe)))
    case VacRemove => s.(versions := s.versions - {s.vac.id}, vac := Sweeping(s.vac.h, s.vac.todo - {s.vac.id}))
    case VacKeep => s.(vac := Sweeping(s.vac.h, s.vac.todo - {s.vac.id}))
    case VacFinish => s.(tm := s.tm.PublishHorizon(s.vac.h), vac := Idle)
    case VacAbandon => s.(vac := Idle)
  }

  /**
  What an insert would have to make sure of when it adds its version: none of the key is
  visible to `t`, none has come up behind its snapshot, and no update is about to add one.
  */
  ghost predicate InsertSafe(s: Sys, t: nat)
    requires t in s.txns
  {
    (forall id :: id in s.versions ==> !CanSee(s, t, s.versions[id]) && !Hidden(s, t, s.versions[id]))
    && forall u :: !Updates(s, u)
  }

  /** A version of another's that `t`'s snapshot misses, not aborted, and whose deletion is not final. */
  ghost predicate Hidden(s: Sys, t: nat, v: Version)
    requires t in s.txns
  {
    !ClogAborted(s.tm.clog, v.xmin) && v.xmin != t
    && !IsCommitted(s.txns[t].snap, v.xmin, s.tm.clog)
    && v.xmax != t && v.xmax != v.xmin
    && (v.xmax == 0 || v.xmax in s.tm.active || ClogAborted(s.tm.clog, v.xmax))
  }

  /** Any number of steps taken from `s`. */
  ghost predicate Runs(s: Sys, steps: seq<Step>, s': Sys)
    decreases |steps|
  {
    if steps == [] then s' == s
    else Enabled(s, steps[0]) && Runs(Apply(s, steps[0]), steps[1..], s')
  }

  /** The abort of `x`, if `s` has it, is still in the CLOG of `s'`. */
  ghost predicate Keeps(s: Sys, s': Sys, x: nat) { ClogAborted(s.tm.clog, x) ==> ClogAborted(s'.tm.clog, x) }

  /** Every insert of the run is safe where it happens. */
  ghost predicate InsertsSafe(s: Sys, steps: seq<Step>)
    decreases |steps|
  {
    steps != [] && Enabled(s, steps[0]) ==>
      (steps[0].InsertCreate? ==> InsertSafe(s, steps[0].t)) && InsertsSafe(Apply(s, steps[0]), steps[1..])
  }

  /** Everything settled; at most one version, live and committed. */
  ghost predicate Init(s: Sys) {
    s.tm.next >= 1 && s.tm.active == map[] && s.tm.readers == map[] && s.readers == map[]
    && s.tm.vacuumHorizon <= s.tm.next && s.clock == 1 && s.vac == Idle && s.calls == map[]
    && (forall t: nat :: t in s.txns <==> t < s.tm.next)
    && (forall t :: t in s.txns ==> s.txns[t].phase.Done? && s.txns[t].doneAt == 0)
    && s.txns[0].phase.commit
    && (forall t :: t in s.tm.clog ==> t in s.txns && t != 0)
    && (forall t :: t in s.txns ==> ClogOk(s, t))
    && |s.versions| <= 1 && s.claims.Keys == s.versions.Keys
    && (forall id :: id in s.versions ==>
          s.claims[id] == {} && s.versions[id].xmax == 0 && InPhase(s, s.versions[id].xmin, Done(true)))
  }

  // ── Invariant ──────────────────────────────────────────────────────────────

  ghost predicate IsDone(s: Sys, t: nat) { t in s.txns && s.txns[t].phase.Done? }

  ghost predicate Gone(s: Sys, t: nat) {
    InPhase(s, t, Settling(false)) || InPhase(s, t, Done(false))
  }

  /** The CLOG entry a transaction has in each phase; a final entry may be truncated. */
  ghost predicate ClogOk(s: Sys, t: nat)
    requires t in s.txns
  {
    match s.txns[t].phase
    case Begun => t !in s.tm.clog
    case Running => t in s.tm.clog && s.tm.clog[t] == Active
    case Settling(commit) => t in s.tm.clog ==> s.tm.clog[t] == if commit then Committed else Aborted
    case Done(commit) => t in s.tm.clog ==> s.tm.clog[t] == if commit then Committed else Aborted
  }

  /** On `u`, a snapshot taken at `at` tells whether `u` was done by then. */
  ghost predicate Splits(s: Sys, snap: Snapshot, at: nat, u: nat)
    requires u in s.txns
  {
    (IsDone(s, u) && s.txns[u].doneAt < at) <==> (u < snap.xmax && u !in snap.active)
  }

  ghost predicate SnapOk(s: Sys, snap: Snapshot, at: nat) {
    snap.xmin <= snap.xmax <= s.tm.next && 1 <= at <= s.clock
    && (forall u :: u in snap.active ==> snap.xmin <= u < snap.xmax)
    && (forall u {:trigger Splits(s, snap, at, u)} :: u in s.txns ==> Splits(s, snap, at, u))
  }

  ghost predicate TxnOk(s: Sys, t: nat)
    requires t in s.txns
  {
    ClogOk(s, t)
    && (t in s.tm.active <==> !s.txns[t].phase.Done?)
    && (IsDone(s, t) ==> s.txns[t].doneAt < s.clock)
    && (t in s.tm.active ==>
          SnapOk(s, s.txns[t].snap, s.txns[t].began)
          && s.tm.active[t] == s.txns[t].snap.xmin <= t && t in s.txns[t].snap.active)
  }

  ghost predicate ReaderOk(s: Sys, k: nat)
    requires k in s.readers
  {
    k < s.tm.nextToken && SnapOk(s, s.readers[k].snap, s.readers[k].began)
    && k in s.tm.readers && s.tm.readers[k] == s.readers[k].snap.xmin
  }

  /** Which ids and tokens the coordinator and the history know. */
  ghost predicate Registered(s: Sys) {
    s.tm.next >= 1 && s.clock >= 1 && InPhase(s, 0, Done(true)) && s.txns[0].doneAt == 0
    && (forall t: nat :: t in s.txns <==> t < s.tm.next)
    && (forall t :: t in s.tm.clog ==> t in s.txns && t != 0)
    && (forall t :: t in s.tm.active ==> t in s.txns)
    && s.tm.readers.Keys == s.readers.Keys
  }

  ghost predicate TmInv(s: Sys) {
    Registered(s)
    && (forall t {:trigger TxnOk(s, t)} :: t in s.txns ==> TxnOk(s, t))
    && (forall k {:trigger ReaderOk(s, k)} :: k in s.readers ==> ReaderOk(s, k))
  }

  /** Done and, as far as the CLOG tells, committed: what every later snapshot takes it for. */
  ghost predicate Passes(s: Sys, u: nat) { IsDone(s, u) && !ClogAborted(s.tm.clog, u) }

  /** Commit order: whoever sees `b` committed sees `a` committed. */
  ghost predicate Before(s: Sys, a: nat, b: nat) {
    a == b || (Passes(s, a) && (IsDone(s, b) ==> s.txns[a].doneAt < s.txns[b].doneAt))
  }

  /** `v`'s deletion comes no later than `w`'s creation. */
  ghost predicate Precedes(s: Sys, v: Version, w: Version) {
    v.xmax != 0 && Before(s, v.xmax, w.xmin)
  }

  ghost predicate VersionOk(s: Sys, v: Version) {
    v.xmin in s.txns && v.xmax in s.txns
    && s.txns[v.xmin].phase != Begun && s.txns[v.xmax].phase != Begun
    && (v.xmax != 0 ==> v.xmax == v.xmin || IsDone(s, v.xmin))
  }

  /** If `u` aborted, the CLOG says so. */
  ghost predicate Remembered(s: Sys, u: nat) { Gone(s, u) ==> ClogAborted(s.tm.clog, u) }

  /** A stored version's creator, if it aborted, is known to have. */
  ghost predicate Sound(s: Sys, v: Version) {
    VersionOk(s, v) && Remembered(s, v.xmin)
    && (v.xmax != 0 ==> v.xmax == v.xmin || InPhase(s, v.xmin, Done(true)))
  }

  /** Never read by anyone but, before it deleted the version again, its creator. */
  ghost predicate Stillborn(s: Sys, v: Version) {
    Gone(s, v.xmin) || (v.xmax != 0 && v.xmax == v.xmin)
  }

  /** Two versions that may both be read are ordered by deletion and creation. */
  ghost predicate Ordered(s: Sys, v: Version, w: Version) {
    Stillborn(s, v) || Stillborn(s, w) || Precedes(s, v, w) || Precedes(s, w, v)
  }

  /** While `w`'s creator runs, it does not see both `v` and `w`. */
  ghost predicate OwnHides(s: Sys, v: Version, w: Version) {
    InPhase(s, w.xmin, Running) ==> !(CanSee(s, w.xmin, v) && CanSee(s, w.xmin, w))
  }

  ghost predicate VersionsOk(s: Sys) {
    forall i {:trigger VersionOk(s, s.versions[i])} :: i in s.versions ==> VersionOk(s, s.versions[i])
  }

  ghost predicate SoundInv(s: Sys) {
    forall i {:trigger Sound(s, s.versions[i])} :: i in s.versions ==> Sound(s, s.versions[i])
  }

  /** `v` is over for `t`: never to be read, or deleted before `t` by someone `t` follows. */
  ghost predicate Over(s: Sys, t: nat, v: Version)
    requires t in s.txns
  {
    (Stillborn(s, v) || (v.xmax != 0 && Before(s, v.xmax, t))) && !CanSee(s, t, v)
  }

  /** Between the two steps of `t`'s update: its claim stands, and every version is over for it. */
  ghost predicate WriterOk(s: Sys, t: nat)
    requires Updates(s, t)
  {
    var id := s.calls[t].id;
    InPhase(s, t, Running) && id in s.versions && s.versions[id].xmax == t
    && (forall i {:trigger Over(s, t, s.versions[i])} :: i in s.versions ==> Over(s, t, s.versions[i]))
  }

  ghost predicate WritingInv(s: Sys) {
    (forall t {:trigger WriterOk(s, t)} :: Updates(s, t) ==> WriterOk(s, t))
    && (forall t, r :: Updates(s, t) && Updates(s, r) ==> t == r)
  }

  ghost predicate OrderInv(s: Sys) {
    (forall i, j {:trigger Ordered(s, s.versions[i], s.versions[j])} ::
          i in s.versions && j in s.versions && i != j ==> Ordered(s, s.versions[i], s.versions[j]))
    && (forall i, j {:trigger OwnHides(s, s.versions[i], s.versions[j])} ::
          i in s.versions && j in s.versions && i != j ==> OwnHides(s, s.versions[i], s.versions[j]))
  }

  /** Kept by every step but an unsafe insert. */
  ghost predicate SafeInv(s: Sys) { OrderInv(s) && WritingInv(s) }

  /** Of all who ever claimed a version, only the current claimant may still commit. */
  ghost predicate ClaimInv(s: Sys) {
    s.versions.Keys <= s.claims.Keys
    && (forall id :: id in s.claims ==> 0 !in s.claims[id])
    && (forall id, t :: id in s.versions && t in s.claims[id] && t != s.versions[id].xmax ==> Gone(s, t))
    && (forall id, t, u :: id in s.claims && t in s.claims[id] && u in s.claims[id] && t != u ==> Gone(s, t) || Gone(s, u))
  }

  /** What the reads of `x`'s status, wherever they have got to, say about `x`. */
  ghost predicate ProbeOk(s: Sys, x: nat, p: Probe, h: nat) {
    (p == Known(Aborted) ==> Gone(s, x))
    && (x < h && (p.NotAborted? || p == Known(Committed)) ==> Passes(s, x))
    && (x < h ==> p != Known(Active))
  }

  /** Except in `todo`, no version is left of a creator below `h` that aborted. */
  ghost predicate CleanBelow(s: Sys, h: nat, todo: set<nat>) {
    forall id :: id in s.versions && id !in todo && s.versions[id].xmin < h ==> !Gone(s, s.versions[id].xmin)
  }

  /**
  What the sweep knows: no horizon, its own or published, is newer than a live snapshot,
  and below it the versions of aborted creators are gone, as far as the sweep has come.
  */
  ghost predicate VacInv(s: Sys) {
    s.tm.vacuumHorizon <= s.tm.GlobalXmin() && CleanBelow(s, s.tm.vacuumHorizon, {})
    && (!s.vac.Idle? ==> s.vac.h <= s.tm.GlobalXmin() && CleanBelow(s, s.vac.h, s.vac.todo))
    && (s.vac.Examining? ==>
          s.vac.id in s.versions
          && ProbeOk(s, s.versions[s.vac.id].xmin, s.vac.xminProbe, s.vac.h)
          && ProbeOk(s, s.versions[s.vac.id].xmax, s.vac.xmaxProbe, s.vac.h))
  }

  /** Kept by every step, whatever is inserted and whatever truncation forgets. */
  ghost predicate Inv(s: Sys) {
    TmInv(s) && SoundInv(s) && ClaimInv(s) && VacInv(s)
  }

  // ── Coordinator steps ──────────────────────────────────────────────────────

  /** A snapshot's answer, told from history and, for an abort, from the CLOG remembering it. */
  lemma CommittedMeansDoneBefore(s: Sys, snap: Snapshot, at: nat, u: nat)
    requires TmInv(s) && SnapOk(s, snap, at) && u in s.txns
    ensures IsCommitted(snap, u, s.tm.clog) <==> IsDone(s, u) && s.txns[u].doneAt < at && !ClogAborted(s.tm.clog, u)
    ensures Remembered(s, u) ==>
              (IsCommitted(snap, u, s.tm.clog) <==> InPhase(s, u, Done(true)) && s.txns[u].doneAt < at)
  {
    assert TxnOk(s, u) && Splits(s, snap, at, u);
  }

  /** Between two states, `u` keeps its outcome, and finishes no earlier than now. */
  ghost predicate Aged(s: Sys, s': Sys, u: nat)
    requires u in s'.txns
  {
    if u in s.txns then
      (IsDone(s, u) ==> s'.txns[u].phase == s.txns[u].phase && s'.txns[u].doneAt == s.txns[u].doneAt)
      && (!IsDone(s, u) && IsDone(s', u) ==> s'.txns[u].doneAt >= s.clock)
    else u >= s.tm.next && !IsDone(s', u)
  }

  ghost predicate Ages(s: Sys, s': Sys) {
    s.tm.next <= s'.tm.next && s.clock <= s'.clock
    && (forall u :: u in s.txns ==> u in s'.txns)
    && (forall u {:trigger Aged(s, s', u)} :: u in s'.txns ==> Aged(s, s', u))
  }

  lemma SnapOkKept(s: Sys, s': Sys, snap: Snapshot, at: nat)
    requires Ages(s, s') && SnapOk(s, snap, at)
    ensures SnapOk(s', snap, at)
  {
    forall u | u in s'.txns ensures Splits(s', snap, at, u) {
      assert Aged(s, s', u);
      if u in s.txns { assert Splits(s, snap, at, u); }
    }
  }

  lemma StepAges(s: Sys, step: Step)
    requires TmInv(s) && Enabled(s, step)
    ensures Ages(s, Apply(s, step))
  {
    hide MinOr, CanSee, CheckWriteConflict, CheckInsertConflict, ProbeOnce, TxnOk, ReaderOk;
    var s' := Apply(s, step);
    forall u | u in s'.txns ensures Aged(s, s', u) {}
  }

  lemma NewSnapshotOk(s: Sys)
    requires TmInv(s)
    ensures SnapOk(s, s.tm.ReadSnapshot(), s.clock)
  {
    var snap := s.tm.ReadSnapshot();
    forall u | u in s.txns ensures Splits(s, snap, s.clock, u) { assert TxnOk(s, u); }
  }

  /** The snapshot `begin` returns differs from a reader's only in its own, new, id. */
  lemma BeginSnapshotOk(s: Sys)
    requires TmInv(s)
    ensures var s' := Apply(s, BeginActive); SnapOk(s', s.tm.BeginSnapshot(), s.clock)
  {
    var s' := Apply(s, BeginActive);
    var snap := s.tm.BeginSnapshot();
    forall u | u in s'.txns ensures Splits(s', snap, s.clock, u) {
      if u in s.txns { assert TxnOk(s, u); }
    }
  }

  lemma TxnOkStep(s: Sys, step: Step, t: nat)
    requires TmInv(s) && Enabled(s, step)
    requires t in s.txns
    ensures TxnOk(Apply(s, step), t)
  {
    var s' := Apply(s, step);
    assert TxnOk(s, t);
    StepAges(s, step);
    if t in s.tm.active { SnapOkKept(s, s', s.txns[t].snap, s.txns[t].began); }
  }

  lemma ReaderOkStep(s: Sys, step: Step, k: nat)
    requires TmInv(s) && Enabled(s, step)
    requires k in s.readers && k in Apply(s, step).readers
    ensures ReaderOk(Apply(s, step), k)
  {
    assert ReaderOk(s, k);
    StepAges(s, step);
    SnapOkKept(s, Apply(s, step), s.readers[k].snap, s.readers[k].began);
  }

  lemma EveryTxnOk(s: Sys, step: Step, t: nat)
    requires TmInv(s) && Enabled(s, step) && t in Apply(s, step).txns
    ensures TxnOk(Apply(s, step), t)
  {
    if t in s.txns { TxnOkStep(s, step, t); } else { BeginSnapshotOk(s); }
  }

  lemma EveryReaderOk(s: Sys, step: Step, k: nat)
    requires TmInv(s) && Enabled(s, step) && k in Apply(s, step).readers
    ensures ReaderOk(Apply(s, step), k)
  {
    if k in s.readers { ReaderOkStep(s, step, k); }
    else {
      StepAges(s, step);
      NewSnapshotOk(s);
      SnapOkKept(s, Apply(s, step), s.tm.ReadSnapshot(), s.clock);
    }
  }

  lemma RegisteredStep(s: Sys, step: Step)
    requires TmInv(s) && Enabled(s, step)
    ensures Registered(Apply(s, step))
  {
    assert TxnOk(s, 0);
    hide MinOr, CanSee, CheckWriteConflict, CheckInsertConflict, ProbeOnce, ReaderOk, SnapOk, ClogOk;
  }

  lemma TmInvStep(s: Sys, step: Step)
    requires TmInv(s) && Enabled(s, step)
    ensures TmInv(Apply(s, step))
  {
    var s' := Apply(s, step);
    RegisteredStep(s, step);
    hide Apply, Enabled, MinOr, TxnOk, ReaderOk, Registered;
    forall t | t in s'.txns ensures TxnOk(s', t) { EveryTxnOk(s, step, t); }
    forall k | k in s'.readers ensures ReaderOk(s', k) { EveryReaderOk(s, step, k); }
  }

  /** The horizon bounds every pinned snapshot and, with it, every transaction in flight. */
  lemma HorizonBounds(s: Sys)
    requires TmInv(s)
    ensures s.tm.GlobalXmin() <= s.tm.next
    ensures forall t :: t in s.tm.active ==> s.tm.GlobalXmin() <= s.tm.active[t] == s.txns[t].snap.xmin <= t
    ensures forall k :: k in s.readers ==> s.tm.GlobalXmin() <= s.readers[k].snap.xmin
  {
    var g := s.tm.GlobalXmin();
    forall t | t in s.tm.active ensures g <= s.tm.active[t] == s.txns[t].snap.xmin <= t {
      assert TxnOk(s, t) && s.tm.active[t] in s.tm.Pins();
    }
    forall k | k in s.readers ensures g <= s.readers[k].snap.xmin <= s.tm.next {
      assert ReaderOk(s, k) && s.tm.readers[k] in s.tm.Pins();
    }
    if g in s.tm.active.Values { var t :| t in s.tm.active && s.tm.active[t] == g; }
  }

  /** `global_xmin` never decreases. */
  lemma HorizonMonotone(s: Sys, step: Step)
    requires TmInv(s) && Enabled(s, step)
    ensures s.tm.GlobalXmin() <= Apply(s, step).tm.GlobalXmin()
  {
    var s' := Apply(s, step);
    HorizonBounds(s);
    var g := s'.tm.GlobalXmin();
    if g in s'.tm.active.Values {
      var t :| t in s'.tm.active && s'.tm.active[t] == g;
      assert t in s.tm.active ==> s.tm.active[t] == g;
    } else if g in s'.tm.readers.Values {
      var k :| k in s'.tm.readers && s'.tm.readers[k] == g;
      if k in s.tm.readers { assert ReaderOk(s, k); }
    }
  }

  // ── Stability and the version order ────────────────────────────────────────

  /** No step that keeps `u`'s abort changes what a snapshot answers about `u`. */
  lemma CommittedStable(s: Sys, step: Step, snap: Snapshot, at: nat, u: nat)
    requires TmInv(s) && Enabled(s, step) && SnapOk(s, snap, at) && Keeps(s, Apply(s, step), u)
    ensures SnapOk(Apply(s, step), snap, at)
    ensures IsCommitted(snap, u, s.tm.clog) == IsCommitted(snap, u, Apply(s, step).tm.clog)
  {
    var s' := Apply(s, step);
    StepAges(s, step);
    TmInvStep(s, step);
    SnapOkKept(s, s', snap, at);
    if u in s.txns {
      CommittedMeansDoneBefore(s, snap, at, u);
      CommittedMeansDoneBefore(s', snap, at, u);
      assert Aged(s, s', u);
    }
  }

  /** Forgetting an abort can only turn an answer to committed. */
  lemma CommittedGrows(s: Sys, step: Step, snap: Snapshot, at: nat, u: nat)
    requires TmInv(s) && Enabled(s, step) && SnapOk(s, snap, at)
    ensures IsCommitted(snap, u, s.tm.clog) ==> IsCommitted(snap, u, Apply(s, step).tm.clog)
  {
    if u in s.txns && IsCommitted(snap, u, s.tm.clog) {
      CommittedMeansDoneBefore(s, snap, at, u);
      AbortNotRewrittenStep(s, step, u);
    }
  }

  /** While its creator's abort is kept, a version hidden from `t` stays hidden. */
  lemma CanSeeShrinks(s: Sys, step: Step, t: nat, v: Version)
    requires TmInv(s) && Enabled(s, step)
    requires InPhase(s, t, Running) && t in Apply(s, step).txns
    requires Keeps(s, Apply(s, step), v.xmin)
    ensures CanSee(Apply(s, step), t, v) ==> CanSee(s, t, v)
  {
    assert TxnOk(s, t);
    CommittedStable(s, step, s.txns[t].snap, s.txns[t].began, v.xmin);
    CommittedGrows(s, step, s.txns[t].snap, s.txns[t].began, v.xmax);
  }

  /** Commit order is kept by every step. */
  lemma BeforeKept(s: Sys, step: Step, a: nat, b: nat)
    requires TmInv(s) && Enabled(s, step) && Before(s, a, b) && b in s.txns
    ensures Before(Apply(s, step), a, b)
  {
    var s' := Apply(s, step);
    StepAges(s, step);
    if a != b {
      assert Aged(s, s', a) && Aged(s, s', b) && TxnOk(s, a);
      AbortNotRewrittenStep(s, step, a);
    }
  }

  lemma OrderedKept(s: Sys, step: Step, v: Version, w: Version)
    requires TmInv(s) && Enabled(s, step) && VersionOk(s, v) && VersionOk(s, w)
    requires Ordered(s, v, w)
    ensures Ordered(Apply(s, step), v, w)
  {
    StepAges(s, step);
    if Precedes(s, v, w) { BeforeKept(s, step, v.xmax, w.xmin); }
    if Precedes(s, w, v) { BeforeKept(s, step, w.xmax, v.xmin); }
    assert Aged(s, Apply(s, step), v.xmin) && Aged(s, Apply(s, step), w.xmin);
  }

  lemma OwnHidesKept(s: Sys, step: Step, v: Version, w: Version)
    requires TmInv(s) && Enabled(s, step) && VersionOk(s, w)
    requires Keeps(s, Apply(s, step), v.xmin) && Keeps(s, Apply(s, step), w.xmin)
    requires OwnHides(s, v, w)
    ensures OwnHides(Apply(s, step), v, w)
  {
    if InPhase(s, w.xmin, Running) && w.xmin in Apply(s, step).txns {
      CanSeeShrinks(s, step, w.xmin, v);
      CanSeeShrinks(s, step, w.xmin, w);
    }
  }

  lemma VersionOkKept(s: Sys, step: Step, v: Version)
    requires TmInv(s) && Enabled(s, step) && VersionOk(s, v)
    ensures VersionOk(Apply(s, step), v)
  {
    StepAges(s, step);
    assert Aged(s, Apply(s, step), v.xmin);
  }

  lemma SoundKept(s: Sys, step: Step, v: Version)
    requires TmInv(s) && Enabled(s, step) && Sound(s, v) && Keeps(s, Apply(s, step), v.xmin)
    ensures Sound(Apply(s, step), v)
  {
    VersionOkKept(s, step, v);
    StepAges(s, step);
    assert Aged(s, Apply(s, step), v.xmin) && TxnOk(s, v.xmin);
  }

  /** Two versions visible through one snapshot would contradict their order. */
  lemma NotBothCommitted(s: Sys, snap: Snapshot, at: nat, v: Version, w: Version)
    requires TmInv(s) && SnapOk(s, snap, at) && Sound(s, v) && Sound(s, w) && Ordered(s, v, w)
    ensures !(RecordVisible(v, snap, s.tm.clog) && RecordVisible(w, snap, s.tm.clog))
  {
    CommittedMeansDoneBefore(s, snap, at, v.xmin);
    CommittedMeansDoneBefore(s, snap, at, v.xmax);
    CommittedMeansDoneBefore(s, snap, at, w.xmin);
    CommittedMeansDoneBefore(s, snap, at, w.xmax);
  }

  lemma TxnSeesAtMostOne(s: Sys, t: nat, i: nat, j: nat)
    requires TmInv(s) && SoundInv(s) && OrderInv(s) && InPhase(s, t, Running)
    requires i in s.versions && j in s.versions && i != j
    ensures !(CanSee(s, t, s.versions[i]) && CanSee(s, t, s.versions[j]))
  {
    var v, w := s.versions[i], s.versions[j];
    assert TxnOk(s, t) && Sound(s, v) && Sound(s, w) && Ordered(s, v, w);
    assert OwnHides(s, v, w) && OwnHides(s, w, v);
    NotBothCommitted(s, s.txns[t].snap, s.txns[t].began, v, w);
  }

  lemma ReaderSeesAtMostOne(s: Sys, k: nat, i: nat, j: nat)
    requires TmInv(s) && SoundInv(s) && OrderInv(s) && k in s.readers
    requires i in s.versions && j in s.versions && i != j
    ensures !(RecordVisible(s.versions[i], s.readers[k].snap, s.tm.clog)
              && RecordVisible(s.versions[j], s.readers[k].snap, s.tm.clog))
  {
    var v, w := s.versions[i], s.versions[j];
    assert ReaderOk(s, k) && Sound(s, v) && Sound(s, w) && Ordered(s, v, w);
    NotBothCommitted(s, s.readers[k].snap, s.readers[k].began, v, w);
  }

  // ── Writers ────────────────────────────────────────────────────────────────

  /** What a claim finds: a readable version whose last claimant, if any, aborted. */
  lemma ClaimFacts(s: Sys, t: nat, id: nat)
    requires TmInv(s) && SoundInv(s) && MayClaim(s, t, id)
    ensures var v := s.versions[id];
            (v.xmax == 0 || Gone(s, v.xmax)) && (v.xmin == t || InPhase(s, v.xmin, Done(true)))
  {
    var v := s.versions[id];
    assert TxnOk(s, t) && Sound(s, v) && TxnOk(s, v.xmax) && TxnOk(s, v.xmin);
    if v.xmin != t { CommittedMeansDoneBefore(s, s.txns[t].snap, s.txns[t].began, v.xmin); }
  }

  lemma SoundIsOk(s: Sys)
    requires SoundInv(s)
    ensures VersionsOk(s)
  {
    forall i | i in s.versions ensures VersionOk(s, s.versions[i]) { assert Sound(s, s.versions[i]); }
  }

  /** A version already ordered against the claimed one precedes it. */
  lemma ClaimedIsLatest(s: Sys, t: nat, id: nat, u: Version)
    requires TmInv(s) && SoundInv(s) && MayClaim(s, t, id)
    requires Sound(s, u) && Ordered(s, u, s.versions[id]) && !Stillborn(s, u)
    ensures Precedes(s, u, s.versions[id]) && Before(s, u.xmax, t)
  {
    ClaimFacts(s, t, id);
    assert Sound(s, s.versions[id]);
  }

  lemma OrderInvClaim(s: Sys, t: nat, id: nat, calls: map<nat, Call>)
    requires TmInv(s) && SoundInv(s) && OrderInv(s) && MayClaim(s, t, id)
    ensures OrderInv(Claim(s, t, id).(calls := calls))
  {
    var s' := Claim(s, t, id).(calls := calls);
    var v := s.versions[id];
    ClaimFacts(s, t, id);
    assert Sound(s, v);
    forall i, j | i in s'.versions && j in s'.versions && i != j
      ensures Ordered(s', s'.versions[i], s'.versions[j])
    {
      assert Ordered(s, s.versions[i], s.versions[j]);
      assert Sound(s, s.versions[i]) && Sound(s, s.versions[j]);
      if j == id && !Stillborn(s, s.versions[i]) { ClaimedIsLatest(s, t, id, s.versions[i]); }
      if i == id && !Stillborn(s, s.versions[j]) { ClaimedIsLatest(s, t, id, s.versions[j]); }
    }
    forall i, j | i in s'.versions && j in s'.versions && i != j
      ensures OwnHides(s', s'.versions[i], s'.versions[j])
    {
      assert OwnHides(s, s.versions[i], s.versions[j]);
      var r := s.versions[j].xmin;
      if i == id && InPhase(s, r, Running) && r != t {
        assert TxnOk(s, r) && TxnOk(s, v.xmax) && TxnOk(s, t);
        CommittedMeansDoneBefore(s, s.txns[r].snap, s.txns[r].began, t);
        CommittedMeansDoneBefore(s, s.txns[r].snap, s.txns[r].began, v.xmax);
      }
    }
  }

  /** Adding `t`'s own version, once every other is over for `t`. */
  lemma OrderInvCreate(s: Sys, t: nat, newId: nat, calls: map<nat, Call>)
    requires TmInv(s) && OrderInv(s) && InPhase(s, t, Running) && newId !in s.versions
    requires forall i :: i in s.versions ==> Over(s, t, s.versions[i])
    ensures OrderInv(Create(s, t, newId).(calls := calls))
  {
    var s' := Create(s, t, newId).(calls := calls);
    forall i, j | i in s'.versions && j in s'.versions && i != j
      ensures Ordered(s', s'.versions[i], s'.versions[j])
    {
      if i != newId && j != newId { assert Ordered(s, s.versions[i], s.versions[j]); }
      if i != newId { assert Over(s, t, s.versions[i]); }
      if j != newId { assert Over(s, t, s.versions[j]); }
    }
    forall i, j | i in s'.versions && j in s'.versions && i != j
      ensures OwnHides(s', s'.versions[i], s'.versions[j])
    {
      if i != newId && j != newId { assert OwnHides(s, s.versions[i], s.versions[j]); }
      if j == newId { assert Over(s, t, s.versions[i]); }
      if i == newId {
        var r := s.versions[j].xmin;
        if InPhase(s, r, Running) && r != t {
          assert TxnOk(s, r);
          CommittedMeansDoneBefore(s, s.txns[r].snap, s.txns[r].began, t);
        }
      }
    }
  }

  /** Once `t` has claimed the version it sees, every version is over for it. */
  lemma ClaimLeavesOver(s: Sys, t: nat, id: nat, i: nat)
    requires TmInv(s) && SoundInv(s) && OrderInv(s) && MayClaim(s, t, id) && i in s.versions
    ensures var s' := Apply(s, UpdateClaim(t, id)); Over(s', t, s'.versions[i])
  {
    if i != id {
      var u := s.versions[i];
      assert Sound(s, u) && Ordered(s, u, s.versions[id]);
      if !Stillborn(s, u) { ClaimedIsLatest(s, t, id, u); }
      TxnSeesAtMostOne(s, t, i, id);
    }
  }

  /** Where an insert is safe, every version is over for `t`. */
  lemma InsertFindsOver(s: Sys, t: nat, i: nat)
    requires TmInv(s) && SoundInv(s) && InPhase(s, t, Running) && InsertSafe(s, t) && i in s.versions
    ensures Over(s, t, s.versions[i])
  {
    var u := s.versions[i];
    assert Sound(s, u) && TxnOk(s, t) && TxnOk(s, u.xmin) && TxnOk(s, u.xmax) && !Hidden(s, t, u) && !CanSee(s, t, u);
    CommittedMeansDoneBefore(s, s.txns[t].snap, s.txns[t].began, u.xmax);
  }

  // ── Between the two halves of an update ────────────────────────────────────

  /** While an update stands between its halves, nobody claims any version ... */
  lemma WriterBlocksClaims(s: Sys, t: nat, r: nat, id: nat)
    requires TmInv(s) && SoundInv(s) && Updates(s, t) && WriterOk(s, t)
    ensures !MayClaim(s, r, id)
  {
    if id in s.versions { assert Sound(s, s.versions[id]) && Over(s, t, s.versions[id]); }
    if MayClaim(s, r, id) { ClaimFacts(s, r, id); }
  }

  /** ... and nobody inserts the key: the claimed version's deleter is in progress. */
  lemma WriterBlocksInserts(s: Sys, t: nat, r: nat)
    requires TmInv(s) && Updates(s, t) && WriterOk(s, t)
    ensures !MayInsert(s, r)
  {
    var v := s.versions[s.calls[t].id];
    if Ready(s, r) {
      assert TxnOk(s, t) && TxnOk(s, r) && Splits(s, s.txns[r].snap, s.txns[r].began, t);
      assert CheckInsertConflict(v, r, s.txns[r].snap, s.tm.clog) != Pass;
    }
  }

  ghost predicate Writes(step: Step) {
    step.UpdateClaim? || step.UpdateCreate? || step.Delete? || step.InsertCreate?
  }

  lemma StillbornKept(s: Sys, step: Step, v: Version)
    requires TmInv(s) && Enabled(s, step) && Stillborn(s, v)
    ensures Stillborn(Apply(s, step), v)
  {
  }

  lemma OverKept(s: Sys, step: Step, t: nat, v: Version)
    requires TmInv(s) && Enabled(s, step) && InPhase(s, t, Running) && t in Apply(s, step).txns
    requires Keeps(s, Apply(s, step), v.xmin)
    requires Over(s, t, v)
    ensures Over(Apply(s, step), t, v)
  {
    CanSeeShrinks(s, step, t, v);
    if Stillborn(s, v) { StillbornKept(s, step, v); }
    if v.xmax != 0 && Before(s, v.xmax, t) { BeforeKept(s, step, v.xmax, t); }
  }

  /** Truncation forgets no aborted creator of a stored version: the sweep that allowed it removed those. */
  lemma CreatorKept(s: Sys, step: Step, i: nat)
    requires TmInv(s) && SoundInv(s) && VacInv(s) && Enabled(s, step) && i in s.versions
    ensures Keeps(s, Apply(s, step), s.versions[i].xmin)
  {
    hide MinOr, CanSee, CheckWriteConflict, CheckInsertConflict, ProbeOnce, ReaderOk, SnapOk;
    assert Sound(s, s.versions[i]);
    assert TxnOk(s, s.versions[i].xmin);
  }

  /** The version an update has claimed is not vacuumed: its deleter runs, its creator did not abort. */
  lemma ClaimedNotAccepted(s: Sys, t: nat)
    requires Inv(s) && Updates(s, t) && WriterOk(s, t) && Accepted(s)
    ensures s.vac.id != s.calls[t].id
  {
    assert Sound(s, s.versions[s.calls[t].id]) && TxnOk(s, t);
  }

  lemma WriterOkStep(s: Sys, step: Step, t: nat)
    requires Inv(s) && Updates(s, t) && WriterOk(s, t)
    requires Enabled(s, step) && !Writes(step) && Updates(Apply(s, step), t)
    ensures WriterOk(Apply(s, step), t)
  {
    var s' := Apply(s, step);
    if step == VacRemove { ClaimedNotAccepted(s, t); }
    assert InPhase(s', t, Running) && s'.calls[t] == s.calls[t];
    forall i | i in s'.versions ensures Over(s', t, s'.versions[i]) {
      assert Over(s, t, s.versions[i]);
      CreatorKept(s, step, i);
      OverKept(s, step, t, s.versions[i]);
    }
  }

  lemma WritingInvStep(s: Sys, step: Step)
    requires Inv(s) && SafeInv(s) && Enabled(s, step) && (step.InsertCreate? ==> InsertSafe(s, step.t))
    ensures WritingInv(Apply(s, step))
  {
    var s' := Apply(s, step);
    if !Writes(step) {
      forall t | Updates(s', t) ensures Updates(s, t) && WriterOk(s', t) { WriterOkStep(s, step, t); }
    } else {
      forall t | Updates(s', t) ensures step.UpdateClaim? && t == step.t { OnlyWriter(s, step, t); }
      if step.UpdateClaim? {
        forall i | i in s'.versions ensures Over(s', step.t, s'.versions[i]) { ClaimLeavesOver(s, step.t, step.id, i); }
        assert WriterOk(s', step.t);
      }
    }
  }

  /** After a write, only one who has just claimed is between the halves of an update. */
  lemma OnlyWriter(s: Sys, step: Step, t: nat)
    requires Inv(s) && WritingInv(s) && Enabled(s, step) && Writes(step) && (step.InsertCreate? ==> InsertSafe(s, step.t))
    requires Updates(Apply(s, step), t)
    ensures step.UpdateClaim? && t == step.t
  {
    if Updates(s, t) {
      assert WriterOk(s, t);
      if step.UpdateClaim? || step.Delete? { WriterBlocksClaims(s, t, step.t, step.id); }
    }
  }

  lemma SoundInvStep(s: Sys, step: Step)
    requires TmInv(s) && SoundInv(s) && VacInv(s) && Enabled(s, step)
    ensures SoundInv(Apply(s, step))
  {
    var s' := Apply(s, step);
    if step.UpdateClaim? || step.Delete? { ClaimFacts(s, step.t, step.id); }
    forall i | i in s'.versions ensures Sound(s', s'.versions[i]) {
      if i in s.versions {
        assert Sound(s, s.versions[i]);
        CreatorKept(s, step, i);
        SoundKept(s, step, s.versions[i]);
      }
    }
  }

  lemma OrderInvInsert(s: Sys, t: nat, newId: nat, calls: map<nat, Call>)
    requires TmInv(s) && SoundInv(s) && OrderInv(s) && InPhase(s, t, Running) && InsertSafe(s, t) && newId !in s.versions
    ensures OrderInv(Create(s, t, newId).(calls := calls))
  {
    forall i | i in s.versions ensures Over(s, t, s.versions[i]) { InsertFindsOver(s, t, i); }
    hide Over, OrderInv, TmInv, SoundInv;
    OrderInvCreate(s, t, newId, calls);
  }

  lemma OrderInvStep(s: Sys, step: Step)
    requires Inv(s) && SafeInv(s) && Enabled(s, step) && (step.InsertCreate? ==> InsertSafe(s, step.t))
    ensures OrderInv(Apply(s, step))
  {
    var s' := Apply(s, step);
    match step {
      case UpdateClaim(t, id) => OrderInvClaim(s, t, id, s'.calls);
      case Delete(t, id) => OrderInvClaim(s, t, id, s'.calls);
      case UpdateCreate(t, newId) =>
        assert WriterOk(s, t);
        OrderInvCreate(s, t, newId, s'.calls);
      case InsertCreate(t, newId) => OrderInvInsert(s, t, newId, s'.calls);
      case _ => OrderInvKept(s, step);
    }
  }

  lemma OrderInvKept(s: Sys, step: Step)
    requires Inv(s) && OrderInv(s) && Enabled(s, step)
    requires !Writes(step)
    ensures OrderInv(Apply(s, step))
  {
    var s' := Apply(s, step);
    SoundIsOk(s);
    forall i, j | i in s'.versions && j in s'.versions && i != j
      ensures Ordered(s', s'.versions[i], s'.versions[j]) && OwnHides(s', s'.versions[i], s'.versions[j])
    {
      var v, w := s.versions[i], s.versions[j];
      assert VersionOk(s, v) && VersionOk(s, w) && Ordered(s, v, w) && OwnHides(s, v, w);
      CreatorKept(s, step, i);
      CreatorKept(s, step, j);
      OrderedKept(s, step, v, w);
      OwnHidesKept(s, step, v, w);
    }
  }

  lemma SafeInvStep(s: Sys, step: Step)
    requires Inv(s) && SafeInv(s) && Enabled(s, step) && (step.InsertCreate? ==> InsertSafe(s, step.t))
    ensures SafeInv(Apply(s, step))
  {
    OrderInvStep(s, step);
    WritingInvStep(s, step);
  }

  lemma GoneKept(s: Sys, step: Step, t: nat)
    requires Enabled(s, step) && TmInv(s) && Gone(s, t)
    ensures Gone(Apply(s, step), t)
  {
  }

  lemma ClaimInvStep(s: Sys, step: Step)
    requires TmInv(s) && SoundInv(s) && ClaimInv(s) && Enabled(s, step)
    ensures ClaimInv(Apply(s, step))
  {
    var s' := Apply(s, step);
    if step.UpdateClaim? || step.Delete? {
      ClaimFacts(s, step.t, step.id);
      assert Sound(s, s.versions[step.id]);
    }
    forall id, t | id in s'.versions && t in s'.claims[id] && t != s'.versions[id].xmax
      ensures Gone(s', t)
    {
      if id in s.versions && t in s.claims[id] && Gone(s, t) { GoneKept(s, step, t); }
    }
    forall id, t, u | id in s'.claims && t in s'.claims[id] && u in s'.claims[id] && t != u
      ensures Gone(s', t) || Gone(s', u)
    {
      if id !in s'.versions && Gone(s, t) { GoneKept(s, step, t); }
      if id !in s'.versions && Gone(s, u) { GoneKept(s, step, u); }
    }
  }

  lemma HorizonsStep(s: Sys, step: Step)
    requires TmInv(s) && VacInv(s) && Enabled(s, step)
    ensures var s' := Apply(s, step);
            s'.tm.vacuumHorizon <= s'.tm.GlobalXmin() && (!s'.vac.Idle? ==> s'.vac.h <= s'.tm.GlobalXmin())
  {
    HorizonMonotone(s, step);
    hide MinOr;
  }

  lemma ProbeOkStep(s: Sys, step: Step, x: nat, p: Probe, h: nat)
    requires TmInv(s) && Enabled(s, step) && x in s.txns && ProbeOk(s, x, p, h)
    ensures ProbeOk(Apply(s, step), x, p, h)
  {
    hide MinOr, CanSee, CheckWriteConflict, CheckInsertConflict, ProbeOnce, ReaderOk, SnapOk;
    assert TxnOk(s, x);
  }

  lemma ProbeOkOnce(s: Sys, x: nat, p: Probe, h: nat)
    requires TmInv(s) && x in s.txns && h <= s.tm.GlobalXmin() && ProbeOk(s, x, p, h)
    ensures ProbeOk(s, x, ProbeOnce(s.tm, x, p), h)
  {
    assert TxnOk(s, x);
    HorizonBounds(s);
  }

  /** No transaction below the horizon can still abort ... */
  lemma NoLateAbort(s: Sys, step: Step, x: nat)
    requires TmInv(s) && Enabled(s, step) && x < s.tm.GlobalXmin() && !Gone(s, x)
    ensures !Gone(Apply(s, step), x)
  {
    HorizonBounds(s);
    hide MinOr, CanSee, CheckWriteConflict, CheckInsertConflict, ProbeOnce, ReaderOk, SnapOk;
    assert x in s.txns ==> TxnOk(s, x);
  }

  /** ... and no version of one can still appear. */
  lemma NoLateVersion(s: Sys, step: Step, id: nat)
    requires TmInv(s) && Enabled(s, step) && id in Apply(s, step).versions
    ensures var x := Apply(s, step).versions[id].xmin;
            (id in s.versions && s.versions[id].xmin == x) || s.tm.GlobalXmin() <= x
  {
    HorizonBounds(s);
    hide MinOr, CanSee, CheckWriteConflict, CheckInsertConflict, ProbeOnce, ReaderOk, SnapOk;
    if step.UpdateCreate? || step.InsertCreate? { assert TxnOk(s, step.t); }
  }

  lemma CleanKept(s: Sys, step: Step, h: nat, todo: set<nat>)
    requires TmInv(s) && Enabled(s, step) && h <= s.tm.GlobalXmin() && CleanBelow(s, h, todo)
    ensures CleanBelow(Apply(s, step), h, todo)
  {
    var s' := Apply(s, step);
    hide Apply, Enabled, MinOr, TmInv, Gone;
    forall id | id in s'.versions && id !in todo && s'.versions[id].xmin < h ensures !Gone(s', s'.versions[id].xmin) {
      NoLateVersion(s, step, id);
      NoLateAbort(s, step, s'.versions[id].xmin);
    }
  }

  /** A version the sweep passes over has no aborted creator below its horizon. */
  lemma RefusedIsClean(s: Sys)
    requires TmInv(s) && SoundInv(s) && VacInv(s) && Refused(s)
    ensures CleanBelow(s, s.vac.h, s.vac.todo - {s.vac.id})
  {
    assert Sound(s, s.versions[s.vac.id]);
  }

  lemma SweepStep(s: Sys, step: Step)
    requires TmInv(s) && SoundInv(s) && VacInv(s) && Enabled(s, step)
    ensures var s' := Apply(s, step);
            CleanBelow(s', s'.tm.vacuumHorizon, {}) && (!s'.vac.Idle? ==> CleanBelow(s', s'.vac.h, s'.vac.todo))
  {
    if step == VacKeep { RefusedIsClean(s); }
    CleanKept(s, step, s.tm.vacuumHorizon, {});
    if !s.vac.Idle? { CleanKept(s, step, s.vac.h, s.vac.todo); }
    hide MinOr;
  }

  lemma ProbesStep(s: Sys, step: Step)
    requires Inv(s) && Enabled(s, step) && s.vac.Examining? && Apply(s, step).vac.Examining?
    ensures var s' := Apply(s, step);
            s'.vac.id == s.vac.id && s'.vac.h == s.vac.h && s.vac.id in s'.versions
            && ProbeOk(s', s'.versions[s.vac.id].xmin, s'.vac.xminProbe, s.vac.h)
            && ProbeOk(s', s'.versions[s.vac.id].xmax, s'.vac.xmaxProbe, s.vac.h)
  {
    hide MinOr, ClaimInv, CleanBelow, CanSee, CheckWriteConflict, CheckInsertConflict, TxnOk, ReaderOk, ProbeOnce, MayInsert;
    var v := s.versions[s.vac.id];
    assert Sound(s, v);
    ProbeOkOnce(s, v.xmin, s.vac.xminProbe, s.vac.h);
    ProbeOkOnce(s, v.xmax, s.vac.xmaxProbe, s.vac.h);
    ProbeOkStep(s, step, v.xmin, s.vac.xminProbe, s.vac.h);
    ProbeOkStep(s, step, v.xmax, s.vac.xmaxProbe, s.vac.h);
    hide ProbeOk, TmInv, SoundInv;
  }

  lemma VacInvStep(s: Sys, step: Step)
    requires Inv(s) && Enabled(s, step)
    ensures VacInv(Apply(s, step))
  {
    HorizonsStep(s, step);
    SweepStep(s, step);
    if s.vac.Examining? && Apply(s, step).vac.Examining? { ProbesStep(s, step); }
    hide MinOr, TmInv, ClaimInv, SoundInv, ProbeOnce, CleanBelow, CanSee, CheckWriteConflict, CheckInsertConflict;
  }

  lemma InvStep(s: Sys, step: Step)
    requires Inv(s) && Enabled(s, step)
    ensures Inv(Apply(s, step))
  {
    TmInvStep(s, step);
    SoundInvStep(s, step);
    ClaimInvStep(s, step);
    VacInvStep(s, step);
  }

  lemma InvInit(s: Sys)
    requires Init(s)
    ensures Inv(s)
  {
    assert s.tm.Pins() == {};
  }

  lemma SafeInvInit(s: Sys)
    requires Init(s)
    ensures SafeInv(s)
  {
    forall i, j | i in s.versions && j in s.versions && i != j ensures false {
      assert {i, j} <= s.versions.Keys && |{i, j}| == 2;
      SubsetSize({i, j}, s.versions.Keys);
    }
  }

  // ── What every run keeps ───────────────────────────────────────────────────

  lemma {:induction false} RunKeepsInv(s: Sys, steps: seq<Step>, s': Sys)
    requires Inv(s) && Runs(s, steps, s')
    ensures Inv(s')
    decreases |steps|
  {
    if steps != [] {
      InvStep(s, steps[0]);
      RunKeepsInv(Apply(s, steps[0]), steps[1..], s');
    }
  }

  lemma {:induction false} RunKeepsSafe(s: Sys, steps: seq<Step>, s': Sys)
    requires Inv(s) && SafeInv(s) && Runs(s, steps, s') && InsertsSafe(s, steps)
    ensures SafeInv(s')
    decreases |steps|
  {
    if steps != [] {
      InvStep(s, steps[0]);
      SafeInvStep(s, steps[0]);
      RunKeepsSafe(Apply(s, steps[0]), steps[1..], s');
    }
  }

  /** No running transaction and no reader sees two versions of the key. */
  ghost predicate OneVisible(s: Sys) {
    forall i, j :: i in s.versions && j in s.versions && i != j ==>
      (forall t :: InPhase(s, t, Running) ==> !(CanSee(s, t, s.versions[i]) && CanSee(s, t, s.versions[j])))
      && (forall k :: k in s.readers ==>
            !(RecordVisible(s.versions[i], s.readers[k].snap, s.tm.clog)
              && RecordVisible(s.versions[j], s.readers[k].snap, s.tm.clog)))
  }

  lemma OrderGivesOneVisible(s: Sys)
    requires Inv(s) && SafeInv(s)
    ensures OneVisible(s)
  {
    forall i, j, t | i in s.versions && j in s.versions && i != j && InPhase(s, t, Running)
      ensures !(CanSee(s, t, s.versions[i]) && CanSee(s, t, s.versions[j]))
    {
      TxnSeesAtMostOne(s, t, i, j);
    }
    forall i, j, k | i in s.versions && j in s.versions && i != j && k in s.readers
      ensures !(RecordVisible(s.versions[i], s.readers[k].snap, s.tm.clog)
                && RecordVisible(s.versions[j], s.readers[k].snap, s.tm.clog))
    {
      ReaderSeesAtMostOne(s, k, i, j);
    }
  }

  /** One visible version, in every state a run with safe inserts reaches, whatever it truncates. */
  lemma OneVisibleVersion(s0: Sys, steps: seq<Step>, s: Sys)
    requires Init(s0) && Runs(s0, steps, s) && InsertsSafe(s0, steps)
    ensures OneVisible(s)
  {
    InvInit(s0);
    SafeInvInit(s0);
    RunKeepsInv(s0, steps, s);
    RunKeepsSafe(s0, steps, s);
    OrderGivesOneVisible(s);
  }

  lemma AbortNotRewrittenStep(s: Sys, step: Step, u: nat)
    requires TmInv(s) && Enabled(s, step) && IsDone(s, u)
    ensures IsDone(Apply(s, step), u)
    ensures ClogAborted(Apply(s, step).tm.clog, u) ==> ClogAborted(s.tm.clog, u)
  {
    assert TxnOk(s, u);
  }

  /** An abort is written once: of a finished transaction, later CLOGs know no more. */
  lemma {:induction false} AbortNotRewritten(s: Sys, steps: seq<Step>, s': Sys, u: nat)
    requires Inv(s) && Runs(s, steps, s') && IsDone(s, u)
    ensures ClogAborted(s'.tm.clog, u) ==> ClogAborted(s.tm.clog, u)
    decreases |steps|
  {
    if steps != [] {
      InvStep(s, steps[0]);
      AbortNotRewrittenStep(s, steps[0], u);
      AbortNotRewritten(Apply(s, steps[0]), steps[1..], s', u);
    }
  }

  /** `u` had finished when the snapshot was taken, and its abort is known in `s` but not in `s'`. */
  ghost predicate ForgottenSince(s: Sys, s': Sys, snap: Snapshot, u: nat) {
    u < snap.xmax && u !in snap.active && ClogAborted(s.tm.clog, u) && !ClogAborted(s'.tm.clog, u)
  }

  /** Over any run, a snapshot's answer about `u` changes exactly when an abort it relied on is forgotten. */
  lemma SnapshotStable(s: Sys, steps: seq<Step>, s': Sys, snap: Snapshot, at: nat, u: nat)
    requires Inv(s) && SnapOk(s, snap, at) && Runs(s, steps, s')
    ensures IsCommitted(snap, u, s.tm.clog) == IsCommitted(snap, u, s'.tm.clog) <==> !ForgottenSince(s, s', snap, u)
  {
    if u in s.txns && u < snap.xmax && u !in snap.active {
      assert Splits(s, snap, at, u);
      AbortNotRewritten(s, steps, s', u);
    }
  }

  /** Repeatable reads: from the moment `begin` or `read_snapshot` hands a snapshot out. */
  lemma RepeatableReads(s0: Sys, before: seq<Step>, s: Sys, after: seq<Step>, s': Sys, u: nat)
    requires Init(s0) && Runs(s0, before, s)
    ensures Runs(Apply(s, BeginActive), after, s') ==>
              var snap := s.tm.BeginSnapshot();
              (IsCommitted(snap, u, s.tm.clog) == IsCommitted(snap, u, s'.tm.clog) <==> !ForgottenSince(s, s', snap, u))
    ensures Runs(Apply(s, ReadSnapshot), after, s') ==>
              var snap := s.tm.ReadSnapshot();
              (IsCommitted(snap, u, s.tm.clog) == IsCommitted(snap, u, s'.tm.clog) <==> !ForgottenSince(s, s', snap, u))
  {
    InvInit(s0);
    RunKeepsInv(s0, before, s);
    InvStep(s, BeginActive);
    InvStep(s, ReadSnapshot);
    if Runs(Apply(s, BeginActive), after, s') {
      BeginSnapshotOk(s);
      SnapshotStable(Apply(s, BeginActive), after, s', s.tm.BeginSnapshot(), s.clock, u);
    }
    if Runs(Apply(s, ReadSnapshot), after, s') {
      NewSnapshotOk(s);
      StepAges(s, ReadSnapshot);
      SnapOkKept(s, Apply(s, ReadSnapshot), s.tm.ReadSnapshot(), s.clock);
      SnapshotStable(Apply(s, ReadSnapshot), after, s', s.tm.ReadSnapshot(), s.clock, u);
    }
  }

  /** `global_xmin` never decreases over a run. */
  lemma {:induction false} HorizonNeverFallsBack(s: Sys, steps: seq<Step>, s': Sys)
    requires Inv(s) && Runs(s, steps, s')
    ensures s.tm.GlobalXmin() <= s'.tm.GlobalXmin()
    decreases |steps|
  {
    if steps != [] {
      InvStep(s, steps[0]);
      HorizonMonotone(s, steps[0]);
      HorizonNeverFallsBack(Apply(s, steps[0]), steps[1..], s');
    }
  }

  /** First writer wins: of two transactions that ever claimed one version, one aborted. */
  lemma NoLostUpdate(s0: Sys, steps: seq<Step>, s: Sys, id: nat, t: nat, u: nat)
    requires Init(s0) && Runs(s0, steps, s)
    requires id in s.claims && t in s.claims[id] && u in s.claims[id] && t != u
    ensures Gone(s, t) || Gone(s, u)
  {
    InvInit(s0);
    RunKeepsInv(s0, steps, s);
  }

  lemma {:induction false} GoneForGood(s: Sys, steps: seq<Step>, s': Sys, t: nat)
    requires Inv(s) && Runs(s, steps, s') && Gone(s, t)
    ensures Gone(s', t)
    decreases |steps|
  {
    if steps != [] {
      GoneKept(s, steps[0], t);
      InvStep(s, steps[0]);
      GoneForGood(Apply(s, steps[0]), steps[1..], s', t);
    }
  }

  /** A version id that has been used and dropped never comes back. */
  lemma {:induction false} DroppedForGood(s: Sys, steps: seq<Step>, s': Sys, id: nat)
    requires Inv(s) && Runs(s, steps, s') && id in s.claims && id !in s.versions
    ensures id !in s'.versions
    decreases |steps|
  {
    if steps != [] {
      InvStep(s, steps[0]);
      DroppedForGood(Apply(s, steps[0]), steps[1..], s', id);
    }
  }

  /** A claim by a transaction that does not abort is never overwritten. */
  lemma {:induction false} ClaimNeverOverwritten(s: Sys, steps: seq<Step>, s': Sys, id: nat)
    requires Inv(s) && Runs(s, steps, s') && id in s.versions && id in s'.versions
    requires s.versions[id].xmax != 0 && !Gone(s', s.versions[id].xmax)
    ensures s'.versions[id].xmax == s.versions[id].xmax && s'.versions[id].xmin == s.versions[id].xmin
    decreases |steps|
  {
    if Gone(s, s.versions[id].xmax) { GoneForGood(s, steps, s', s.versions[id].xmax); }
    if steps != [] {
      var s1 := Apply(s, steps[0]);
      InvStep(s, steps[0]);
      if steps[0].UpdateClaim? || steps[0].Delete? { ClaimFacts(s, steps[0].t, steps[0].id); }
      if id !in s1.versions { DroppedForGood(s1, steps[1..], s', id); }
      ClaimNeverOverwritten(s1, steps[1..], s', id);
    }
  }

  // ── Vacuum ─────────────────────────────────────────────────────────────────

  /** Deleted for everyone: the deleter is done below `h`, and not known to have aborted. */
  ghost predicate Deleted(s: Sys, v: Version, h: nat) {
    v.xmax != 0 && v.xmax < h <= s.tm.GlobalXmin() && Passes(s, v.xmax)
  }

  /** Why a version is dead: its creator aborted and that is known, or it is deleted for everyone. */
  ghost predicate Dead(s: Sys, v: Version, h: nat) {
    (Gone(s, v.xmin) && ClogAborted(s.tm.clog, v.xmin)) || Deleted(s, v, h)
  }

  /** What the sweep accepts, with its reads spread over the run: `settled_status` was right. */
  lemma AcceptedIsDead(s: Sys)
    requires Inv(s) && Accepted(s)
    ensures var v := s.versions[s.vac.id];
            if s.vac.xminProbe == Known(Aborted) then Gone(s, v.xmin) else Deleted(s, v, s.vac.h)
  {
  }

  /** No live transaction and no reader sees a dead version. */
  lemma DeadIsInvisible(s: Sys, v: Version, h: nat)
    requires Inv(s) && VersionOk(s, v) && Dead(s, v, h)
    ensures forall t :: InPhase(s, t, Running) ==> !CanSee(s, t, v)
    ensures forall k :: k in s.readers ==> !RecordVisible(v, s.readers[k].snap, s.tm.clog)
  {
    HorizonBounds(s);
    assert TxnOk(s, v.xmin) && TxnOk(s, v.xmax);
    forall t | InPhase(s, t, Running) ensures !CanSee(s, t, v) {
      assert TxnOk(s, t);
      assert Splits(s, s.txns[t].snap, s.txns[t].began, v.xmax);
    }
    forall k | k in s.readers ensures !RecordVisible(v, s.readers[k].snap, s.tm.clog) {
      assert ReaderOk(s, k);
      assert Splits(s, s.readers[k].snap, s.readers[k].began, v.xmax);
    }
  }

  lemma DeletedKept(s: Sys, step: Step, v: Version, h: nat)
    requires TmInv(s) && Enabled(s, step) && Deleted(s, v, h)
    ensures Deleted(Apply(s, step), v, h)
  {
    HorizonMonotone(s, step);
    hide MinOr;
    AbortNotRewrittenStep(s, step, v.xmax);
  }

  lemma {:induction false} DeletedForGood(s: Sys, steps: seq<Step>, s': Sys, v: Version, h: nat)
    requires Inv(s) && Runs(s, steps, s') && VersionOk(s, v)
    ensures Inv(s') && VersionOk(s', v) && (Deleted(s, v, h) ==> Deleted(s', v, h))
    decreases |steps|
  {
    if steps != [] {
      InvStep(s, steps[0]);
      VersionOkKept(s, steps[0], v);
      if Deleted(s, v, h) { DeletedKept(s, steps[0], v, h); }
      hide Apply, Enabled, Deleted, VersionOk;
      DeletedForGood(Apply(s, steps[0]), steps[1..], s', v, h);
    }
  }

  /**
  Vacuum safety: whatever the sweep accepts, with its horizon and its status reads each
  taken at a different moment of the run, is invisible to every snapshot live then or later.
  The run may truncate the CLOG as it likes; only where the sweep went by the creator's
  abort must that one entry still be there.
  */
  lemma VacuumSafety(s0: Sys, before: seq<Step>, s: Sys, after: seq<Step>, s': Sys)
    requires Init(s0) && Runs(s0, before, s) && Accepted(s) && Runs(s, after, s')
    requires s.vac.xminProbe == Known(Aborted) ==> ClogAborted(s'.tm.clog, s.versions[s.vac.id].xmin)
    ensures forall t :: InPhase(s', t, Running) ==> !CanSee(s', t, s.versions[s.vac.id])
    ensures forall k :: k in s'.readers ==> !RecordVisible(s.versions[s.vac.id], s'.readers[k].snap, s'.tm.clog)
  {
    InvInit(s0);
    RunKeepsInv(s0, before, s);
    var v := s.versions[s.vac.id];
    assert Sound(s, v);
    AcceptedIsDead(s);
    if Gone(s, v.xmin) { GoneForGood(s, after, s', v.xmin); }
    DeletedForGood(s, after, s', v, s.vac.h);
    DeadIsInvisible(s', v, s.vac.h);
  }

  // ── What the checks find ───────────────────────────────────────────────────

  /** To `t`, `x` is still at work: it is, or its outcome was truncated before `t`'s snapshot took it in. */
  ghost predicate AtWork(s: Sys, t: nat, x: nat)
    requires t in s.txns
  {
    InPhase(s, x, Running)
    || (x in s.txns && x != 0 && x !in s.tm.clog && !(IsDone(s, x) && s.txns[x].doneAt < s.txns[t].began))
  }

  /** `is_in_progress` answers yes for exactly those. */
  lemma InProgressIff(s: Sys, t: nat, x: nat)
    requires TmInv(s) && InPhase(s, t, Running) && x in s.txns && s.txns[x].phase != Begun
    ensures IsInProgress(s.txns[t].snap, x, s.tm.clog) <==> AtWork(s, t, x)
  {
    assert TxnOk(s, t) && TxnOk(s, x) && Splits(s, s.txns[t].snap, s.txns[t].began, x);
  }

  /** Where no committed entry has been truncated too early, that is exactly the running transactions. */
  lemma AtWorkIsRunning(s: Sys, t: nat, x: nat)
    requires TmInv(s) && KnownInv(s) && InPhase(s, t, Running) && x in s.txns && s.txns[x].phase != Begun
    ensures AtWork(s, t, x) <==> InPhase(s, x, Running)
  {
    HorizonBounds(s);
    assert TxnOk(s, t) && TxnOk(s, x) && Splits(s, s.txns[t].snap, s.txns[t].began, x);
  }

  /**
  What `check_insert_conflict` finds on a version: it passes if and only if `t` does not see
  the version and nobody else at work created or deleted it; a duplicate is a version `t`
  sees; and otherwise it waits for the other creator at work, or else for the other deleter.
  */
  lemma InsertVerdictIs(s: Sys, t: nat, id: nat)
    requires TmInv(s) && SoundInv(s) && InPhase(s, t, Running) && id in s.versions
    ensures var v := s.versions[id];
            var verdict := CheckInsertConflict(v, t, s.txns[t].snap, s.tm.clog);
            (verdict == Pass <==>
               !CanSee(s, t, v) && (AtWork(s, t, v.xmin) ==> v.xmin == t) && (AtWork(s, t, v.xmax) ==> v.xmax == t))
            && (verdict == Duplicate <==> CanSee(s, t, v))
            && (verdict.Wait? ==> verdict.blocker != t && AtWork(s, t, verdict.blocker)
                                  && verdict.blocker == if AtWork(s, t, v.xmin) && v.xmin != t then v.xmin else v.xmax)
  {
    var v := s.versions[id];
    assert Sound(s, v) && TxnOk(s, t);
    InProgressIff(s, t, v.xmin);
    InProgressIff(s, t, v.xmax);
    CommittedMeansDoneBefore(s, s.txns[t].snap, s.txns[t].began, v.xmin);
  }

  /**
  What `check_write_conflict` finds on a version `t` sees: it proceeds if and only if nobody,
  `t` or a known abort holds the claim, waits for a claimant at work, and fails otherwise,
  when the claimant has committed or its abort has been forgotten.
  */
  lemma WriteVerdictIs(s: Sys, t: nat, id: nat)
    requires TmInv(s) && SoundInv(s) && InPhase(s, t, Running) && id in s.versions
    ensures var x := s.versions[id].xmax;
            var verdict := CheckWriteConflict(x, t, s.txns[t].snap, s.tm.clog);
            (verdict == Proceed <==> x == 0 || x == t || (Gone(s, x) && Remembered(s, x)))
            && (verdict.WaitFor? <==> x != t && AtWork(s, t, x)) && (verdict.WaitFor? ==> verdict.blocker == x)
            && (verdict == WriteConflict ==> !InPhase(s, x, Running) && !(Gone(s, x) && Remembered(s, x)))
  {
    var v := s.versions[id];
    assert Sound(s, v) && TxnOk(s, t) && TxnOk(s, v.xmax) && TxnOk(s, 0);
    InProgressIff(s, t, v.xmax);
  }

  /** A passed insert check, and what it leaves open. */
  lemma PassedCheckMeans(s: Sys, t: nat, id: nat)
    requires TmInv(s) && SoundInv(s) && MayInsert(s, t) && id in s.versions
    ensures InPhase(s, s.versions[id].xmin, Running) ==> s.versions[id].xmin == t
    ensures InPhase(s, s.versions[id].xmax, Running) ==> s.versions[id].xmax == t
    ensures !CanSee(s, t, s.versions[id])
  {
    assert CheckInsertConflict(s.versions[id], t, s.txns[t].snap, s.tm.clog) == Pass;
    InsertVerdictIs(s, t, id);
  }

  // ── The sweep's verdict, taken at one moment ───────────────────────────────

  /** `settled_status` in terms of what happened: only what the CLOG has lost is left to the horizon. */
  lemma SettledStatusIs(s: Sys, x: nat)
    requires TmInv(s) && x in s.txns
    ensures var st, known := SettledStatus(s.tm.clog, s.tm.GlobalXmin(), x), x == 0 || x in s.tm.clog;
            (InPhase(s, x, Running) || InPhase(s, x, Begun) ==> st == Active)
            && (Gone(s, x) && known ==> st == Aborted)
            && (InPhase(s, x, Settling(true)) || InPhase(s, x, Done(true)) ==> known ==> st == Committed)
            && (IsDone(s, x) && !known ==> st == if x < s.tm.GlobalXmin() then Committed else Active)
            && (st != Active ==> s.txns[x].phase.Settling? || IsDone(s, x))
  {
    assert TxnOk(s, x);
    HorizonBounds(s);
  }

  /** Three reads with nothing in between are `settled_status`. */
  lemma ProbesAtOnce(tm: Tm, x: nat)
    ensures ProbeOnce(tm, x, ProbeOnce(tm, x, ProbeOnce(tm, x, Unread))) == Known(SettledStatus(tm.clog, tm.GlobalXmin(), x))
  {
  }

  /** With both statuses read at one moment the sweep accepts and refuses as `is_vacuumable` says. */
  lemma AcceptedAtOnce(s: Sys)
    requires s.vac.Examining? && s.vac.id in s.versions
    requires s.vac.xminProbe == Known(SettledStatus(s.tm.clog, s.tm.GlobalXmin(), s.versions[s.vac.id].xmin))
    requires s.vac.xmaxProbe == Known(SettledStatus(s.tm.clog, s.tm.GlobalXmin(), s.versions[s.vac.id].xmax))
    ensures Accepted(s) <==> IsVacuumable(s.versions[s.vac.id], s.vac.h, s.tm.clog, s.tm.GlobalXmin())
    ensures Refused(s) <==> !IsVacuumable(s.versions[s.vac.id], s.vac.h, s.tm.clog, s.tm.GlobalXmin())
  {
  }

  /**
  What `is_vacuumable` says of a stored version, at the sweep's own horizon, in terms of
  what happened: yes if and only if its creator aborted, or its deleter is done, is not a
  known abort and is below the horizon.
  */
  lemma VacuumableIs(s: Sys, id: nat, h: nat)
    requires Inv(s) && id in s.versions && h <= s.tm.GlobalXmin()
    ensures var v := s.versions[id];
            IsVacuumable(v, h, s.tm.clog, s.tm.GlobalXmin())
            <==> Gone(s, v.xmin) || (v.xmax != 0 && v.xmax < h && Passes(s, v.xmax))
  {
    var v := s.versions[id];
    assert Sound(s, v) && TxnOk(s, v.xmin) && TxnOk(s, v.xmax);
    HorizonBounds(s);
  }

  // ── Waiting ────────────────────────────────────────────────────────────────

  /** The committed entries `truncate_clog(h)` drops are all below the horizon. */
  ghost predicate DropsBelow(s: Sys, h: nat) {
    forall t :: t in s.tm.clog && s.tm.clog[t] == Committed && t < h ==> t < s.tm.GlobalXmin()
  }

  ghost predicate AllBelow(s: Sys, steps: seq<Step>)
    decreases |steps|
  {
    steps != [] && Enabled(s, steps[0]) ==>
      (steps[0].Truncate? ==> DropsBelow(s, steps[0].committedHorizon)) && AllBelow(Apply(s, steps[0]), steps[1..])
  }

  /** A transaction the CLOG has forgotten is below every live snapshot. */
  ghost predicate KnownInv(s: Sys) {
    forall t :: t in s.txns && t != 0 && s.txns[t].phase != Begun && t !in s.tm.clog ==> t < s.tm.GlobalXmin()
  }

  lemma KnownInvStep(s: Sys, step: Step)
    requires TmInv(s) && VacInv(s) && KnownInv(s) && Enabled(s, step)
    requires step.Truncate? ==> DropsBelow(s, step.committedHorizon)
    ensures KnownInv(Apply(s, step))
  {
    HorizonMonotone(s, step);
    hide MinOr;
    var s' := Apply(s, step);
    forall t | t in s'.txns && t != 0 && s'.txns[t].phase != Begun && t !in s'.tm.clog
      ensures t < s'.tm.GlobalXmin()
    {
      assert TxnOk(s, t);
    }
  }

  /** Exactly the truncations that drop no committed entry at or above the horizon keep this. */
  lemma TruncationKeepsKnownIff(s: Sys, h: nat)
    requires TmInv(s) && VacInv(s) && KnownInv(s)
    ensures KnownInv(Apply(s, Truncate(h))) <==> DropsBelow(s, h)
  {
    var s' := Apply(s, Truncate(h));
    if DropsBelow(s, h) { KnownInvStep(s, Truncate(h)); }
    else {
      var t :| t in s.tm.clog && s.tm.clog[t] == Committed && t < h && t >= s.tm.GlobalXmin();
      assert TxnOk(s, t) && t !in s'.tm.clog;
    }
  }

  lemma {:induction false} RunKeepsKnown(s: Sys, steps: seq<Step>, s': Sys)
    requires Inv(s) && KnownInv(s) && Runs(s, steps, s') && AllBelow(s, steps)
    ensures Inv(s') && KnownInv(s')
    decreases |steps|
  {
    if steps != [] {
      InvStep(s, steps[0]);
      KnownInvStep(s, steps[0]);
      RunKeepsKnown(Apply(s, steps[0]), steps[1..], s');
    }
  }

  /** Whom `t` finds in progress is in flight, or its outcome has been truncated too early. */
  lemma InProgressIsLive(s: Sys, t: nat, b: nat)
    requires Inv(s) && InPhase(s, t, Running) && b in s.txns
    requires IsInProgress(s.txns[t].snap, b, s.tm.clog)
    ensures b in s.tm.active || (IsDone(s, b) && b !in s.tm.clog)
    ensures KnownInv(s) ==> b in s.tm.active
  {
    assert TxnOk(s, b) && TxnOk(s, t);
    HorizonBounds(s);
  }

  /**
  A writer told to wait is told to wait for another transaction, and one still in flight,
  unless a truncation has dropped the outcome of one at or above the horizon.
  */
  lemma WaitsForLive(s0: Sys, steps: seq<Step>, s: Sys, t: nat, id: nat, b: nat)
    requires Init(s0) && Runs(s0, steps, s)
    requires InPhase(s, t, Running) && id in s.versions
    requires CheckWriteConflict(s.versions[id].xmax, t, s.txns[t].snap, s.tm.clog) == WaitFor(b)
             || CheckInsertConflict(s.versions[id], t, s.txns[t].snap, s.tm.clog) == Wait(b)
    ensures b != t && (b in s.tm.active || (IsDone(s, b) && b !in s.tm.clog))
    ensures AllBelow(s0, steps) ==> b in s.tm.active
  {
    InvInit(s0);
    assert s0.tm.Pins() == {};
    RunKeepsInv(s0, steps, s);
    if AllBelow(s0, steps) { RunKeepsKnown(s0, steps, s); }
    hide Runs, AllBelow, Init, KnownInv, MinOr;
    assert Sound(s, s.versions[id]);
    InProgressIsLive(s, t, b);
  }

  /** Delete a version and settle. */
  lemma DeleteAndSettleRun(s: Sys, t: nat, id: nat, commit: bool) returns (steps: seq<Step>, s': Sys)
    requires MayClaim(s, t, id)
    ensures Runs(s, steps, s')
    ensures s'.tm == s.tm.SettleClog(t, commit).SettleActive(t)
    ensures s'.versions == s.versions[id := s.versions[id].(xmax := t)] && s'.vac == s.vac
    ensures forall u :: u != t && u in s.txns ==> u in s'.txns && s'.txns[u] == s.txns[u]
  {
    var s1 := Apply(s, Delete(t, id));
    var s2 := Apply(s1, SettleClog(t, commit));
    s' := Apply(s2, SettleActive(t));
    RunsStep(s2, SettleActive(t), [], s');
    RunsStep(s1, SettleClog(t, commit), [SettleActive(t)], s');
    steps := [SettleClog(t, commit)] + [SettleActive(t)];
    RunsStep(s, Delete(t, id), steps, s');
    steps := [Delete(t, id)] + steps;
  }

  lemma TwoBegunOnRow() returns (steps: seq<Step>, s: Sys)
    ensures Runs(OneRow(), steps, s)
    ensures InPhase(s, 1, Running) && s.txns[1].snap == Snapshot(1, 2, {1}) && MayClaim(s, 2, 7)
    ensures s.tm.clog == map[1 := Active, 2 := Active] && s.tm.active.Keys == {1, 2} && s.tm.vacuumHorizon == 0
    ensures s.versions == map[7 := Version(0, 0)]
  {
    var a, s1 := BeginRun(OneRow());
    assert s1.tm.active.Keys == {1};
    var b, s2 := BeginRun(s1);
    hide Runs, Apply, Enabled, MinOr;
    s := s2;
    assert CanSee(s, 2, Version(0, 0));
    RunsJoin(OneRow(), a, s1, b, s);
    steps := a + b;
  }

  /**
  Transactions 1 and 2 begin, 2 deletes the row and commits, and `truncate_clog(3)` drops
  its entry: 1, which still sees the row, is told to wait for 2, which is not in flight, so
  the wait is over at once and the same verdict comes again.
  */
  lemma WaitForFinishedExample() returns (steps: seq<Step>, s: Sys)
    ensures Init(OneRow()) && Runs(OneRow(), steps, s)
    ensures InPhase(s, 1, Running) && s.versions == map[7 := Version(0, 2)] && CanSee(s, 1, s.versions[7])
    ensures CheckWriteConflict(2, 1, s.txns[1].snap, s.tm.clog) == WaitFor(2) && 2 !in s.tm.active
  {
    OneRowIsInit();
    var a, s1 := TwoBegunOnRow();
    hide Init, OneRow, Runs;
    var b, s2 := DeleteAndSettleRun(s1, 2, 7, true);
    RunsJoin(OneRow(), a, s1, b, s2);
    s := Apply(s2, Truncate(3));
    OneStep(s2, Truncate(3));
    RunsJoin(OneRow(), a + b, s2, [Truncate(3)], s);
    steps := a + b + [Truncate(3)];
  }

  // ── Inserts: exactly when uniqueness survives ──────────────────────────────

  lemma RunsCons(s: Sys, step: Step, steps: seq<Step>, s': Sys)
    requires Enabled(s, step) && !step.InsertCreate?
    requires Runs(Apply(s, step), steps, s') && InsertsSafe(Apply(s, step), steps)
    ensures Runs(s, [step] + steps, s') && InsertsSafe(s, [step] + steps)
  {
    assert ([step] + steps)[1..] == steps;
  }

  /** `t` commits and a reader arrives. */
  lemma CommitAndRead(s: Sys, t: nat) returns (s': Sys)
    requires TmInv(s) && Ready(s, t)
    ensures var steps := [SettleClog(t, true), SettleActive(t), ReadSnapshot];
            Runs(s, steps, s') && InsertsSafe(s, steps)
    ensures s'.versions == s.versions && s'.tm.clog == s.tm.clog[t := Committed]
    ensures s.tm.nextToken in s'.readers
    ensures var snap := s'.readers[s.tm.nextToken].snap; snap.xmax == s.tm.next && snap.active == s.tm.active.Keys - {t}
  {
    var s1 := Apply(s, SettleClog(t, true));
    var s2 := Apply(s1, SettleActive(t));
    s' := Apply(s2, ReadSnapshot);
    RunsCons(s2, ReadSnapshot, [], s');
    RunsCons(s1, SettleActive(t), [ReadSnapshot], s');
    RunsCons(s, SettleClog(t, true), [SettleActive(t)] + [ReadSnapshot], s');
    assert [SettleClog(t, true)] + ([SettleActive(t)] + [ReadSnapshot]) == [SettleClog(t, true), SettleActive(t), ReadSnapshot];
  }

  /** Once its creator is done, a version with no final deletion shows beside `t`'s own. */
  lemma BothShown(s: Sys, t: nat, i: nat, j: nat) returns (s': Sys)
    requires TmInv(s) && Ready(s, t)
    requires i in s.versions && j in s.versions && i != j && s.versions[j] == Version(t, 0)
    requires var c := s.versions[i].xmin; c != t && InPhase(s, c, Done(true))
    requires var d := s.versions[i].xmax; d == 0 || (d != t && (d in s.tm.active || ClogAborted(s.tm.clog, d)))
    ensures var steps := [SettleClog(t, true), SettleActive(t), ReadSnapshot];
            Runs(s, steps, s') && InsertsSafe(s, steps)
    ensures !OneVisible(s')
  {
    var v, w := s.versions[i], s.versions[j];
    assert TxnOk(s, t) && TxnOk(s, v.xmin);
    s' := CommitAndRead(s, t);
    var k := s.tm.nextToken;
    assert RecordVisible(v, s'.readers[k].snap, s'.tm.clog);
    assert RecordVisible(w, s'.readers[k].snap, s'.tm.clog);
  }

  lemma OneStep(s: Sys, step: Step)
    requires Enabled(s, step) && (step.InsertCreate? ==> InsertSafe(s, step.t))
    ensures Runs(s, [step], Apply(s, step)) && InsertsSafe(s, [step])
  {
    assert [step][1..] == [];
  }

  /** `t` commits: both halves. */
  lemma CommitRun(s: Sys, t: nat) returns (steps: seq<Step>, s': Sys)
    requires Ready(s, t)
    ensures Runs(s, steps, s') && InsertsSafe(s, steps)
    ensures s' == s.(tm := s.tm.SettleClog(t, true).SettleActive(t), clock := s.clock + 1,
                     txns := s.txns[t := s.txns[t].(phase := Done(true), doneAt := s.clock)])
  {
    var s1 := Apply(s, SettleClog(t, true));
    s' := Apply(s1, SettleActive(t));
    OneStep(s, SettleClog(t, true));
    OneStep(s1, SettleActive(t));
    hide Runs, InsertsSafe;
    SafeJoin(s, [SettleClog(t, true)], s1, [SettleActive(t)], s');
    steps := [SettleClog(t, true)] + [SettleActive(t)];
  }

  /** Whatever `c` is doing, it ends its call, commits and leaves. */
  lemma CommitAndLeave(s: Sys, c: nat) returns (steps: seq<Step>, s': Sys)
    requires TmInv(s) && c in s.txns && s.txns[c].phase != Begun && !Gone(s, c)
    ensures Runs(s, steps, s') && InsertsSafe(s, steps) && InPhase(s', c, Done(true))
    ensures s'.versions == s.versions && s'.tm.active.Keys == s.tm.active.Keys - {c}
    ensures forall t :: t != c && Ready(s, t) ==> Ready(s', t)
    ensures forall t :: t != c ==> (ClogAborted(s'.tm.clog, t) <==> ClogAborted(s.tm.clog, t))
  {
    assert TxnOk(s, c);
    steps, s' := [], s;
    if InPhase(s, c, Running) {
      var a, s1 := [], s;
      if c in s.calls { a, s1 := [GiveUp(c)], Apply(s, GiveUp(c)); OneStep(s, GiveUp(c)); }
      var b, s2 := CommitRun(s1, c);
      s' := s2;
      hide Runs, InsertsSafe;
      if c in s.calls { SafeJoin(s, a, s1, b, s'); steps := a + b; } else { steps := b; }
    } else if !IsDone(s, c) {
      OneStep(s, SettleActive(c));
      steps, s' := [SettleActive(c)], Apply(s, SettleActive(c));
      hide Runs, InsertsSafe;
    }
  }

  lemma {:induction false} RunKeepsTm(s: Sys, steps: seq<Step>, s': Sys)
    requires TmInv(s) && Runs(s, steps, s')
    ensures TmInv(s')
    decreases |steps|
  {
    if steps != [] {
      TmInvStep(s, steps[0]);
      RunKeepsTm(Apply(s, steps[0]), steps[1..], s');
    }
  }

  lemma {:induction false} SafeJoin(s: Sys, a: seq<Step>, s1: Sys, b: seq<Step>, s2: Sys)
    requires Runs(s, a, s1) && InsertsSafe(s, a) && Runs(s1, b, s2) && InsertsSafe(s1, b)
    ensures Runs(s, a + b, s2) && InsertsSafe(s, a + b)
    decreases |a|
  {
    if a == [] { assert a + b == b; }
    else {
      assert (a + b)[0] == a[0] && (a + b)[1..] == a[1..] + b;
      SafeJoin(Apply(s, a[0]), a[1..], s1, b, s2);
    }
  }

  /** Commit `i`'s creator, then `t`: a new reader sees both versions. */
  lemma BothCommitted(s: Sys, t: nat, i: nat, j: nat) returns (steps: seq<Step>, s': Sys)
    requires TmInv(s) && Ready(s, t)
    requires i in s.versions && j in s.versions && i != j && s.versions[j] == Version(t, 0)
    requires var c := s.versions[i].xmin; c != t && c in s.txns && s.txns[c].phase != Begun && !Gone(s, c)
    requires var v := s.versions[i];
             v.xmax == 0 || (v.xmax != t && v.xmax != v.xmin && (v.xmax in s.tm.active || ClogAborted(s.tm.clog, v.xmax)))
    ensures Runs(s, steps, s') && InsertsSafe(s, steps) && !OneVisible(s')
  {
    var a, s1 := CommitAndLeave(s, s.versions[i].xmin);
    RunKeepsTm(s, a, s1);
    hide Runs, InsertsSafe, Apply, Enabled, OneVisible, TmInv;
    s' := BothShown(s1, t, i, j);
    var b := [SettleClog(t, true), SettleActive(t), ReadSnapshot];
    SafeJoin(s, a, s1, b, s');
    steps := a + b;
  }

  lemma {:induction false} AllBounded(ids: set<nat>) returns (b: nat)
    ensures forall x :: x in ids ==> x < b
    decreases |ids|
  {
    if ids == {} { b := 0; }
    else {
      var x :| x in ids;
      var m := AllBounded(ids - {x});
      b := if x < m then m else x + 1;
      forall y | y in ids ensures y < b { if y != x { assert y in ids - {x}; } }
    }
  }

  /** An update under way adds its version too. */
  lemma UpdateAddsAnother(s: Sys, t: nat, j: nat, u: nat) returns (steps: seq<Step>, s': Sys)
    requires TmInv(s) && Ready(s, t) && j in s.versions && s.versions[j] == Version(t, 0)
    requires Updates(s, u) && InPhase(s, u, Running) && u != t
    ensures Runs(s, steps, s') && InsertsSafe(s, steps) && !OneVisible(s')
  {
    var i := AllBounded(s.versions.Keys + s.claims.Keys);
    assert i !in s.versions.Keys + s.claims.Keys;
    var s1 := Apply(s, UpdateCreate(u, i));
    TmInvStep(s, UpdateCreate(u, i));
    steps, s' := BothCommitted(s1, t, i, j);
    RunsCons(s, UpdateCreate(u, i), steps, s');
    steps := [UpdateCreate(u, i)] + steps;
  }

  /** After an unsafe insert, a few commits later somebody sees two versions. */
  lemma UnsafeInsertExposed(s: Sys, t: nat, newId: nat) returns (steps: seq<Step>, s': Sys)
    requires Inv(s) && SafeInv(s) && Enabled(s, InsertCreate(t, newId)) && !InsertSafe(s, t)
    ensures var s1 := Apply(s, InsertCreate(t, newId)); Runs(s1, steps, s') && InsertsSafe(s1, steps)
    ensures !OneVisible(s')
  {
    var s1 := Apply(s, InsertCreate(t, newId));
    TmInvStep(s, InsertCreate(t, newId));
    assert TxnOk(s, t);
    if u :| Updates(s, u) {
      assert WriterOk(s, u);
      steps, s' := UpdateAddsAnother(s1, t, newId, u);
    } else {
      assert forall u :: !Updates(s, u);
      var id :| id in s.versions && (CanSee(s, t, s.versions[id]) || Hidden(s, t, s.versions[id]));
      assert Sound(s, s.versions[id]);
      if CanSee(s, t, s.versions[id]) {
        steps, s' := [], s1;
        assert CanSee(s1, t, s1.versions[id]) && CanSee(s1, t, s1.versions[newId]);
      } else { steps, s' := BothCommitted(s1, t, id, newId); }
    }
  }

  lemma SafeInsertHarmless(s: Sys, t: nat, newId: nat, steps: seq<Step>, s': Sys)
    requires Inv(s) && SafeInv(s) && Enabled(s, InsertCreate(t, newId)) && InsertSafe(s, t)
    requires Runs(Apply(s, InsertCreate(t, newId)), steps, s') && InsertsSafe(Apply(s, InsertCreate(t, newId)), steps)
    ensures OneVisible(s')
  {
    InvStep(s, InsertCreate(t, newId));
    SafeInvStep(s, InsertCreate(t, newId));
    RunKeepsInv(Apply(s, InsertCreate(t, newId)), steps, s');
    RunKeepsSafe(Apply(s, InsertCreate(t, newId)), steps, s');
    OrderGivesOneVisible(s');
  }

  /** Whatever follows, with no further unsafe insert, nobody sees two versions. */
  ghost predicate UniqueFrom(s: Sys) {
    forall steps, s' :: Runs(s, steps, s') && InsertsSafe(s, steps) ==> OneVisible(s')
  }

  /**
  Passing `check_insert_conflict` does not keep keys unique.  Adding the version is harmless
  in every continuation if and only if, at that moment, no version of the key is visible to
  `t` or has come up behind its snapshot, and no update of it is under way.
  */
  lemma InsertUniqueIff(s: Sys, t: nat, newId: nat)
    requires Inv(s) && SafeInv(s) && Enabled(s, InsertCreate(t, newId))
    ensures InsertSafe(s, t) <==> UniqueFrom(Apply(s, InsertCreate(t, newId)))
  {
    var s1 := Apply(s, InsertCreate(t, newId));
    if InsertSafe(s, t) {
      forall steps, s' | Runs(s1, steps, s') && InsertsSafe(s1, steps) ensures OneVisible(s') {
        SafeInsertHarmless(s, t, newId, steps, s');
      }
    } else { var steps, s' := UnsafeInsertExposed(s, t, newId); }
  }

  /** At the moment its check passes, an insert is safe unless a version has come up behind its snapshot. */
  lemma CheckMissesHidden(s: Sys, t: nat)
    requires TmInv(s) && SafeInv(s) && MayInsert(s, t)
    ensures InsertSafe(s, t) <==> forall id :: id in s.versions ==> !Hidden(s, t, s.versions[id])
  {
    forall u ensures !Updates(s, u) {
      if Updates(s, u) {
        assert WriterOk(s, u);
        WriterBlocksInserts(s, u, t);
      }
    }
    forall id | id in s.versions ensures !CanSee(s, t, s.versions[id]) {
      assert CheckInsertConflict(s.versions[id], t, s.txns[t].snap, s.tm.clog) == Pass;
    }
  }

  lemma RunsStep(s: Sys, step: Step, steps: seq<Step>, s': Sys)
    requires Enabled(s, step) && Runs(Apply(s, step), steps, s')
    ensures Runs(s, [step] + steps, s')
  {
    assert ([step] + steps)[1..] == steps;
  }

  lemma {:induction false} RunsJoin(s: Sys, a: seq<Step>, s1: Sys, b: seq<Step>, s2: Sys)
    requires Runs(s, a, s1) && Runs(s1, b, s2)
    ensures Runs(s, a + b, s2)
    decreases |a|
  {
    if a == [] { assert a + b == b; }
    else {
      assert (a + b)[0] == a[0] && (a + b)[1..] == a[1..] + b;
      RunsJoin(Apply(s, a[0]), a[1..], s1, b, s2);
    }
  }

  /** `begin`, both halves. */
  lemma BeginRun(s: Sys) returns (steps: seq<Step>, s': Sys)
    ensures Runs(s, steps, s') && InsertsSafe(s, steps)
    ensures var t, tm := s.tm.next, s.tm.BeginActive();
            s' == s.(tm := tm.BeginClog(t), txns := s.txns[t := Txn(s.tm.BeginSnapshot(), s.clock, Running, 0)])
  {
    var t := s.tm.next;
    var s1 := Apply(s, BeginActive);
    s' := Apply(s1, BeginClog(t));
    RunsCons(s1, BeginClog(t), [], s');
    RunsCons(s, BeginActive, [BeginClog(t)] + [], s');
    steps := [BeginActive] + ([BeginClog(t)] + []);
  }

  ghost function EmptyKey(): Sys {
    Sys(Tm(1, map[], 0, map[], map[], 0), map[], map[], Idle, map[0 := Txn(Snapshot(0, 0, {}), 0, Done(true), 0)], map[], 1, map[])
  }

  lemma EmptyKeyIsInit()
    ensures Init(EmptyKey())
  {
  }

  /** Transactions 1 and 2 run, and there is no version of the key. */
  ghost predicate TwoRunning(s: Sys) {
    InPhase(s, 1, Running) && InPhase(s, 2, Running)
    && s.txns[1].snap.active == {1} && s.txns[1].snap.xmax == 2 && s.txns[2].snap.active == {1, 2} && s.txns[2].snap.xmax == 3
    && s.tm.clog == map[1 := Active, 2 := Active] && s.tm.active.Keys == {1, 2}
    && s.versions == map[] && s.claims == map[]
  }

  lemma TwoBegun() returns (steps: seq<Step>, s: Sys)
    ensures Runs(EmptyKey(), steps, s) && InsertsSafe(EmptyKey(), steps) && TwoRunning(s) && s.calls == map[]
  {
    var a, s1 := BeginRun(EmptyKey());
    var b, s2 := BeginRun(s1);
    hide Runs, InsertsSafe, Apply, Enabled, MinOr;
    s := s2;
    SafeJoin(EmptyKey(), a, s1, b, s);
    steps := a + b;
  }

  /** Transaction 1 has added its row, and 2 is past its check. */
  ghost predicate OneAhead(s: Sys) {
    InPhase(s, 2, Running) && s.txns[2].snap.active == {1, 2} && s.txns[2].snap.xmax == 3 && !ClogAborted(s.tm.clog, 1)
    && s.versions == map[7 := Version(1, 0)] && s.claims == map[7 := {}] && s.calls == map[2 := Inserting]
  }

  /** From there 2 adds its row too, and in the end somebody sees both. */
  lemma SecondExposed(before: seq<Step>, s: Sys) returns (after: seq<Step>, s': Sys)
    requires Runs(EmptyKey(), before, s) && InsertsSafe(EmptyKey(), before) && OneAhead(s)
    ensures Enabled(s, InsertCreate(2, 8)) && Runs(Apply(s, InsertCreate(2, 8)), after, s') && !OneVisible(s')
  {
    EmptyKeyIsInit();
    InvInit(EmptyKey());
    SafeInvInit(EmptyKey());
    RunKeepsInv(EmptyKey(), before, s);
    RunKeepsSafe(EmptyKey(), before, s);
    SecondUnsafe(s);
    hide *;
    after, s' := UnsafeInsertExposed(s, 2, 8);
  }

  lemma SecondUnsafe(s: Sys)
    requires OneAhead(s)
    ensures Enabled(s, InsertCreate(2, 8)) && !InsertSafe(s, 2)
  {
    assert Hidden(s, 2, s.versions[7]);
  }

  /** Transaction 1 passes its check, adds its row and commits. */
  lemma FirstInserts(s: Sys) returns (steps: seq<Step>, s': Sys)
    requires TwoRunning(s) && s.calls == map[]
    ensures Runs(s, steps, s') && InsertsSafe(s, steps)
    ensures InPhase(s', 2, Running) && s'.txns[2] == s.txns[2] && s'.tm.clog == map[1 := Committed, 2 := Active]
    ensures s'.versions == map[7 := Version(1, 0)] && s'.claims == map[7 := {}] && s'.calls == map[]
  {
    var s1 := s.(calls := map[1 := Inserting]);
    var s2 := s.(versions := map[7 := Version(1, 0)], claims := map[7 := {}]);
    assert Apply(s, InsertCheck(1)) == s1 && Apply(s1, InsertCreate(1, 7)) == s2;
    OneStep(s, InsertCheck(1));
    OneStep(s1, InsertCreate(1, 7));
    hide Apply, Enabled, Runs, InsertsSafe, InsertSafe;
    var b, s3 := CommitRun(s2, 1);
    s' := s3;
    SafeJoin(s1, [InsertCreate(1, 7)], s2, b, s');
    SafeJoin(s, [InsertCheck(1)], s1, [InsertCreate(1, 7)] + b, s');
    steps := [InsertCheck(1)] + ([InsertCreate(1, 7)] + b);
  }

  /**
  Two transactions begin, the first inserts and commits, and the second, which cannot see
  the row, passes its check and inserts the key again: a later reader then sees both rows.
  */
  lemma DuplicateKeyExample() returns (before: seq<Step>, s: Sys, after: seq<Step>, s': Sys)
    ensures Init(EmptyKey()) && Runs(EmptyKey(), before, s) && Enabled(s, InsertCheck(2))
    ensures var s1 := Apply(s, InsertCheck(2));
            Enabled(s1, InsertCreate(2, 8)) && Runs(Apply(s1, InsertCreate(2, 8)), after, s') && !OneVisible(s')
  {
    EmptyKeyIsInit();
    var a, s0 := TwoBegun();
    hide Runs, InsertsSafe, Init, EmptyKey, OneVisible;
    var b, s1 := FirstInserts(s0);
    SafeJoin(EmptyKey(), a, s0, b, s1);
    before, s := a + b, s1;
    OneStep(s, InsertCheck(2));
    SafeJoin(EmptyKey(), before, s, [InsertCheck(2)], Apply(s, InsertCheck(2)));
    after, s' := SecondExposed(before + [InsertCheck(2)], Apply(s, InsertCheck(2)));
  }

  /** Both transactions pass their checks, and the first adds its row. */
  lemma BothChecked(s: Sys) returns (steps: seq<Step>, s': Sys)
    requires TwoRunning(s) && s.calls == map[]
    ensures MayInsert(s, 1) && InsertSafe(s, 1) && MayInsert(s, 2) && InsertSafe(s, 2)
    ensures steps == [InsertCheck(1), InsertCheck(2), InsertCreate(1, 7)]
    ensures Runs(s, steps, s') && InsertsSafe(s, steps) && OneAhead(s')
  {
    var s1 := s.(calls := map[1 := Inserting]);
    var s2 := s.(calls := map[1 := Inserting, 2 := Inserting]);
    s' := s.(calls := map[2 := Inserting], versions := map[7 := Version(1, 0)], claims := map[7 := {}]);
    assert Apply(s, InsertCheck(1)) == s1 && Apply(s1, InsertCheck(2)) == s2 && Apply(s2, InsertCreate(1, 7)) == s';
    OneStep(s, InsertCheck(1));
    OneStep(s1, InsertCheck(2));
    OneStep(s2, InsertCreate(1, 7));
    hide Runs, InsertsSafe, Apply, Enabled;
    SafeJoin(s1, [InsertCheck(2)], s2, [InsertCreate(1, 7)], s');
    SafeJoin(s, [InsertCheck(1)], s1, [InsertCheck(2)] + [InsertCreate(1, 7)], s');
    steps := [InsertCheck(1), InsertCheck(2), InsertCreate(1, 7)];
    assert steps == [InsertCheck(1)] + ([InsertCheck(2)] + [InsertCreate(1, 7)]);
  }

  /**
  Two transactions insert the same new key.  Both checks pass, and rightly so; each then
  splits its leaf and adds its row without checking again: a later reader sees both rows.
  */
  lemma RacingInsertsExample() returns (before: seq<Step>, s: Sys, s1: Sys, after: seq<Step>, s': Sys)
    ensures Init(EmptyKey()) && Runs(EmptyKey(), before, s)
    ensures 1 in s.txns && 2 in s.txns && MayInsert(s, 1) && InsertSafe(s, 1) && MayInsert(s, 2) && InsertSafe(s, 2)
    ensures Runs(s, [InsertCheck(1), InsertCheck(2), InsertCreate(1, 7)], s1)
    ensures Enabled(s1, InsertCreate(2, 8)) && Runs(Apply(s1, InsertCreate(2, 8)), after, s') && !OneVisible(s')
  {
    EmptyKeyIsInit();
    before, s := TwoBegun();
    var b, s2 := BothChecked(s);
    s1 := s2;
    hide Runs, InsertsSafe, Init, EmptyKey, OneVisible, OneAhead, Apply, Enabled;
    SafeJoin(EmptyKey(), before, s, b, s1);
    after, s' := SecondExposed(before + b, s1);
  }

  // ── Forgetting aborts ──────────────────────────────────────────────────────

  /** An abort that `truncate_clog` forgets. */
  ghost predicate Forgotten(tm: Tm, t: nat) { ClogAborted(tm.clog, t) && t < tm.vacuumHorizon }

  /**
  When truncation changes a snapshot's view of any version, stored or not: an aborted row
  appears, or a live row disappears behind its aborted deleter.
  */
  ghost predicate ViewBroken(tm: Tm, snap: Snapshot, v: Version) {
    (Forgotten(tm, v.xmin)
     && (v.xmax == 0 || (!IsCommitted(snap, v.xmax, tm.clog) && !Forgotten(tm, v.xmax))))
    || (Forgotten(tm, v.xmax) && IsCommitted(snap, v.xmin, tm.clog))
  }

  lemma TruncationBreaksView(tm: Tm, h: nat, snap: Snapshot, v: Version)
    requires 0 !in tm.clog && tm.vacuumHorizon <= snap.xmin <= snap.xmax
    requires forall u :: u in snap.active ==> snap.xmin <= u
    ensures RecordVisible(v, snap, tm.clog) != RecordVisible(v, snap, tm.TruncateClog(h).clog)
            <==> ViewBroken(tm, snap, v)
  {
    var clog' := tm.TruncateClog(h).clog;
    assert forall u :: u < snap.xmin ==> u !in snap.active;
    assert ClogAborted(clog', v.xmin) <==> ClogAborted(tm.clog, v.xmin) && !Forgotten(tm, v.xmin);
    assert ClogAborted(clog', v.xmax) <==> ClogAborted(tm.clog, v.xmax) && !Forgotten(tm, v.xmax);
  }

  /** Of a stored version only a live row's deleter can be forgotten. */
  lemma StoredViewBroken(s: Sys, id: nat, snap: Snapshot)
    requires Inv(s) && id in s.versions
    ensures ViewBroken(s.tm, snap, s.versions[id])
            <==> Forgotten(s.tm, s.versions[id].xmax) && IsCommitted(snap, s.versions[id].xmin, s.tm.clog)
  {
    var v := s.versions[id];
    assert Sound(s, v) && TxnOk(s, v.xmin);
  }

  lemma ReaderViewIff(s: Sys, h: nat, id: nat, k: nat)
    requires Inv(s) && id in s.versions && k in s.readers
    ensures var v, snap := s.versions[id], s.readers[k].snap;
            (RecordVisible(v, snap, s.tm.clog) != RecordVisible(v, snap, Apply(s, Truncate(h)).tm.clog)
             <==> Forgotten(s.tm, v.xmax) && RecordVisible(v, snap, s.tm.clog))
  {
    HorizonBounds(s);
    assert ReaderOk(s, k) && Sound(s, s.versions[id]);
    TruncationBreaksView(s.tm, h, s.readers[k].snap, s.versions[id]);
    StoredViewBroken(s, id, s.readers[k].snap);
  }

  lemma TxnViewIff(s: Sys, h: nat, id: nat, t: nat)
    requires Inv(s) && id in s.versions && InPhase(s, t, Running)
    ensures var v := s.versions[id];
            (CanSee(s, t, v) != CanSee(Apply(s, Truncate(h)), t, v)
             <==> Forgotten(s.tm, v.xmax) && v.xmin != t && CanSee(s, t, v))
  {
    HorizonBounds(s);
    assert TxnOk(s, t) && Sound(s, s.versions[id]);
    TruncationBreaksView(s.tm, h, s.txns[t].snap, s.versions[id]);
    StoredViewBroken(s, id, s.txns[t].snap);
  }

  /**
  In every state a run reaches, `truncate_clog` changes what a reader or a transaction sees
  of a stored version exactly when it forgets the abort of the deleter of a row they see:
  no aborted row comes back, and such a live row is lost.
  */
  lemma TruncationChangesViewIff(s0: Sys, steps: seq<Step>, s: Sys, h: nat, id: nat)
    requires Init(s0) && Runs(s0, steps, s) && id in s.versions
    ensures forall k :: k in s.readers ==>
              var v, snap := s.versions[id], s.readers[k].snap;
              (RecordVisible(v, snap, s.tm.clog) != RecordVisible(v, snap, Apply(s, Truncate(h)).tm.clog)
               <==> Forgotten(s.tm, v.xmax) && RecordVisible(v, snap, s.tm.clog))
    ensures forall t :: InPhase(s, t, Running) ==>
              var v := s.versions[id];
              (CanSee(s, t, v) != CanSee(Apply(s, Truncate(h)), t, v)
               <==> Forgotten(s.tm, v.xmax) && v.xmin != t && CanSee(s, t, v))
  {
    hide Runs, Init, Inv, RecordVisible, TxnVisible, Forgotten;
    InvInit(s0);
    RunKeepsInv(s0, steps, s);
    forall k | k in s.readers
      ensures var v, snap := s.versions[id], s.readers[k].snap;
              (RecordVisible(v, snap, s.tm.clog) != RecordVisible(v, snap, Apply(s, Truncate(h)).tm.clog)
               <==> Forgotten(s.tm, v.xmax) && RecordVisible(v, snap, s.tm.clog))
    {
      ReaderViewIff(s, h, id, k);
    }
    forall t | InPhase(s, t, Running)
      ensures var v := s.versions[id];
              (CanSee(s, t, v) != CanSee(Apply(s, Truncate(h)), t, v)
               <==> Forgotten(s.tm, v.xmax) && v.xmin != t && CanSee(s, t, v))
    {
      TxnViewIff(s, h, id, t);
    }
  }

  /**
  With nobody in flight, a completed sweep followed by truncation loses every live row
  whose deleter aborted: the sweep keeps the row, forgets the abort, and the deleter then
  reads as committed.
  */
  lemma SweepAndTruncateLoseRow(tm: Tm, v: Version, h: nat)
    requires tm.active == map[] && tm.readers == map[] && 0 !in tm.clog
    requires IsCommitted(tm.ReadSnapshot(), v.xmin, tm.clog)
    requires 0 < v.xmax < tm.next && ClogAborted(tm.clog, v.xmax)
    ensures !IsVacuumable(v, tm.GlobalXmin(), tm.clog, tm.GlobalXmin())
    ensures RecordVisible(v, tm.ReadSnapshot(), tm.clog)
    ensures var tm' := tm.PublishHorizon(tm.GlobalXmin()).TruncateClog(h);
            !RecordVisible(v, tm'.ReadSnapshot(), tm'.clog)
  {
    assert tm.Pins() == {};
  }

  /** One committed row, created by the system id. */
  ghost function OneRow(): Sys {
    EmptyKey().(versions := map[7 := Version(0, 0)], claims := map[7 := {}])
  }

  lemma OneRowIsInit()
    ensures Init(OneRow())
  {
    assert OneRow().versions.Keys == {7} == OneRow().claims.Keys;
  }

  /** The sweep's status reads, on a version of the system's whose deleter aborted. */
  lemma ProbeRun(s: Sys, h: nat, id: nat) returns (steps: seq<Step>)
    requires s.vac == Examining(h, {id}, id, Unread, Unread) && id in s.versions && s.versions[id].xmin == 0
    requires s.versions[id].xmax != 0 && ClogAborted(s.tm.clog, s.versions[id].xmax)
    ensures Runs(s, steps, s.(vac := Examining(h, {id}, id, Known(Committed), Known(Aborted))))
  {
    hide MinOr;
    var s1 := s.(vac := Examining(h, {id}, id, Known(Committed), Unread));
    var s2 := s.(vac := Examining(h, {id}, id, Known(Committed), NotCommitted));
    var s3 := s.(vac := Examining(h, {id}, id, Known(Committed), Known(Aborted)));
    assert Apply(s, VacProbeXmin) == s1 && Apply(s1, VacProbeXmax) == s2 && Apply(s2, VacProbeXmax) == s3;
    hide Apply, ProbeOnce;
    RunsStep(s2, VacProbeXmax, [], s3);
    RunsStep(s1, VacProbeXmax, [VacProbeXmax], s3);
    steps := [VacProbeXmax] + [VacProbeXmax];
    RunsStep(s, VacProbeXmin, steps, s3);
    steps := [VacProbeXmin] + steps;
  }

  /** A sweep that examines one version, finds its deleter aborted, keeps it and ends. */
  lemma SweepKeepsRun(s: Sys, id: nat) returns (steps: seq<Step>, s': Sys)
    requires s.vac.Idle? && s.versions.Keys == {id} && s.versions[id].xmin == 0
    requires s.versions[id].xmax != 0 && ClogAborted(s.tm.clog, s.versions[id].xmax)
    ensures Runs(s, steps, s') && s' == s.(tm := s.tm.PublishHorizon(s.tm.GlobalXmin()))
  {
    hide MinOr;
    var h := s.tm.GlobalXmin();
    var s1 := s.(vac := Sweeping(h, {id}));
    var s2 := s.(vac := Examining(h, {id}, id, Unread, Unread));
    var s3 := s.(vac := Examining(h, {id}, id, Known(Committed), Known(Aborted)));
    var s4 := s.(vac := Sweeping(h, {}));
    s' := s.(tm := s.tm.PublishHorizon(h));
    assert {id} - {id} == {};
    assert Apply(s, VacStart) == s1 && Apply(s1, VacPick(id)) == s2 && Apply(s3, VacKeep) == s4 && Apply(s4, VacFinish) == s';
    hide Apply;
    RunsStep(s4, VacFinish, [], s');
    RunsStep(s3, VacKeep, [VacFinish], s');
    var probes := ProbeRun(s2, h, id);
    RunsJoin(s2, probes, s3, [VacKeep] + [VacFinish], s');
    hide Runs;
    steps := probes + ([VacKeep] + [VacFinish]);
    RunsStep(s1, VacPick(id), steps, s');
    steps := [VacPick(id)] + steps;
    RunsStep(s, VacStart, steps, s');
    steps := [VacStart] + steps;
  }

  /** A transaction deletes the row and aborts. */
  lemma DeletedAndAborted() returns (steps: seq<Step>, s: Sys)
    ensures Runs(OneRow(), steps, s)
    ensures s.tm.clog == map[1 := Aborted] && s.tm.active == map[] && s.tm.readers == map[] && s.tm.next == 2
    ensures s.tm.vacuumHorizon == 0 && s.versions == map[7 := Version(0, 1)] && s.vac == Idle
  {
    var a, s1 := BeginRun(OneRow());
    assert CanSee(s1, 1, Version(0, 0));
    hide Runs, MinOr;
    var b, s2 := DeleteAndSettleRun(s1, 1, 7, false);
    hide Apply, Enabled;
    s := s2;
    RunsJoin(OneRow(), a, s1, b, s);
    steps := a + b;
  }

  /**
  A row of the system is deleted by transaction 1, which aborts: a new reader sees the row.
  A sweep examines and keeps it, the CLOG is truncated, and a new reader no longer does.
  */
  lemma RowLostExample() returns (before: seq<Step>, s: Sys, after: seq<Step>, s': Sys)
    ensures Init(OneRow()) && Runs(OneRow(), before, s) && Runs(s, after, s')
    ensures s.versions == s'.versions == map[7 := Version(0, 1)]
    ensures RecordVisible(s.versions[7], s.tm.ReadSnapshot(), s.tm.clog)
    ensures !RecordVisible(s'.versions[7], s'.tm.ReadSnapshot(), s'.tm.clog)
  {
    OneRowIsInit();
    before, s := DeletedAndAborted();
    hide Init, OneRow;
    assert s.versions.Keys == {7};
    var sweep, s1 := SweepKeepsRun(s, 7);
    s' := Apply(s1, Truncate(2));
    RunsStep(s1, Truncate(2), [], s');
    hide Runs;
    RunsJoin(s, sweep, s1, [Truncate(2)] + [], s');
    after := sweep + ([Truncate(2)] + []);
    SweepAndTruncateLoseRow(s.tm, s.versions[7], 2);
  }
}
