/**
Waiting for another transaction to settle: `wait_for_txn`, `wait_until_settled` and
`notify_waiters` as a state machine, one step per critical section.  A transaction is
run by one thread, so a waiting thread is named by its transaction.
*/
module WaitProtocol {
  /** Progress of one `notify_waiters` call. */
  datatype Notify = ToRemove | Has(e: nat) | Flagged(e: nat) | Finished

  /** Where a thread is inside `wait_until_settled(b)`. */
  datatype Pc =
    | Start(b: nat) | Installing(b: nat) | Rechecking(b: nat, e: nat)
    | Notifying(b: nat, n: Notify) | Parking(b: nat, e: nat) | Asleep(b: nat, e: nat)
    | Returned(b: nat)

  datatype St = St(
    active: set<nat>,            // the manager's active set
    used: set<nat>,              // every id ever begun
    settling: map<nat, Notify>,  // settled transactions: their own notify_waiters call
    waiters: map<nat, nat>,      // txn -> entry
    flags: map<nat, bool>,       // entry -> its `settled` flag
    owner: map<nat, nat>,        // history: entry -> txn it was installed for
    pcs: map<nat, Pc>)

  /** Who runs a `notify_waiters` call: the settling thread, or a waiter that found it settled. */
  datatype Who = Settler(b: nat) | Helper(w: nat)

  datatype Step =
    | Begin(t: nat) | Settle(b: nat) | NotifyStep(who: Who)
    | CallWait(w: nat, b: nat) | FastPath(w: nat) | Install(w: nat, newEntry: nat) | Recheck(w: nat)
    | Park(w: nat) | SpuriousWake(w: nat)

  ghost function NotifyOf(s: St, who: Who): Notify {
    match who
    case Settler(b) => if b in s.settling then s.settling[b] else Finished
    case Helper(w) => if w in s.pcs && s.pcs[w].Notifying? then s.pcs[w].n else Finished
  }

  ghost function BlockerOf(s: St, who: Who): nat {
    match who
    case Settler(b) => b
    case Helper(w) => if w in s.pcs && s.pcs[w].Notifying? then s.pcs[w].b else 0
  }

  ghost function SetNotify(s: St, who: Who, n: Notify): St {
    match who
    case Settler(b) => s.(settling := s.settling[b := n])
    case Helper(w) =>
      s.(pcs := s.pcs[w := if n.Finished? then Returned(BlockerOf(s, who)) else Notifying(BlockerOf(s, who), n)])
  }

  ghost predicate At(s: St, w: nat) { w in s.pcs }

  ghost predicate Enabled(s: St, step: Step) {
    match step
    case Begin(t) => t !in s.used
    case Settle(b) => b in s.active
    case NotifyStep(who) => !NotifyOf(s, who).Finished?
    case CallWait(w, b) => w in s.active && b in s.used && w <= b && w != b && (w in s.pcs ==> s.pcs[w].Returned?)
    case FastPath(w) => At(s, w) && s.pcs[w].Start?
    case Install(w, e) => At(s, w) && s.pcs[w].Installing? && e !in s.flags
    case Recheck(w) => At(s, w) && s.pcs[w].Rechecking?
    case Park(w) => At(s, w) && s.pcs[w].Parking? && s.pcs[w].e in s.flags
    case SpuriousWake(w) => At(s, w) && s.pcs[w].Asleep?
  }

  /** `notify_all`: every sleeper on the entry goes back to test its flag. */
  ghost function WakeAll(pcs: map<nat, Pc>, e: nat): (woken: map<nat, Pc>)
    ensures woken.Keys == pcs.Keys
    ensures forall w {:trigger woken[w]} :: w in pcs ==> woken[w] == pcs[w] || (pcs[w].Asleep? && woken[w] == Parking(pcs[w].b, pcs[w].e))
  {
    map w | w in pcs :: if pcs[w].Asleep? && pcs[w].e == e then Parking(pcs[w].b, e) else pcs[w]
  }

  ghost function Apply(s: St, step: Step): St
    requires Enabled(s, step)
  {
    match step
    case Begin(t) => s.(active := s.active + {t}, used := s.used + {t})
    case Settle(b) => s.(active := s.active - {b}, settling := s.settling[b := ToRemove])
    case NotifyStep(who) =>
      (match NotifyOf(s, who)
       case ToRemove =>
         var b := BlockerOf(s, who);
         if b in s.waiters then SetNotify(s, who, Has(s.waiters[b])).(waiters := s.waiters - {b})
         else SetNotify(s, who, Finished)
       case Has(e) => SetNotify(s, who, Flagged(e)).(flags := s.flags[e := true])
       case Flagged(e) => SetNotify(s.(pcs := WakeAll(s.pcs, e)), who, Finished)
       case Finished => s)
    case CallWait(w, b) => s.(pcs := s.pcs[w := Start(b)])
    case FastPath(w) =>
      var b := s.pcs[w].b;
      s.(pcs := s.pcs[w := if b in s.active then Installing(b) else Returned(b)])
    case Install(w, newEntry) =>
      var b := s.pcs[w].b;
      if b in s.waiters then s.(pcs := s.pcs[w := Rechecking(b, s.waiters[b])])
      else s.(waiters := s.waiters[b := newEntry], flags := s.flags[newEntry := false],
              owner := s.owner[newEntry := b],
              pcs := s.pcs[w := Rechecking(b, newEntry)])
    case Recheck(w) =>
      var pc := s.pcs[w];
      s.(pcs := s.pcs[w := if pc.b in s.active then Parking(pc.b, pc.e) else Notifying(pc.b, ToRemove)])
    case Park(w) =>
      var pc := s.pcs[w];
      s.(pcs := s.pcs[w := if s.flags[pc.e] then Returned(pc.b) else Asleep(pc.b, pc.e)])
    case SpuriousWake(w) => s.(pcs := s.pcs[w := Parking(s.pcs[w].b, s.pcs[w].e)])
  }

  ghost predicate Runs(s: St, steps: seq<Step>, s': St)
    decreases |steps|
  {
    if steps == [] then s' == s
    else Enabled(s, steps[0]) && Runs(Apply(s, steps[0]), steps[1..], s')
  }

  ghost predicate Init(s: St) {
    s.active <= s.used && s.settling == map[] && s.waiters == map[] && s.flags == map[] && s.owner == map[] && s.pcs == map[]
  }

  // ── Invariant ──────────────────────────────────────────────────────────────

  /** Some call has taken the entry out of the map and not yet set its flag. */
  ghost predicate Held(s: St, e: nat) { exists who :: NotifyOf(s, who) == Has(e) }

  /** Some call has set the flag and not yet notified. */
  ghost predicate WillNotify(s: St, e: nat) { exists who :: NotifyOf(s, who) == Flagged(e) }

  /** The entry is still registered, and whoever settles `b` has yet to remove it. */
  ghost predicate Registered(s: St, b: nat, e: nat) {
    b in s.waiters && s.waiters[b] == e
    && (b in s.active || (b in s.settling && s.settling[b].ToRemove?))
  }

  ghost predicate PcOk(s: St, w: nat)
    requires w in s.pcs
  {
    match s.pcs[w]
    case Start(b) => w < b && b in s.used
    case Installing(b) => w < b && b in s.used
    case Rechecking(b, e) =>
      w < b && b in s.used && e in s.flags && (b in s.active ==> b in s.waiters && s.waiters[b] == e)
    case Notifying(b, n) => w < b && b in s.used && b !in s.active
    case Parking(b, e) => w < b && b in s.used && e in s.flags && (!s.flags[e] ==> Registered(s, b, e) || Held(s, e))
    case Asleep(b, e) =>
      w < b && b in s.used && e in s.flags
      && (if s.flags[e] then WillNotify(s, e) else Registered(s, b, e) || Held(s, e))
    case Returned(b) => true
  }

  ghost predicate CallOk(s: St, who: Who) {
    var n := NotifyOf(s, who);
    (n.Has? ==> n.e in s.flags) && (n.Flagged? ==> n.e in s.flags && s.flags[n.e])
    && (!n.Finished? ==> BlockerOf(s, who) !in s.active && BlockerOf(s, who) in s.used)
  }

  ghost predicate Inv(s: St) {
    s.active <= s.used && s.settling.Keys <= s.used && s.settling.Keys !! s.active
    && (forall b :: b in s.waiters ==> s.waiters[b] in s.flags)
    && (forall who {:trigger CallOk(s, who)} :: CallOk(s, who))
    && (forall w {:trigger PcOk(s, w)} :: w in s.pcs ==> PcOk(s, w))
  }

  // ── Preservation ───────────────────────────────────────────────────────────

  /** A step moves at most the call it runs; no other call's progress changes. */
  lemma OtherCallsKept(s: St, step: Step, who: Who)
    requires Inv(s) && Enabled(s, step)
    requires step != NotifyStep(who) && !NotifyOf(s, who).Finished?
    ensures NotifyOf(Apply(s, step), who) == NotifyOf(s, who)
    ensures BlockerOf(Apply(s, step), who) == BlockerOf(s, who)
  {
    hide WakeAll, Held, WillNotify, Registered, PcOk, CallOk;
    if step.NotifyStep? { OtherNotifyKeeps(s, step.who, who); }
  }

  lemma OtherNotifyKeeps(s: St, other: Who, who: Who)
    requires Enabled(s, NotifyStep(other)) && other != who
    ensures NotifyOf(Apply(s, NotifyStep(other)), who) == NotifyOf(s, who)
    ensures BlockerOf(Apply(s, NotifyStep(other)), who) == BlockerOf(s, who)
  {
    hide WakeAll;
  }

  lemma StaysFinished(s: St, step: Step, who: Who)
    requires Enabled(s, step) && NotifyOf(s, who).Finished?
    requires who.Helper? ==> step != Recheck(who.w)
    requires who.Settler? ==> step != Settle(who.b)
    ensures NotifyOf(Apply(s, step), who).Finished?
  {
    hide WakeAll;
  }

  /** Flags stay up, ids stay used, and a settled transaction stays settled. */
  lemma Settles(s: St, step: Step)
    requires Enabled(s, step)
    ensures var s' := Apply(s, step);
            s.used <= s'.used && (forall b :: b in s.used && b !in s.active ==> b !in s'.active)
            && forall e :: e in s.flags ==> e in s'.flags && (s.flags[e] ==> s'.flags[e])
  {
    hide WakeAll, BlockerOf;
  }

  lemma CallAdvances(s: St, who: Who)
    requires Inv(s) && Enabled(s, NotifyStep(who))
    ensures CallOk(Apply(s, NotifyStep(who)), who)
  {
    assert CallOk(s, who);
    hide Held, WillNotify, Registered, PcOk;
  }

  lemma CallOkStep(s: St, step: Step, who: Who)
    requires Inv(s) && Enabled(s, step)
    ensures CallOk(Apply(s, step), who)
  {
    assert CallOk(s, who);
    if !NotifyOf(s, who).Finished? {
      if step == NotifyStep(who) { CallAdvances(s, who); }
      else {
        OtherCallsKept(s, step, who);
        Settles(s, step);
        hide Apply, Enabled, NotifyOf, BlockerOf;
      }
    } else if who.Helper? && step == Recheck(who.w) {
      assert PcOk(s, who.w);
    } else if !(who.Settler? && step == Settle(who.b)) {
      StaysFinished(s, step, who);
      hide Apply, Enabled, NotifyOf, BlockerOf;
    }
  }

  /** A waiter whose entry's flag is still down keeps someone who will raise it. */
  lemma RaiserKept(s: St, step: Step, b: nat, e: nat)
    requires Inv(s) && Enabled(s, step) && e in s.flags && !s.flags[e]
    requires Registered(s, b, e) || Held(s, e)
    ensures var s' := Apply(s, step);
            e in s'.flags
            && (if s'.flags[e] then WillNotify(s', e) else Registered(s', b, e) || Held(s', e))
  {
    var s' := Apply(s, step);
    if Held(s, e) {
      var who :| NotifyOf(s, who) == Has(e);
      if step == NotifyStep(who) { assert NotifyOf(s', who) == Flagged(e); }
      else {
        OtherCallsKept(s, step, who);
        if s'.flags[e] { assert NotifyOf(s', step.who) == Flagged(e); }
      }
    } else {
      if step.NotifyStep? {
        if NotifyOf(s, step.who).ToRemove? && BlockerOf(s, step.who) == b { assert NotifyOf(s', step.who) == Has(e); }
      }
    }
  }

  /** A sleeper whose flag is up keeps a pending notification, or is woken by it. */
  lemma NotificationKept(s: St, step: Step, w: nat)
    requires Inv(s) && Enabled(s, step) && w in s.pcs && s.pcs[w].Asleep?
    requires s.pcs[w].e in s.flags && s.flags[s.pcs[w].e]
    ensures var s' := Apply(s, step);
            w in s'.pcs && s'.flags[s.pcs[w].e]
            && (s'.pcs[w].Asleep? ==> s'.pcs[w] == s.pcs[w] && WillNotify(s', s.pcs[w].e))
  {
    var s' := Apply(s, step);
    var e := s.pcs[w].e;
    assert PcOk(s, w);
    var who :| NotifyOf(s, who) == Flagged(e);
    if step != NotifyStep(who) { OtherCallsKept(s, step, who); }
  }

  /** What a step of a `notify_waiters` call does to a thread. */
  ghost predicate Nudged(s: St, s': St, who: Who, w: nat)
    requires w in s.pcs && w in s'.pcs
  {
    s'.pcs[w] == s.pcs[w]
    || (s.pcs[w].Asleep? && NotifyOf(s, who) == Flagged(s.pcs[w].e) && s'.pcs[w] == Parking(s.pcs[w].b, s.pcs[w].e))
    || (who == Helper(w) && s.pcs[w].Notifying? && s'.pcs[w].b == s.pcs[w].b && (s'.pcs[w].Notifying? || s'.pcs[w].Returned?))
  }

  lemma NotifyFrame(s: St, who: Who, w: nat)
    requires Enabled(s, NotifyStep(who))
    ensures var s' := Apply(s, NotifyStep(who)); (w in s'.pcs <==> w in s.pcs) && (w in s.pcs ==> Nudged(s, s', who, w))
    ensures var s' := Apply(s, NotifyStep(who));
            s'.active == s.active && s'.used == s.used && s'.owner == s.owner
            && (forall e :: e in s.flags ==> e in s'.flags && (s'.flags[e] == s.flags[e] || (s'.flags[e] && NotifyOf(s, who) == Has(e))))
            && (forall b :: b in s.waiters && b !in s'.waiters ==> b == BlockerOf(s, who))
            && (forall b :: b in s'.waiters ==> b in s.waiters && s'.waiters[b] == s.waiters[b])
  {
    NotifyPcs(s, who, w);
    hide WakeAll, Nudged;
  }

  lemma NotifyPcs(s: St, who: Who, w: nat)
    requires Enabled(s, NotifyStep(who))
    ensures var s' := Apply(s, NotifyStep(who)); (w in s'.pcs <==> w in s.pcs) && (w in s.pcs ==> Nudged(s, s', who, w))
  {
    if NotifyOf(s, who).Flagged? { assert NotifyOf(s.(pcs := WakeAll(s.pcs, NotifyOf(s, who).e)), who) == NotifyOf(s, who); }
  }

  /** Threads that are not waiting on an entry. */
  lemma EarlyPcOkStep(s: St, step: Step, w: nat)
    requires Inv(s) && Enabled(s, step) && w in Apply(s, step).pcs
    requires w in s.pcs ==> !s.pcs[w].Parking? && !s.pcs[w].Asleep?
    ensures PcOk(Apply(s, step), w)
  {
    hide Held, WillNotify;
    if step.NotifyStep? {
      NotifyFrame(s, step.who, w);
      hide Apply, Enabled, Registered;
      assert CallOk(s, step.who) && PcOk(s, w);
    } else if w in s.pcs { assert PcOk(s, w); }
  }

  lemma PcOkStep(s: St, step: Step, w: nat)
    requires Inv(s) && Enabled(s, step) && w in Apply(s, step).pcs
    ensures PcOk(Apply(s, step), w)
  {
    if w in s.pcs && (s.pcs[w].Parking? || s.pcs[w].Asleep?) { WaitingPcOkStep(s, step, w); }
    else { EarlyPcOkStep(s, step, w); }
  }

  /** Threads that are waiting on an entry. */
  lemma WaitingPcOkStep(s: St, step: Step, w: nat)
    requires Inv(s) && Enabled(s, step) && w in s.pcs && (s.pcs[w].Parking? || s.pcs[w].Asleep?)
    ensures w in Apply(s, step).pcs && PcOk(Apply(s, step), w)
  {
    assert PcOk(s, w);
    var pc := s.pcs[w];
    if !s.flags[pc.e] { RaiserKept(s, step, pc.b, pc.e); }
    else if pc.Asleep? { NotificationKept(s, step, w); }
    hide Held, WillNotify, Registered;
    if step.NotifyStep? {
      NotifyFrame(s, step.who, w);
      hide Apply, Enabled;
    }
  }

  lemma InvStep(s: St, step: Step)
    requires Inv(s) && Enabled(s, step)
    ensures Inv(Apply(s, step))
  {
    var s' := Apply(s, step);
    if step.NotifyStep? { assert CallOk(s, step.who); }
    forall who ensures CallOk(s', who) { CallOkStep(s, step, who); }
    forall w | w in s'.pcs ensures PcOk(s', w) { PcOkStep(s, step, w); }
  }

  lemma {:induction false} RunKeepsInv(s: St, steps: seq<Step>, s': St)
    requires Inv(s) && Runs(s, steps, s')
    ensures Inv(s')
    decreases |steps|
  {
    if steps != [] {
      InvStep(s, steps[0]);
      RunKeepsInv(Apply(s, steps[0]), steps[1..], s');
    }
  }

  // ── Whose entry it is ──────────────────────────────────────────────────────

  ghost predicate OwnedBy(s: St, e: nat, b: nat) { e in s.owner && s.owner[e] == b }

  /** Left the active set for good. */
  ghost predicate Settled(s: St, b: nat) { b in s.used && b !in s.active }

  ghost predicate PcOwns(s: St, w: nat)
    requires w in s.pcs
  {
    match s.pcs[w]
    case Rechecking(b, e) => OwnedBy(s, e, b)
    case Parking(b, e) => OwnedBy(s, e, b)
    case Asleep(b, e) => OwnedBy(s, e, b)
    case Returned(b) => Settled(s, b)
    case _ => true
  }

  ghost predicate CallOwns(s: St, who: Who) {
    var n := NotifyOf(s, who);
    n.Has? || n.Flagged? ==> OwnedBy(s, n.e, BlockerOf(s, who))
  }

  /** A raised flag says that the transaction the entry is for has settled. */
  ghost predicate FlagTrue(s: St, e: nat)
    requires e in s.flags
  {
    e in s.owner && (s.flags[e] ==> Settled(s, s.owner[e]))
  }

  ghost predicate OwnInv(s: St) {
    (forall b :: b in s.waiters ==> OwnedBy(s, s.waiters[b], b))
    && (forall who {:trigger CallOwns(s, who)} :: CallOwns(s, who))
    && (forall w {:trigger PcOwns(s, w)} :: w in s.pcs ==> PcOwns(s, w))
    && (forall e {:trigger FlagTrue(s, e)} :: e in s.flags ==> FlagTrue(s, e))
  }

  lemma CallOwnsStep(s: St, step: Step, who: Who)
    requires Inv(s) && OwnInv(s) && Enabled(s, step)
    ensures CallOwns(Apply(s, step), who)
  {
    assert CallOwns(s, who) && CallOk(s, who);
    if !NotifyOf(s, who).Finished? {
      if step != NotifyStep(who) { OtherCallsKept(s, step, who); }
    } else if !(who.Helper? && step == Recheck(who.w)) && !(who.Settler? && step == Settle(who.b)) {
      StaysFinished(s, step, who);
    }
  }

  lemma PcOwnsStep(s: St, step: Step, w: nat)
    requires Inv(s) && OwnInv(s) && Enabled(s, step) && w in Apply(s, step).pcs
    ensures PcOwns(Apply(s, step), w)
  {
    hide Held, WillNotify, Registered;
    if step.NotifyStep? {
      NotifyFrame(s, step.who, w);
      hide Apply, Enabled;
      assert CallOk(s, step.who) && PcOwns(s, w) && PcOk(s, w);
    } else {
      if w in s.pcs { assert PcOwns(s, w) && PcOk(s, w); }
      if step.Park? { assert FlagTrue(s, s.pcs[step.w].e); }
    }
  }

  lemma FlagTrueStep(s: St, step: Step, e: nat)
    requires Inv(s) && OwnInv(s) && Enabled(s, step) && e in Apply(s, step).flags
    ensures FlagTrue(Apply(s, step), e)
  {
    if e in s.flags { assert FlagTrue(s, e); }
    if step.NotifyStep? { assert CallOk(s, step.who) && CallOwns(s, step.who); }
  }

  lemma WaitersOwnedStep(s: St, step: Step)
    requires Inv(s) && OwnInv(s) && Enabled(s, step)
    ensures forall b :: b in Apply(s, step).waiters ==> OwnedBy(Apply(s, step), Apply(s, step).waiters[b], b)
  {
    hide WakeAll, Held, WillNotify, Registered, PcOk, CallOk, CallOwns, PcOwns;
  }

  lemma OwnInvStep(s: St, step: Step)
    requires Inv(s) && OwnInv(s) && Enabled(s, step)
    ensures OwnInv(Apply(s, step))
  {
    var s' := Apply(s, step);
    WaitersOwnedStep(s, step);
    hide Apply, Enabled, OwnedBy;
    forall who ensures CallOwns(s', who) { CallOwnsStep(s, step, who); }
    forall w | w in s'.pcs ensures PcOwns(s', w) { PcOwnsStep(s, step, w); }
    forall e | e in s'.flags ensures FlagTrue(s', e) { FlagTrueStep(s, step, e); }
  }

  lemma {:induction false} RunKeepsOwn(s: St, steps: seq<Step>, s': St)
    requires Inv(s) && OwnInv(s) && Runs(s, steps, s')
    ensures Inv(s') && OwnInv(s')
    decreases |steps|
  {
    if steps != [] {
      InvStep(s, steps[0]);
      OwnInvStep(s, steps[0]);
      RunKeepsOwn(Apply(s, steps[0]), steps[1..], s');
    }
  }

  // ── Results ────────────────────────────────────────────────────────────────

  /** Transaction `w` is inside a wait for `b`. */
  ghost predicate WaitsFor(s: St, w: nat, b: nat) {
    w in s.pcs && !s.pcs[w].Returned? && s.pcs[w].b == b
  }

  /** A chain of waits climbs strictly in transaction id ... */
  lemma {:induction false} WaitsClimb(s: St, path: seq<nat>)
    requires Inv(s) && |path| >= 2
    requires forall i :: 0 <= i < |path| - 1 ==> WaitsFor(s, path[i], path[i + 1])
    ensures path[0] < path[|path| - 1]
  {
    assert WaitsFor(s, path[0], path[1]) && PcOk(s, path[0]);
    if |path| > 2 {
      forall i | 0 <= i < |path[1..]| - 1 ensures WaitsFor(s, path[1..][i], path[1..][i + 1]) {
        assert WaitsFor(s, path[i + 1], path[i + 2]);
      }
      WaitsClimb(s, path[1..]);
    }
  }

  /** ... so in no reachable state do transactions wait in a circle. */
  lemma NoDeadlock(s0: St, steps: seq<Step>, s: St, path: seq<nat>)
    requires Init(s0) && Runs(s0, steps, s)
    requires |path| >= 2 && forall i :: 0 <= i < |path| - 1 ==> WaitsFor(s, path[i], path[i + 1])
    ensures path[0] != path[|path| - 1]
  {
    RunKeepsInv(s0, steps, s);
    WaitsClimb(s, path);
  }

  /** `wait_until_settled(b)` returns only when `b` has left the active set, in every interleaving. */
  lemma ReturnsOnlySettled(s0: St, steps: seq<Step>, s: St, w: nat)
    requires Init(s0) && Runs(s0, steps, s) && w in s.pcs && s.pcs[w].Returned?
    ensures Settled(s, s.pcs[w].b)
  {
    RunKeepsOwn(s0, steps, s);
    assert PcOwns(s, w);
  }

  /** The steps of a call that has not finished. */
  ghost function Finish(n: Notify, who: Who): seq<Step> {
    match n
    case ToRemove => [NotifyStep(who), NotifyStep(who), NotifyStep(who)]
    case Has(_) => [NotifyStep(who), NotifyStep(who)]
    case Flagged(_) => [NotifyStep(who)]
    case Finished => []
  }

  /** A thread asleep on a settled transaction has a call in flight that will wake it. */
  ghost predicate Pending(s: St, w: nat, who: Who)
    requires w in s.pcs && s.pcs[w].Asleep?
  {
    var pc := s.pcs[w];
    (who == Settler(pc.b) && NotifyOf(s, who).ToRemove? && pc.b in s.waiters && s.waiters[pc.b] == pc.e)
    || NotifyOf(s, who) == Has(pc.e) || NotifyOf(s, who) == Flagged(pc.e)
  }

  /** No lost wakeup: in every interleaving, asleep on a settled transaction means pending. */
  lemma NoLostWakeup(s0: St, steps: seq<Step>, s: St, w: nat) returns (who: Who)
    requires Init(s0) && Runs(s0, steps, s)
    requires w in s.pcs && s.pcs[w].Asleep? && s.pcs[w].b !in s.active
    ensures Pending(s, w, who)
  {
    RunKeepsInv(s0, steps, s);
    assert PcOk(s, w);
    var pc := s.pcs[w];
    if s.flags[pc.e] { who :| NotifyOf(s, who) == Flagged(pc.e); }
    else if Held(s, pc.e) { who :| NotifyOf(s, who) == Has(pc.e); }
    else { who := Settler(pc.b); }
  }

  /** The pending call's own remaining steps, always enabled, do wake it. */
  lemma PendingDelivers(s: St, w: nat, who: Who) returns (s': St)
    requires Inv(s) && w in s.pcs && s.pcs[w].Asleep? && Pending(s, w, who)
    ensures Runs(s, Finish(NotifyOf(s, who), who), s')
    ensures w in s'.pcs && s'.pcs[w] == Parking(s.pcs[w].b, s.pcs[w].e)
    ensures s.pcs[w].e in s'.flags && s'.flags[s.pcs[w].e]
    ensures Enabled(s', Park(w)) && Apply(s', Park(w)).pcs[w].Returned?
  {
    assert PcOk(s, w) && CallOk(s, who);
    var one := [NotifyStep(who)];
    var two := [NotifyStep(who), NotifyStep(who)];
    var three := [NotifyStep(who), NotifyStep(who), NotifyStep(who)];
    assert one[1..] == [] && two[1..] == one && three[1..] == two;
    s' := s;
    if NotifyOf(s', who).ToRemove? { s' := Apply(s', NotifyStep(who)); }
    if NotifyOf(s', who).Has? { s' := Apply(s', NotifyStep(who)); }
    var s2 := s';
    s' := Apply(s2, NotifyStep(who));
    assert Runs(s2, one, s');
    if NotifyOf(s, who).Has? { assert Runs(s, two, s'); }
    if NotifyOf(s, who).ToRemove? { assert Runs(Apply(s, NotifyStep(who)), two, s') && Runs(s, three, s'); }
  }
}
