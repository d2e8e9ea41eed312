/**
Leader/follower group flush (`append` and `flush_up_to` in crates/storage/src/wal.rs) as a
state machine.  A step is one critical section, or one lock-free read or write of an
atomic that another thread can observe.  Records are named by their LSN.
*/
module GroupFlush {

  /** Where a thread is inside `flush_up_to`; `target` is its clamped LSN. */
  datatype Pc =
    | Loop(target: nat)                                      // top of the loop
    | AtState(target: nat)                                   // fast path failed; wants the state lock
    | ToGate(target: nat)                                    // saw a flush in flight; wants the gate
    | Gate1(target: nat) | Gate2(target: nat) | Gate3(target: nat) // holds the gate; next of three reads
    | ToSleep(target: nat)                                   // holds the gate; about to wait
    | Asleep(target: nat)
    | Lead(target: nat)                                      // holds the state lock; flags raised
    | Writing(target: nat, recs: seq<nat>, done: nat)        // writes its snapshot of the buffer
    | EndLock(target: nat, recs: seq<nat>, ok: bool)         // wants the state lock again
    | End(target: nat, recs: seq<nat>, ok: bool)             // holds the state lock; flags lowered
    | PassGate(target: nat, last: bool)                      // must pass through the gate once
    | ToNotify(target: nat, last: bool)
    | Returned(target: nat, ok: bool)

  datatype Holder = Free | By(t: nat)

  datatype St = St(
    next: nat,              // next_lsn
    buffer: seq<nat>,
    disk: seq<nat>,         // records written, in file order
    synced: nat,            // how many of them are known durable
    flushed: nat,           // flushed_lsn
    isFlushing: bool,
    active: bool,           // flush_active
    failed: bool,           // flush_error / flush_failed
    lock: Holder,           // of the state lock
    gate: Holder,
    leader: nat,            // history: who raised the flags last
    pcs: map<nat, Pc>)

  datatype Step =
    | Append | Call(t: nat, lsn: nat) | Fast(t: nat) | Enter(t: nat) | Inspect(t: nat)
    | WriteOne(t: nat) | WriteFails(t: nat) | Sync(t: nat) | EndEnter(t: nat) | Publish(t: nat)
    | Pass(t: nat) | NotifyAll(t: nat) | TakeGate(t: nat) | ReadGate(t: nat) | Sleep(t: nat) | SpuriousWake(t: nat)

  ghost predicate At(s: St, t: nat) { t in s.pcs }

  ghost predicate Enabled(s: St, step: Step) {
    match step
    case Append => s.lock == Free && !s.failed
    case Call(t, _) => t in s.pcs ==> s.pcs[t].Returned?
    case Fast(t) => At(s, t) && s.pcs[t].Loop?
    case Enter(t) => At(s, t) && s.pcs[t].AtState? && s.lock == Free
    case Inspect(t) => At(s, t) && s.pcs[t].Lead?
    case WriteOne(t) => At(s, t) && s.pcs[t].Writing? && s.pcs[t].done < |s.pcs[t].recs|
    case WriteFails(t) => At(s, t) && s.pcs[t].Writing?
    case Sync(t) => At(s, t) && s.pcs[t].Writing? && s.pcs[t].done == |s.pcs[t].recs|
    case EndEnter(t) => At(s, t) && s.pcs[t].EndLock? && s.lock == Free
    case Publish(t) => At(s, t) && s.pcs[t].End?
    case Pass(t) => At(s, t) && s.pcs[t].PassGate? && s.gate == Free
    case NotifyAll(t) => At(s, t) && s.pcs[t].ToNotify?
    case TakeGate(t) => At(s, t) && s.pcs[t].ToGate? && s.gate == Free
    case ReadGate(t) => At(s, t) && (s.pcs[t].Gate1? || s.pcs[t].Gate2? || s.pcs[t].Gate3?)
    case Sleep(t) => At(s, t) && s.pcs[t].ToSleep?
    case SpuriousWake(t) => At(s, t) && s.pcs[t].Asleep?
  }

  ghost function Set(s: St, t: nat, pc: Pc): St { s.(pcs := s.pcs[t := pc]) }

  /** `notify_all`: every sleeper goes back to the top of its loop. */
  ghost function WakeAll(pcs: map<nat, Pc>): map<nat, Pc> {
    map t | t in pcs :: if pcs[t].Asleep? then Loop(pcs[t].target) else pcs[t]
  }

  ghost function Apply(s: St, step: Step): St
    requires Enabled(s, step)
  {
    match step
    case Append => s.(next := s.next + 1, buffer := s.buffer + [s.next])
    case Call(t, lsn) =>
      var target := if s.next == 0 then 0 else if lsn < s.next - 1 then lsn else s.next - 1;
      Set(s, t, if target == 0 then Returned(0, true) else Loop(target))
    case Fast(t) =>
      var k := s.pcs[t].target;
      Set(s, t, if s.flushed >= k then Returned(k, true) else AtState(k))
    case Enter(t) =>
      var k := s.pcs[t].target;
      if s.failed then Set(s, t, Returned(k, false))
      else if s.isFlushing then Set(s, t, ToGate(k))
      else Set(s, t, Lead(k)).(isFlushing := true, active := true, lock := By(t), leader := t)
    case Inspect(t) =>
      var k := s.pcs[t].target;
      if s.buffer == [] then Set(s, t, PassGate(k, true)).(isFlushing := false, active := false, lock := Free)
      else Set(s, t, Writing(k, s.buffer, 0)).(lock := Free)
    case WriteOne(t) =>
      var pc := s.pcs[t];
      Set(s, t, pc.(done := pc.done + 1)).(disk := s.disk + [pc.recs[pc.done]])
    case WriteFails(t) => Set(s, t, EndLock(s.pcs[t].target, s.pcs[t].recs, false))
    case Sync(t) => Set(s, t, EndLock(s.pcs[t].target, s.pcs[t].recs, true)).(synced := |s.disk|)
    case EndEnter(t) =>
      var pc := s.pcs[t];
      Set(s, t, End(pc.target, pc.recs, pc.ok)).(lock := By(t), isFlushing := false, active := false)
    case Publish(t) =>
      var pc := s.pcs[t];
      var s1 := Set(s, t, PassGate(pc.target, false)).(lock := Free);
      if pc.ok && |pc.recs| <= |s.buffer| && pc.recs != []
      then s1.(buffer := s.buffer[|pc.recs|..], flushed := pc.recs[|pc.recs| - 1])
      else s1.(failed := true)
    case Pass(t) => Set(s, t, ToNotify(s.pcs[t].target, s.pcs[t].last))
    case NotifyAll(t) =>
      var pc := s.pcs[t];
      Set(s.(pcs := WakeAll(s.pcs)), t, if pc.last then Returned(pc.target, true) else Loop(pc.target))
    case TakeGate(t) => Set(s, t, Gate1(s.pcs[t].target)).(gate := By(t))
    case ReadGate(t) =>
      var k := s.pcs[t].target;
      var stay := if s.pcs[t].Gate1? then s.flushed < k else if s.pcs[t].Gate2? then !s.failed else s.active;
      if !stay then Set(s, t, Loop(k)).(gate := Free)
      else Set(s, t, if s.pcs[t].Gate1? then Gate2(k) else if s.pcs[t].Gate2? then Gate3(k) else ToSleep(k))
    case Sleep(t) => Set(s, t, Asleep(s.pcs[t].target)).(gate := Free)
    case SpuriousWake(t) => Set(s, t, Loop(s.pcs[t].target))
  }

  ghost predicate Runs(s: St, steps: seq<Step>, s': St)
    decreases |steps|
  {
    if steps == [] then s' == s
    else Enabled(s, steps[0]) && Runs(Apply(s, steps[0]), steps[1..], s')
  }

  /** A freshly opened log whose records 1..|disk| are on disk and durable. */
  ghost predicate Init(s: St) {
    Counting(s.disk, 1) && s.synced == s.flushed == |s.disk| && s.next == |s.disk| + 1 && s.buffer == []
    && !s.isFlushing && !s.active && !s.failed && s.lock == Free && s.gate == Free && s.pcs == map[]
  }

  // ── Invariant ──────────────────────────────────────────────────────────────

  /** `q` is from, from + 1, from + 2, ... */
  ghost predicate Counting(q: seq<nat>, from: nat) {
    forall i :: 0 <= i < |q| ==> q[i] == from + i
  }

  /** Between raising and lowering the flags. */
  ghost predicate Leading(pc: Pc) { pc.Lead? || pc.Writing? || pc.EndLock? }

  /** A leader that has still to pass the gate, and then to notify. */
  ghost predicate BeforeGate(pc: Pc) { Leading(pc) || pc.End? || pc.PassGate? }

  ghost predicate WillPass(s: St) { exists t :: t in s.pcs && BeforeGate(s.pcs[t]) }

  ghost predicate WillNotify(s: St) { exists t :: t in s.pcs && (BeforeGate(s.pcs[t]) || s.pcs[t].ToNotify?) }

  ghost predicate LogInv(s: St) {
    Counting(s.disk, 1) && Counting(s.buffer, s.flushed + 1) && s.next == s.flushed + |s.buffer| + 1
    && s.flushed <= s.synced <= |s.disk|
    && (!s.isFlushing && !s.failed && s.lock == Free ==> |s.disk| == s.flushed)
  }

  /** Who leads, who holds which lock. */
  ghost predicate LocksOk(s: St, t: nat)
    requires t in s.pcs
  {
    var pc := s.pcs[t];
    (Leading(pc) ==> s.isFlushing)
    && (Leading(pc) || pc.End? ==> !s.failed && s.leader == t)
    && (s.lock == By(t) <==> pc.Lead? || pc.End?)
    && (s.gate == By(t) <==> pc.Gate1? || pc.Gate2? || pc.Gate3? || pc.ToSleep?)
  }

  /** What a thread knows about the log. */
  ghost predicate DataOk(s: St, t: nat)
    requires t in s.pcs
  {
    var pc := s.pcs[t];
    (pc.Returned? && pc.ok ==> pc.target <= s.flushed)
    && (!pc.Returned? ==> 1 <= pc.target < s.next)
    && (pc.Lead? ==> |s.disk| == s.flushed)
    && (pc.Writing? ==> pc.recs != [] && pc.recs <= s.buffer && pc.done <= |pc.recs| && |s.disk| == s.flushed + pc.done)
    && (pc.EndLock? || pc.End? ==> pc.recs != [] && pc.recs <= s.buffer)
    && ((pc.EndLock? || pc.End?) && pc.ok ==> |s.disk| == s.synced == s.flushed + |pc.recs|)
    && ((pc.PassGate? || pc.ToNotify?) && pc.last ==> pc.target <= s.flushed)
  }

  /** Nobody sleeps, or is about to, without a notification still to come. */
  ghost predicate WaitOk(s: St, t: nat)
    requires t in s.pcs
  {
    (s.pcs[t].ToSleep? ==> WillPass(s)) && (s.pcs[t].Asleep? ==> WillNotify(s))
  }

  ghost predicate PcOk(s: St, t: nat)
    requires t in s.pcs
  {
    LocksOk(s, t) && DataOk(s, t) && WaitOk(s, t)
  }

  ghost predicate FlagsOk(s: St) {
    s.active == s.isFlushing
    && (s.isFlushing ==> s.leader in s.pcs && Leading(s.pcs[s.leader]))
    && (s.lock.By? ==> s.lock.t in s.pcs) && (s.gate.By? ==> s.gate.t in s.pcs)
  }

  ghost predicate Inv(s: St) {
    LogInv(s) && FlagsOk(s) && forall t {:trigger PcOk(s, t)} :: t in s.pcs ==> PcOk(s, t)
  }

  // ── Preservation ───────────────────────────────────────────────────────────

  /** The steps that touch the log, the counters or the flags. */
  ghost predicate TouchesLog(step: Step) {
    step.Append? || step.Enter? || step.Inspect? || step.WriteOne? || step.Sync? || step.EndEnter? || step.Publish?
  }

  lemma LogUntouched(s: St, step: Step)
    requires LogInv(s) && Enabled(s, step) && !TouchesLog(step)
    ensures LogInv(Apply(s, step))
  {
    hide WakeAll, Counting;
  }

  lemma LogInvStep(s: St, step: Step)
    requires Inv(s) && Enabled(s, step)
    ensures LogInv(Apply(s, step))
  {
    if !TouchesLog(step) { LogUntouched(s, step); }
    else {
      if !step.Append? { assert PcOk(s, step.t); }
      if s.isFlushing { assert PcOk(s, s.leader); }
    }
  }

  /** Someone still has to pass the gate, except right after the last one did. */
  lemma WillPassKept(s: St, step: Step)
    requires Inv(s) && Enabled(s, step) && WillPass(s) && !step.Pass?
    ensures WillPass(Apply(s, step))
  {
    hide LogInv, PcOk, WillNotify;
    var t :| t in s.pcs && BeforeGate(s.pcs[t]);
    assert t in Apply(s, step).pcs && BeforeGate(Apply(s, step).pcs[t]);
  }

  lemma WillNotifyKept(s: St, step: Step)
    requires Inv(s) && Enabled(s, step) && WillNotify(s) && !step.NotifyAll?
    ensures WillNotify(Apply(s, step))
  {
    hide LogInv, PcOk, WillPass;
    var t :| t in s.pcs && (BeforeGate(s.pcs[t]) || s.pcs[t].ToNotify?);
    assert t in Apply(s, step).pcs;
    assert BeforeGate(Apply(s, step).pcs[t]) || Apply(s, step).pcs[t].ToNotify?;
  }

  /** A step moves no other thread, except that `notify_all` wakes sleepers. */
  lemma OthersStay(s: St, step: Step, t: nat)
    requires Enabled(s, step) && t in s.pcs && (step.Append? || step.t != t)
    ensures t in Apply(s, step).pcs
    ensures Apply(s, step).pcs[t] == if step.NotifyAll? && s.pcs[t].Asleep? then Loop(s.pcs[t].target) else s.pcs[t]
  {
  }

  /** Only these steps touch the log. */
  lemma LogStays(s: St, step: Step)
    requires Enabled(s, step) && !step.Append? && !step.WriteOne? && !step.Sync? && !step.Publish?
    ensures var s' := Apply(s, step);
            s'.next == s.next && s'.buffer == s.buffer && s'.disk == s.disk && s'.synced == s.synced && s'.flushed == s.flushed
  {
  }

  /** Steps of a thread as leader. */
  ghost predicate LeaderStep(step: Step) {
    step.Inspect? || step.WriteOne? || step.WriteFails? || step.Sync? || step.EndEnter? || step.Publish? || step.Pass?
  }

  lemma LeaderLocksOk(s: St, step: Step)
    requires Inv(s) && Enabled(s, step) && LeaderStep(step)
    ensures LocksOk(Apply(s, step), step.t)
  {
    assert PcOk(s, step.t);
  }

  lemma FollowerLocksOk(s: St, step: Step)
    requires Inv(s) && Enabled(s, step) && !step.Append? && !LeaderStep(step)
    ensures LocksOk(Apply(s, step), step.t)
  {
    hide WillPass, WillNotify, WakeAll;
    if step.t in s.pcs { assert PcOk(s, step.t); }
  }

  lemma OtherLocksOk(s: St, step: Step, t: nat)
    requires Inv(s) && Enabled(s, step) && t in s.pcs && (step.Append? || step.t != t)
    ensures LocksOk(Apply(s, step), t)
  {
    assert PcOk(s, t);
    OthersStay(s, step, t);
    if !step.Append? && step.t in s.pcs { assert PcOk(s, step.t); }
  }

  lemma LeaderDataOk(s: St, step: Step)
    requires Inv(s) && Enabled(s, step) && !step.Append? && LeaderStep(step)
    ensures DataOk(Apply(s, step), step.t)
  {
    hide WillPass, WillNotify, WakeAll;
    assert PcOk(s, step.t);
  }

  lemma FollowerDataOk(s: St, step: Step)
    requires Inv(s) && Enabled(s, step) && !step.Append? && !LeaderStep(step)
    ensures DataOk(Apply(s, step), step.t)
  {
    hide WillPass, WillNotify, WakeAll;
    if step.t in s.pcs { assert PcOk(s, step.t); }
  }

  lemma OtherDataOk(s: St, step: Step, t: nat)
    requires Inv(s) && Enabled(s, step) && t in s.pcs && (step.Append? || step.t != t)
    ensures DataOk(Apply(s, step), t)
  {
    assert PcOk(s, t);
    OthersStay(s, step, t);
    if step.WriteOne? || step.Sync? || step.Publish? { assert PcOk(s, step.t); }
    else if !step.Append? { LogStays(s, step); }
  }

  lemma WaitOkStep(s: St, step: Step, t: nat)
    requires Inv(s) && Enabled(s, step) && t in Apply(s, step).pcs
    ensures WaitOk(Apply(s, step), t)
  {
    var s' := Apply(s, step);
    if t in s.pcs { assert PcOk(s, t); }
    if step == ReadGate(t) && s'.pcs[t].ToSleep? {
      assert BeforeGate(s'.pcs[s.leader]);
    } else if step == Sleep(t) {
      WillPassKept(s, step);
    } else if s'.pcs[t].ToSleep? {
      if !step.Pass? { WillPassKept(s, step); }
    } else if s'.pcs[t].Asleep? {
      WillNotifyKept(s, step);
    }
  }

  lemma PcOkStep(s: St, step: Step, t: nat)
    requires Inv(s) && Enabled(s, step) && t in Apply(s, step).pcs
    ensures PcOk(Apply(s, step), t)
  {
    WaitOkStep(s, step, t);
    if step.Append? || t != step.t { OtherLocksOk(s, step, t); OtherDataOk(s, step, t); }
    else {
      if LeaderStep(step) { LeaderLocksOk(s, step); } else { FollowerLocksOk(s, step); }
      if LeaderStep(step) { LeaderDataOk(s, step); } else { FollowerDataOk(s, step); }
    }
  }

  lemma FlagsOkStep(s: St, step: Step)
    requires Inv(s) && Enabled(s, step)
    ensures FlagsOk(Apply(s, step))
  {
    if !step.Append? && step.t in s.pcs { assert PcOk(s, step.t); }
    if s.isFlushing { assert PcOk(s, s.leader); }
  }

  lemma InvStep(s: St, step: Step)
    requires Inv(s) && Enabled(s, step)
    ensures Inv(Apply(s, step))
  {
    var s' := Apply(s, step);
    LogInvStep(s, step);
    FlagsOkStep(s, step);
    forall t | t in s'.pcs ensures PcOk(s', t) { PcOkStep(s, step, t); }
  }

  lemma {:induction false} RunKeepsInv(s: St, steps: seq<Step>, s': St)
    requires Inv(s) && Runs(s, steps, s')
    ensures Inv(s')
    decreases |steps|
  {
    if steps != [] {
      InvStep(s, steps[0]);
      RunKeepsInv(Apply(s, steps[0]), steps[1..], s');
    }
  }

  // ── Results ────────────────────────────────────────────────────────────────

  /**
  In every interleaving: what is on disk and then in the buffer is 1, 2, 3, ... in order
  and without gaps, and `flushed_lsn` never runs ahead of what is durable.
  */
  lemma LogStaysInOrder(s0: St, steps: seq<Step>, s: St)
    requires Init(s0) && Runs(s0, steps, s)
    ensures s.flushed <= s.synced <= |s.disk|
    ensures Counting(s.disk, 1) && Counting(s.disk[..s.flushed] + s.buffer, 1)
    ensures |s.disk[..s.flushed] + s.buffer| == s.next - 1
  {
    RunKeepsInv(s0, steps, s);
  }

  /** `flush_up_to` returns Ok only once its clamped target is durable. */
  lemma OkMeansDurable(s0: St, steps: seq<Step>, s: St, t: nat)
    requires Init(s0) && Runs(s0, steps, s)
    requires t in s.pcs && s.pcs[t].Returned? && s.pcs[t].ok
    ensures s.pcs[t].target <= s.synced <= |s.disk|
    ensures Counting(s.disk[..s.pcs[t].target], 1)
  {
    RunKeepsInv(s0, steps, s);
    assert PcOk(s, t);
  }

  /** A thread's clamped target does not change before its next call. */
  lemma TargetStays(s: St, step: Step, t: nat)
    requires Enabled(s, step) && t in s.pcs && !(step.Call? && step.t == t)
    ensures t in Apply(s, step).pcs && Apply(s, step).pcs[t].target == s.pcs[t].target
  {
    if step.Append? || step.t != t { if !step.NotifyAll? { hide WakeAll; } }
  }

  ghost predicate NoCall(steps: seq<Step>, t: nat) { forall i {:trigger steps[i]} :: 0 <= i < |steps| ==> !(steps[i].Call? && steps[i].t == t) }

  lemma {:induction false} TargetStaysRun(s: St, steps: seq<Step>, s': St, t: nat)
    requires Inv(s) && Runs(s, steps, s') && t in s.pcs && NoCall(steps, t)
    ensures Inv(s') && t in s'.pcs && s'.pcs[t].target == s.pcs[t].target
    decreases |steps|
  {
    if steps != [] {
      InvStep(s, steps[0]);
      TargetStays(s, steps[0], t);
      hide Inv, Apply, Enabled;
      assert forall i :: 0 <= i < |steps[1..]| ==> steps[1..][i] == steps[i + 1];
      TargetStaysRun(Apply(s, steps[0]), steps[1..], s', t);
    }
  }

  /**
  From the call of `flush_up_to(lsn)` to its Ok, whatever happens in between: every record
  appended before the call, up to `lsn`, is durable and in its place in the file.
  */
  lemma FlushReachesLsn(s: St, t: nat, lsn: nat, steps: seq<Step>, s': St, n: nat)
    requires Inv(s) && Enabled(s, Call(t, lsn)) && Runs(Apply(s, Call(t, lsn)), steps, s') && NoCall(steps, t)
    requires t in s'.pcs && s'.pcs[t].Returned? && s'.pcs[t].ok
    requires 1 <= n <= lsn && n < s.next
    ensures n <= s'.synced <= |s'.disk| && s'.disk[n - 1] == n
  {
    InvStep(s, Call(t, lsn));
    TargetStaysRun(Apply(s, Call(t, lsn)), steps, s', t);
    assert PcOk(s', t);
  }

  /** After a failed flush nothing more is appended or reported flushed. */
  lemma {:induction false} FailureSticks(s: St, steps: seq<Step>, s': St)
    requires Inv(s) && s.failed && Runs(s, steps, s')
    ensures s'.failed && s'.flushed == s.flushed && s'.next == s.next && s'.synced == s.synced && s'.disk == s.disk
    decreases |steps|
  {
    if steps != [] {
      InvStep(s, steps[0]);
      FailedStep(s, steps[0]);
      hide Inv, Apply, Enabled;
      FailureSticks(Apply(s, steps[0]), steps[1..], s');
    }
  }

  lemma FailedStep(s: St, step: Step)
    requires Inv(s) && s.failed && Enabled(s, step)
    ensures var s' := Apply(s, step);
            s'.failed && s'.flushed == s.flushed && s'.next == s.next && s'.synced == s.synced && s'.disk == s.disk
  {
    if !step.Append? && step.t in s.pcs { assert PcOk(s, step.t); }
    hide LogInv, DataOk, WaitOk;
  }

  /** A leader whose write failed and that has not yet said so. */
  ghost predicate HasFailed(s: St, t: nat) { t in s.pcs && (s.pcs[t].EndLock? || s.pcs[t].End?) && !s.pcs[t].ok }

  /** No failed write is lost: the leader says so before anybody can lead again. */
  lemma {:induction false} FailureReported(s: St, t: nat, steps: seq<Step>, s': St)
    requires Inv(s) && (HasFailed(s, t) || s.failed) && Runs(s, steps, s')
    ensures HasFailed(s', t) || s'.failed
    decreases |steps|
  {
    if steps != [] {
      InvStep(s, steps[0]);
      var s1 := Apply(s, steps[0]);
      if s.failed { FailedStep(s, steps[0]); }
      assert HasFailed(s1, t) || s1.failed;
      hide Inv, Apply, Enabled;
      FailureReported(s1, t, steps[1..], s');
    }
  }

  /** The next step of a leader that still has to notify. */
  ghost function LeaderNext(pc: Pc, t: nat): Step
    requires BeforeGate(pc) || pc.ToNotify?
  {
    match pc
    case Lead(_) => Inspect(t)
    case Writing(_, recs, done) => if done < |recs| then WriteOne(t) else Sync(t)
    case EndLock(_, _, _) => EndEnter(t)
    case End(_, _, _) => Publish(t)
    case PassGate(_, _) => Pass(t)
    case ToNotify(_, _) => NotifyAll(t)
  }

  /** The next step of a thread that holds the gate. */
  ghost function GateNext(pc: Pc, t: nat): Step { if pc.ToSleep? then Sleep(t) else ReadGate(t) }

  /**
  No follower sleeps unless a leader that will still notify is in flight, and that leader
  is not stuck: its next step can be taken, or the holder of the lock it needs can move.
  */
  lemma SleeperWillBeWoken(s0: St, steps: seq<Step>, s: St, t: nat) returns (leader: nat)
    requires Init(s0) && Runs(s0, steps, s) && t in s.pcs && s.pcs[t].Asleep?
    ensures leader in s.pcs && (BeforeGate(s.pcs[leader]) || s.pcs[leader].ToNotify?)
    ensures Enabled(s, LeaderNext(s.pcs[leader], leader))
         || (s.lock.By? && s.lock.t in s.pcs && (s.pcs[s.lock.t].Lead? || s.pcs[s.lock.t].End?)
             && Enabled(s, LeaderNext(s.pcs[s.lock.t], s.lock.t)))
         || (s.gate.By? && s.gate.t in s.pcs && Enabled(s, GateNext(s.pcs[s.gate.t], s.gate.t)))
    ensures s.pcs[leader].ToNotify? ==> Apply(s, NotifyAll(leader)).pcs[t] == Loop(s.pcs[t].target)
  {
    RunKeepsInv(s0, steps, s);
    hide Runs, LogInv, Init, DataOk;
    assert PcOk(s, t);
    leader :| leader in s.pcs && (BeforeGate(s.pcs[leader]) || s.pcs[leader].ToNotify?);
    assert PcOk(s, leader);
    if s.lock.By? { assert PcOk(s, s.lock.t); }
    if s.gate.By? { assert PcOk(s, s.gate.t); }
  }
}
