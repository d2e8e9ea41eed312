/**
Write-ahead logging, checkpoints, segment reclaim and crash recovery as one state machine
(crates/engine/src/engine.rs, crates/engine/src/txn.rs, crates/storage/src/buffer_pool/shard.rs,
crates/storage/src/recovery/mod.rs).  A logged page change is one step: append, apply, stamp,
mark dirty.  A page written but not yet synced may or may not be on disk after a crash, and
so may any earlier image since the last sync.
*/
module Durability {
  import opened Options
  import opened Transaction
  import opened Redo
  import opened Recovery

  // ── State ──────────────────────────────────────────────────────────────────

  /** The buffer pool and the data file. */
  datatype Disk = Disk(
    init: Pages,                      // history: the pages as first created
    mem: Pages,                       // as the buffer pool shows them
    latest: Pages,                    // last written image
    older: map<PageId, set<Page>>,    // images written before it that a crash may still leave
    dirty: set<PageId>)

  datatype Settling = Committing | Aborting

  /** Transaction manager; `truncated` is the largest horizon the CLOG was truncated at. */
  datatype Txns = Txns(next: nat, active: set<nat>, wrote: set<nat>, settling: map<nat, Settling>,
                       clog: Clog, horizon: nat, truncated: nat, nextPage: nat)

  /** How far `Engine::checkpoint` is; it holds the status guard up to `GotPinned`. */
  datatype Stage = GotRedo | GotNext | GotActive | GotHorizon | GotPinned | Drafted | Logged | Flushing | Synced

  datatype Checkpointer =
    | Idle
    | Busy(stage: Stage, ck: Ckpt, at: nat, lsn: nat, todo: set<PageId>)

  datatype Mode = Running | Recovering(pos: nat)

  datatype Sys = Sys(
    mode: Mode,
    log: seq<Rec>,                    // every record ever logged and not lost
    durable: nat,
    base: nat,                        // records reclaimed with their segments
    sb: nat,                          // LSN in the superblock; 0 = no superblock
    sbAt: nat,                        // history: log length when that checkpoint read its counters
    cp: Checkpointer,
    d: Disk,
    x: Txns)

  ghost predicate Guarded(cp: Checkpointer) {
    cp.Busy? && (cp.stage.GotRedo? || cp.stage.GotNext? || cp.stage.GotActive? || cp.stage.GotHorizon? || cp.stage.GotPinned?)
  }

  ghost function Blocks(log: seq<Rec>): Log { seq(|log|, i requires 0 <= i < |log| => log[i].blocks) }

  ghost function Next(s: Sys): nat { |s.log| + 1 }

  ghost predicate OnDisk(d: Disk, p: PageId, q: Page) {
    q == Get(d.latest, p) || (p in d.older && q in d.older[p])
  }

  ghost function SbCkpt(s: Sys): Option<Ckpt> {
    if 0 < s.sb <= |s.log| && s.log[s.sb - 1].kind.Checkpoint? then Some(s.log[s.sb - 1].kind.ckpt) else None
  }

  ghost function Superblock(s: Sys): Recovery.Superblock { if s.sb == 0 then Missing else Names(s.sb) }

  /** Redo starts after this many records. */
  ghost function Floor(s: Sys): nat { Max(s.base, Pred(RedoPoint(SbCkpt(s)))) }

  // ── Steps ──────────────────────────────────────────────────────────────────

  datatype Step =
    | Begin | Change(rec: Rec) | LogFree(ids: seq<PageId>) | AllocPage
    | LogCommit(t: nat) | PublishCommit(t: nat) | LogAbort(t: nat) | PublishAbort(t: nat) | EndReadOnly(t: nat, ok: bool)
    | PublishHorizon(h: nat) | TruncateClog(committedHorizon: nat)
    | FlushWal(n: nat) | WritePage(p: PageId) | SyncData
    | CkptRead(redo: nat) | CkptLog | CkptFlush | CkptSync | CkptSuperblock | Reclaim(n: nat)
    | Crash(n: nat, disk: Pages) | RedoNext | FinishRecovery

  ghost predicate MayLog(x: Txns, t: nat) { t in x.active && t !in x.settling }

  ghost predicate Enabled(s: Sys, step: Step) {
    match step
    case Begin => s.mode.Running?
    case Change(rec) =>
      s.mode.Running? && rec.kind.Data? && (rec.txn == 0 || MayLog(s.x, rec.txn))
      && DistinctPages(rec.blocks) && Applies(s.d.mem, Next(s), rec.blocks)
      && forall b :: b in rec.blocks ==> b.page < s.x.nextPage
    case LogFree(_) => s.mode.Running?
    case AllocPage => s.mode.Running?
    case LogCommit(t) => s.mode.Running? && MayLog(s.x, t) && !Guarded(s.cp)
    case LogAbort(t) => s.mode.Running? && MayLog(s.x, t) && !Guarded(s.cp)
    case PublishCommit(t) =>
      s.mode.Running? && t in s.x.settling && s.x.settling[t].Committing?
      && s.durable <= |s.log| && HasCommit(s.log[..s.durable], t)
    case PublishAbort(t) => s.mode.Running? && t in s.x.settling && s.x.settling[t].Aborting?
    case EndReadOnly(t, _) => s.mode.Running? && MayLog(s.x, t) && t !in s.x.wrote
    case PublishHorizon(_) => s.mode.Running?
    case TruncateClog(_) => s.mode.Running?
    case FlushWal(n) => s.durable <= n <= |s.log|
    case WritePage(p) => p in s.d.dirty && Get(s.d.mem, p).lsn <= s.durable
    case SyncData => true
    case CkptRead(redo) =>
      s.mode.Running?
      && if s.cp.Idle? then s.x.settling == map[] && 1 <= redo <= Next(s) else Guarded(s.cp)
    case CkptLog => s.mode.Running? && s.cp.Busy? && s.cp.stage.Drafted?
    case CkptFlush => s.cp.Busy? && s.cp.stage.Logged? && s.cp.lsn <= s.durable
    case CkptSync => s.cp.Busy? && s.cp.stage.Flushing? && s.cp.todo == {}
    case CkptSuperblock => s.cp.Busy? && s.cp.stage.Synced?
    case Reclaim(n) => s.base <= n <= Pred(RedoPoint(SbCkpt(s)))
    case Crash(n, disk) =>
      s.durable <= n <= |s.log| && forall p {:trigger Get(disk, p)} :: OnDisk(s.d, p, Get(disk, p))
    case RedoNext =>
      s.mode.Recovering? && s.mode.pos < |s.log|
      && RedoBlocks(s.d.mem, s.mode.pos + 1, s.log[s.mode.pos].blocks).Some?
    case FinishRecovery => s.mode.Recovering? && s.mode.pos == |s.log| && s.base <= |s.log|
  }

  ghost function Append(s: Sys, rec: Rec): Sys { s.(log := s.log + [rec]) }

  ghost function Touched(blocks: seq<Block>): set<PageId> { set b | b in blocks :: b.page }

  /** `checkpoint`'s reads, in its order, each at its own moment. */
  ghost function ReadOne(s: Sys, redo: nat): Checkpointer
    requires s.cp.Idle? || Guarded(s.cp)
  {
    match s.cp
    case Idle => Busy(GotRedo, Ckpt(redo, 0, 0, 0, {}, {}), 0, 0, {})
    case Busy(stage, ck, at, lsn, todo) =>
      match stage
      case GotRedo => Busy(GotNext, ck.(nextTxn := s.x.next), |s.log|, lsn, todo)
      case GotNext => Busy(GotActive, ck.(active := s.x.active), at, lsn, todo)
      case GotActive => Busy(GotHorizon, ck.(horizon := s.x.horizon), at, lsn, todo)
      case GotHorizon => Busy(GotPinned, ck.(pinned := Pinned(s.x.clog, ck.horizon)), at, lsn, todo)
      case _ => Busy(Drafted, ck.(nextPage := s.x.nextPage), at, lsn, todo)
  }

  /** Does `truncate_clog` keep the entry of `t`? */
  ghost predicate Retained(x: Txns, committedHorizon: nat, t: nat)
    requires t in x.clog
  {
    match x.clog[t] case Active => true case Committed => t >= committedHorizon case Aborted => t >= x.horizon
  }

  ghost function Pinned(clog: Clog, h: nat): set<nat> { set t | t in clog && clog[t] == Aborted && t >= h }

  ghost function Apply(s: Sys, step: Step): Sys
    requires Enabled(s, step)
  {
    var x, d, cp := s.x, s.d, s.cp;
    match step
    case Begin => s.(x := x.(next := x.next + 1, active := x.active + {x.next}, wrote := x.wrote - {x.next},
                             clog := x.clog[x.next := Active]))
    case Change(rec) =>
      var mem := RedoBlocks(d.mem, Next(s), rec.blocks);
      Append(s, rec).(d := d.(mem := if mem.Some? then mem.value else d.mem, dirty := d.dirty + Touched(rec.blocks)),
                      x := x.(wrote := x.wrote + {rec.txn}))
    case LogFree(ids) => Append(s, Rec(0, Free(Some(ids)), []))
    case AllocPage => s.(x := x.(nextPage := x.nextPage + 1))
    case LogCommit(t) =>
      Append(s, Rec(t, Commit, [])).(x := x.(settling := x.settling[t := Committing], wrote := x.wrote + {t}))
    case LogAbort(t) =>
      Append(s, Rec(t, Abort, [])).(x := x.(settling := x.settling[t := Aborting], wrote := x.wrote + {t}))
    case PublishCommit(t) =>
      s.(x := x.(clog := x.clog[t := Committed], active := x.active - {t}, settling := x.settling - {t}))
    case PublishAbort(t) =>
      s.(x := x.(clog := x.clog[t := Aborted], active := x.active - {t}, settling := x.settling - {t}))
    case EndReadOnly(t, ok) =>
      s.(x := x.(clog := x.clog[t := if ok then Committed else Aborted], active := x.active - {t}))
    case PublishHorizon(h) => s.(x := x.(horizon := Max(x.horizon, h)))
    case TruncateClog(c) =>
      s.(x := x.(clog := map t | t in x.clog && Retained(x, c, t) :: x.clog[t],
                 truncated := Max(x.truncated, x.horizon)))
    case FlushWal(n) => s.(durable := n)
    case WritePage(p) =>
      s.(d := d.(latest := d.latest[p := Get(d.mem, p)],
                 older := d.older[p := (if p in d.older then d.older[p] else {}) + {Get(d.latest, p)}],
                 dirty := d.dirty - {p}),
         cp := if cp.Busy? then cp.(todo := cp.todo - {p}) else cp)
    case SyncData => s.(d := d.(older := map[]))
    case CkptRead(redo) => s.(cp := ReadOne(s, redo))
    case CkptLog => Append(s, Rec(0, Checkpoint(cp.ck), [])).(cp := cp.(stage := Logged, lsn := Next(s)))
    case CkptFlush => s.(cp := cp.(stage := Flushing, todo := d.dirty))
    case CkptSync => s.(cp := cp.(stage := Synced), d := d.(older := map[]))
    case CkptSuperblock => s.(sb := cp.lsn, sbAt := cp.at, cp := Idle)
    case Reclaim(n) => s.(base := n)
    case Crash(n, disk) =>
      var s1 := s.(log := s.log[..n], durable := n, cp := Idle, d := Disk(d.init, disk, disk, map[], {}),
                   x := Txns(0, {}, {}, map[], map[], 0, 0, 0));
      s1.(mode := Recovering(Floor(s1)))
    case RedoNext =>
      var blocks := s.log[s.mode.pos].blocks;
      s.(mode := Recovering(s.mode.pos + 1),
         d := d.(mem := RedoBlocks(d.mem, s.mode.pos + 1, blocks).value, dirty := d.dirty + Touched(blocks)))
    case FinishRecovery => s.(mode := Running, x := Rebuilt(SbCkpt(s), s.log[s.base..]))
  }

  /** The transaction manager `recover` leaves behind. */
  ghost function Rebuilt(ck: Option<Ckpt>, kept: seq<Rec>): Txns {
    var h := if ck.Some? then ck.value.horizon else 0;
    Txns(NextTxn(ck, kept), {}, {}, map[], RecoveredClog(ck, kept), h, h, NextPage(ck, kept))
  }

  ghost predicate Runs(s: Sys, steps: seq<Step>, s': Sys)
    decreases |steps|
  {
    if steps == [] then s' == s else Enabled(s, steps[0]) && Runs(Apply(s, steps[0]), steps[1..], s')
  }

  ghost predicate Init(s: Sys) {
    s.mode.Running? && s.log == [] && s.durable == 0 && s.base == 0 && s.sb == 0 && s.sbAt == 0 && s.cp.Idle?
    && (forall p {:trigger Get(s.d.init, p)} :: Get(s.d.init, p).lsn == 0)
    && s.d.mem == s.d.init && s.d.latest == s.d.init && s.d.older == map[] && s.d.dirty == {}
    && s.x.active == {} && s.x.wrote == {} && s.x.settling == map[] && s.x.clog == map[]
    && s.x.horizon == 0 && s.x.truncated == 0 && s.x.next >= 1
  }

  // ── Log invariant ──────────────────────────────────────────────────────────

  ghost predicate Named(log: seq<Rec>, ck: Ckpt, at: nat, lsn: nat) {
    at < lsn <= |log| && log[lsn - 1].kind == Checkpoint(ck)
  }

  ghost predicate CpInv(s: Sys) {
    s.cp.Busy? ==>
      s.mode.Running? && 1 <= s.cp.ck.redo
      && (if s.cp.stage.GotRedo? then s.cp.ck.redo <= Next(s) else s.cp.ck.redo - 1 <= s.cp.at <= |s.log| && s.sbAt <= s.cp.at)
      && (s.cp.stage.Logged? || s.cp.stage.Flushing? || s.cp.stage.Synced? ==> Named(s.log, s.cp.ck, s.cp.at, s.cp.lsn))
      && (s.cp.stage.Flushing? || s.cp.stage.Synced? ==> s.cp.lsn <= s.durable)
  }

  ghost predicate SbInv(s: Sys) {
    if s.sb == 0 then s.base == 0 && s.sbAt == 0
    else SbCkpt(s).Some? && s.base <= s.sbAt < s.sb <= s.durable && 1 <= SbCkpt(s).value.redo <= s.sbAt + 1
  }

  /** Commit, Abort, Checkpoint and OverflowFree records change no page. */
  ghost predicate PlainOutcomes(log: seq<Rec>) {
    forall i :: 0 <= i < |log| && !log[i].kind.Data? ==> log[i].blocks == [] && log[i].kind != Free(None)
  }

  ghost predicate LogInv(s: Sys) {
    s.durable <= |s.log| && SbInv(s) && CpInv(s) && PlainOutcomes(s.log)
    && (s.mode.Recovering? ==> s.durable == |s.log| && s.cp.Idle? && Floor(s) <= s.mode.pos <= |s.log|)
  }

  /** No step changes the durable part of the log or moves the mark back. */
  lemma PrefixStays(s: Sys, step: Step, n: nat)
    requires s.durable <= |s.log| && Enabled(s, step) && n <= s.durable
    ensures var s' := Apply(s, step);
            s.durable <= s'.durable <= |s'.log| && n <= |s'.log| && s'.log[..n] == s.log[..n]
  {
    hide RedoBlocks, Applies, OnDisk, Rebuilt, HasCommit;
  }

  lemma SbCkptStays(s: Sys, step: Step)
    requires s.durable <= |s.log| && SbInv(s) && Enabled(s, step) && !step.CkptSuperblock?
    ensures var s' := Apply(s, step); s'.sb == s.sb && s'.sbAt == s.sbAt && SbCkpt(s') == SbCkpt(s)
  {
    hide RedoBlocks, Applies, OnDisk, Rebuilt, HasCommit;
    PrefixStays(s, step, s.sb);
    if s.sb > 0 {
      var log' := Apply(s, step).log;
      assert log'[s.sb - 1] == log'[..s.sb][s.sb - 1] && s.log[s.sb - 1] == s.log[..s.sb][s.sb - 1];
    }
  }

  lemma SbInvStep(s: Sys, step: Step)
    requires LogInv(s) && Enabled(s, step)
    ensures SbInv(Apply(s, step)) && (!step.CkptSuperblock? && !step.Reclaim? ==> Floor(Apply(s, step)) == Floor(s))
  {
    PrefixStays(s, step, 0);
    if !step.CkptSuperblock? { SbCkptStays(s, step); }
    hide RedoBlocks, Applies, OnDisk, Rebuilt, HasCommit;
  }

  lemma CpInvStep(s: Sys, step: Step)
    requires LogInv(s) && Enabled(s, step)
    ensures CpInv(Apply(s, step))
  {
    PrefixStays(s, step, 0);
    if !step.CkptSuperblock? { SbCkptStays(s, step); }
    hide RedoBlocks, Applies, OnDisk, Rebuilt, HasCommit, Floor, SbCkpt;
  }

  lemma LogInvStep(s: Sys, step: Step)
    requires LogInv(s) && Enabled(s, step)
    ensures LogInv(Apply(s, step)) && (!step.CkptSuperblock? && !step.Reclaim? ==> Floor(Apply(s, step)) == Floor(s))
  {
    PrefixStays(s, step, 0);
    SbInvStep(s, step);
    CpInvStep(s, step);
    PlainStep(s, step);
    assert Floor(s) <= s.durable;
    hide RedoBlocks, Applies, OnDisk, Rebuilt, HasCommit, Floor, SbInv, CpInv, SbCkpt, PlainOutcomes;
  }

  lemma PlainStep(s: Sys, step: Step)
    requires s.durable <= |s.log| && Enabled(s, step) && PlainOutcomes(s.log)
    ensures PlainOutcomes(Apply(s, step).log)
  {
    hide RedoBlocks, Applies, OnDisk, Rebuilt, HasCommit;
  }

  // ── Page invariant ─────────────────────────────────────────────────────────

  ghost predicate Reaches(init: Pages, log: Log, k: nat, p: PageId, q: Page) {
    k <= |log| && Replay(init, log, k, p).lsn <= q.lsn
  }

  /** An image a crash may leave: of this page's own history, logged durably, and above the redo floor. */
  ghost predicate CandOk(init: Pages, log: Log, durable: nat, floor: nat, p: PageId, q: Page) {
    IsImage(init, log, p, q) && q.lsn <= durable && Reaches(init, log, floor, p, q)
  }

  ghost function Pos(s: Sys): nat { if s.mode.Running? then |s.log| else s.mode.pos }

  ghost predicate CleanOk(d: Disk, p: PageId) { p !in d.dirty ==> Get(d.latest, p) == Get(d.mem, p) }

  ghost predicate WrittenBack(s: Sys, p: PageId)
    requires s.cp.Busy?
  {
    p !in s.cp.todo ==> Reaches(s.d.init, Blocks(s.log), Pred(s.cp.ck.redo), p, Get(s.d.latest, p))
  }

  ghost predicate MemInv(s: Sys) {
    ValidLog(s.d.init, Blocks(s.log)) && Floor(s) <= Pos(s) <= |s.log|
    && AllUpTo(s.d.init, Blocks(s.log), Pos(s), s.d.mem)
    && forall p {:trigger CleanOk(s.d, p)} :: CleanOk(s.d, p)
  }

  ghost predicate CandInv(s: Sys) {
    forall p, q {:trigger OnDisk(s.d, p, q)} ::
      OnDisk(s.d, p, q) ==> CandOk(s.d.init, Blocks(s.log), s.durable, Floor(s), p, q)
  }

  ghost predicate FlushInv(s: Sys) {
    s.cp.Busy? ==>
      (s.cp.stage.Flushing? ==> forall p {:trigger WrittenBack(s, p)} :: WrittenBack(s, p))
      && (s.cp.stage.Synced? ==>
            forall p, q {:trigger OnDisk(s.d, p, q)} ::
              OnDisk(s.d, p, q) ==> Reaches(s.d.init, Blocks(s.log), Pred(s.cp.ck.redo), p, q))
  }

  ghost predicate PageInv(s: Sys) { MemInv(s) && CandInv(s) && FlushInv(s) }

  lemma ValidPrefix(init: Pages, log: Log, n: nat)
    requires ValidLog(init, log) && n <= |log|
    ensures ValidLog(init, log[..n])
  {
    forall k | 0 <= k < n ensures ValidRecord(init, log[..n], k) {
      assert ValidRecord(init, log, k) && log[..n][k] == log[k] && log[..n][..k] == log[..k];
      forall p | OpFor(log[k], p).Some? ensures Redo.Apply(OpFor(log[k], p).value, Replay(init, log[..n], k, p).content).Some? {
        ReplayPrefix(init, log, log[..n], k, p);
      }
    }
  }

  lemma ValidExtend(init: Pages, log: Log, blocks: seq<Block>)
    requires ValidLog(init, log) && DistinctPages(blocks)
    requires forall p {:trigger OpFor(blocks, p)} ::
      OpFor(blocks, p).Some? ==> Redo.Apply(OpFor(blocks, p).value, Replay(init, log, |log|, p).content).Some?
    ensures ValidLog(init, log + [blocks])
  {
    var log' := log + [blocks];
    forall k | 0 <= k < |log'| ensures ValidRecord(init, log', k) {
      assert log'[..k] == log[..k];
      if k < |log| { assert ValidRecord(init, log, k); }
      forall p | OpFor(log'[k], p).Some? ensures Redo.Apply(OpFor(log'[k], p).value, Replay(init, log', k, p).content).Some? {
        ReplayPrefix(init, log, log', k, p);
      }
    }
  }

  /** An image's standing does not change while the log keeps its records. */
  lemma SameHistory(init: Pages, log: Log, log': Log, n: nat, p: PageId, q: Page)
    requires n <= |log| && n <= |log'| && log[..n] == log'[..n]
    ensures q.lsn <= n ==> (IsImage(init, log, p, q) <==> IsImage(init, log', p, q))
    ensures forall k | 0 <= k <= n :: Reaches(init, log, k, p, q) == Reaches(init, log', k, p, q)
  {
    if q.lsn <= n {
      assert log[..q.lsn] == log[..n][..q.lsn] == log'[..q.lsn];
      ReplayPrefix(init, log, log', q.lsn, p);
    }
    forall k | 0 <= k <= n ensures Reaches(init, log, k, p, q) == Reaches(init, log', k, p, q) {
      assert log[..k] == log[..n][..k] == log'[..k];
      ReplayPrefix(init, log, log', k, p);
    }
  }

  lemma ReachesDown(init: Pages, log: Log, j: nat, k: nat, p: PageId, q: Page)
    requires ValidLog(init, log) && j <= k && Reaches(init, log, k, p, q)
    ensures Reaches(init, log, j, p, q)
  {
    assert Get(init, p).lsn == 0;
    ReplayLsn(init, log, j, k, p);
  }

  lemma BlocksAppend(log: seq<Rec>, rec: Rec)
    ensures Blocks(log + [rec]) == Blocks(log) + [rec.blocks]
    ensures Blocks(log + [rec])[..|log|] == Blocks(log)[..|log|]
  {
  }

  lemma BlocksCut(log: seq<Rec>, n: nat)
    requires n <= |log|
    ensures Blocks(log[..n]) == Blocks(log)[..n]
  {
  }

  /** In a running system every page in memory is the replay of the whole log. */
  lemma MemIsReplay(s: Sys, p: PageId)
    requires MemInv(s) && s.mode.Running?
    ensures Get(s.d.mem, p) == Replay(s.d.init, Blocks(s.log), |s.log|, p)
    ensures Get(s.d.mem, p).lsn <= |s.log|
  {
    assert UpTo(s.d.init, Blocks(s.log), |s.log|, p, Get(s.d.mem, p));
    UpToEnd(s.d.init, Blocks(s.log), p, Get(s.d.mem, p));
  }

  lemma UntouchedHasNoOp(blocks: seq<Block>, p: PageId)
    requires p !in Touched(blocks)
    ensures OpFor(blocks, p) == None
  {
    forall i | 0 <= i < |blocks| ensures blocks[i].page != p { assert blocks[i] in blocks; }
    OpForAbsent(blocks, p);
  }

  ghost predicate Appended(s: Sys, rec: Rec, s': Sys) {
    s.mode.Running? && s'.mode.Running? && s'.log == s.log + [rec] && s'.durable == s.durable && Floor(s') == Floor(s)
    && DistinctPages(rec.blocks) && Applies(s.d.mem, Next(s), rec.blocks)
    && RedoBlocks(s.d.mem, Next(s), rec.blocks).Some?
    && s'.d == s.d.(mem := RedoBlocks(s.d.mem, Next(s), rec.blocks).value, dirty := s.d.dirty + Touched(rec.blocks))
    && (s'.cp == s.cp || (s'.cp.Busy? && s'.cp.stage.Logged?))
  }

  lemma AppendKeepsValid(s: Sys, rec: Rec)
    requires MemInv(s) && s.mode.Running?
    requires DistinctPages(rec.blocks) && Applies(s.d.mem, Next(s), rec.blocks)
    ensures ValidLog(s.d.init, Blocks(s.log + [rec]))
  {
    var log := Blocks(s.log);
    forall p | OpFor(rec.blocks, p).Some?
      ensures Redo.Apply(OpFor(rec.blocks, p).value, Replay(s.d.init, log, |log|, p).content).Some? {
      MemIsReplay(s, p);
    }
    ValidExtend(s.d.init, log, rec.blocks);
    BlocksAppend(s.log, rec);
  }

  lemma AppendKeepsMem(s: Sys, rec: Rec, s': Sys)
    requires LogInv(s) && MemInv(s) && Appended(s, rec, s')
    ensures MemInv(s')
  {
    hide Floor, RedoBlocks;
    var init, log, log' := s.d.init, Blocks(s.log), Blocks(s'.log);
    AppendKeepsValid(s, rec);
    BlocksAppend(s.log, rec);
    assert AllUpTo(init, log', |s.log|, s.d.mem) by {
      forall p ensures UpTo(init, log', |s.log|, p, Get(s.d.mem, p)) {
        MemIsReplay(s, p);
        SameHistory(init, log, log', |s.log|, p, Get(s.d.mem, p));
        assert Reaches(init, log, |s.log|, p, Get(s.d.mem, p));
        assert UpTo(init, log, |s.log|, p, Get(s.d.mem, p));
      }
    }
    RedoRecordKeeps(init, log', |s.log|, s.d.mem);
    RedoBlocksPointwise(s.d.mem, Next(s), rec.blocks);
    forall p ensures CleanOk(s'.d, p) {
      assert CleanOk(s.d, p);
      if p !in s'.d.dirty {
        UntouchedHasNoOp(rec.blocks, p);
        assert Get(s'.d.mem, p) == Get(s.d.mem, p);
      }
    }
  }

  lemma AppendKeepsPages(s: Sys, rec: Rec, s': Sys)
    requires LogInv(s) && PageInv(s) && Appended(s, rec, s')
    ensures PageInv(s')
  {
    AppendKeepsMem(s, rec, s');
    hide Floor, RedoBlocks, Applies, MemInv, DistinctPages, SbInv;
    var init, log, log' := s.d.init, Blocks(s.log), Blocks(s'.log);
    BlocksAppend(s.log, rec);
    forall p, q | OnDisk(s'.d, p, q)
      ensures CandOk(init, log', s'.durable, Floor(s'), p, q)
      ensures s'.cp.Busy? && s'.cp.stage.Synced? ==> Reaches(init, log', Pred(s'.cp.ck.redo), p, q)
    {
      assert OnDisk(s.d, p, q);
      SameHistory(init, log, log', |s.log|, p, q);
    }
    if s'.cp.Busy? && s'.cp.stage.Flushing? {
      forall p ensures WrittenBack(s', p) {
        assert WrittenBack(s, p);
        SameHistory(init, log, log', |s.log|, p, Get(s.d.latest, p));
      }
    }
  }

  ghost predicate Logs(step: Step) { step.Change? || step.LogCommit? || step.LogAbort? || step.LogFree? || step.CkptLog? }

  ghost function RecOf(s: Sys, step: Step): Rec
    requires Enabled(s, step) && Logs(step)
  {
    if step.Change? then step.rec
    else if step.LogCommit? then Rec(step.t, Commit, [])
    else if step.LogAbort? then Rec(step.t, Abort, [])
    else if step.LogFree? then Rec(0, Free(Some(step.ids)), [])
    else Rec(0, Checkpoint(s.cp.ck), [])
  }

  lemma AppendStepKeepsPages(s: Sys, step: Step)
    requires LogInv(s) && PageInv(s) && Enabled(s, step) && Logs(step)
    ensures PageInv(Apply(s, step))
  {
    var rec := RecOf(s, step);
    if step.Change? { RedoBlocksPointwise(s.d.mem, Next(s), rec.blocks); }
    else { assert forall p :: OpFor(rec.blocks, p) == None; }
    LogInvStep(s, step);
    AppendKeepsPages(s, rec, Apply(s, step));
  }

  lemma WriteKeepsPages(s: Sys, step: Step)
    requires LogInv(s) && PageInv(s) && Enabled(s, step) && step.WritePage?
    ensures PageInv(Apply(s, step))
  {
    LogInvStep(s, step);
    hide Floor, SbInv;
    var s', init, log := Apply(s, step), s.d.init, Blocks(s.log);
    var image := Get(s.d.mem, step.p);
    assert UpTo(init, log, Pos(s), step.p, image);
    ReachesDown(init, log, Floor(s), Pos(s), step.p, image);
    if s.cp.Busy? && (s.cp.stage.Flushing? || s.cp.stage.Synced?) { ReachesDown(init, log, Pred(s.cp.ck.redo), Pos(s), step.p, image); }
    forall p, q | OnDisk(s'.d, p, q)
      ensures CandOk(init, log, s'.durable, Floor(s'), p, q)
      ensures s'.cp.Busy? && s'.cp.stage.Synced? ==> Reaches(init, log, Pred(s'.cp.ck.redo), p, q)
    {
      assert OnDisk(s.d, p, q) || (p == step.p && q == image);
    }
    forall p ensures CleanOk(s'.d, p) { assert CleanOk(s.d, p); }
    if s'.cp.Busy? && s'.cp.stage.Flushing? {
      forall p ensures WrittenBack(s', p) { assert WrittenBack(s, p); }
    }
  }

  lemma CrashKeepsPages(s: Sys, step: Step)
    requires LogInv(s) && PageInv(s) && Enabled(s, step) && step.Crash?
    ensures PageInv(Apply(s, step))
  {
    LogInvStep(s, step);
    assert Floor(s) <= s.durable;
    hide Floor, SbInv, CpInv;
    var s', init, log, n := Apply(s, step), s.d.init, Blocks(s.log), step.n;
    BlocksCut(s.log, n);
    ValidPrefix(init, log, n);
    assert log[..n][..n] == log[..n];
    forall p ensures CandOk(init, log[..n], n, Floor(s'), p, Get(step.disk, p)) {
      var q := Get(step.disk, p);
      assert OnDisk(s.d, p, q);
      SameHistory(init, log, log[..n], n, p, q);
    }
    forall p ensures UpTo(init, log[..n], Floor(s'), p, Get(s'.d.mem, p)) {
      assert CandOk(init, log[..n], n, Floor(s'), p, Get(step.disk, p));
    }
    forall p ensures CleanOk(s'.d, p) {}
  }

  lemma RedoKeepsPages(s: Sys, step: Step)
    requires LogInv(s) && PageInv(s) && Enabled(s, step) && (step.RedoNext? || step.FinishRecovery?)
    ensures PageInv(Apply(s, step))
  {
    LogInvStep(s, step);
    hide Floor, SbInv, RecoveredClog, NextTxn, NextPage;
    var s', init, log := Apply(s, step), s.d.init, Blocks(s.log);
    forall p, q | OnDisk(s'.d, p, q) ensures CandOk(init, log, s'.durable, Floor(s'), p, q) { assert OnDisk(s.d, p, q); }
    if step.RedoNext? {
      var n := s.mode.pos;
      RedoRecordKeeps(init, log, n, s.d.mem);
      assert ValidRecord(init, log, n);
      forall p | OpFor(log[n], p).Some? ensures RedoBlock(Get(s.d.mem, p), n + 1, OpFor(log[n], p).value).Some? {
        assert UpTo(init, log, n, p, Get(s.d.mem, p));
        RedoStep(init, log, n, p, Get(s.d.mem, p));
      }
      RedoBlocksPointwise(s.d.mem, n + 1, log[n]);
      forall p ensures CleanOk(s'.d, p) {
        assert CleanOk(s.d, p);
        if p !in s'.d.dirty {
          UntouchedHasNoOp(log[n], p);
          assert Get(s'.d.mem, p) == Get(s.d.mem, p);
        }
      }
    } else {
      forall p ensures CleanOk(s'.d, p) { assert CleanOk(s.d, p); }
    }
  }

  lemma SyncKeepsPages(s: Sys, step: Step)
    requires LogInv(s) && PageInv(s) && Enabled(s, step) && (step.SyncData? || step.CkptSync? || step.CkptFlush?)
    ensures PageInv(Apply(s, step))
  {
    LogInvStep(s, step);
    hide Floor, SbInv;
    var s', init, log := Apply(s, step), s.d.init, Blocks(s.log);
    forall p, q | OnDisk(s'.d, p, q)
      ensures CandOk(init, log, s'.durable, Floor(s'), p, q)
      ensures s'.cp.Busy? && s'.cp.stage.Synced? ==> Reaches(init, log, Pred(s'.cp.ck.redo), p, q)
    {
      assert OnDisk(s.d, p, q);
      if step.CkptSync? { assert WrittenBack(s, p); }
    }
    forall p ensures CleanOk(s'.d, p) { assert CleanOk(s.d, p); }
    if s'.cp.Busy? && s'.cp.stage.Flushing? {
      forall p ensures WrittenBack(s', p) {
        if step.CkptFlush? {
          assert CleanOk(s.d, p) && UpTo(init, log, Pos(s), p, Get(s.d.mem, p));
          ReachesDown(init, log, Pred(s.cp.ck.redo), Pos(s), p, Get(s.d.mem, p));
        } else { assert WrittenBack(s, p); }
      }
    }
  }

  lemma SuperblockKeepsPages(s: Sys, step: Step)
    requires LogInv(s) && PageInv(s) && Enabled(s, step) && (step.CkptSuperblock? || step.Reclaim?)
    ensures PageInv(Apply(s, step))
  {
    LogInvStep(s, step);
    var s', init, log := Apply(s, step), s.d.init, Blocks(s.log);
    forall p, q | OnDisk(s'.d, p, q)
      ensures CandOk(init, log, s'.durable, Floor(s'), p, q)
      ensures s'.cp.Busy? && s'.cp.stage.Synced? ==> Reaches(init, log, Pred(s'.cp.ck.redo), p, q)
    {
      assert OnDisk(s.d, p, q);
      if Floor(s') <= Floor(s) { ReachesDown(init, log, Floor(s'), Floor(s), p, q); }
    }
    hide PlainOutcomes, ValidLog, AllUpTo;
    forall p ensures CleanOk(s'.d, p) { assert CleanOk(s.d, p); }
    if s'.cp.Busy? && s'.cp.stage.Flushing? {
      forall p ensures WrittenBack(s', p) { assert WrittenBack(s, p); }
    }
  }

  /** The steps that leave pages and log alone. */
  lemma QuietKeepsPages(s: Sys, step: Step)
    requires LogInv(s) && PageInv(s) && Enabled(s, step) && LogInv(Apply(s, step))
    requires !Logs(step) && !step.WritePage? && !step.Crash? && !step.RedoNext? && !step.FinishRecovery?
    requires !step.SyncData? && !step.CkptSync? && !step.CkptFlush? && !step.CkptSuperblock? && !step.Reclaim?
    ensures PageInv(Apply(s, step))
  {
    var s', init, log := Apply(s, step), s.d.init, Blocks(s.log);
    assert s'.d == s.d && s'.log == s.log && s'.mode == s.mode && Floor(s') == Floor(s) && s.durable <= s'.durable;
    hide Floor, SbInv, CpInv;
    assert forall p :: CleanOk(s.d, p) ==> CleanOk(s'.d, p);
    if s'.cp.Busy? && s'.cp.stage.Flushing? {
      forall p ensures WrittenBack(s', p) { assert WrittenBack(s, p); }
    }
  }

  lemma PageInvStep(s: Sys, step: Step)
    requires LogInv(s) && PageInv(s) && Enabled(s, step)
    ensures PageInv(Apply(s, step))
  {
    LogInvStep(s, step);
    hide LogInv, PageInv, Enabled, Apply;
    if Logs(step) { AppendStepKeepsPages(s, step); }
    else if step.WritePage? { WriteKeepsPages(s, step); }
    else if step.Crash? { CrashKeepsPages(s, step); }
    else if step.RedoNext? || step.FinishRecovery? { RedoKeepsPages(s, step); }
    else if step.SyncData? || step.CkptSync? || step.CkptFlush? { SyncKeepsPages(s, step); }
    else if step.CkptSuperblock? || step.Reclaim? { SuperblockKeepsPages(s, step); }
    else { QuietKeepsPages(s, step); }
  }

  // ── Transaction invariant ──────────────────────────────────────────────────

  ghost predicate TxnOk(log: seq<Rec>, durable: nat, x: Txns, t: nat)
    requires durable <= |log|
  {
    (HasRec(log, t) || t in x.active ==> t < x.next)
    && (t in x.active ==> t in x.clog && x.clog[t] == Active)
    && (t in x.active && HasRec(log, t) ==> t in x.wrote)
    && (t in x.active ==> (HasCommit(log, t) <==> t in x.settling && x.settling[t].Committing?))
    && (t in x.active ==> (HasAbort(log, t) <==> t in x.settling && x.settling[t].Aborting?))
    && (ClogAborted(x.clog, t) ==> !HasCommit(log, t))
    && (HasRec(log, t) && t in x.clog && x.clog[t] == Committed ==> HasCommit(log[..durable], t))
  }

  ghost predicate PagesKnown(log: seq<Rec>, nextPage: nat) {
    forall i, b :: 0 <= i < |log| && b in log[i].blocks ==> b.page < nextPage
  }

  ghost predicate TxnInv(s: Sys) {
    s.mode.Running? && s.durable <= |s.log| ==>
      0 !in s.x.active && s.x.settling.Keys <= s.x.active && s.x.next >= 1 && PagesKnown(s.log, s.x.nextPage)
      && forall t: nat {:trigger TxnOk(s.log, s.durable, s.x, t)} :: t != 0 ==> TxnOk(s.log, s.durable, s.x, t)
  }

  /** What the checkpoint has right so far about `t`, while it holds the guard. */
  ghost predicate DraftOk(log: seq<Rec>, x: Txns, cp: Checkpointer, t: nat)
    requires cp.Busy? && cp.at <= |log|
  {
    var has, ck := HasRec(log[..cp.at], t), cp.ck;
    (has ==> t < ck.nextTxn)
    && (cp.stage.GotActive? || cp.stage.GotHorizon? ==> t in ck.active ==> !HasCommit(log[..cp.at], t))
    && (cp.stage.GotPinned? ==> Accounted(log, ck, cp.at, t))
  }

  ghost predicate DraftInv(s: Sys) {
    Guarded(s.cp) ==>
      s.x.settling == map[]
      && (!s.cp.stage.GotRedo? && s.cp.at <= |s.log| ==>
            (forall i :: s.cp.at <= i < |s.log| ==> !s.log[i].kind.Commit?)
            && forall t: nat {:trigger DraftOk(s.log, s.x, s.cp, t)} :: t != 0 ==> DraftOk(s.log, s.x, s.cp, t))
  }

  ghost predicate CkptsOk(s: Sys) {
    SettleLast(s.log)
    && (s.sb > 0 && SbCkpt(s).Some? && s.sbAt <= |s.log| ==> CkptOk(s.log, SbCkpt(s).value, s.sbAt))
    && (s.cp.Busy? && !Guarded(s.cp) && s.cp.at <= |s.log| ==> CkptOk(s.log, s.cp.ck, s.cp.at))
  }

  lemma AppendHas(log: seq<Rec>, rec: Rec, t: nat)
    ensures HasRec(log + [rec], t) <==> HasRec(log, t) || rec.txn == t
    ensures HasCommit(log + [rec], t) <==> HasCommit(log, t) || (rec.txn == t && rec.kind.Commit?)
    ensures HasAbort(log + [rec], t) <==> HasAbort(log, t) || (rec.txn == t && rec.kind.Abort?)
    ensures forall n | 0 <= n <= |log| :: (log + [rec])[..n] == log[..n]
  {
    var log' := log + [rec];
    assert log'[|log|] == rec && forall i :: 0 <= i < |log| ==> log'[i] == log[i];
    if HasRec(log, t) { var i :| 0 <= i < |log| && log[i].txn == t; assert log'[i].txn == t; }
    if HasCommit(log, t) { var i :| 0 <= i < |log| && log[i].txn == t && log[i].kind.Commit?; assert log'[i].kind.Commit?; }
    if HasAbort(log, t) { var i :| 0 <= i < |log| && log[i].txn == t && log[i].kind.Abort?; assert log'[i].kind.Abort?; }
  }

  lemma PrefixHas(log: seq<Rec>, n: nat, t: nat)
    requires n <= |log|
    ensures HasRec(log[..n], t) ==> HasRec(log, t)
    ensures HasCommit(log[..n], t) ==> HasCommit(log, t)
  {
    assert forall i :: 0 <= i < n ==> log[..n][i] == log[i];
  }

  lemma OutcomeIsRec(log: seq<Rec>, t: nat)
    ensures HasCommit(log, t) || HasAbort(log, t) ==> HasRec(log, t)
  {
  }

  lemma CommitInPrefix(log: seq<Rec>, n: nat, t: nat)
    requires n <= |log| && HasCommit(log, t) && forall i :: n <= i < |log| ==> !log[i].kind.Commit?
    ensures HasCommit(log[..n], t)
  {
    var i :| 0 <= i < |log| && log[i].txn == t && log[i].kind.Commit?;
    assert log[..n][i] == log[i];
  }

  lemma TxnOkAppend(s: Sys, step: Step, t: nat)
    requires LogInv(s) && TxnInv(s) && Enabled(s, step) && Logs(step) && t != 0
    ensures var s' := Apply(s, step); TxnOk(s'.log, s.durable, s'.x, t)
  {
    hide RedoBlocks, HasRec, HasCommit, HasAbort, Floor, CpInv, SbInv, Applies, DistinctPages, PagesKnown;
    AppendHas(s.log, RecOf(s, step), t);
    assert TxnOk(s.log, s.durable, s.x, t);
  }

  lemma TxnOkFlush(s: Sys, n: nat, t: nat)
    requires s.durable <= n <= |s.log| && TxnOk(s.log, s.durable, s.x, t)
    ensures TxnOk(s.log, n, s.x, t)
  {
    hide HasRec, HasAbort;
    assert s.log[..n][..s.durable] == s.log[..s.durable];
    PrefixHas(s.log[..n], s.durable, t);
  }

  lemma TxnOkSettle(s: Sys, step: Step, t: nat)
    requires LogInv(s) && TxnInv(s) && Enabled(s, step) && s.mode.Running? && t != 0
    requires !Logs(step) && !step.Crash? && !step.RedoNext? && !step.FinishRecovery? && !step.FlushWal?
    ensures var s' := Apply(s, step); s'.log == s.log && s'.durable == s.durable && TxnOk(s.log, s.durable, s'.x, t)
  {
    hide RedoBlocks, HasRec, HasCommit, HasAbort, Floor, CpInv, SbInv, Applies, OnDisk, PagesKnown;
    OutcomeIsRec(s.log, t);
    assert TxnOk(s.log, s.durable, s.x, t);
    if step.PublishCommit? || step.PublishAbort? { assert TxnOk(s.log, s.durable, s.x, step.t); }
    if step.PublishCommit? { PrefixHas(s.log, s.durable, step.t); }
  }

  // ── Rebuilding the transaction manager ─────────────────────────────────────

  lemma {:induction false} MaxTxnBounds(m: nat, kept: seq<Rec>)
    ensures m <= MaxTxn(m, kept)
    ensures forall i :: 0 <= i < |kept| ==> kept[i].txn <= MaxTxn(m, kept)
    decreases |kept|
  {
    if kept != [] {
      MaxTxnBounds(Max(m, kept[0].txn), kept[1..]);
      forall i | 0 <= i < |kept| ensures kept[i].txn <= MaxTxn(m, kept) { if i > 0 { assert kept[i] == kept[1..][i - 1]; } }
    }
  }

  lemma {:induction false} MaxPageOfBounds(m: nat, blocks: seq<Block>)
    ensures m <= MaxPageOf(m, blocks)
    ensures forall b :: b in blocks ==> b.page <= MaxPageOf(m, blocks)
    decreases |blocks|
  {
    if blocks != [] {
      MaxPageOfBounds(Max(m, blocks[0].page), blocks[1..]);
      forall b | b in blocks ensures b.page <= MaxPageOf(m, blocks) { assert b == blocks[0] || b in blocks[1..]; }
    }
  }

  lemma {:induction false} MaxPageBounds(m: nat, kept: seq<Rec>)
    ensures m <= MaxPage(m, kept)
    ensures forall i, b :: 0 <= i < |kept| && b in kept[i].blocks ==> b.page <= MaxPage(m, kept)
    decreases |kept|
  {
    if kept != [] {
      MaxPageOfBounds(m, kept[0].blocks);
      MaxPageBounds(MaxPageOf(m, kept[0].blocks), kept[1..]);
      forall i, b | 0 <= i < |kept| && b in kept[i].blocks ensures b.page <= MaxPage(m, kept) {
        if i > 0 { assert kept[i] == kept[1..][i - 1]; }
      }
    }
  }

  /** The restored watermarks pass every id that left a record, reclaimed or not. */
  lemma WatermarksPass(log: seq<Rec>, base: nat, ck: Option<Ckpt>, at: nat)
    requires base <= at <= |log| && (ck.None? ==> base == 0) && (ck.Some? ==> CkptOk(log, ck.value, at))
    ensures forall i :: 0 <= i < |log| ==> log[i].txn < NextTxn(ck, log[base..])
    ensures PagesKnown(log, NextPage(ck, log[base..]))
  {
    var kept := log[base..];
    var n, m := if ck.Some? then ck.value.nextTxn else 0, if ck.Some? then ck.value.nextPage else 0;
    MaxTxnBounds(Pred(n), kept);
    MaxPageBounds(Pred(m), kept);
    forall i | 0 <= i < |log| ensures log[i].txn < NextTxn(ck, kept) {
      if i >= base { assert kept[i - base] == log[i]; }
      else {
        assert log[..at][i] == log[i] && HasRec(log[..at], log[i].txn);
        if log[i].txn != 0 { assert Accounted(log, ck.value, at, log[i].txn); }
      }
    }
    forall i, b | 0 <= i < |log| && b in log[i].blocks ensures b.page < NextPage(ck, kept) {
      if i >= base { assert kept[i - base] == log[i]; }
    }
  }

  /** What `recover` leaves says about `t` exactly what the invariant asks. */
  lemma RebuiltOk(log: seq<Rec>, base: nat, ck: Option<Ckpt>, at: nat, t: nat)
    requires SettleLast(log) && base <= at <= |log| && (ck.None? ==> base == 0) && (ck.Some? ==> CkptOk(log, ck.value, at))
    requires t != 0
    ensures TxnOk(log, |log|, Rebuilt(ck, log[base..]), t)
  {
    hide NextTxn, NextPage, CkptOk, Accounted;
    var kept, x := log[base..], Rebuilt(ck, log[base..]);
    WatermarksPass(log, base, ck, at);
    assert log[..|log|] == log;
    if HasCommit(log, t) { CommittedStays(log, base, ck, at, t); }
    if t in x.clog && x.clog[t] == Committed {
      SettleLastSuffix(log, base);
      MarkAllOutcome(Seed(if ck.Some? then ck.value.pinned else {}), kept, t);
      var i :| 0 <= i < |kept| && kept[i].txn == t && kept[i].kind.Commit?;
      assert log[base + i] == kept[i];
    }
  }

  lemma TxnOkStep(s: Sys, step: Step, t: nat)
    requires LogInv(s) && TxnInv(s) && CkptsOk(s) && Enabled(s, step) && Apply(s, step).mode.Running? && t != 0
    ensures var s' := Apply(s, step); TxnOk(s'.log, s'.durable, s'.x, t)
  {
    hide RedoBlocks, HasRec, HasCommit, HasAbort, Floor, CpInv, Applies, OnDisk, TxnOk, RecoveredClog, NextTxn, NextPage, CkptOk;
    if s.mode.Running? { assert TxnOk(s.log, s.durable, s.x, t); }
    if step.FinishRecovery? { RebuiltOk(s.log, s.base, SbCkpt(s), s.sbAt, t); }
    else if Logs(step) { TxnOkAppend(s, step, t); }
    else if step.FlushWal? { TxnOkFlush(s, step.n, t); }
    else { TxnOkSettle(s, step, t); }
  }

  lemma TxnInvStep(s: Sys, step: Step)
    requires LogInv(s) && TxnInv(s) && CkptsOk(s) && Enabled(s, step)
    ensures TxnInv(Apply(s, step))
  {
    LogInvStep(s, step);
    var s' := Apply(s, step);
    hide RedoBlocks, HasRec, HasCommit, HasAbort, Floor, CpInv, Applies, OnDisk, TxnOk, RecoveredClog, NextTxn, NextPage, CkptOk;
    if s'.mode.Running? {
      forall t: nat | t != 0 ensures TxnOk(s'.log, s'.durable, s'.x, t) { TxnOkStep(s, step, t); }
      if step.FinishRecovery? { WatermarksPass(s.log, s.base, SbCkpt(s), s.sbAt); }
    }
  }

  // ── Checkpoint invariants ──────────────────────────────────────────────────

  /** A step other than a read, seen from a checkpoint that holds the guard. */
  lemma DraftOkKept(s: Sys, step: Step, t: nat)
    requires LogInv(s) && TxnInv(s) && Enabled(s, step) && Guarded(s.cp) && !s.cp.stage.GotRedo? && t != 0
    requires s.x.settling == map[] && DraftOk(s.log, s.x, s.cp, t)
    requires !step.CkptRead? && !step.Crash?
    ensures var s' := Apply(s, step); s'.cp.Busy? && s.cp.at <= |s'.log| && DraftOk(s'.log, s'.x, s'.cp, t)
  {
    hide RedoBlocks, HasRec, HasCommit, HasAbort, Floor, SbInv, Applies, OnDisk, PagesKnown;
    if Logs(step) { AppendHas(s.log, RecOf(s, step), t); }
    assert TxnOk(s.log, s.durable, s.x, t);
    PrefixHas(s.log, s.cp.at, t);
  }

  lemma DraftOkRead(s: Sys, step: Step, t: nat)
    requires LogInv(s) && TxnInv(s) && DraftInv(s) && Enabled(s, step) && step.CkptRead?
    requires Guarded(s.cp) && t != 0
    ensures var s' := Apply(s, step);
            s'.cp.Busy? && s'.cp.at <= |s.log| && DraftOk(s.log, s.x, s'.cp, t)
            && (s.cp.stage.GotPinned? ==> Accounted(s.log, s'.cp.ck, s'.cp.at, t))
  {
    hide HasRec, HasCommit, HasAbort, Floor, SbInv, PagesKnown;
    var s' := Apply(s, step);
    assert TxnOk(s.log, s.durable, s.x, t);
    PrefixHas(s.log, s'.cp.at, t);
    OutcomeIsRec(s.log, t);
    if !s.cp.stage.GotRedo? {
      assert DraftOk(s.log, s.x, s.cp, t);
      if HasCommit(s.log, t) { CommitInPrefix(s.log, s.cp.at, t); }
    }
  }

  lemma DraftInvStep(s: Sys, step: Step)
    requires LogInv(s) && TxnInv(s) && DraftInv(s) && Enabled(s, step)
    ensures DraftInv(Apply(s, step))
  {
    LogInvStep(s, step);
    var s' := Apply(s, step);
    hide RedoBlocks, HasRec, HasCommit, HasAbort, Floor, SbInv, Applies, OnDisk, PagesKnown, DraftOk, TxnOk;
    if Guarded(s'.cp) && !s'.cp.stage.GotRedo? {
      forall t: nat | t != 0 ensures DraftOk(s'.log, s'.x, s'.cp, t) {
        if step.CkptRead? { DraftOkRead(s, step, t); }
        else { assert DraftOk(s.log, s.x, s.cp, t); DraftOkKept(s, step, t); }
      }
    }
  }

  /** A checkpoint's account is about a prefix, so it outlasts appends and crashes. */
  lemma CkptOkSamePrefix(log: seq<Rec>, log': seq<Rec>, ck: Ckpt, at: nat)
    requires at <= |log| && at <= |log'| && log[..at] == log'[..at] && CkptOk(log, ck, at)
    ensures CkptOk(log', ck, at)
  {
    forall t: nat | t != 0 ensures Accounted(log', ck, at, t) { assert Accounted(log, ck, at, t); }
    forall i, b | 0 <= i < at && b in log'[i].blocks ensures b.page < ck.nextPage { assert log'[i] == log'[..at][i] == log[i]; }
  }

  lemma SettleLastStep(s: Sys, step: Step)
    requires LogInv(s) && TxnInv(s) && SettleLast(s.log) && Enabled(s, step)
    ensures SettleLast(Apply(s, step).log)
  {
    hide RedoBlocks, Floor, SbInv, CpInv, Applies, OnDisk, PagesKnown;
    if Logs(step) {
      var rec := RecOf(s, step);
      if rec.txn != 0 { assert TxnOk(s.log, s.durable, s.x, rec.txn); }
    }
  }

  lemma DraftDone(s: Sys, step: Step)
    requires LogInv(s) && TxnInv(s) && DraftInv(s) && Enabled(s, step) && step.CkptRead?
    requires Guarded(s.cp) && s.cp.stage.GotPinned?
    ensures var cp := Apply(s, step).cp; cp.Busy? && cp.at <= |s.log| && CkptOk(s.log, cp.ck, cp.at)
  {
    hide HasRec, HasCommit, HasAbort, Floor, SbInv;
    var cp := Apply(s, step).cp;
    forall t: nat | t != 0 ensures Accounted(s.log, cp.ck, cp.at, t) { DraftOkRead(s, step, t); }
  }

  lemma SbCkptOkStep(s: Sys, step: Step)
    requires LogInv(s) && CkptsOk(s) && Enabled(s, step) && LogInv(Apply(s, step))
    ensures var s' := Apply(s, step); s'.sb > 0 ==> CkptOk(s'.log, SbCkpt(s').value, s'.sbAt)
  {
    var s' := Apply(s, step);
    hide RedoBlocks, SettleLast, Floor, Applies, OnDisk, CkptOk;
    if s'.sb > 0 {
      if step.CkptSuperblock? { assert SbCkpt(s').value == s.cp.ck; }
      else {
        SbCkptStays(s, step);
        PrefixStays(s, step, s.sbAt);
        hide Apply, Enabled;
        CkptOkSamePrefix(s.log, s'.log, SbCkpt(s).value, s.sbAt);
      }
    }
  }

  lemma CpCkptOkStep(s: Sys, step: Step)
    requires LogInv(s) && TxnInv(s) && DraftInv(s) && CkptsOk(s) && Enabled(s, step)
    ensures var s' := Apply(s, step);
            s'.cp.Busy? && !Guarded(s'.cp) && s'.cp.at <= |s'.log| ==> CkptOk(s'.log, s'.cp.ck, s'.cp.at)
  {
    var s' := Apply(s, step);
    hide RedoBlocks, SettleLast, Floor, Applies, OnDisk, CkptOk, TxnInv, DraftInv, SbInv;
    if s'.cp.Busy? && !Guarded(s'.cp) {
      if step.CkptRead? { DraftDone(s, step); }
      else {
        assert s.log[..s.cp.at] == s'.log[..s.cp.at];
        CkptOkSamePrefix(s.log, s'.log, s.cp.ck, s.cp.at);
      }
    }
  }

  lemma CkptsOkStep(s: Sys, step: Step)
    requires LogInv(s) && TxnInv(s) && DraftInv(s) && CkptsOk(s) && Enabled(s, step)
    ensures CkptsOk(Apply(s, step))
  {
    LogInvStep(s, step);
    SettleLastStep(s, step);
    SbCkptOkStep(s, step);
    CpCkptOkStep(s, step);
    hide Apply, Enabled, LogInv, SettleLast, CkptOk, TxnInv, DraftInv;
  }

  // ── All reachable states ───────────────────────────────────────────────────

  ghost predicate Inv(s: Sys) { LogInv(s) && PageInv(s) && TxnInv(s) && DraftInv(s) && CkptsOk(s) }

  lemma InvInit(s: Sys)
    requires Init(s)
    ensures Inv(s)
  {
    var init, log := s.d.init, Blocks(s.log);
    assert s.log[..0] == [];
    forall p ensures CandOk(init, log, 0, 0, p, Get(init, p)) && UpTo(init, log, 0, p, Get(init, p)) {}
    forall p ensures CleanOk(s.d, p) {}
    forall p, q | OnDisk(s.d, p, q) ensures CandOk(init, log, 0, 0, p, q) {}
  }

  lemma InvStep(s: Sys, step: Step)
    requires Inv(s) && Enabled(s, step)
    ensures Inv(Apply(s, step))
  {
    hide LogInv, PageInv, TxnInv, DraftInv, CkptsOk, Enabled, Apply;
    LogInvStep(s, step);
    PageInvStep(s, step);
    TxnInvStep(s, step);
    DraftInvStep(s, step);
    CkptsOkStep(s, step);
  }

  lemma {:induction false} RunKeepsInv(s: Sys, steps: seq<Step>, s': Sys)
    requires Inv(s) && Runs(s, steps, s')
    ensures Inv(s')
    decreases |steps|
  {
    if steps != [] {
      InvStep(s, steps[0]);
      RunKeepsInv(Apply(s, steps[0]), steps[1..], s');
    }
  }

  // ── Crash and recovery ─────────────────────────────────────────────────────

  /** The redo pass over the kept segments is the redo pass over the whole log from the floor. */
  lemma {:induction false} RedoKeptIsRedoAll(pages: Pages, log: seq<Rec>, base: nat, redo: nat)
    requires base <= |log| && Pred(redo) <= |log| && PlainOutcomes(log)
    ensures RedoKept(pages, base, log[base..], redo) == RedoAll(pages, Blocks(log), Max(base, Pred(redo)))
    decreases |log| - base
  {
    if base < |log| {
      assert log[base..][0] == log[base] && log[base..][1..] == log[base + 1..];
      if base + 1 < redo || !log[base].kind.Data? { RedoKeptIsRedoAll(pages, log, base + 1, redo); }
      else {
        var next := RedoBlocks(pages, base + 1, log[base].blocks);
        if next.Some? { RedoKeptIsRedoAll(next.value, log, base + 1, redo); }
      }
    }
  }

  /** `recover` finds the checkpoint the superblock names. */
  lemma CkptFound(s: Sys, n: nat)
    requires LogInv(s) && s.durable <= n <= |s.log|
    ensures FindCkpt(s.base, s.log[s.base..n], Superblock(s)) == SbCkpt(s)
  {
    if s.sb > 0 { assert s.log[s.base..n][s.sb - s.base - 1] == s.log[s.sb - 1]; }
  }

  lemma RedoAfterCrash(s: Sys, n: nat, disk: Pages)
    requires Inv(s) && Enabled(s, Crash(n, disk))
    ensures s.base <= n <= |s.log|
    ensures var r := RedoKept(disk, s.base, s.log[s.base..n], RedoPoint(SbCkpt(s)));
            r.Some? && forall p {:trigger Get(r.value, p)} :: Get(r.value, p) == Replay(s.d.init, Blocks(s.log[..n]), n, p)
  {
    LogInvStep(s, Crash(n, disk));
    CrashKeepsPages(s, Crash(n, disk));
    hide TxnInv, DraftInv, CkptsOk, CandInv, FlushInv, CpInv, ValidLog, AllUpTo, RedoAll, RedoKept, Replay;
    var s' := Apply(s, Crash(n, disk));
    assert s.log[..n][s.base..] == s.log[s.base..n];
    assert SbCkpt(s') == SbCkpt(s);
    RedoKeptIsRedoAll(disk, s'.log, s.base, RedoPoint(SbCkpt(s)));
    RedoConverges(s'.d.init, Blocks(s'.log), Floor(s'), disk);
  }

  /**
  A crash at any moment of any run, leaving any prefix of the log from the durable mark on
  and any mixture of page images, then `recover` on what is left: it does not fail, and
  every page comes back as the replay of the whole surviving log over the pages as first
  created, the records deleted with their segments included.
  */
  lemma CrashThenRecover(s0: Sys, steps: seq<Step>, s: Sys, n: nat, disk: Pages)
    requires Init(s0) && Runs(s0, steps, s) && Enabled(s, Crash(n, disk))
    ensures s.base <= n <= |s.log|
    ensures var r := RecoverSpec(disk, s.base, s.log[s.base..n], Superblock(s));
            r.Recovered?
            && (forall p {:trigger Get(r.pages, p)} :: Get(r.pages, p) == Replay(s.d.init, Blocks(s.log[..n]), n, p))
  {
    InvInit(s0);
    RunKeepsInv(s0, steps, s);
    RedoAfterCrash(s, n, disk);
    CkptFound(s, n);
  }

  /** The checkpoint says `t` had not committed. */
  ghost predicate NamedBy(ck: Option<Ckpt>, t: nat) { ck.Some? && t in ck.value.active + ck.value.pinned }

  /**
  Outcomes after a crash at any moment of any run: what committed does not read as aborted;
  what did not reads as aborted exactly when the checkpoint names it or a record of it is
  still kept; and the id and page watermarks pass everything logged.
  */
  lemma OutcomesAfterCrash(s0: Sys, steps: seq<Step>, s: Sys, n: nat, disk: Pages)
    requires Init(s0) && Runs(s0, steps, s) && Enabled(s, Crash(n, disk))
    ensures s.base <= n <= |s.log|
    ensures var r, kept := RecoverSpec(disk, s.base, s.log[s.base..n], Superblock(s)), s.log[s.base..n];
            r.Recovered?
            && (forall t: nat {:trigger HasCommit(s.log[..n], t)} :: t != 0 ==>
                  (ClogAborted(r.clog, t) <==> !HasCommit(s.log[..n], t) && (NamedBy(SbCkpt(s), t) || HasRec(kept, t))))
            && (forall i :: 0 <= i < n ==> s.log[i].txn < r.nextTxn)
            && (forall i, b :: 0 <= i < n && b in s.log[i].blocks ==> b.page < r.nextPage)
  {
    InvInit(s0);
    RunKeepsInv(s0, steps, s);
    hide Runs, Init, RecoverSpec;
    CrashThenRecover(s0, steps, s, n, disk);
    RebuiltAfterCrash(s, n, disk);
    hide *;
    SurvivorsOk(s, n, disk);
    var log, ck := s.log[..n], SbCkpt(s);
    assert log[s.base..] == s.log[s.base..n] && forall i :: 0 <= i < n ==> log[i] == s.log[i];
    OutcomesOf(log, s.base, ck, s.sbAt);
    CountersPass(log, s.base, ck, s.sbAt);
  }

  /** The transaction manager the machine goes on with is the one `recover` returns. */
  lemma RebuiltAfterCrash(s: Sys, n: nat, disk: Pages)
    requires LogInv(s) && s.durable <= n <= |s.log| && s.base <= n
    ensures var r, ck, kept := RecoverSpec(disk, s.base, s.log[s.base..n], Superblock(s)), SbCkpt(s), s.log[s.base..n];
            r.Recovered? ==> r.clog == RecoveredClog(ck, kept) && r.nextTxn == NextTxn(ck, kept) && r.nextPage == NextPage(ck, kept)
                             && Rebuilt(ck, kept) == Txns(r.nextTxn, {}, {}, map[], r.clog, r.horizon, r.horizon, r.nextPage)
  {
    CkptFound(s, n);
    hide FindCkpt, RecoveredClog, NextTxn, NextPage, SbCkpt, RedoKept;
  }

  lemma CountersPass(log: seq<Rec>, base: nat, ck: Option<Ckpt>, at: nat)
    requires base <= at <= |log| && (ck.None? ==> base == 0) && (ck.Some? ==> CkptOk(log, ck.value, at))
    ensures forall i :: 0 <= i < |log| ==> log[i].txn < NextTxn(ck, log[base..])
    ensures forall i, b :: 0 <= i < |log| && b in log[i].blocks ==> b.page < NextPage(ck, log[base..])
  {
    WatermarksPass(log, base, ck, at);
    hide NextTxn, NextPage, CkptOk;
  }

  lemma OutcomesOf(log: seq<Rec>, base: nat, ck: Option<Ckpt>, at: nat)
    requires SettleLast(log) && base <= at <= |log| && (ck.None? ==> base == 0) && (ck.Some? ==> CkptOk(log, ck.value, at))
    ensures forall t: nat {:trigger HasCommit(log, t)} :: t != 0 ==>
              (ClogAborted(RecoveredClog(ck, log[base..]), t) <==> !HasCommit(log, t) && (NamedBy(ck, t) || HasRec(log[base..], t)))
  {
    hide RecoveredClog, CkptOk, HasCommit, HasRec, NamedBy, SettleLast;
    forall t: nat | t != 0
      ensures ClogAborted(RecoveredClog(ck, log[base..]), t) <==> !HasCommit(log, t) && (NamedBy(ck, t) || HasRec(log[base..], t))
    {
      if HasCommit(log, t) { CommittedStays(log, base, ck, at, t); } else { AbortKnownIff(log, base, ck, t); }
    }
  }

  /**
  With a record of `t` reclaimed or not, recovery marks an uncommitted `t` aborted exactly
  when the checkpoint names it or one of its records is still in the segments.
  */
  lemma AbortKnownIff(log: seq<Rec>, base: nat, ck: Option<Ckpt>, t: nat)
    requires SettleLast(log) && base <= |log| && t != 0 && !HasCommit(log, t)
    ensures ClogAborted(RecoveredClog(ck, log[base..]), t) <==> NamedBy(ck, t) || HasRec(log[base..], t)
  {
    var kept := log[base..];
    SettleLastSuffix(log, base);
    MarkAllOutcome(Seed(if ck.Some? then ck.value.pinned else {}), kept, t);
    assert !HasCommit(kept, t) by { assert forall i :: 0 <= i < |kept| ==> kept[i] == log[base + i]; }
    OutcomeIsRec(kept, t);
    assert t in Seen(kept) <==> HasRec(kept, t);
  }

  /** What the surviving log and the superblock's checkpoint still say about each other. */
  lemma SurvivorsOk(s: Sys, n: nat, disk: Pages)
    requires Inv(s) && Enabled(s, Crash(n, disk))
    ensures s.base <= s.sbAt <= n <= |s.log| && SettleLast(s.log[..n]) && (SbCkpt(s).None? ==> s.base == 0)
    ensures SbCkpt(s).Some? ==> CkptOk(s.log[..n], SbCkpt(s).value, s.sbAt)
  {
    CkptsOkStep(s, Crash(n, disk));
    LogInvStep(s, Crash(n, disk));
    SbCkptStays(s, Crash(n, disk));
    hide PageInv, TxnInv, DraftInv, SettleLast, CkptOk, OnDisk, CpInv;
  }

  lemma CommitStaysDurable(s: Sys, step: Step, t: nat)
    requires LogInv(s) && Enabled(s, step) && HasCommit(s.log[..s.durable], t)
    ensures var s' := Apply(s, step); s'.durable <= |s'.log| && HasCommit(s'.log[..s'.durable], t)
  {
    LogInvStep(s, step);
    PrefixStays(s, step, s.durable);
    var s' := Apply(s, step);
    hide *;
    assert s'.log[..s'.durable][..s.durable] == s'.log[..s.durable];
    PrefixHas(s'.log[..s'.durable], s.durable, t);
  }

  /**
  Durability: once the engine has told a writer its transaction committed, no run, with
  crashes at any step and during recovery, ever makes it read as aborted.
  */
  lemma {:induction false} CommitIsForever(s: Sys, steps: seq<Step>, s': Sys, t: nat)
    requires Inv(s) && t != 0 && HasCommit(s.log[..s.durable], t) && Runs(s, steps, s')
    ensures Inv(s') && HasCommit(s'.log[..s'.durable], t)
    ensures s'.mode.Running? ==> !ClogAborted(s'.x.clog, t)
    decreases |steps|
  {
    if steps == [] {
      if s.mode.Running? {
        assert TxnOk(s.log, s.durable, s.x, t);
        PrefixHas(s.log, s.durable, t);
      }
    } else {
      InvStep(s, steps[0]);
      CommitStaysDurable(s, steps[0], t);
      CommitIsForever(Apply(s, steps[0]), steps[1..], s', t);
    }
  }

  /** What the engine acknowledges is durable: a published commit with writes has its record on disk. */
  lemma AcknowledgedIsDurable(s0: Sys, steps: seq<Step>, s: Sys, t: nat)
    requires Init(s0) && Runs(s0, steps, s) && s.mode.Running? && t != 0
    requires HasRec(s.log, t) && t in s.x.clog && s.x.clog[t] == Committed
    ensures s.durable <= |s.log| && HasCommit(s.log[..s.durable], t)
  {
    InvInit(s0);
    RunKeepsInv(s0, steps, s);
    assert TxnOk(s.log, s.durable, s.x, t);
  }

  // ── When every abort is known ──────────────────────────────────────────────

  /**
  No CLOG truncation at a newer horizon falls between the checkpoint's reads of the vacuum
  horizon and of the CLOG.  `LateTruncationLosesAbort` shows why it is needed.
  */
  ghost predicate ReadsTogether(s: Sys, step: Step) {
    step.CkptRead? && s.cp.Busy? && s.cp.stage.GotHorizon? ==> s.x.truncated <= s.cp.ck.horizon
  }

  ghost predicate AllTogether(s: Sys, steps: seq<Step>)
    decreases |steps|
  {
    steps != [] && Enabled(s, steps[0]) ==> ReadsTogether(s, steps[0]) && AllTogether(Apply(s, steps[0]), steps[1..])
  }

  /** The CLOG knows that `t`, which left a record and is done, did not commit, unless that was truncated. */
  ghost predicate AbortOk(log: seq<Rec>, x: Txns, t: nat) {
    t !in x.active && HasRec(log, t) ==> HasCommit(log, t) || t < x.truncated || ClogAborted(x.clog, t)
  }

  ghost predicate AbortInv(s: Sys) {
    s.mode.Running? ==> forall t: nat {:trigger AbortOk(s.log, s.x, t)} :: t != 0 ==> AbortOk(s.log, s.x, t)
  }

  /** What the checkpoint's reads so far leave to name `t` by. */
  ghost predicate DraftNames(log: seq<Rec>, x: Txns, cp: Checkpointer, t: nat)
    requires cp.Busy? && cp.at <= |log|
  {
    (cp.stage.GotActive? || cp.stage.GotHorizon? ==> HasRec(log[..cp.at], t) ==>
       t in cp.ck.active || HasCommit(log[..cp.at], t) || t < x.truncated || ClogAborted(x.clog, t))
    && (cp.stage.GotPinned? ==> Naming(log, cp.ck, cp.at, t))
  }

  ghost predicate DraftNamesInv(s: Sys) {
    Guarded(s.cp) && !s.cp.stage.GotRedo? && s.cp.at <= |s.log| ==>
      forall t: nat {:trigger DraftNames(s.log, s.x, s.cp, t)} :: t != 0 ==> DraftNames(s.log, s.x, s.cp, t)
  }

  ghost predicate AllNamed(log: seq<Rec>, ck: Ckpt, at: nat) {
    at <= |log| ==> forall t: nat {:trigger Naming(log, ck, at, t)} :: t != 0 ==> Naming(log, ck, at, t)
  }

  ghost predicate NamesInv(s: Sys) {
    AbortInv(s) && DraftNamesInv(s)
    && (s.sb > 0 && SbCkpt(s).Some? ==> AllNamed(s.log, SbCkpt(s).value, s.sbAt))
    && (s.cp.Busy? && !Guarded(s.cp) ==> AllNamed(s.log, s.cp.ck, s.cp.at))
  }

  lemma AbortOkStep(s: Sys, step: Step, t: nat)
    requires Inv(s) && NamesInv(s) && Enabled(s, step) && Apply(s, step).mode.Running? && t != 0
    ensures AbortOk(Apply(s, step).log, Apply(s, step).x, t)
  {
    hide RedoBlocks, HasRec, HasCommit, HasAbort, Floor, CpInv, Applies, OnDisk, PageInv, NextTxn, NextPage, RecoveredClog, CkptOk, PagesKnown, DraftInv, SettleLast;
    if s.mode.Running? { assert TxnOk(s.log, s.durable, s.x, t) && AbortOk(s.log, s.x, t); }
    if step.FinishRecovery? { RebuiltAborts(s, t); }
    else if Logs(step) { AppendHas(s.log, RecOf(s, step), t); }
    else { PublishedOutcome(s, step, t); }
  }

  lemma RebuiltAborts(s: Sys, t: nat)
    requires Inv(s) && NamesInv(s) && Enabled(s, FinishRecovery) && t != 0
    ensures AbortOk(s.log, Rebuilt(SbCkpt(s), s.log[s.base..]), t)
  {
    var ck := SbCkpt(s);
    hide PageInv, TxnInv, DraftInv, HasRec, HasCommit, SettleLast, RecoveredClog, CpInv, Floor, CkptOk;
    if !HasCommit(s.log, t) && HasRec(s.log, t) && (ck.Some? ==> t >= ck.value.horizon) {
      assert ck.Some? ==> Naming(s.log, ck.value, s.sbAt, t);
      UncommittedAborts(s.log, s.base, ck, s.sbAt, t);
    }
  }

  lemma PublishedOutcome(s: Sys, step: Step, t: nat)
    requires Inv(s) && Enabled(s, step) && s.mode.Running? && t != 0 && AbortOk(s.log, s.x, t)
    requires !Logs(step) && !step.Crash? && !step.RedoNext? && !step.FinishRecovery?
    ensures AbortOk(s.log, Apply(s, step).x, t)
  {
    hide RedoBlocks, HasRec, HasCommit, HasAbort, Floor, CpInv, SbInv, Applies, OnDisk, PagesKnown, PageInv, CkptsOk, DraftInv;
    assert TxnOk(s.log, s.durable, s.x, t);
    if step.PublishCommit? { PrefixHas(s.log, s.durable, step.t); }
  }

  lemma DraftNamesStep(s: Sys, step: Step, t: nat)
    requires Inv(s) && NamesInv(s) && Enabled(s, step) && ReadsTogether(s, step) && t != 0
    requires var cp := Apply(s, step).cp; Guarded(cp) && !cp.stage.GotRedo?
    ensures var s' := Apply(s, step); s'.cp.at <= |s'.log| && DraftNames(s'.log, s'.x, s'.cp, t)
  {
    hide RedoBlocks, HasRec, HasCommit, HasAbort, Floor, SbInv, Applies, OnDisk, PagesKnown, PageInv, CkptsOk;
    if Logs(step) { AppendHas(s.log, RecOf(s, step), t); }
    assert TxnOk(s.log, s.durable, s.x, t) && AbortOk(s.log, s.x, t);
    if !s.cp.stage.GotRedo? {
      assert DraftNames(s.log, s.x, s.cp, t);
      PrefixHas(s.log, s.cp.at, t);
      if HasCommit(s.log, t) { CommitInPrefix(s.log, s.cp.at, t); }
    }
  }

  lemma NamedSamePrefix(log: seq<Rec>, log': seq<Rec>, ck: Ckpt, at: nat)
    requires at <= |log| && at <= |log'| && log[..at] == log'[..at] && AllNamed(log, ck, at)
    ensures AllNamed(log', ck, at)
  {
    forall t: nat | t != 0 ensures Naming(log', ck, at, t) { assert Naming(log, ck, at, t); }
  }

  lemma SbNamedStep(s: Sys, step: Step)
    requires Inv(s) && NamesInv(s) && Enabled(s, step) && LogInv(Apply(s, step))
    ensures var s' := Apply(s, step); s'.sb > 0 && SbCkpt(s').Some? ==> AllNamed(s'.log, SbCkpt(s').value, s'.sbAt)
  {
    var s' := Apply(s, step);
    hide RedoBlocks, Floor, Applies, OnDisk, PageInv, TxnInv, DraftInv, CkptsOk, AbortInv, DraftNamesInv, AllNamed;
    if s'.sb > 0 {
      if step.CkptSuperblock? { assert SbCkpt(s').value == s.cp.ck; }
      else {
        SbCkptStays(s, step);
        PrefixStays(s, step, s.sbAt);
        hide Apply, Enabled;
        NamedSamePrefix(s.log, s'.log, SbCkpt(s).value, s.sbAt);
      }
    }
  }

  lemma CpNamedStep(s: Sys, step: Step)
    requires Inv(s) && NamesInv(s) && Enabled(s, step)
    ensures var s' := Apply(s, step); s'.cp.Busy? && !Guarded(s'.cp) ==> AllNamed(s'.log, s'.cp.ck, s'.cp.at)
  {
    var s' := Apply(s, step);
    hide RedoBlocks, Floor, Applies, OnDisk, PageInv, TxnInv, DraftInv, CkptsOk, AbortInv, SbInv;
    if s'.cp.Busy? && !Guarded(s'.cp) {
      if step.CkptRead? {
        forall t: nat | t != 0 ensures Naming(s.log, s'.cp.ck, s'.cp.at, t) { assert DraftNames(s.log, s.x, s.cp, t); }
      } else {
        assert s.log[..s.cp.at] == s'.log[..s.cp.at];
        NamedSamePrefix(s.log, s'.log, s.cp.ck, s.cp.at);
      }
    }
  }

  lemma NamesInvStep(s: Sys, step: Step)
    requires Inv(s) && NamesInv(s) && Enabled(s, step) && ReadsTogether(s, step)
    ensures NamesInv(Apply(s, step))
  {
    var s' := Apply(s, step);
    LogInvStep(s, step);
    SbNamedStep(s, step);
    CpNamedStep(s, step);
    hide LogInv, PageInv, TxnInv, DraftInv, CkptsOk, Enabled, Apply, AbortOk, DraftNames, AllNamed, ReadsTogether;
    if s'.mode.Running? { forall t: nat | t != 0 ensures AbortOk(s'.log, s'.x, t) { AbortOkStep(s, step, t); } }
    if Guarded(s'.cp) && !s'.cp.stage.GotRedo? {
      forall t: nat | t != 0 ensures s'.cp.at <= |s'.log| && DraftNames(s'.log, s'.x, s'.cp, t) { DraftNamesStep(s, step, t); }
    }
  }

  lemma {:induction false} RunKeepsNames(s: Sys, steps: seq<Step>, s': Sys)
    requires Inv(s) && NamesInv(s) && Runs(s, steps, s') && AllTogether(s, steps)
    ensures Inv(s') && NamesInv(s')
    decreases |steps|
  {
    if steps != [] {
      InvStep(s, steps[0]);
      NamesInvStep(s, steps[0]);
      hide Inv, NamesInv, Enabled, Apply, ReadsTogether;
      RunKeepsNames(Apply(s, steps[0]), steps[1..], s');
    }
  }

  /** Which ids the outcome theorem is about: a durable record, or named active by the checkpoint. */
  ghost predicate Traced(log: seq<Rec>, ck: Option<Ckpt>, t: nat) {
    t != 0 && (HasRec(log, t) || (ck.Some? && t in ck.value.active)) && (ck.Some? ==> t >= ck.value.horizon)
  }

  /**
  If every checkpoint's reads are together, the traced ids that read as aborted are exactly
  those whose Commit record did not survive.
  */
  lemma AbortsKnownAfterCrash(s0: Sys, steps: seq<Step>, s: Sys, n: nat, disk: Pages)
    requires Init(s0) && Runs(s0, steps, s) && AllTogether(s0, steps) && Enabled(s, Crash(n, disk))
    ensures s.base <= n <= |s.log|
    ensures var r := RecoverSpec(disk, s.base, s.log[s.base..n], Superblock(s));
            r.Recovered?
            && forall t: nat {:trigger Traced(s.log[..n], SbCkpt(s), t)} ::
                 Traced(s.log[..n], SbCkpt(s), t) ==> (ClogAborted(r.clog, t) <==> !HasCommit(s.log[..n], t))
  {
    OutcomesAfterCrash(s0, steps, s, n, disk);
    InvInit(s0);
    RunKeepsNames(s0, steps, s);
    SurvivorsOk(s, n, disk);
    var log, ck := s.log[..n], SbCkpt(s);
    assert log[s.base..] == s.log[s.base..n];
    assert ck.Some? ==> AllNamed(s.log, ck.value, s.sbAt) && log[..s.sbAt] == s.log[..s.sbAt];
    hide Inv, NamesInv, Runs, AllTogether, Init, Enabled, RecoverSpec, SbCkpt, HasCommit, HasRec, AllNamed;
    if ck.Some? { NamedSamePrefix(s.log, log, ck.value, s.sbAt); }
    forall t: nat | Traced(log, ck, t) && !HasCommit(log, t) ensures NamedBy(ck, t) || HasRec(log[s.base..], t) {
      TracedKnown(log, s.base, ck, s.sbAt, t);
    }
  }

  lemma TracedKnown(log: seq<Rec>, base: nat, ck: Option<Ckpt>, at: nat, t: nat)
    requires SettleLast(log) && base <= at <= |log| && (ck.None? ==> base == 0) && (ck.Some? ==> AllNamed(log, ck.value, at))
    requires Traced(log, ck, t) && !HasCommit(log, t)
    ensures NamedBy(ck, t) || HasRec(log[base..], t)
  {
    assert ck.Some? ==> Naming(log, ck.value, at, t);
    UncommittedAborts(log, base, ck, at, t);
    AbortKnownIff(log, base, ck, t);
  }

  // ── Where the checkpoint's reads race ──────────────────────────────────────

  lemma {:induction false} RunsConcat(s: Sys, a: seq<Step>, s1: Sys, b: seq<Step>, s2: Sys)
    requires Runs(s, a, s1) && Runs(s1, b, s2)
    ensures Runs(s, a + b, s2)
    decreases |a|
  {
    if a == [] { assert a + b == b; }
    else {
      assert (a + b)[0] == a[0] && (a + b)[1..] == a[1..] + b;
      RunsConcat(Apply(s, a[0]), a[1..], s1, b, s2);
    }
  }

  lemma RunsCons(s: Sys, step: Step, rest: seq<Step>, s': Sys)
    requires Enabled(s, step) && Runs(Apply(s, step), rest, s')
    ensures Runs(s, [step] + rest, s')
  {
    assert ([step] + rest)[1..] == rest;
  }

  lemma {:induction false} MaxTxnReached(m: nat, kept: seq<Rec>)
    ensures MaxTxn(m, kept) == m || exists i :: 0 <= i < |kept| && kept[i].txn == MaxTxn(m, kept)
    decreases |kept|
  {
    if kept != [] {
      MaxTxnReached(Max(m, kept[0].txn), kept[1..]);
      if exists i :: 0 <= i < |kept[1..]| && kept[1..][i].txn == MaxTxn(m, kept) {
        var i :| 0 <= i < |kept[1..]| && kept[1..][i].txn == MaxTxn(m, kept);
        assert kept[i + 1] == kept[1..][i];
      }
    }
  }

  /** Which ids the restored counter passes: the rest of the checkpoint's active set is handed out again. */
  lemma IdPassedIff(ck: Option<Ckpt>, kept: seq<Rec>, t: nat)
    ensures t < NextTxn(ck, kept) <==>
              t == 0 || (ck.Some? && t < ck.value.nextTxn) || exists i :: 0 <= i < |kept| && t <= kept[i].txn
  {
    var n := if ck.Some? then ck.value.nextTxn else 0;
    MaxTxnBounds(Pred(n), kept);
    MaxTxnReached(Pred(n), kept);
  }

  ghost function EmptyDisk(): Disk { Disk(map[], map[], map[], map[], {}) }

  ghost function Fresh(): Sys {
    Sys(Running, [], 0, 0, 0, 0, Idle, EmptyDisk(), Txns(1, {}, {}, map[], map[], 0, 0, 1))
  }

  /** The rest of a checkpoint over a clean buffer pool, from drafted to superblock. */
  lemma FinishCheckpoint(s: Sys) returns (steps: seq<Step>, s': Sys)
    requires s.mode.Running? && s.cp.Busy? && s.cp.stage.Drafted? && s.durable <= |s.log| && s.d.dirty == {}
    ensures Runs(s, steps, s')
    ensures s' == s.(log := s.log + [Rec(0, Checkpoint(s.cp.ck), [])], durable := Next(s), sb := Next(s), sbAt := s.cp.at,
                     cp := Idle, d := s.d.(older := map[]))
  {
    var s1 := Apply(s, CkptLog);
    var s2 := Apply(s1, FlushWal(Next(s)));
    steps, s' := PublishCheckpoint(s2);
    hide Runs;
    RunsCons(s1, FlushWal(Next(s)), steps, s');
    RunsCons(s, CkptLog, [FlushWal(Next(s))] + steps, s');
    steps := [CkptLog] + ([FlushWal(Next(s))] + steps);
  }

  /** The last three steps of a checkpoint whose record is durable. */
  lemma PublishCheckpoint(s: Sys) returns (steps: seq<Step>, s': Sys)
    requires s.cp.Busy? && s.cp.stage.Logged? && s.cp.lsn <= s.durable && s.d.dirty == {}
    ensures Runs(s, steps, s')
    ensures s' == s.(sb := s.cp.lsn, sbAt := s.cp.at, cp := Idle, d := s.d.(older := map[]))
  {
    var s1 := Apply(s, CkptFlush);
    var s2 := Apply(s1, CkptSync);
    s' := Apply(s2, CkptSuperblock);
    assert Runs(s', [], s');
    hide Runs;
    RunsCons(s2, CkptSuperblock, [], s');
    RunsCons(s1, CkptSync, [CkptSuperblock], s');
    steps := [CkptFlush] + ([CkptSync] + [CkptSuperblock]);
    RunsCons(s, CkptFlush, [CkptSync] + [CkptSuperblock], s');
  }

  lemma BeginAndWrite() returns (steps: seq<Step>, s': Sys)
    ensures Runs(Fresh(), steps, s')
    ensures s' == Fresh().(log := [Rec(1, Data, [])], x := Txns(2, {1}, {1}, map[], map[1 := Active], 0, 0, 1))
  {
    var s := Fresh();
    var s1 := Apply(s, Begin);
    assert forall p :: OpFor([], p) == None;
    s' := Apply(s1, Change(Rec(1, Data, [])));
    assert s'.x.active == {1} && s'.x.wrote == {1};
    RunsCons(s1, Change(Rec(1, Data, [])), [], s');
    RunsCons(s, Begin, [Change(Rec(1, Data, []))], s');
    steps := [Begin] + [Change(Rec(1, Data, []))];
  }

  lemma AbortOne() returns (steps: seq<Step>, s': Sys)
    ensures Runs(Fresh(), steps, s')
    ensures s' == Fresh().(log := [Rec(1, Data, []), Rec(1, Abort, [])],
                           x := Txns(2, {}, {1}, map[], map[1 := Aborted], 0, 0, 1))
  {
    var a, s1 := BeginAndWrite();
    var s2 := Apply(s1, LogAbort(1));
    s' := Apply(s2, PublishAbort(1));
    assert s'.x.active == {} && s'.x.settling == map[] && s'.x.wrote == {1};
    RunsCons(s2, PublishAbort(1), [], s');
    RunsCons(s1, LogAbort(1), [PublishAbort(1)], s');
    hide Runs;
    RunsConcat(Fresh(), a, s1, [LogAbort(1)] + [PublishAbort(1)], s');
    steps := a + ([LogAbort(1)] + [PublishAbort(1)]);
  }

  lemma ReadUpToNext(s: Sys, redo: nat) returns (steps: seq<Step>, s': Sys)
    requires s.mode.Running? && s.cp.Idle? && s.x.settling == map[] && 1 <= redo <= Next(s)
    ensures Runs(s, steps, s')
    ensures s' == s.(cp := Busy(GotNext, Ckpt(redo, s.x.next, 0, 0, {}, {}), |s.log|, 0, {}))
  {
    var s1 := Apply(s, CkptRead(redo));
    s' := Apply(s1, CkptRead(redo));
    RunsCons(s1, CkptRead(redo), [], s');
    RunsCons(s, CkptRead(redo), [CkptRead(redo)], s');
    steps := [CkptRead(redo)] + [CkptRead(redo)];
  }

  lemma ReadActiveAndHorizon(s: Sys) returns (steps: seq<Step>, s': Sys)
    requires s.mode.Running? && s.cp.Busy? && s.cp.stage.GotNext?
    ensures Runs(s, steps, s')
    ensures s' == s.(cp := s.cp.(stage := GotHorizon, ck := s.cp.ck.(active := s.x.active, horizon := s.x.horizon)))
  {
    var s1 := Apply(s, CkptRead(1));
    s' := Apply(s1, CkptRead(1));
    RunsCons(s1, CkptRead(1), [], s');
    RunsCons(s, CkptRead(1), [CkptRead(1)], s');
    steps := [CkptRead(1)] + [CkptRead(1)];
  }

  lemma ReadTheRest(s: Sys) returns (steps: seq<Step>, s': Sys)
    requires s.mode.Running? && s.cp.Busy? && s.cp.stage.GotHorizon?
    ensures Runs(s, steps, s')
    ensures s' == s.(cp := s.cp.(stage := Drafted,
                                 ck := s.cp.ck.(pinned := Pinned(s.x.clog, s.cp.ck.horizon), nextPage := s.x.nextPage)))
  {
    var s1 := Apply(s, CkptRead(1));
    s' := Apply(s1, CkptRead(1));
    RunsCons(s1, CkptRead(1), [], s');
    RunsCons(s, CkptRead(1), [CkptRead(1)], s');
    steps := [CkptRead(1)] + [CkptRead(1)];
  }

  lemma RaiseAndTruncate(s: Sys, h: nat) returns (steps: seq<Step>, s': Sys)
    requires s.mode.Running? && s.x.horizon <= h && s.x.truncated <= h
    requires forall t :: t in s.x.clog ==> t < h && s.x.clog[t] == Aborted
    ensures Runs(s, steps, s') && s' == s.(x := s.x.(horizon := h, truncated := h, clog := map[]))
  {
    var s1 := Apply(s, PublishHorizon(h));
    s' := Apply(s1, TruncateClog(0));
    assert s'.x.clog == map[];
    RunsCons(s1, TruncateClog(0), [], s');
    RunsCons(s, PublishHorizon(h), [TruncateClog(0)], s');
    steps := [PublishHorizon(h)] + [TruncateClog(0)];
  }

  lemma LateTruncationRun() returns (steps: seq<Step>, s: Sys)
    ensures Runs(Fresh(), steps, s)
    ensures s == Fresh().(log := [Rec(1, Data, []), Rec(1, Abort, []), Rec(0, Checkpoint(Ckpt(3, 2, 0, 1, {}, {})), [])],
                          durable := 3, base := 2, sb := 3, sbAt := 2,
                          x := Txns(2, {}, {1}, map[], map[], 2, 2, 1))
  {
    hide Runs, Enabled, Apply;
    var a, s1 := AbortOne();
    var b1, m := ReadUpToNext(s1, 3);
    var b2, s2 := ReadActiveAndHorizon(m);
    RunsConcat(s1, b1, m, b2, s2);
    var b := b1 + b2;
    var c, s3 := RaiseAndTruncate(s2, 2);
    var d, s4 := ReadTheRest(s3);
    assert s4.cp.ck.pinned == {};
    var e, s5 := FinishCheckpoint(s4);
    assert s5.log == [Rec(1, Data, []), Rec(1, Abort, []), Rec(0, Checkpoint(Ckpt(3, 2, 0, 1, {}, {})), [])];
    var f, s6 := ReclaimTwo(s5);
    s := s6;
    RunsConcat(s4, e, s5, f, s);
    RunsConcat(s3, d, s4, e + f, s);
    RunsConcat(s2, c, s3, d + (e + f), s);
    RunsConcat(s1, b, s2, c + (d + (e + f)), s);
    RunsConcat(Fresh(), a, s1, b + (c + (d + (e + f))), s);
    steps := a + (b + (c + (d + (e + f))));
  }

  lemma ReclaimTwo(s: Sys) returns (steps: seq<Step>, s': Sys)
    requires s.base <= 2 && SbCkpt(s).Some? && SbCkpt(s).value.redo >= 3
    ensures Runs(s, steps, s') && s' == s.(base := 2)
  {
    s' := Apply(s, Reclaim(2));
    RunsCons(s, Reclaim(2), [], s');
    steps := [Reclaim(2)] + [];
  }

  /**
  Without `ReadsTogether` an abort can be lost: transaction 1 aborts, the CLOG is
  truncated between the checkpoint's two reads, its records are reclaimed, and after a
  crash it reads as committed although the checkpoint's horizon is below it.
  */
  lemma LateTruncationLosesAbort() returns (s0: Sys, steps: seq<Step>, s: Sys)
    ensures Init(s0) && Runs(s0, steps, s) && Enabled(s, Crash(3, map[])) && s.base <= 3 <= |s.log|
    ensures Traced(s.log[..3], SbCkpt(s), 1) && !HasCommit(s.log[..3], 1)
    ensures var r := RecoverSpec(map[], s.base, s.log[s.base..3], Superblock(s)); r.Recovered? && !ClogAborted(r.clog, 1)
  {
    s0 := Fresh();
    steps, s := LateTruncationRun();
    hide Runs;
    var log := s.log[..3];
    assert s.log == log && log[0].txn == 1;
    var kept := s.log[s.base..3];
    assert kept == [log[2]] == log[s.base..] && kept[0].txn == 0;
    AbortKnownIff(log, s.base, Some(log[2].kind.ckpt), 1);
    assert kept[1..] == [] && RedoKept(map[], 3, [], 3) == Some(map[]);
  }

  lemma BeginOne(s: Sys) returns (steps: seq<Step>, s': Sys)
    requires s.mode.Running? && s.x == Txns(1, {}, {}, map[], map[], 0, 0, 1)
    ensures Runs(s, steps, s') && s' == s.(x := Txns(2, {1}, {}, map[], map[1 := Active], 0, 0, 1))
  {
    s' := Apply(s, Begin);
    assert s'.x.wrote == {} && s'.x.active == {1};
    RunsCons(s, Begin, [], s');
    steps := [Begin] + [];
  }

  lemma LateBeginRun() returns (steps: seq<Step>, s: Sys)
    ensures Runs(Fresh(), steps, s)
    ensures s == Fresh().(log := [Rec(0, Checkpoint(Ckpt(1, 1, 0, 1, {1}, {})), [])], durable := 1, sb := 1, sbAt := 0,
                          x := Txns(2, {1}, {}, map[], map[1 := Active], 0, 0, 1))
  {
    hide Runs, Enabled, Apply;
    var a, s1 := ReadUpToNext(Fresh(), 1);
    var b, s2 := BeginOne(s1);
    var c, s3 := ReadActiveAndHorizon(s2);
    var d, s4 := ReadTheRest(s3);
    assert s4.cp.ck.pinned == {};
    var e, s5 := FinishCheckpoint(s4);
    assert s5.log == [Rec(0, Checkpoint(Ckpt(1, 1, 0, 1, {1}, {})), [])];
    s := s5;
    RunsConcat(s3, d, s4, e, s);
    RunsConcat(s2, c, s3, d + e, s);
    RunsConcat(s1, b, s2, c + (d + e), s);
    RunsConcat(Fresh(), a, s1, b + (c + (d + e)), s);
    steps := a + (b + (c + (d + e)));
  }

  /**
  A transaction that begins between the checkpoint's reads of the counter and of the active
  set is in that set, yet its id is the next one handed out after a crash.
  */
  lemma LateBeginIdReused() returns (s0: Sys, steps: seq<Step>, s: Sys)
    ensures Init(s0) && Runs(s0, steps, s) && Enabled(s, Crash(1, map[])) && s.base <= 1 <= |s.log|
    ensures SbCkpt(s).Some? && 1 in SbCkpt(s).value.active
    ensures var r := RecoverSpec(map[], s.base, s.log[s.base..1], Superblock(s)); r.Recovered? && r.nextTxn == 1
  {
    s0 := Fresh();
    steps, s := LateBeginRun();
    hide Runs;
    var kept := s.log[s.base..1];
    assert kept == s.log && kept[1..] == [] && kept[0].txn == 0;
    IdPassedIff(SbCkpt(s), kept, 1);
    assert RedoKept(map[], 1, [], 1) == Some(map[]);
  }
}
