/**
Crash recovery (crates/storage/src/recovery/mod.rs, `recover`): find the checkpoint the
superblock names, scan the kept log once, redo pages, rebuild the CLOG, mark crash victims
and restore the id watermarks.  `kept` are the records still in the segments; the first of
them has LSN `base + 1`.
*/
module Recovery {
  import opened Options
  import opened Transaction
  import opened Redo

  datatype Ckpt = Ckpt(redo: nat, nextTxn: nat, horizon: nat, nextPage: nat, active: set<nat>, pinned: set<nat>)

  /**
  `BadCheckpoint` is a checkpoint record whose payload does not parse.  `Free` is an
  OverflowFree record, `None` if its payload does not parse: redo drops the listed pages
  from the buffer pool, which writes them back and changes none.
  */
  datatype Kind = Data | Commit | Abort | Checkpoint(ckpt: Ckpt) | BadCheckpoint | Free(ids: Option<seq<PageId>>)

  datatype Rec = Rec(txn: nat, kind: Kind, blocks: seq<Block>)

  datatype Superblock = Missing | Invalid | Names(lsn: nat)

  datatype Recovered =
    | Failed
    | Recovered(pages: Pages, clog: Clog, nextTxn: nat, nextPage: nat, horizon: nat)

  function Max(a: nat, b: nat): nat { if a < b then b else a }

  // ── Specification ──────────────────────────────────────────────────────────

  /** Pass 1. */
  function FindCkpt(base: nat, kept: seq<Rec>, sb: Superblock): Option<Ckpt> {
    if sb.Names? && base < sb.lsn <= base + |kept| && kept[sb.lsn - base - 1].kind.Checkpoint?
    then Some(kept[sb.lsn - base - 1].kind.ckpt) else None
  }

  function RedoPoint(ck: Option<Ckpt>): nat { if ck.Some? then ck.value.redo else 0 }

  /** Pass 2, pages, one record: only page records from the redo point on are redone. */
  function RedoRec(pages: Pages, lsn: nat, r: Rec, redo: nat): Option<Pages> {
    if lsn < redo then Some(pages)
    else if r.kind.Data? then RedoBlocks(pages, lsn, r.blocks)
    else if r.kind == Free(None) then None
    else Some(pages)
  }

  function RedoKept(pages: Pages, base: nat, kept: seq<Rec>, redo: nat): Option<Pages>
    decreases |kept|
  {
    if kept == [] then Some(pages)
    else match RedoRec(pages, base + 1, kept[0], redo)
      case None => None
      case Some(pages') => RedoKept(pages', base + 1, kept[1..], redo)
  }

  function MarkOne(clog: Clog, r: Rec): Clog {
    match r.kind
    case Commit => clog[r.txn := Committed]
    case Abort => clog[r.txn := Aborted]
    case _ => clog
  }

  /** Pass 2, statuses: Commit and Abort always count, below the redo point too. */
  function MarkAll(clog: Clog, kept: seq<Rec>): Clog
    decreases |kept|
  {
    if kept == [] then clog else MarkAll(MarkOne(clog, kept[0]), kept[1..])
  }

  function Seed(pinned: set<nat>): Clog { map t | t in pinned :: Aborted }

  function Seen(kept: seq<Rec>): set<nat> { set i | 0 <= i < |kept| && kept[i].txn != 0 :: kept[i].txn }

  /** Ids with a trace but no outcome. */
  function Victims(clog: Clog, ck: Option<Ckpt>, kept: seq<Rec>): set<nat> {
    set t | t in (if ck.Some? then ck.value.active else {}) + Seen(kept)
            && !ClogCommitted(clog, t) && !ClogAborted(clog, t)
  }

  function RecoveredClog(ck: Option<Ckpt>, kept: seq<Rec>): Clog {
    var clog := MarkAll(Seed(if ck.Some? then ck.value.pinned else {}), kept);
    clog + Seed(Victims(clog, ck, kept))
  }

  function MaxTxn(m: nat, kept: seq<Rec>): nat
    decreases |kept|
  {
    if kept == [] then m else MaxTxn(Max(m, kept[0].txn), kept[1..])
  }

  function MaxPageOf(m: nat, blocks: seq<Block>): nat
    decreases |blocks|
  {
    if blocks == [] then m else MaxPageOf(Max(m, blocks[0].page), blocks[1..])
  }

  function MaxPage(m: nat, kept: seq<Rec>): nat
    decreases |kept|
  {
    if kept == [] then m else MaxPage(MaxPageOf(m, kept[0].blocks), kept[1..])
  }

  /** `n.saturating_sub(1)`. */
  function Pred(n: nat): nat { if n == 0 then 0 else n - 1 }

  function NextTxn(ck: Option<Ckpt>, kept: seq<Rec>): nat {
    var n := if ck.Some? then ck.value.nextTxn else 0;
    Max(1, Max(n, MaxTxn(Pred(n), kept) + 1))
  }

  function NextPage(ck: Option<Ckpt>, kept: seq<Rec>): nat {
    var n := if ck.Some? then ck.value.nextPage else 0;
    Max(n, MaxPage(Pred(n), kept) + 1)
  }

  function RecoverSpec(disk: Pages, base: nat, kept: seq<Rec>, sb: Superblock): Recovered {
    var ck := FindCkpt(base, kept, sb);
    match RedoKept(disk, base, kept, RedoPoint(ck))
    case None => Failed
    case Some(pages) =>
      Recovered(pages, RecoveredClog(ck, kept), NextTxn(ck, kept), NextPage(ck, kept),
                if ck.Some? then ck.value.horizon else 0)
  }

  // ── The procedure ──────────────────────────────────────────────────────────

  method FindCheckpoint(base: nat, kept: seq<Rec>, sb: Superblock) returns (ck: Option<Ckpt>)
    ensures ck == FindCkpt(base, kept, sb)
  {
    if !sb.Names? { return None; }
    for i := 0 to |kept|
      invariant base < sb.lsn <= base + i ==> !kept[sb.lsn - base - 1].kind.Checkpoint?
    {
      if (kept[i].kind.Checkpoint? || kept[i].kind.BadCheckpoint?) && base + i + 1 == sb.lsn {
        return if kept[i].kind.Checkpoint? then Some(kept[i].kind.ckpt) else None;
      }
    }
    return None;
  }

  method MarkVictims(clog0: Clog, candidates: set<nat>) returns (clog: Clog)
    ensures clog == clog0 + Seed(set t | t in candidates && !ClogCommitted(clog0, t) && !ClogAborted(clog0, t))
  {
    clog := clog0;
    var todo := candidates;
    ghost var done := {};
    while todo != {}
      invariant done + todo == candidates && done !! todo
      invariant clog == clog0 + Seed(set t | t in done && !ClogCommitted(clog0, t) && !ClogAborted(clog0, t))
      decreases todo
    {
      var t :| t in todo;
      if !ClogCommitted(clog, t) && !ClogAborted(clog, t) { clog := clog[t := Aborted]; }
      todo := todo - {t};
      done := done + {t};
    }
  }

  /** The highest page id a record touches. */
  method TrackPages(m0: nat, blocks: seq<Block>) returns (m: nat)
    ensures m == MaxPageOf(m0, blocks)
  {
    m := m0;
    for i := 0 to |blocks|
      invariant MaxPageOf(m0, blocks) == MaxPageOf(m, blocks[i..])
    {
      m := Max(m, blocks[i].page);
    }
  }

  /** `redo_record`: gate, apply and stamp block by block. */
  method RedoRecord(pages0: Pages, lsn: nat, blocks: seq<Block>) returns (r: Option<Pages>)
    ensures r == RedoBlocks(pages0, lsn, blocks)
  {
    var pages: Pages := pages0;
    for i := 0 to |blocks|
      invariant RedoBlocks(pages0, lsn, blocks) == RedoBlocks(pages, lsn, blocks[i..])
    {
      var b := blocks[i];
      assert blocks[i..][0] == b && blocks[i..][1..] == blocks[i + 1..];
      var q := Get(pages, b.page);
      var q' := RedoBlock(q, lsn, b.op);
      if q'.None? { return None; }
      pages := pages[b.page := q'.value];
    }
    return Some(pages);
  }

  method RedoOne(pages: Pages, lsn: nat, rec: Rec, redo: nat) returns (r: Option<Pages>)
    ensures r == RedoRec(pages, lsn, rec, redo)
  {
    r := Some(pages);
    if lsn >= redo {
      if rec.kind.Data? { r := RedoRecord(pages, lsn, rec.blocks); }
      else if rec.kind == Free(None) { r := None; }
    }
  }

  method Recover(disk: Pages, base: nat, kept: seq<Rec>, sb: Superblock) returns (r: Recovered)
    ensures r == RecoverSpec(disk, base, kept, sb)
  {
    hide RedoRec, Seen, MaxPageOf, Victims;
    var ck := FindCheckpoint(base, kept, sb);
    var redo := RedoPoint(ck);
    var clog := Seed(if ck.Some? then ck.value.pinned else {});
    var nextTxn0, nextPage0 := if ck.Some? then ck.value.nextTxn else 0, if ck.Some? then ck.value.nextPage else 0;
    var maxTxn, maxPage := Pred(nextTxn0), Pred(nextPage0);
    var seen, pages := {}, disk;
    ghost var seed := clog;
    NoneSeen();
    assert kept[..0] == [];
    for i := 0 to |kept|
      invariant seen == Seen(kept[..i])
      invariant MaxTxn(Pred(nextTxn0), kept) == MaxTxn(maxTxn, kept[i..])
      invariant MaxPage(Pred(nextPage0), kept) == MaxPage(maxPage, kept[i..])
      invariant MarkAll(seed, kept) == MarkAll(clog, kept[i..])
      invariant RedoKept(disk, base, kept, redo) == RedoKept(pages, base + i, kept[i..], redo)
    {
      var rec := kept[i];
      assert kept[i..][0] == rec && kept[i..][1..] == kept[i + 1..];
      SeenGrows(kept, i);
      if rec.txn != 0 {
        seen := seen + {rec.txn};
        maxTxn := Max(maxTxn, rec.txn);
      }
      maxPage := TrackPages(maxPage, rec.blocks);
      clog := MarkOne(clog, rec);
      var next := RedoOne(pages, base + i + 1, rec, redo);
      if next.None? { return Failed; }
      pages := next.value;
    }
    assert kept[..|kept|] == kept;
    VictimsAre(clog, ck, kept);
    clog := MarkVictims(clog, (if ck.Some? then ck.value.active else {}) + seen);
    r := Recovered(pages, clog, Max(1, Max(nextTxn0, maxTxn + 1)), Max(nextPage0, maxPage + 1),
                   if ck.Some? then ck.value.horizon else 0);
  }

  lemma VictimsAre(clog: Clog, ck: Option<Ckpt>, kept: seq<Rec>)
    ensures Victims(clog, ck, kept)
            == set t | t in (if ck.Some? then ck.value.active else {}) + Seen(kept) && !ClogCommitted(clog, t) && !ClogAborted(clog, t)
  {
  }

  lemma NoneSeen()
    ensures Seen([]) == {}
  {
  }

  lemma SeenGrows(kept: seq<Rec>, i: nat)
    requires i < |kept|
    ensures Seen(kept[..i + 1]) == Seen(kept[..i]) + if kept[i].txn != 0 then {kept[i].txn} else {}
  {
    var a, b := kept[..i], kept[..i + 1];
    forall t | t in Seen(b) ensures t in Seen(a) + if kept[i].txn != 0 then {kept[i].txn} else {} {
      var j :| 0 <= j < |b| && b[j].txn != 0 && b[j].txn == t;
      if j < i { assert a[j] == b[j]; }
    }
    forall t | t in Seen(a) ensures t in Seen(b) {
      var j :| 0 <= j < |a| && a[j].txn != 0 && a[j].txn == t;
      assert b[j] == a[j];
    }
    assert b[i] == kept[i];
  }

  // ── What the rebuilt CLOG means ────────────────────────────────────────────

  ghost predicate HasRec(log: seq<Rec>, t: nat) { exists i :: 0 <= i < |log| && log[i].txn == t }

  ghost predicate HasCommit(log: seq<Rec>, t: nat) { exists i :: 0 <= i < |log| && log[i].txn == t && log[i].kind.Commit? }

  ghost predicate HasAbort(log: seq<Rec>, t: nat) { exists i :: 0 <= i < |log| && log[i].txn == t && log[i].kind.Abort? }

  /** A transaction's outcome is its last record, and checkpoints belong to no transaction. */
  ghost predicate SettleLast(log: seq<Rec>) {
    (forall i, j :: 0 <= i < j < |log| && (log[i].kind.Commit? || log[i].kind.Abort?) ==> log[j].txn != log[i].txn)
    && (forall i :: 0 <= i < |log| && (log[i].kind.Commit? || log[i].kind.Abort?) ==> log[i].txn != 0)
  }

  /** Marking in log order leaves each transaction at its own outcome, or where it was. */
  lemma {:induction false} MarkAllOutcome(clog: Clog, kept: seq<Rec>, t: nat)
    requires SettleLast(kept)
    ensures var r := MarkAll(clog, kept);
            if HasCommit(kept, t) then t in r && r[t] == Committed
            else if HasAbort(kept, t) then t in r && r[t] == Aborted
            else (t in r <==> t in clog) && (t in r ==> r[t] == clog[t])
    decreases |kept|
  {
    if kept != [] {
      var rest := kept[1..];
      assert forall i :: 0 <= i < |rest| ==> rest[i] == kept[i + 1];
      MarkAllOutcome(MarkOne(clog, kept[0]), rest, t);
      if HasCommit(kept, t) {
        var i :| 0 <= i < |kept| && kept[i].txn == t && kept[i].kind.Commit?;
        if i > 0 { assert rest[i - 1] == kept[i]; }
      }
      if HasAbort(kept, t) {
        var i :| 0 <= i < |kept| && kept[i].txn == t && kept[i].kind.Abort?;
        if i > 0 { assert rest[i - 1] == kept[i]; }
      }
    }
  }

  /** What a checkpoint taken after the first `at` records says about them. */
  ghost predicate CkptOk(log: seq<Rec>, ck: Ckpt, at: nat)
    requires at <= |log|
  {
    (forall t {:trigger Accounted(log, ck, at, t)} :: t != 0 ==> Accounted(log, ck, at, t))
    && (forall i, b :: 0 <= i < at && b in log[i].blocks ==> b.page < ck.nextPage)
  }

  ghost predicate Accounted(log: seq<Rec>, ck: Ckpt, at: nat, t: nat)
    requires at <= |log|
  {
    (HasRec(log[..at], t) ==> t < ck.nextTxn) && (t in ck.active + ck.pinned ==> !HasCommit(log[..at], t))
  }

  /** A transaction with a record by then and no Commit is named, or is below the horizon. */
  ghost predicate Naming(log: seq<Rec>, ck: Ckpt, at: nat, t: nat)
    requires at <= |log|
  {
    HasRec(log[..at], t) ==> t in ck.active || HasCommit(log[..at], t) || t < ck.horizon || t in ck.pinned
  }

  lemma SettleLastSuffix(log: seq<Rec>, base: nat)
    requires SettleLast(log) && base <= |log|
    ensures SettleLast(log[base..])
  {
    var kept := log[base..];
    assert forall i :: 0 <= i < |kept| ==> kept[i] == log[base + i];
  }

  /** A committed transaction is never rebuilt as aborted, even with its record reclaimed. */
  lemma CommittedStays(log: seq<Rec>, base: nat, ck: Option<Ckpt>, at: nat, t: nat)
    requires SettleLast(log) && base <= at <= |log| && (ck.None? ==> base == 0)
    requires ck.Some? ==> CkptOk(log, ck.value, at)
    requires t != 0 && HasCommit(log, t)
    ensures !ClogAborted(RecoveredClog(ck, log[base..]), t)
  {
    var kept := log[base..];
    var clog := MarkAll(Seed(if ck.Some? then ck.value.pinned else {}), kept);
    SettleLastSuffix(log, base);
    MarkAllOutcome(Seed(if ck.Some? then ck.value.pinned else {}), kept, t);
    var c :| 0 <= c < |log| && log[c].txn == t && log[c].kind.Commit?;
    if c >= base {
      assert kept[c - base] == log[c];
      assert HasCommit(kept, t) && clog[t] == Committed;
    } else {
      assert log[..at][c] == log[c] && HasCommit(log[..at], t);
      assert Accounted(log, ck.value, at, t);
      forall i | 0 <= i < |kept| ensures kept[i].txn != t { assert kept[i] == log[base + i]; }
      assert t !in Seen(kept);
    }
  }

  /** One that left a trace the checkpoint names or did not see, and did not commit, is rebuilt as aborted. */
  lemma UncommittedAborts(log: seq<Rec>, base: nat, ck: Option<Ckpt>, at: nat, t: nat)
    requires SettleLast(log) && base <= at <= |log| && (ck.None? ==> base == 0)
    requires ck.Some? ==> Naming(log, ck.value, at, t)
    requires t != 0 && !HasCommit(log, t) && (ck.Some? ==> t >= ck.value.horizon)
    requires HasRec(log, t) || (ck.Some? && t in ck.value.active)
    ensures ClogAborted(RecoveredClog(ck, log[base..]), t)
  {
    var kept := log[base..];
    var seed := Seed(if ck.Some? then ck.value.pinned else {});
    var clog := MarkAll(seed, kept);
    SettleLastSuffix(log, base);
    MarkAllOutcome(seed, kept, t);
    assert !HasCommit(kept, t) by { assert forall i :: 0 <= i < |kept| ==> kept[i] == log[base + i]; }
    if t !in Seen(kept) && !(ck.Some? && t in ck.value.active) {
      var i :| 0 <= i < |log| && log[i].txn == t;
      assert i < base;
      assert log[..at][i] == log[i] && HasRec(log[..at], t);
      assert !HasCommit(log[..at], t) by { assert forall j :: 0 <= j < at ==> log[..at][j] == log[j]; }
    }
  }
}
