/**
What the B-link protocol gives a search: in every reachable state a descent is never right
of its key, it lands on the one leaf whose range holds the key, rows are neither lost nor
duplicated, and over a quiet tree the descent ends.
*/
module BLinkSearch {
  import opened Options
  import opened InternalNode
  import opened BLink
  import opened Sets

  // ── The leaves, from left to right ─────────────────────────────────────────

  ghost predicate Linked(pages: Pages, chain: seq<PageId>)
    decreases |chain|
  {
    chain != [] && chain[0] in pages && pages[chain[0]].level == 0
    && if |chain| == 1 then pages[chain[0]].right == None
       else pages[chain[0]].right == Some(chain[1]) && Linked(pages, chain[1..])
  }

  ghost predicate ChainOk(tree: Tree) {
    Linked(tree.pages, tree.chain) && tree.pages[tree.chain[0]].low == NegInf
    && forall p :: p in tree.pages && tree.pages[p].level == 0 ==> p in tree.chain
  }

  /** Everything further right is further right, and starts where the first page ends or later. */
  lemma {:induction false} FurtherRight(pages: Pages, chain: seq<PageId>, q: PageId)
    requires PagesOk(pages) && Linked(pages, chain) && q in chain[1..]
    ensures q in pages && pages[q].level == 0 && pages[chain[0]].ord < pages[q].ord
    ensures LeB(pages[chain[0]].high, pages[q].low) && !pages[chain[0]].high.PosInf?
    decreases |chain|
  {
    assert PageOk(pages, chain[0]) && PageOk(pages, chain[1]);
    if q != chain[1] {
      assert q in chain[1..][1..];
      FurtherRight(pages, chain[1..], q);
      LeBTrans(pages[chain[0]].high, pages[chain[1]].high, pages[q].low);
    }
  }

  lemma {:induction false} LinkedKept(pages: Pages, pages': Pages, chain: seq<PageId>)
    requires Linked(pages, chain)
    requires forall p :: p in chain && p in pages ==> p in pages' && pages'[p].level == 0 && pages'[p].right == pages[p].right
    ensures Linked(pages', chain)
    decreases |chain|
  {
    if |chain| > 1 { LinkedKept(pages, pages', chain[1..]); }
  }

  lemma {:induction false} LinkedSplit(pages: Pages, chain: seq<PageId>, p: PageId, newId: PageId, sep: Key, left: Body, right: Body)
    requires PagesOk(pages) && Linked(pages, chain) && p in chain && newId !in pages
    requires p in pages && (pages[p].right.Some? ==> pages[p].right.value in pages)
    ensures var chain' := After1(chain, p, newId);
            Linked(SplitPages(pages, p, newId, sep, left, right), chain') && chain'[0] == chain[0]
            && forall q :: q in chain' <==> q in chain || q == newId
    decreases |chain|
  {
    var pages', chain' := SplitPages(pages, p, newId, sep, left, right), After1(chain, p, newId);
    if chain[0] == p {
      forall q | q in chain[1..] ensures q in pages && q != p && pages[q].level == 0 { FurtherRight(pages, chain, q); }
      if |chain| > 1 { LinkedKept(pages, pages', chain[1..]); }
      var tail := [newId] + chain[1..];
      assert tail[1..] == chain[1..];
      assert Linked(pages', tail);
      assert chain' == [p] + tail && chain'[1..] == tail;
      assert chain == [p] + chain[1..];
    } else {
      assert p in chain[1..];
      LinkedSplit(pages, chain[1..], p, newId, sep, left, right);
      assert chain'[1..] == After1(chain[1..], p, newId) && chain == [chain[0]] + chain[1..];
    }
  }

  lemma {:induction false} AllLeaves(pages: Pages, chain: seq<PageId>, p: PageId)
    requires Linked(pages, chain) && p in chain
    ensures p in pages && pages[p].level == 0
    decreases |chain|
  {
    if p != chain[0] { AllLeaves(pages, chain[1..], p); }
  }

  /** No step but a leaf split changes which leaves there are or how they are linked. */
  lemma LeavesKept(s: Sys, step: Step, p: PageId)
    requires Inv(s) && Enabled(s, step) && !step.SplitLeaf? && p in Apply(s, step).tree.pages && Apply(s, step).tree.pages[p].level == 0
    ensures p in s.tree.pages && s.tree.pages[p].level == 0 && Apply(s, step).tree.pages[p].right == s.tree.pages[p].right
  {
    if step.AddLink? || step.SplitParent? {
      assert PageOk(s.tree.pages, s.pcs[step.t].parent);
      assert PcOk(s.tree.pages, s.pcs[step.t]);
    }
    hide Split, AddDownlink, Child, RootOk, StackOk, PagesOk, ThreadsOk;
  }

  lemma ChainStep(s: Sys, step: Step)
    requires Inv(s) && ChainOk(s.tree) && Enabled(s, step)
    ensures ChainOk(Apply(s, step).tree)
  {
    InvStep(s, step);
    var pages, s' := s.tree.pages, Apply(s, step);
    var pages' := s'.tree.pages;
    forall p | p in s.tree.chain ensures p in pages && pages[p].level == 0 && PageOk(pages, p) { AllLeaves(pages, s.tree.chain, p); }
    if step.SplitLeaf? {
      var p := s.pcs[step.t].pid;
      assert PageOk(pages, p);
      LinkedSplit(pages, s.tree.chain, p, step.newId, pages[p].body.rows[step.mid], pages'[p].body, pages'[step.newId].body);
    } else {
      assert s'.tree.chain == s.tree.chain;
      forall p | p in pages' && pages'[p].level == 0 ensures p in pages && pages[p].level == 0 && pages'[p].right == pages[p].right {
        LeavesKept(s, step, p);
      }
      hide Apply, Enabled;
      LinkedKept(pages, pages', s.tree.chain);
    }
  }

  // ── Search ─────────────────────────────────────────────────────────────────

  ghost predicate Holds(pages: Pages, p: PageId, key: Key) {
    p in pages && pages[p].level == 0 && From(pages[p].low, key) && Below(key, pages[p].high)
  }

  lemma {:induction false} OneHolder(pages: Pages, chain: seq<PageId>, p: PageId, q: PageId, key: Key)
    requires PagesOk(pages) && Linked(pages, chain) && p in chain && q in chain
    requires Holds(pages, p, key) && Holds(pages, q, key)
    ensures p == q
    decreases |chain|
  {
    if p != q {
      if p == chain[0] { FurtherRight(pages, chain, q); }
      else if q == chain[0] { FurtherRight(pages, chain, p); }
      else { OneHolder(pages, chain[1..], p, q, key); }
    }
  }

  lemma InvInit(s: Sys)
    requires Init(s)
    ensures Inv(s) && ChainOk(s.tree)
  {
  }

  lemma {:induction false} RunKeepsInv(s: Sys, steps: seq<Step>, s': Sys)
    requires Inv(s) && ChainOk(s.tree) && Runs(s, steps, s')
    ensures Inv(s') && ChainOk(s'.tree)
    decreases |steps|
  {
    if steps != [] {
      InvStep(s, steps[0]);
      ChainStep(s, steps[0]);
      RunKeepsInv(Apply(s, steps[0]), steps[1..], s');
    }
  }

  /**
  In every interleaving, with whatever downlinks are missing, a descent's page starts at or
  left of its key; it can always go on; and the leaf it may stop at is the only leaf whose
  range holds the key.
  */
  lemma DescentFindsLeaf(s0: Sys, steps: seq<Step>, s: Sys, t: nat)
    requires Init(s0) && Runs(s0, steps, s) && t in s.pcs && s.pcs[t].Descend?
    ensures var key, p := s.pcs[t].key, s.pcs[t].pid;
            p in s.tree.pages && From(s.tree.pages[p].low, key)
            && (Enabled(s, Visit(t)) || AtLeaf(s.tree, key, p))
            && (AtLeaf(s.tree, key, p) ==> forall q :: Holds(s.tree.pages, q, key) <==> q == p)
  {
    InvInit(s0);
    RunKeepsInv(s0, steps, s);
    var pages, key, p := s.tree.pages, s.pcs[t].key, s.pcs[t].pid;
    assert PcOk(pages, s.pcs[t]) && PageOk(pages, p);
    if AtLeaf(s.tree, key, p) {
      forall q | Holds(pages, q, key) ensures q == p { OneHolder(pages, s.tree.chain, p, q, key); }
    }
  }

  /**
  Rows of the key elsewhere sit only on leaves whose high key is that very key: pages that
  were split inside its run.
  */
  lemma RowsOfKeyNearby(s0: Sys, steps: seq<Step>, s: Sys, t: nat, q: PageId, i: nat)
    requires Init(s0) && Runs(s0, steps, s) && t in s.pcs && s.pcs[t].Descend? && AtLeaf(s.tree, s.pcs[t].key, s.pcs[t].pid)
    requires q in s.tree.pages && s.tree.pages[q].body.Rows? && i < |s.tree.pages[q].body.rows|
    requires s.tree.pages[q].body.rows[i] == s.pcs[t].key
    ensures q == s.pcs[t].pid || s.tree.pages[q].high == Fin(s.pcs[t].key)
  {
    DescentFindsLeaf(s0, steps, s, t);
    InvInit(s0);
    RunKeepsInv(s0, steps, s);
    assert PageOk(s.tree.pages, q);
    if s.tree.pages[q].high != Fin(s.pcs[t].key) { assert Holds(s.tree.pages, q, s.pcs[t].key); }
  }

  // ── Conservation of rows ───────────────────────────────────────────────────

  /** How often leaf `p` holds key `k`. */
  ghost function Count(pages: Pages, p: PageId, k: Key): nat {
    if p in pages && pages[p].body.Rows? then multiset(pages[p].body.rows)[k] else 0
  }

  ghost function CountAll(pages: Pages, chain: seq<PageId>, k: Key): nat
    decreases |chain|
  {
    if chain == [] then 0 else Count(pages, chain[0], k) + CountAll(pages, chain[1..], k)
  }

  lemma {:induction false} CountSame(pages: Pages, pages': Pages, chain: seq<PageId>, k: Key)
    requires forall p :: p in chain ==> Count(pages', p, k) == Count(pages, p, k)
    ensures CountAll(pages', chain, k) == CountAll(pages, chain, k)
    decreases |chain|
  {
    if chain != [] {
      assert chain[0] in chain;
      CountSame(pages, pages', chain[1..], k);
    }
  }

  lemma {:induction false} CountUpdate(pages: Pages, pages': Pages, chain: seq<PageId>, p: PageId, k: Key)
    requires PagesOk(pages) && Linked(pages, chain) && p in chain
    requires forall q :: q != p ==> Count(pages', q, k) == Count(pages, q, k)
    ensures CountAll(pages', chain, k) + Count(pages, p, k) == CountAll(pages, chain, k) + Count(pages', p, k)
    decreases |chain|
  {
    if chain[0] == p {
      forall q | q in chain[1..] ensures Count(pages', q, k) == Count(pages, q, k) { FurtherRight(pages, chain, q); }
      CountSame(pages, pages', chain[1..], k);
    } else {
      assert p in chain[1..];
      CountUpdate(pages, pages', chain[1..], p, k);
    }
  }

  lemma {:induction false} CountSplit(pages: Pages, pages': Pages, chain: seq<PageId>, p: PageId, newId: PageId, k: Key)
    requires PagesOk(pages) && Linked(pages, chain) && p in chain && newId !in pages
    requires forall q :: q != p && q != newId ==> Count(pages', q, k) == Count(pages, q, k)
    ensures CountAll(pages', After1(chain, p, newId), k) + Count(pages, p, k)
            == CountAll(pages, chain, k) + Count(pages', p, k) + Count(pages', newId, k)
    decreases |chain|
  {
    var chain' := After1(chain, p, newId);
    if chain[0] == p {
      forall q | q in chain[1..] ensures Count(pages', q, k) == Count(pages, q, k) { FurtherRight(pages, chain, q); }
      CountSame(pages, pages', chain[1..], k);
      assert chain'[1..] == [newId] + chain[1..] && chain'[1..][1..] == chain[1..];
    } else {
      assert p in chain[1..] && chain'[1..] == After1(chain[1..], p, newId);
      CountSplit(pages, pages', chain[1..], p, newId, k);
    }
  }

  /** The row a step puts in, if any. */
  ghost function Given(s: Sys, step: Step): multiset<Key>
    requires Enabled(s, step)
  {
    match step
    case Insert(t, _) => multiset{s.pcs[t].key}
    case SplitLeaf(t, mid, _, _, room) =>
      if s.pcs[t].key < s.tree.pages[s.pcs[t].pid].body.rows[mid] && room then multiset{s.pcs[t].key} else multiset{}
    case _ => multiset{}
  }

  /** The row a step takes out, if any. */
  ghost function Taken(s: Sys, step: Step): multiset<Key>
    requires Enabled(s, step)
  {
    if step.Remove? then multiset{s.tree.pages[step.p].body.rows[step.pos]} else multiset{}
  }

  lemma InsertRowBag(rows: seq<Key>, pos: nat, key: Key)
    requires pos <= |rows|
    ensures multiset(InsertRow(rows, pos, key)) == multiset(rows) + multiset{key}
  {
    assert rows == rows[..pos] + rows[pos..];
  }

  lemma RemoveRowBag(rows: seq<Key>, pos: nat)
    requires pos < |rows|
    ensures multiset(rows) == multiset(rows[..pos] + rows[pos + 1..]) + multiset{rows[pos]}
  {
    assert rows == rows[..pos] + [rows[pos]] + rows[pos + 1..];
  }

  lemma SplitRowsBag(rows: seq<Key>, mid: nat)
    requires mid <= |rows|
    ensures multiset(rows) == multiset(rows[..mid]) + multiset(rows[mid..])
  {
    assert rows == rows[..mid] + rows[mid..];
  }

  lemma InsertAccounted(s: Sys, step: Step, k: Key)
    requires Inv(s) && ChainOk(s.tree) && Enabled(s, step) && step.Insert?
    ensures var s' := Apply(s, step);
            CountAll(s'.tree.pages, s'.tree.chain, k) + Taken(s, step)[k] == CountAll(s.tree.pages, s.tree.chain, k) + Given(s, step)[k]
  {
    var pages, pages', p := s.tree.pages, Apply(s, step).tree.pages, s.pcs[step.t].pid;
    assert PageOk(pages, p);
    hide PagesOk, ThreadsOk, Linked, PageOk, CountAll, RootOk;
    CountUpdate(pages, pages', s.tree.chain, p, k);
    InsertRowBag(pages[p].body.rows, step.pos, s.pcs[step.t].key);
  }

  lemma RemoveAccounted(s: Sys, step: Step, k: Key)
    requires Inv(s) && ChainOk(s.tree) && Enabled(s, step) && step.Remove?
    ensures var s' := Apply(s, step);
            CountAll(s'.tree.pages, s'.tree.chain, k) + Taken(s, step)[k] == CountAll(s.tree.pages, s.tree.chain, k) + Given(s, step)[k]
  {
    var pages, pages', p := s.tree.pages, Apply(s, step).tree.pages, step.p;
    assert PageOk(pages, p);
    hide PagesOk, ThreadsOk, Linked, PageOk, CountAll, RootOk;
    CountUpdate(pages, pages', s.tree.chain, p, k);
    RemoveRowBag(pages[p].body.rows, step.pos);
  }

  /** Cutting the rows, and putting the new one into the lower half if it goes there. */
  lemma SplitCounts(rows: seq<Key>, mid: nat, pos: nat, key: Key, lands: bool, k: Key)
    requires mid < |rows| && (lands ==> pos <= mid)
    ensures var left := if lands then InsertRow(rows[..mid], pos, key) else rows[..mid];
            multiset(left)[k] + multiset(rows[mid..])[k] == multiset(rows)[k] + if lands && k == key then 1 else 0
  {
    SplitRowsBag(rows, mid);
    if lands { InsertRowBag(rows[..mid], pos, key); }
  }

  lemma SplitStepAccounted(s: Sys, step: Step, k: Key)
    requires Inv(s) && ChainOk(s.tree) && Enabled(s, step) && step.SplitLeaf?
    ensures var s' := Apply(s, step);
            CountAll(s'.tree.pages, s'.tree.chain, k) + Taken(s, step)[k] == CountAll(s.tree.pages, s.tree.chain, k) + Given(s, step)[k]
  {
    var pages, p, key := s.tree.pages, s.pcs[step.t].pid, s.pcs[step.t].key;
    var rows, sep := pages[p].body.rows, pages[p].body.rows[step.mid];
    assert PageOk(pages, p);
    SplitCounts(rows, step.mid, step.pos, key, key < sep && step.room, k);
    var left := if key < sep && step.room then InsertRow(rows[..step.mid], step.pos, key) else rows[..step.mid];
    SplitCountAll(pages, s.tree.chain, p, step.newId, sep, left, rows[step.mid..], k);
    hide PagesOk, ThreadsOk, Linked, PageOk, CountAll, RootOk, After1, InsertRow, SplitPages, ChainOk;
  }

  lemma SplitCountAll(pages: Pages, chain: seq<PageId>, p: PageId, newId: PageId, sep: Key, left: seq<Key>, right: seq<Key>, k: Key)
    requires PagesOk(pages) && Linked(pages, chain) && p in chain && newId !in pages
    requires p in pages && pages[p].body.Rows? && (pages[p].right.Some? ==> pages[p].right.value in pages)
    ensures CountAll(SplitPages(pages, p, newId, sep, Rows(left), Rows(right)), After1(chain, p, newId), k) + multiset(pages[p].body.rows)[k]
            == CountAll(pages, chain, k) + multiset(left)[k] + multiset(right)[k]
  {
    hide PagesOk, Linked, CountAll, After1;
    CountSplit(pages, SplitPages(pages, p, newId, sep, Rows(left), Rows(right)), chain, p, newId, k);
  }

  /** Splits, downlinks and root growth move rows but neither lose nor duplicate any. */
  lemma RowsAccountedFor(s: Sys, step: Step, k: Key)
    requires Inv(s) && ChainOk(s.tree) && Enabled(s, step)
    ensures var s' := Apply(s, step);
            CountAll(s'.tree.pages, s'.tree.chain, k) + Taken(s, step)[k] == CountAll(s.tree.pages, s.tree.chain, k) + Given(s, step)[k]
  {
    var pages, pages', chain := s.tree.pages, Apply(s, step).tree.pages, s.tree.chain;
    if step.Insert? { InsertAccounted(s, step, k); }
    else if step.Remove? { RemoveAccounted(s, step, k); }
    else if step.SplitLeaf? { SplitStepAccounted(s, step, k); }
    else {
      forall p | p in chain ensures Count(pages', p, k) == Count(pages, p, k) {
        AllLeaves(pages, chain, p);
        assert PageOk(pages, p);
        if step.AddLink? || step.SplitParent? { assert PageOk(pages, s.pcs[step.t].parent); }
      }
      CountSame(pages, pages', chain, k);
    }
  }

  ghost function GivenBy(s: Sys, steps: seq<Step>, k: Key): nat
    decreases |steps|
  {
    if steps == [] || !Enabled(s, steps[0]) then 0 else Given(s, steps[0])[k] + GivenBy(Apply(s, steps[0]), steps[1..], k)
  }

  ghost function TakenBy(s: Sys, steps: seq<Step>, k: Key): nat
    decreases |steps|
  {
    if steps == [] || !Enabled(s, steps[0]) then 0 else Taken(s, steps[0])[k] + TakenBy(Apply(s, steps[0]), steps[1..], k)
  }

  /** Over a whole run each key's rows balance. */
  lemma {:induction false} RunAccountedFor(s: Sys, steps: seq<Step>, s': Sys, k: Key)
    requires Inv(s) && ChainOk(s.tree) && Runs(s, steps, s')
    ensures CountAll(s'.tree.pages, s'.tree.chain, k) + TakenBy(s, steps, k)
            == CountAll(s.tree.pages, s.tree.chain, k) + GivenBy(s, steps, k)
    decreases |steps|
  {
    if steps != [] {
      RowsAccountedFor(s, steps[0], k);
      InvStep(s, steps[0]);
      ChainStep(s, steps[0]);
      RunAccountedFor(Apply(s, steps[0]), steps[1..], s', k);
    }
  }

  // ── What an insert adds ────────────────────────────────────────────────────

  /** Whose step it is; a removal is nobody's. */
  ghost predicate By(step: Step, t: nat) { !step.Remove? && step.t == t }

  ghost predicate Over(pc: Pc) { pc.Idle? || pc.Ended? }

  /** The key of a call under way. */
  ghost function KeyOf(pc: Pc): Key
    requires !Over(pc)
  {
    if pc.Descend? then pc.key else pc.w.key
  }

  /** How many rows the call has yet to add. */
  ghost function Owes(pc: Pc): nat {
    match pc
    case Idle => 0
    case Ended(_) => 0
    case Descend(_, inserts, _, _) => if inserts then 1 else 0
    case Link(w) => OwesAfter(w)
    case Climb(w, _) => OwesAfter(w)
    case Grow(w) => OwesAfter(w)
    case Publish(w, _) => OwesAfter(w)
  }

  ghost function OwesAfter(w: Work): nat { if w.inserts && !w.after.Stop? then 1 else 0 }

  /** A step of a call under way adds what it no longer owes, unless it gives the call up; the key stays. */
  lemma OwesStep(s: Sys, step: Step, t: nat)
    requires Enabled(s, step) && By(step, t) && t in s.pcs && !Over(s.pcs[t])
    ensures var s' := Apply(s, step);
            t in s'.pcs
            && (if GivesUp(s, step) then s'.pcs[t].Idle?
                else !s'.pcs[t].Idle? && Owes(s'.pcs[t]) + |Given(s, step)| == Owes(s.pcs[t]))
            && (!Over(s'.pcs[t]) ==> KeyOf(s'.pcs[t]) == KeyOf(s.pcs[t]))
            && (s'.pcs[t].Ended? ==> s'.pcs[t].key == KeyOf(s.pcs[t]))
            && Given(s, step) == (if |Given(s, step)| == 0 then multiset{} else multiset{KeyOf(s.pcs[t])})
            && |Given(s, step)| <= 1
  {
    hide SplitPages, After1, InsertRow, FitsAt;
  }

  /** Rows of key `k` that `t`'s steps put in. */
  ghost function AddedBy(s: Sys, steps: seq<Step>, t: nat, k: Key): nat
    decreases |steps|
  {
    if steps == [] || !Enabled(s, steps[0]) then 0
    else (if By(steps[0], t) then Given(s, steps[0])[k] else 0) + AddedBy(Apply(s, steps[0]), steps[1..], t, k)
  }

  /** ... and that everybody else's do. */
  ghost function AddedByOthers(s: Sys, steps: seq<Step>, t: nat, k: Key): nat
    decreases |steps|
  {
    if steps == [] || !Enabled(s, steps[0]) then 0
    else (if By(steps[0], t) then 0 else Given(s, steps[0])[k]) + AddedByOthers(Apply(s, steps[0]), steps[1..], t, k)
  }

  lemma {:induction false} GivenSplits(s: Sys, steps: seq<Step>, t: nat, k: Key)
    ensures GivenBy(s, steps, k) == AddedBy(s, steps, t, k) + AddedByOthers(s, steps, t, k)
    decreases |steps|
  {
    if steps != [] && Enabled(s, steps[0]) { GivenSplits(Apply(s, steps[0]), steps[1..], t, k); }
  }

  /** Some step of `t` gives its call up. */
  ghost predicate GaveUp(s: Sys, steps: seq<Step>, t: nat)
    decreases |steps|
  {
    steps != [] && Enabled(s, steps[0])
    && ((By(steps[0], t) && GivesUp(s, steps[0])) || GaveUp(Apply(s, steps[0]), steps[1..], t))
  }

  /** No new call of `t`. */
  ghost predicate NoStart(steps: seq<Step>, t: nat) { forall i {:trigger steps[i]} :: 0 <= i < |steps| ==> !(steps[i].Start? && steps[i].t == t) }

  lemma OthersLeave(s: Sys, step: Step, t: nat)
    requires Enabled(s, step) && t in s.pcs && !By(step, t)
    ensures t in Apply(s, step).pcs && Apply(s, step).pcs[t] == s.pcs[t]
  {
    hide SplitPages, After1, InsertRow, FitsAt, AtLeaf, AtParent, AddDownlink, Split, Child;
  }

  /** All that a thread whose call is over does without a new one is to give up. */
  lemma OnlyLeaves(s: Sys, step: Step, t: nat)
    requires Enabled(s, step) && t in s.pcs && Over(s.pcs[t]) && By(step, t) && !step.Start?
    ensures GivesUp(s, step) && Apply(s, step).pcs == s.pcs[t := Idle] && Given(s, step) == multiset{}
  {
    hide SplitPages, After1, InsertRow, FitsAt;
  }

  /** Without a new call, a thread whose call is over adds nothing and stays as it is. */
  lemma {:induction false} OverStaysOver(s: Sys, steps: seq<Step>, s': Sys, t: nat, k: Key)
    requires Runs(s, steps, s') && NoStart(steps, t) && t in s.pcs && Over(s.pcs[t])
    ensures t in s'.pcs && (s'.pcs[t] == s.pcs[t] || (s'.pcs[t].Idle? && GaveUp(s, steps, t))) && AddedBy(s, steps, t, k) == 0
    decreases |steps|
  {
    if steps != [] {
      var s1 := Apply(s, steps[0]);
      if By(steps[0], t) { OnlyLeaves(s, steps[0], t); } else { OthersLeave(s, steps[0], t); }
      hide Apply, Enabled, Given, GivesUp;
      assert forall i :: 0 <= i < |steps[1..]| ==> steps[1..][i] == steps[i + 1];
      OverStaysOver(s1, steps[1..], s', t, k);
    }
  }

  /** From any point of a call to its end: it adds what it owes, of its own key, and nothing else. */
  lemma {:induction false} CallAdds(s: Sys, steps: seq<Step>, s': Sys, t: nat, k: Key)
    requires Runs(s, steps, s') && NoStart(steps, t) && t in s.pcs && !Over(s.pcs[t])
    ensures t in s'.pcs && AddedBy(s, steps, t, k) <= (if k == KeyOf(s.pcs[t]) then Owes(s.pcs[t]) else 0)
    ensures s'.pcs[t].Ended? ==>
              s'.pcs[t].key == KeyOf(s.pcs[t]) && AddedBy(s, steps, t, k) == if k == KeyOf(s.pcs[t]) then Owes(s.pcs[t]) else 0
    ensures s'.pcs[t].Idle? ==> GaveUp(s, steps, t)
    decreases |steps|
  {
    if steps != [] {
      var s1 := Apply(s, steps[0]);
      assert forall i :: 0 <= i < |steps[1..]| ==> steps[1..][i] == steps[i + 1];
      if By(steps[0], t) { OwesStep(s, steps[0], t); } else { OthersLeave(s, steps[0], t); }
      hide Apply, Enabled, Given, GivesUp;
      if Over(s1.pcs[t]) { OverStaysOver(s1, steps[1..], s', t, k); }
      else { CallAdds(s1, steps[1..], s', t, k); }
    }
  }

  /**
  Every insert adds its row: from the start of the call to its end, through any number of
  splits and whatever the other threads do, it has added its key once and no other, so the
  leaves hold one row more of it than the others' inserts and the removals account for.
  */
  lemma InsertAddsOnce(s: Sys, t: nat, key: Key, steps: seq<Step>, s': Sys, k: Key)
    requires Inv(s) && ChainOk(s.tree) && Enabled(s, Start(t, key, true))
    requires var s1 := Apply(s, Start(t, key, true)); Runs(s1, steps, s') && NoStart(steps, t)
    requires t in s'.pcs && s'.pcs[t].Ended?
    ensures var s1, own := Apply(s, Start(t, key, true)), if k == key then 1 else 0;
            s'.pcs[t].key == key && AddedBy(s1, steps, t, k) == own
            && CountAll(s'.tree.pages, s'.tree.chain, k) + TakenBy(s1, steps, k)
               == CountAll(s.tree.pages, s.tree.chain, k) + own + AddedByOthers(s1, steps, t, k)
  {
    var s1 := Apply(s, Start(t, key, true));
    InvStep(s, Start(t, key, true));
    ChainStep(s, Start(t, key, true));
    hide Enabled, Inv, ChainOk, CountAll;
    CallAdds(s1, steps, s', t, k);
    GivenSplits(s1, steps, t, k);
    RunAccountedFor(s1, steps, s', k);
  }

  // ── A quiet tree ───────────────────────────────────────────────────────────

  ghost function RightOf(pages: Pages, p: PageId): set<PageId>
    requires p in pages
  {
    set r | r in pages && pages[r].ord > pages[p].ord
  }

  lemma FewerRight(pages: Pages, p: PageId, r: PageId)
    requires p in pages && r in pages && pages[p].ord < pages[r].ord
    ensures |RightOf(pages, r)| < |RightOf(pages, p)|
  {
    assert RightOf(pages, r) + {r} <= RightOf(pages, p) && r !in RightOf(pages, r);
    SubsetSize(RightOf(pages, r) + {r}, RightOf(pages, p));
  }

  /** `find_leaf`. */
  method FindLeaf(tree: Tree, key: Key) returns (p: PageId)
    requires PagesOk(tree.pages) && RootOk(tree)
    ensures p in tree.pages && tree.pages[p].body.Rows? && From(tree.pages[p].low, key)
  {
    var pages := tree.pages;
    p := tree.root;
    while true
      invariant p in pages && From(pages[p].low, key)
      decreases pages[p].level, |RightOf(pages, p)|
    {
      assert PageOk(pages, p);
      var q := pages[p];
      match q.body
      case Down(node) =>
        if !Below(key, q.high) {
          FewerRight(pages, p, q.right.value);
          p := q.right.value;
        } else {
          VisitOk(pages, key, p, []);
          assert ChildOk(pages, q, Route(node.keys, key));
          var _, child := FindChild(node, key);
          p := child;
        }
      case Rows(_) => return p;
    }
  }

  /** The right-link correction after `find_leaf`: it ends, on the leaf that holds the key. */
  method CorrectRight(tree: Tree, key: Key, start: PageId) returns (p: PageId)
    requires PagesOk(tree.pages) && start in tree.pages && tree.pages[start].body.Rows? && From(tree.pages[start].low, key)
    ensures Holds(tree.pages, p, key)
  {
    var pages := tree.pages;
    p := start;
    assert PageOk(pages, p);
    while !Below(key, pages[p].high)
      invariant p in pages && pages[p].level == 0 && From(pages[p].low, key)
      decreases |RightOf(pages, p)|
    {
      assert PageOk(pages, p);
      FewerRight(pages, p, pages[p].right.value);
      p := pages[p].right.value;
    }
  }
}
