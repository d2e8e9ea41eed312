/**
Downlinks of the B-link tree (crates/storage/src/index/smo.rs, `insert_separator_via_stack`):
which pages a parent points at, and who still owes the missing ones.
*/
module BLinkDownlinks {
  import opened Options
  import opened InternalNode
  import opened BLink

  // ── A downlink lands and stays ─────────────────────────────────────────────

  /** Some page has `child` below it. */
  ghost predicate HasDownlink(pages: Pages, child: PageId) {
    exists p {:trigger pages[p]} :: p in pages && pages[p].body.Down? && child in pages[p].body.node.children
  }

  /** The new downlink and every old one is in the page, or in one of the halves it is split into. */
  lemma InHalves(n: Node, sep: Key, right: PageId, child: PageId)
    requires |n.children| == |n.keys| + 1 && (child == right || child in n.children)
    ensures child in AddDownlink(n, sep, right).children
    ensures var h := Split(n, sep, right); child in h.left.children || child in h.right.children
  {
    var m, at := AddDownlink(n, sep, right), Route(n.keys, sep) + 1;
    var mid := |m.keys| / 2;
    var j :| 0 <= j < |m.children| && m.children[j] == child by {
      if child == right { assert m.children[at] == child; }
      else {
        var i :| 0 <= i < |n.children| && n.children[i] == child;
        assert m.children[if i < at then i else i + 1] == child;
      }
    }
    if j <= mid { assert m.children[..mid + 1][j] == child; } else { assert m.children[mid + 1..][j - mid - 1] == child; }
  }

  /** Inserting a downlink, fusing it into a split or building a root on it puts it in some page. */
  lemma DownlinkLands(s: Sys, step: Step)
    requires Inv(s) && Enabled(s, step) && (step.AddLink? || step.SplitParent? || step.GrowRoot?)
    ensures HasDownlink(Apply(s, step).tree.pages, s.pcs[step.t].w.right)
  {
    var pages', pc := Apply(s, step).tree.pages, s.pcs[step.t];
    if step.GrowRoot? { assert pc.w.right in pages'[step.newId].body.node.children; }
    else { ParentKeeps(s, step, pc.w.right); }
  }

  lemma ParentKeeps(s: Sys, step: Step, child: PageId)
    requires Enabled(s, step) && (step.AddLink? || step.SplitParent?)
    requires var pc := s.pcs[step.t]; child == pc.w.right || child in s.tree.pages[pc.parent].body.node.children
    ensures HasDownlink(Apply(s, step).tree.pages, child)
  {
    var pages, pages', pc := s.tree.pages, Apply(s, step).tree.pages, s.pcs[step.t];
    InHalves(pages[pc.parent].body.node, pc.w.sep, pc.w.right, child);
    hide Split, AddDownlink, Between;
    assert pages'[pc.parent].body.Down?;
    if step.SplitParent? { assert pages'[step.newId].body.Down?; }
  }

  /** Only the parent a downlink goes into changes among the internal pages. */
  lemma OtherNodesKept(s: Sys, step: Step, p: PageId)
    requires Inv(s) && Enabled(s, step) && p in s.tree.pages && s.tree.pages[p].body.Down?
    requires (step.AddLink? || step.SplitParent?) ==> p != s.pcs[step.t].parent
    ensures var pages' := Apply(s, step).tree.pages; p in pages' && pages'[p].body == s.tree.pages[p].body
  {
    hide Split, AddDownlink, Between, PagesOk, ThreadsOk, RootOk, After1;
  }

  /** A downlink, once there, stays in some page. */
  lemma DownlinkKept(s: Sys, step: Step, child: PageId)
    requires Inv(s) && Enabled(s, step) && HasDownlink(s.tree.pages, child)
    ensures HasDownlink(Apply(s, step).tree.pages, child)
  {
    var pages := s.tree.pages;
    var p :| p in pages && pages[p].body.Down? && child in pages[p].body.node.children;
    if (step.AddLink? || step.SplitParent?) && p == s.pcs[step.t].parent { ParentKeeps(s, step, child); }
    else { OtherNodesKept(s, step, p); }
  }

  // ── Every page is linked, owed or given up ─────────────────────────────────

  /** The thread has yet to insert the downlink of `p`. */
  ghost predicate Owes(pc: Pc, p: PageId) { (pc.Link? || pc.Climb? || pc.Grow?) && pc.w.right == p }

  ghost predicate Owed(s: Sys, p: PageId) { exists t :: t in s.pcs && Owes(s.pcs[t], p) }

  /** The pages a step leaves for good without the downlink their splitter owed. */
  ghost function Drops(s: Sys, step: Step): set<PageId>
    requires Enabled(s, step)
  {
    match step
    case Leave(t) => if s.pcs[t].Link? || s.pcs[t].Climb? || s.pcs[t].Grow? then {s.pcs[t].w.right} else {}
    case SplitLeaf(_, _, newId, _, _) => if GivesUp(s, step) then {newId} else {}
    case CheckRoot(t) => if s.tree.root != s.pcs[t].w.left then {s.pcs[t].w.right} else {}
    case _ => {}
  }

  ghost function Dropped(s: Sys, steps: seq<Step>): set<PageId>
    decreases |steps|
  {
    if steps == [] || !Enabled(s, steps[0]) then {} else Drops(s, steps[0]) + Dropped(Apply(s, steps[0]), steps[1..])
  }

  ghost predicate Accounted(s: Sys, p: PageId, dropped: set<PageId>) {
    HasDownlink(s.tree.pages, p) || Owed(s, p) || p in dropped
  }

  /** A page made by a split, which is every page with a lower bound. */
  ghost predicate AllAccounted(s: Sys, dropped: set<PageId>) {
    forall p {:trigger Accounted(s, p, dropped)} :: p in s.tree.pages && s.tree.pages[p].low.Fin? ==> Accounted(s, p, dropped)
  }

  /** A thread that owes a downlink inserts it, finds it, still owes it or drops it. */
  lemma OwerStep(s: Sys, step: Step, t: nat, p: PageId)
    requires Inv(s) && Enabled(s, step) && t in s.pcs && Owes(s.pcs[t], p)
    ensures Accounted(Apply(s, step), p, Drops(s, step))
  {
    var s' := Apply(s, step);
    if step.Remove? || step.t != t {
      assert t in s'.pcs by { hide SplitPages, After1; }
      OthersStay(s, step, t);
    } else {
      if step.AddLink? || step.SplitParent? || step.GrowRoot? { DownlinkLands(s, step); }
      else if step.AlreadyLinked? { assert s.pcs[t].parent in s.tree.pages; }
      else { assert t in s'.pcs && (p in Drops(s, step) || Owes(s'.pcs[t], p)); }
    }
  }

  lemma AccountedStep(s: Sys, step: Step, p: PageId, dropped: set<PageId>)
    requires Inv(s) && Enabled(s, step) && AllAccounted(s, dropped)
    requires p in Apply(s, step).tree.pages && Apply(s, step).tree.pages[p].low.Fin?
    ensures Accounted(Apply(s, step), p, dropped + Drops(s, step))
  {
    var s' := Apply(s, step);
    InvStep(s, step);
    if p in s.tree.pages {
      assert Accounted(s, p, dropped);
      if HasDownlink(s.tree.pages, p) { DownlinkKept(s, step, p); }
      else if Owed(s, p) {
        var t :| t in s.pcs && Owes(s.pcs[t], p);
        OwerStep(s, step, t, p);
      }
    } else {
      assert p in Drops(s, step) || (step.t in s'.pcs && Owes(s'.pcs[step.t], p));
    }
  }

  lemma {:induction false} RunAccounts(s: Sys, steps: seq<Step>, s': Sys, dropped: set<PageId>)
    requires Inv(s) && AllAccounted(s, dropped) && Runs(s, steps, s')
    ensures Inv(s') && AllAccounted(s', dropped + Dropped(s, steps))
    decreases |steps|
  {
    if steps == [] { assert dropped + Dropped(s, steps) == dropped; }
    else {
      var s1, d1 := Apply(s, steps[0]), dropped + Drops(s, steps[0]);
      InvStep(s, steps[0]);
      forall p | p in s1.tree.pages && s1.tree.pages[p].low.Fin? ensures Accounted(s1, p, d1) { AccountedStep(s, steps[0], p, dropped); }
      RunAccounts(s1, steps[1..], s', d1);
      assert dropped + Dropped(s, steps) == d1 + Dropped(s1, steps[1..]);
    }
  }

  /**
  In every interleaving, each page split off has its downlink, or a thread is on its way to
  insert it, or it was given up in one of three ways: its splitter stopped on an error, found
  no room for its row in the lower half, or found at the top of its stack that the root had
  changed.
  */
  lemma EveryPageLinked(s0: Sys, steps: seq<Step>, s: Sys, p: PageId)
    requires Init(s0) && Runs(s0, steps, s) && p in s.tree.pages && s.tree.pages[p].low.Fin?
    ensures HasDownlink(s.tree.pages, p) || Owed(s, p) || p in Dropped(s0, steps)
  {
    RunAccounts(s0, steps, s, {});
    assert Accounted(s, p, {} + Dropped(s0, steps));
  }

  // ── The top of the stack is as high as the root was ────────────────────────

  ghost predicate ResumeOk(pages: Pages, w: Work, top: nat) {
    w.left != w.right
    && (w.after.Resume? ==> w.after.pid in pages && pages[w.after.pid].level + |w.stack| == top)
  }

  ghost predicate TopOk(pages: Pages, pc: Pc, top: nat) {
    match pc
    case Idle => true
    case Ended(_) => true
    case Descend(_, _, p, stack) => p in pages && pages[p].level + |stack| == top
    case Link(w) => w.left in pages && pages[w.left].level + w.depth == top && ResumeOk(pages, w, top)
    case Climb(w, parent) => parent in pages && pages[parent].level + w.depth == top && ResumeOk(pages, w, top)
    case Grow(w) => w.left in pages && pages[w.left].level == top && ResumeOk(pages, w, top)
    case Publish(w, _) => ResumeOk(pages, w, top)
  }

  ghost predicate TopAt(s: Sys, t: nat) { t in s.pcs ==> t in s.tops && TopOk(s.tree.pages, s.pcs[t], s.tops[t]) }

  ghost predicate TopInv(s: Sys) { forall t {:trigger TopAt(s, t)} :: TopAt(s, t) }

  lemma TopKept(pages: Pages, pages': Pages, pc: Pc, top: nat)
    requires Grows(pages, pages') && TopOk(pages, pc, top)
    ensures TopOk(pages', pc, top)
  {
  }

  lemma TopDescends(s: Sys, step: Step)
    requires step.Start? || step.Visit? || step.Leave? || step.Insert? || step.SplitLeaf? || step.FinishSplit?
    requires Inv(s) && TopAt(s, step.t) && Enabled(s, step)
    ensures TopAt(Apply(s, step), step.t)
  {
    var pages, t := s.tree.pages, step.t;
    if t in s.pcs { assert PcOk(pages, s.pcs[t]); }
    if step.Visit? || step.FinishSplit? || step.SplitLeaf? { assert PageOk(pages, s.pcs[t].pid); }
    hide After1, Child, Route, PagesOk, RootOk, ThreadsOk, StackOk;
  }

  lemma TopClimbs(s: Sys, step: Step)
    requires step.Enter? || step.ClimbRight? || step.SplitParent? || step.CheckRoot? || step.GrowRoot?
    requires Inv(s) && TopAt(s, step.t) && Enabled(s, step)
    ensures TopAt(Apply(s, step), step.t)
  {
    var pages, t := s.tree.pages, step.t;
    assert PcOk(pages, s.pcs[t]);
    if step.ClimbRight? || step.SplitParent? { assert PageOk(pages, s.pcs[t].parent); }
    hide After1, Split, PagesOk, RootOk, ThreadsOk;
  }

  lemma TopFinishes(s: Sys, step: Step)
    requires step.AlreadyLinked? || step.AddLink? || step.PublishRoot?
    requires Inv(s) && TopAt(s, step.t) && Enabled(s, step)
    ensures TopAt(Apply(s, step), step.t)
  {
    assert PcOk(s.tree.pages, s.pcs[step.t]);
    hide AddDownlink, PagesOk, ThreadsOk;
  }

  lemma TopInvStep(s: Sys, step: Step)
    requires Inv(s) && TopInv(s) && Enabled(s, step)
    ensures TopInv(Apply(s, step))
  {
    var s' := Apply(s, step);
    InvStep(s, step);
    forall t ensures TopAt(s', t) {
      if !step.Remove? && t == step.t {
        assert TopAt(s, t);
        if step.AlreadyLinked? || step.AddLink? || step.PublishRoot? { TopFinishes(s, step); }
        else if step.Start? || step.Visit? || step.Leave? || step.Insert? || step.SplitLeaf? || step.FinishSplit? { TopDescends(s, step); }
        else { TopClimbs(s, step); }
      }
      else if t in s'.pcs {
        OthersStay(s, step, t);
        assert TopAt(s, t);
        TopKept(s.tree.pages, s'.tree.pages, s.pcs[t], s.tops[t]);
        assert s'.tops[t] == s.tops[t] by { hide SplitPages, After1, TopOk; }
      }
    }
  }

  // ── One call at a time ─────────────────────────────────────────────────────

  ghost predicate Busy(s: Sys, t: nat) { t in s.pcs && !s.pcs[t].Idle? && !s.pcs[t].Ended? }

  ghost predicate Quiet(s: Sys) { forall t :: !Busy(s, t) }

  /** Every page but the root has a page above it. */
  ghost predicate Complete(tree: Tree) {
    tree.root in tree.pages && forall p {:trigger HasDownlink(tree.pages, p)} :: p in tree.pages && p != tree.root ==> HasDownlink(tree.pages, p)
  }

  /** The root the thread has built and not yet published. */
  ghost predicate Built(pc: Pc, p: PageId) { pc.Publish? && pc.top == p }

  ghost predicate Placed(s: Sys, t: nat, p: PageId) {
    p == s.tree.root || HasDownlink(s.tree.pages, p) || (t in s.pcs && (Owes(s.pcs[t], p) || Built(s.pcs[t], p)))
  }

  /** No page is above the root, except one not yet published. */
  ghost predicate Low(s: Sys, t: nat, p: PageId)
    requires p in s.tree.pages
  {
    s.tree.pages[p].level <= Height(s.tree) || (t in s.pcs && Built(s.pcs[t], p) && s.tree.pages[p].level == Height(s.tree) + 1)
  }

  ghost predicate GrowsRoot(s: Sys, t: nat) {
    t in s.pcs ==>
      (s.pcs[t].Grow? ==> s.pcs[t].w.left == s.tree.root)
      && (s.pcs[t].Publish? ==> s.pcs[t].top in s.tree.pages && s.tree.pages[s.pcs[t].top].level == Height(s.tree) + 1
                                && s.tree.pages[s.pcs[t].top].body.Down? && s.tree.root in s.tree.pages[s.pcs[t].top].body.node.children)
  }

  /** Only `t` is inside a call, and all that is missing is what it owes. */
  ghost predicate SoloInv(s: Sys, t: nat) {
    s.tree.root in s.tree.pages && GrowsRoot(s, t) && (forall u :: Busy(s, u) ==> u == t)
    && (forall p {:trigger Placed(s, t, p)} :: p in s.tree.pages ==> Placed(s, t, p))
    && (forall p {:trigger Low(s, t, p)} :: p in s.tree.pages ==> Low(s, t, p))
  }

  /** The page above. */
  lemma Above(pages: Pages, p: PageId) returns (q: PageId)
    requires PagesOk(pages) && HasDownlink(pages, p)
    ensures q in pages && p in pages && pages[q].level == pages[p].level + 1
  {
    q :| q in pages && pages[q].body.Down? && p in pages[q].body.node.children;
    assert PageOk(pages, q);
    var i :| 0 <= i < |pages[q].body.node.children| && pages[q].body.node.children[i] == p;
    assert ChildOk(pages, pages[q], i);
  }

  /** With one call at a time, the page at the top of its stack is the root unless the call has grown the tree itself. */
  lemma TopIsRootIff(s: Sys, t: nat)
    requires Inv(s) && TopInv(s) && SoloInv(s, t) && Enabled(s, CheckRoot(t))
    ensures t in s.tops && (s.pcs[t].w.left == s.tree.root <==> s.tops[t] == Height(s.tree))
  {
    var left := s.pcs[t].w.left;
    assert TopAt(s, t);
    if left != s.tree.root {
      assert Placed(s, t, left);
      var q := Above(s.tree.pages, left);
      assert Low(s, t, q);
    }
  }

  /** A step of a run in which calls follow one another and no split is given up. */
  ghost predicate SerialStep(s: Sys, step: Step) {
    Enabled(s, step) && !GivesUp(s, step) && (step.Start? ==> Quiet(s))
    && (step.CheckRoot? ==> step.t in s.tops && s.tops[step.t] == Height(s.tree))
  }

  ghost predicate SerialRun(s: Sys, steps: seq<Step>, s': Sys)
    decreases |steps|
  {
    if steps == [] then s' == s else SerialStep(s, steps[0]) && SerialRun(Apply(s, steps[0]), steps[1..], s')
  }

  /** Whose call it is after the step. */
  ghost function Actor(step: Step, t: nat): nat { if step.Remove? then t else step.t }

  lemma ActorIs(s: Sys, t: nat, step: Step)
    requires SoloInv(s, t) && SerialStep(s, step)
    ensures SoloInv(s, Actor(step, t))
  {
    var u := Actor(step, t);
    if step.Start? {
      assert !Busy(s, t) && !Busy(s, u);
      forall p | p in s.tree.pages ensures Placed(s, u, p) && Low(s, u, p) { assert Placed(s, t, p) && Low(s, t, p); }
    } else { assert step.Remove? || Busy(s, u); }
  }

  lemma PlacedStep(s: Sys, t: nat, step: Step, p: PageId)
    requires Inv(s) && SoloInv(s, t) && SerialStep(s, step) && t == Actor(step, t)
    requires step.CheckRoot? ==> s.pcs[t].w.left == s.tree.root
    requires p in Apply(s, step).tree.pages
    ensures Placed(Apply(s, step), t, p)
  {
    var s' := Apply(s, step);
    if p in s.tree.pages {
      assert Placed(s, t, p);
      if HasDownlink(s.tree.pages, p) { DownlinkKept(s, step, p); }
      else if t in s.pcs && Owes(s.pcs[t], p) {
        OwerStep(s, step, t, p);
        if Owed(s', p) {
          var u :| u in s'.pcs && Owes(s'.pcs[u], p);
          if u != t { OthersStay(s, step, u); assert Busy(s, u); }
        }
      }
    }
  }

  lemma LowStep(s: Sys, t: nat, step: Step, p: PageId)
    requires Inv(s) && SoloInv(s, t) && SerialStep(s, step) && t == Actor(step, t)
    requires p in Apply(s, step).tree.pages
    ensures Low(Apply(s, step), t, p)
  {
    InvStep(s, step);
    if p in s.tree.pages { assert Low(s, t, p); }
    if step.SplitLeaf? { assert Low(s, t, s.pcs[t].pid); }
    if step.SplitParent? { assert Low(s, t, s.pcs[t].parent); }
    hide Split, AddDownlink, Between, After1, PagesOk, ThreadsOk;
  }

  lemma SoloStep(s: Sys, t: nat, step: Step)
    requires Inv(s) && TopInv(s) && SoloInv(s, t) && SerialStep(s, step)
    ensures SoloInv(Apply(s, step), Actor(step, t))
  {
    var s', u := Apply(s, step), Actor(step, t);
    InvStep(s, step);
    ActorIs(s, t, step);
    if step.CheckRoot? { TopIsRootIff(s, u); }
    forall p | p in s'.tree.pages ensures Placed(s', u, p) && Low(s', u, p) {
      PlacedStep(s, u, step, p);
      LowStep(s, u, step, p);
    }
    forall v | Busy(s', v) ensures v == u {
      if v != u { OthersStay(s, step, v); assert Busy(s, v); }
    }
    GrowsRootStep(s, u, step);
  }

  lemma GrowsRootStep(s: Sys, t: nat, step: Step)
    requires Inv(s) && SoloInv(s, t) && SerialStep(s, step) && t == Actor(step, t)
    requires step.CheckRoot? ==> s.pcs[t].w.left == s.tree.root
    ensures GrowsRoot(Apply(s, step), t)
  {
    hide Split, AddDownlink, Between, After1, PagesOk, ThreadsOk, Placed, Low;
  }

  lemma {:induction false} SerialKeeps(s: Sys, steps: seq<Step>, s': Sys, t: nat) returns (u: nat)
    requires Inv(s) && TopInv(s) && SoloInv(s, t) && SerialRun(s, steps, s')
    ensures SoloInv(s', u)
    decreases |steps|
  {
    u := t;
    if steps != [] {
      InvStep(s, steps[0]);
      TopInvStep(s, steps[0]);
      SoloStep(s, t, steps[0]);
      u := SerialKeeps(Apply(s, steps[0]), steps[1..], s', Actor(steps[0], t));
    }
  }

  /**
  With one call at a time, no split given up and no call splitting at the top of its stack
  after growing the tree, the tree between calls has every page but the root below another.
  */
  lemma SerialTreeComplete(s0: Sys, steps: seq<Step>, s: Sys)
    requires Init(s0) && SerialRun(s0, steps, s) && Quiet(s)
    ensures Complete(s.tree)
  {
    forall p | p in s0.tree.pages ensures Placed(s0, 0, p) && Low(s0, 0, p) {}
    assert SoloInv(s0, 0) && TopInv(s0) && Inv(s0);
    var t := SerialKeeps(s0, steps, s, 0);
    assert !Busy(s, t);
    forall p | p in s.tree.pages && p != s.tree.root ensures HasDownlink(s.tree.pages, p) { assert Placed(s, t, p); }
  }

  // ── A downlink lost by one call alone ──────────────────────────────────────

  /** One thread, which never stops before its time. */
  ghost predicate AllBy0(steps: seq<Step>) {
    forall i {:trigger steps[i]} :: 0 <= i < |steps| ==>
      !steps[i].Remove? && !steps[i].Leave? && steps[i].t == 0 && (steps[i].SplitLeaf? ==> steps[i].room)
  }

  lemma BothBy0(a: seq<Step>, b: seq<Step>)
    requires AllBy0(a) && AllBy0(b)
    ensures AllBy0(a + b)
  {
  }

  lemma {:induction false} Joined(s0: Sys, a: seq<Step>, s1: Sys, b: seq<Step>, s2: Sys)
    requires Runs(s0, a, s1) && Runs(s1, b, s2)
    ensures Runs(s0, a + b, s2)
    decreases |a|
  {
    if a == [] { assert a + b == b; }
    else {
      assert (a + b)[0] == a[0] && (a + b)[1..] == a[1..] + b;
      Joined(Apply(s0, a[0]), a[1..], s1, b, s2);
    }
  }

  ghost function LeafAt(low: Bound, ord: real, high: Bound, right: Option<PageId>, rows: seq<Key>): Page {
    Page(0, low, ord, high, right, Rows(rows))
  }

  ghost function OneLeaf(rows: seq<Key>): Tree { Tree(map[0 := LeafAt(NegInf, 0.0, PosInf, None, rows)], 0, [0]) }

  /** One call that puts its key at the end of the only leaf. */
  lemma AppendCall(s: Sys, rows: seq<Key>, key: Key) returns (steps: seq<Step>, s': Sys)
    requires s.tree == OneLeaf(rows) && (0 in s.pcs ==> s.pcs[0].Ended?) && forall i :: 0 <= i < |rows| ==> rows[i] <= key
    ensures AllBy0(steps) && Runs(s, steps, s')
    ensures s'.tree == OneLeaf(rows + [key]) && s'.pcs == s.pcs[0 := Ended(key)]
  {
    steps := [Start(0, key, true), Insert(0, |rows|)];
    var s1 := Apply(s, steps[0]);
    s' := Apply(s1, steps[1]);
    assert InsertRow(rows, |rows|, key) == rows + [key];
    assert s'.tree.pages == OneLeaf(rows + [key]).pages;
    assert s'.pcs == s.pcs[0 := Ended(key)];
    assert Runs(s1, [steps[1]], s') && steps[1..] == [steps[1]];
  }

  /** A call that splits the only leaf and goes on in the new one. */
  lemma SplitCall(s: Sys, rows: seq<Key>, mid: nat, key: Key) returns (steps: seq<Step>, s': Sys)
    requires s.tree == OneLeaf(rows) && 0 in s.pcs && s.pcs[0].Ended? && mid < |rows| && rows[mid] <= key
    ensures AllBy0(steps) && Runs(s, steps, s')
    ensures s'.tree.root == 0 && s'.pcs == s.pcs[0 := Link(Work(key, true, Resume(1), [], 0, rows[mid], 1, 0))]
    ensures s'.tree.pages == map[0 := LeafAt(NegInf, 0.0, Fin(rows[mid]), Some(1), rows[..mid]),
                                 1 := LeafAt(Fin(rows[mid]), 1.0, PosInf, None, rows[mid..])]
  {
    steps := [Start(0, key, true), SplitLeaf(0, mid, 1, 0, true)];
    var s1 := Apply(s, steps[0]);
    s' := Apply(s1, steps[1]);
    assert s'.pcs == s.pcs[0 := Link(Work(key, true, Resume(1), [], 0, rows[mid], 1, 0))];
    assert Runs(s1, [steps[1]], s') && steps[1..] == [steps[1]];
  }

  /** The rest of a call that has split the root. */
  lemma GrowCall(s: Sys, t: nat, newId: PageId) returns (steps: seq<Step>, s': Sys)
    requires t in s.pcs && s.pcs[t].Link? && s.pcs[t].w.depth == 0 && s.pcs[t].w.after.Resume?
    requires s.pcs[t].w.left == s.tree.root && s.tree.root in s.tree.pages && newId !in s.tree.pages
    ensures steps == [CheckRoot(t), GrowRoot(t, newId), PublishRoot(t)] && Runs(s, steps, s')
    ensures var w := s.pcs[t].w;
            s'.tree.root == newId && s'.pcs == s.pcs[t := Descend(w.key, w.inserts, w.after.pid, w.stack)]
            && s'.tree.pages == s.tree.pages[newId := Page(s.tree.pages[w.left].level + 1, NegInf, 0.0, PosInf, None,
                                                           Down(Node([w.sep], [w.left, w.right])))]
  {
    steps := [CheckRoot(t), GrowRoot(t, newId), PublishRoot(t)];
    var w := s.pcs[t].w;
    var s1 := Apply(s, steps[0]);
    var s2 := Apply(s1, steps[1]);
    s' := Apply(s2, steps[2]);
    assert s'.pcs == s.pcs[t := Descend(w.key, w.inserts, w.after.pid, w.stack)];
    assert Runs(s2, [steps[2]], s') && steps[2..] == [steps[2]];
    assert Runs(s1, steps[1..], s');
  }

  /** Splitting again with an empty stack, away from the root, leaves the new page without a downlink. */
  lemma StaleStackLoses(s: Sys, step: Step) returns (s': Sys)
    requires Inv(s) && Enabled(s, step) && step.SplitLeaf?
    requires var pc := s.pcs[step.t];
             pc.stack == [] && pc.pid != s.tree.root && s.tree.pages[pc.pid].body.rows[step.mid] <= pc.key
    ensures Runs(s, [step, CheckRoot(step.t)], s') && s'.pcs == s.pcs[step.t := Descend(s.pcs[step.t].key, true, step.newId, [])]
    ensures s'.tree.root == s.tree.root && step.newId in s'.tree.pages && !HasDownlink(s'.tree.pages, step.newId)
    ensures s'.tree.pages[step.newId].body == Rows(s.tree.pages[s.pcs[step.t].pid].body.rows[step.mid..])
    ensures s'.tree.pages[step.newId].high == s.tree.pages[s.pcs[step.t].pid].high
  {
    var s1 := Apply(s, step);
    s' := Apply(s1, CheckRoot(step.t));
    assert s'.pcs == s.pcs[step.t := Descend(s.pcs[step.t].key, true, step.newId, [])];
    assert Runs(s1, [CheckRoot(step.t)], s') && [step, CheckRoot(step.t)][1..] == [CheckRoot(step.t)];
    if HasDownlink(s'.tree.pages, step.newId) {
      var q :| q in s'.tree.pages && s'.tree.pages[q].body.Down? && step.newId in s'.tree.pages[q].body.node.children;
      FreshUnlinked(s, step.newId, q);
    }
  }

  /** Nothing points at a page that does not exist. */
  lemma FreshUnlinked(s: Sys, p: PageId, q: PageId)
    requires Inv(s) && p !in s.tree.pages && q in s.tree.pages && s.tree.pages[q].body.Down?
    ensures p !in s.tree.pages[q].body.node.children
  {
    assert PageOk(s.tree.pages, q);
    var children := s.tree.pages[q].body.node.children;
    forall i | 0 <= i < |children| ensures children[i] != p { assert ChildOk(s.tree.pages, s.tree.pages[q], i); }
  }

  lemma ThreeAppended() returns (s0: Sys, steps: seq<Step>, s: Sys)
    ensures Init(s0) && Runs(s0, steps, s) && AllBy0(steps)
    ensures s.tree == OneLeaf([1.0, 2.0, 3.0]) && s.pcs == map[0 := Ended(3.0)]
  {
    s0 := Sys(OneLeaf([]), map[], map[]);
    assert Init(s0);
    hide Runs, Init, OneLeaf, Apply, Enabled, AllBy0;
    assert [] + [1.0] == [1.0] && [1.0] + [2.0] == [1.0, 2.0] && [1.0, 2.0] + [3.0] == [1.0, 2.0, 3.0];
    var a, s1 := AppendCall(s0, [], 1.0);
    var b, s2 := AppendCall(s1, [1.0], 2.0);
    var c, s3 := AppendCall(s2, [1.0, 2.0], 3.0);
    Joined(s0, a, s1, b, s2);
    Joined(s0, a + b, s2, c, s3);
    BothBy0(a, b);
    BothBy0(a + b, c);
    steps, s := a + b + c, s3;
  }

  /** The fourth insert has split the root, grown the tree, and is at the new leaf with its empty stack. */
  lemma TreeGrown() returns (s0: Sys, steps: seq<Step>, s: Sys)
    ensures Init(s0) && Runs(s0, steps, s) && AllBy0(steps) && s.pcs == map[0 := Descend(4.0, true, 1, [])]
    ensures s.tree.root == 2 && 3 !in s.tree.pages && 1 in s.tree.pages
    ensures s.tree.pages[1] == LeafAt(Fin(2.0), 1.0, PosInf, None, [2.0, 3.0])
  {
    hide Runs, Init, OneLeaf;
    var a, s3;
    s0, a, s3 := ThreeAppended();
    var rows := [1.0, 2.0, 3.0];
    assert rows[1..] == [2.0, 3.0];
    var b, s4 := SplitCall(s3, rows, 1, 4.0);
    var c, s5 := GrowCall(s4, 0, 2);
    Joined(s0, a, s3, b, s4);
    Joined(s0, a + b, s4, c, s5);
    assert AllBy0(c);
    hide AllBy0;
    BothBy0(a, b);
    BothBy0(a + b, c);
    steps, s := a + b + c, s5;
  }

  /** It splits again and ends. */
  lemma SplitAgain(s: Sys) returns (steps: seq<Step>, s': Sys)
    requires Inv(s) && s.pcs == map[0 := Descend(4.0, true, 1, [])]
    requires s.tree.root == 2 && 3 !in s.tree.pages && 1 in s.tree.pages
    requires s.tree.pages[1] == LeafAt(Fin(2.0), 1.0, PosInf, None, [2.0, 3.0])
    ensures Runs(s, steps, s') && AllBy0(steps) && s'.pcs == map[0 := Ended(4.0)] && !Complete(s'.tree)
  {
    var split, check, add := SplitLeaf(0, 1, 3, 0, true), CheckRoot(0), Insert(0, 1);
    var s1 := StaleStackLoses(s, split);
    assert [2.0, 3.0][1..] == [3.0];
    InsertLast(s1, 3);
    s' := Apply(s1, add);
    assert s'.pcs == map[0 := Ended(4.0)];
    hide Runs, Inv, HasDownlink, Apply, Enabled;
    Joined(s, [split, check], s1, [add], s');
    steps := [split, check] + [add];
  }

  /**
  The condition of `SerialTreeComplete` on a call that has grown the tree is needed: one thread
  alone, inserting 1.0 to 4.0 and splitting twice for the last, leaves a leaf without a downlink.
  */
  lemma LostDownlinkExample() returns (s0: Sys, steps: seq<Step>, s: Sys)
    ensures Init(s0) && Runs(s0, steps, s) && AllBy0(steps) && s.pcs == map[0 := Ended(4.0)] && !Complete(s.tree)
  {
    hide Runs, Init, Inv, Complete;
    var a, s1;
    s0, a, s1 := TreeGrown();
    RunInv(s0, a, s1);
    var b, s2 := SplitAgain(s1);
    Joined(s0, a, s1, b, s2);
    BothBy0(a, b);
    steps, s := a + b, s2;
  }

  lemma {:induction false} RunInv(s: Sys, steps: seq<Step>, s': Sys)
    requires (Init(s) || Inv(s)) && Runs(s, steps, s')
    ensures Inv(s')
    decreases |steps|
  {
    assert Inv(s);
    if steps != [] {
      InvStep(s, steps[0]);
      RunInv(Apply(s, steps[0]), steps[1..], s');
    }
  }

  /** An insert into a leaf gives no page a downlink. */
  lemma InsertLast(s: Sys, p: PageId)
    requires Enabled(s, Insert(0, 1)) && p in s.tree.pages && !HasDownlink(s.tree.pages, p)
    ensures var s' := Apply(s, Insert(0, 1));
            Runs(s, [Insert(0, 1)], s') && p in s'.tree.pages && !HasDownlink(s'.tree.pages, p) && s'.tree.root == s.tree.root
  {
    var s' := Apply(s, Insert(0, 1));
    assert [Insert(0, 1)][1..] == [];
    forall q | q in s'.tree.pages && s'.tree.pages[q].body.Down? ensures p !in s'.tree.pages[q].body.node.children {
      assert q in s.tree.pages;
    }
  }
}
