/**
The B-link tree under concurrent splits (crates/storage/src/index/smo.rs and the descents
of crates/storage/src/index/mod.rs): threads descend a page at a time, split leaves and
internal pages, grow the root and insert downlinks, in any interleaving.  A step is what
happens under one page latch.  Pages are never deleted.  Any page may be treated as an
incomplete split, which covers whatever the INCOMPLETE_SPLIT flags say.  A thread may give
up at any step, as it does on an error; a leaf split whose lower half has no room for the
new row ends that way too.
*/
module BLink {
  import opened Options
  import opened InternalNode

  datatype Bound = NegInf | Fin(k: Key) | PosInf

  predicate LeB(a: Bound, b: Bound) { a.NegInf? || b.PosInf? || (a.Fin? && b.Fin? && a.k <= b.k) }

  /** low <= key */
  predicate From(low: Bound, key: Key) { low.NegInf? || (low.Fin? && low.k <= key) }

  /** key < high */
  predicate Below(key: Key, high: Bound) { high.PosInf? || (high.Fin? && key < high.k) }

  /** key <= high */
  predicate UpTo(key: Key, high: Bound) { high.PosInf? || (high.Fin? && key <= high.k) }

  datatype Body = Rows(rows: seq<Key>) | Down(node: Node)

  /** `level`, `low` and `ord` are history: no page carries them.  A right link leads to a larger `ord`. */
  datatype Page = Page(level: nat, low: Bound, ord: real, high: Bound, right: Option<PageId>, body: Body)

  type Pages = map<PageId, Page>

  /** `chain` lists the leaves from left to right; it is history too. */
  datatype Tree = Tree(pages: Pages, root: PageId, chain: seq<PageId>)

  // ── Threads ────────────────────────────────────────────────────────────────

  datatype After = Stop | Resume(pid: PageId) | Restart

  /** One pending downlink: `right`, whose low bound is `sep`, split off `left`. */
  datatype Work = Work(key: Key, inserts: bool, after: After, stack: seq<PageId>, depth: nat, sep: Key, right: PageId, left: PageId)

  datatype Pc =
    | Idle                                 // no call, or one that gave up
    | Ended(key: Key)                      // an insert that came to its end
    | Descend(key: Key, inserts: bool, pid: PageId, stack: seq<PageId>)
    | Link(w: Work)                        // top of `insert_separator_via_stack`'s loop
    | Climb(w: Work, parent: PageId)       // about to latch this ancestor
    | Grow(w: Work)                        // found its page to be the root
    | Publish(w: Work, top: PageId)        // new root built, not yet published

  /** `tops` is history: how high the tree was when a thread last read the root. */
  datatype Sys = Sys(tree: Tree, pcs: map<nat, Pc>, tops: map<nat, nat>)

  datatype Step =
    | Start(t: nat, key: Key, inserts: bool) | Visit(t: nat) | Leave(t: nat)
    | Insert(t: nat, pos: nat) | Remove(p: PageId, pos: nat)
    | SplitLeaf(t: nat, mid: nat, newId: PageId, pos: nat, room: bool) | FinishSplit(t: nat)
    | Enter(t: nat) | ClimbRight(t: nat) | AlreadyLinked(t: nat) | AddLink(t: nat) | SplitParent(t: nat, newId: PageId)
    | CheckRoot(t: nat) | GrowRoot(t: nat, newId: PageId) | PublishRoot(t: nat)

  ghost predicate AtLeaf(tree: Tree, key: Key, p: PageId) {
    p in tree.pages && tree.pages[p].body.Rows? && Below(key, tree.pages[p].high)
  }

  predicate FitsAt(rows: seq<Key>, key: Key, pos: nat) {
    pos <= |rows| && (forall i :: 0 <= i < pos ==> rows[i] <= key) && (forall i :: pos <= i < |rows| ==> key <= rows[i])
  }

  function InsertRow(rows: seq<Key>, pos: nat, key: Key): seq<Key>
    requires pos <= |rows|
  {
    rows[..pos] + [key] + rows[pos..]
  }

  ghost predicate AtParent(tree: Tree, pc: Pc) {
    pc.Climb? && pc.parent in tree.pages && tree.pages[pc.parent].body.Down? && Below(pc.w.sep, tree.pages[pc.parent].high)
    && |tree.pages[pc.parent].body.node.children| == |tree.pages[pc.parent].body.node.keys| + 1
  }

  ghost predicate Enabled(s: Sys, step: Step) {
    var pages := s.tree.pages;
    match step
    case Start(t, _, _) => t in s.pcs ==> s.pcs[t].Idle? || s.pcs[t].Ended?
    case Visit(t) =>
      t in s.pcs && s.pcs[t].Descend? && s.pcs[t].pid in pages
      && var q := pages[s.pcs[t].pid];
         if !Below(s.pcs[t].key, q.high) then q.right.Some?
         else q.body.Down? && |q.body.node.children| == |q.body.node.keys| + 1
    case Leave(t) => t in s.pcs
    case Insert(t, pos) =>
      t in s.pcs && s.pcs[t].Descend? && s.pcs[t].inserts && AtLeaf(s.tree, s.pcs[t].key, s.pcs[t].pid)
      && FitsAt(pages[s.pcs[t].pid].body.rows, s.pcs[t].key, pos)
    case Remove(p, pos) => p in pages && pages[p].body.Rows? && pos < |pages[p].body.rows|
    case SplitLeaf(t, mid, newId, pos, room) =>
      t in s.pcs && s.pcs[t].Descend? && s.pcs[t].inserts && AtLeaf(s.tree, s.pcs[t].key, s.pcs[t].pid) && newId !in pages
      && var rows := pages[s.pcs[t].pid].body.rows;
         mid < |rows| && (s.pcs[t].key < rows[mid] && room ==> FitsAt(rows[..mid], s.pcs[t].key, pos))
         && (pages[s.pcs[t].pid].right.Some? ==> pages[s.pcs[t].pid].right.value in pages)
    case FinishSplit(t) =>
      t in s.pcs && s.pcs[t].Descend? && s.pcs[t].pid in pages
      && pages[s.pcs[t].pid].high.Fin? && pages[s.pcs[t].pid].right.Some?
    case Enter(t) => t in s.pcs && s.pcs[t].Link? && 0 < s.pcs[t].w.depth <= |s.pcs[t].w.stack|
    case ClimbRight(t) =>
      t in s.pcs && s.pcs[t].Climb? && s.pcs[t].parent in pages
      && !Below(s.pcs[t].w.sep, pages[s.pcs[t].parent].high) && pages[s.pcs[t].parent].right.Some?
    case AlreadyLinked(t) =>
      t in s.pcs && AtParent(s.tree, s.pcs[t]) && s.pcs[t].w.right in pages[s.pcs[t].parent].body.node.children
    case AddLink(t) =>
      t in s.pcs && AtParent(s.tree, s.pcs[t]) && s.pcs[t].w.right !in pages[s.pcs[t].parent].body.node.children
    case SplitParent(t, newId) =>
      t in s.pcs && AtParent(s.tree, s.pcs[t]) && s.pcs[t].w.right !in pages[s.pcs[t].parent].body.node.children
      && newId !in pages
      && (pages[s.pcs[t].parent].right.Some? ==> pages[s.pcs[t].parent].right.value in pages)
    case CheckRoot(t) => t in s.pcs && s.pcs[t].Link? && s.pcs[t].w.depth == 0
    case GrowRoot(t, newId) => t in s.pcs && s.pcs[t].Grow? && newId !in pages && s.pcs[t].w.left in pages
    case PublishRoot(t) => t in s.pcs && s.pcs[t].Publish?
  }

  ghost function SetPc(s: Sys, t: nat, pc: Pc): Sys { s.(pcs := s.pcs[t := pc]) }

  /** What a thread does when its downlink is dealt with. */
  ghost function Finished(tree: Tree, w: Work): Pc {
    match w.after
    case Stop => Ended(w.key)
    case Resume(pid) => Descend(w.key, w.inserts, pid, w.stack)
    case Restart => Descend(w.key, w.inserts, tree.root, [])
  }

  ghost function Height(tree: Tree): nat { if tree.root in tree.pages then tree.pages[tree.root].level else 0 }

  ghost function ReadRoot(s: Sys, t: nat, tree: Tree): Sys { s.(tops := s.tops[t := Height(tree)]) }

  /** The thread's downlink is dealt with, leaving `tree`. */
  ghost function Finish(s: Sys, t: nat, w: Work, tree: Tree): Sys {
    var s' := SetPc(s, t, Finished(tree, w)).(tree := tree);
    if w.after.Restart? then ReadRoot(s', t, tree) else s'
  }

  /** A position for a new page just right of `q`. */
  ghost function Between(pages: Pages, q: Page): real
    requires q.right.Some? ==> q.right.value in pages
  {
    if q.right.None? then q.ord + 1.0 else (q.ord + pages[q.right.value].ord) / 2.0
  }

  ghost function SplitPages(pages: Pages, p: PageId, newId: PageId, sep: Key, left: Body, right: Body): Pages
    requires p in pages && (pages[p].right.Some? ==> pages[p].right.value in pages)
  {
    var q := pages[p];
    pages[newId := Page(q.level, Fin(sep), Between(pages, q), q.high, q.right, right)]
         [p := q.(high := Fin(sep), right := Some(newId), body := left)]
  }

  /** The chain with `newId` put after `p`. */
  ghost function After1(chain: seq<PageId>, p: PageId, newId: PageId): seq<PageId>
    decreases |chain|
  {
    if chain == [] then [] else if chain[0] == p then [p, newId] + chain[1..] else [chain[0]] + After1(chain[1..], p, newId)
  }

  ghost function Apply(s: Sys, step: Step): Sys
    requires Enabled(s, step)
  {
    var tree, pages := s.tree, s.tree.pages;
    match step
    case Start(t, key, inserts) => ReadRoot(SetPc(s, t, Descend(key, inserts, tree.root, [])), t, tree)
    case Visit(t) =>
      var pc := s.pcs[t];
      var q := pages[pc.pid];
      SetPc(s, t, if !Below(pc.key, q.high) then Descend(pc.key, pc.inserts, q.right.value, pc.stack)
                  else Descend(pc.key, pc.inserts, Child(q.body.node, pc.key), pc.stack + [pc.pid]))
    case Leave(t) => SetPc(s, t, Idle)
    case Insert(t, pos) =>
      var pc := s.pcs[t];
      var q := pages[pc.pid];
      SetPc(s, t, Ended(pc.key)).(tree := tree.(pages := pages[pc.pid := q.(body := Rows(InsertRow(q.body.rows, pos, pc.key)))]))
    case Remove(p, pos) =>
      var rows := pages[p].body.rows;
      s.(tree := tree.(pages := pages[p := pages[p].(body := Rows(rows[..pos] + rows[pos + 1..]))]))
    case SplitLeaf(t, mid, newId, pos, room) =>
      var pc := s.pcs[t];
      var rows := pages[pc.pid].body.rows;
      var sep := rows[mid];
      var left := if pc.key < sep && room then InsertRow(rows[..mid], pos, pc.key) else rows[..mid];
      var after := if pc.key < sep then Stop else Resume(newId);
      SetPc(s, t, if pc.key < sep && !room then Idle else Link(Work(pc.key, true, after, pc.stack, |pc.stack|, sep, newId, pc.pid)))
        .(tree := tree.(pages := SplitPages(pages, pc.pid, newId, sep, Rows(left), Rows(rows[mid..])),
                        chain := After1(tree.chain, pc.pid, newId)))
    case FinishSplit(t) =>
      var pc := s.pcs[t];
      SetPc(s, t, Link(Work(pc.key, pc.inserts, Restart, pc.stack, |pc.stack|, pages[pc.pid].high.k, pages[pc.pid].right.value, pc.pid)))
    case Enter(t) =>
      var w := s.pcs[t].w;
      SetPc(s, t, Climb(w.(depth := w.depth - 1), w.stack[w.depth - 1]))
    case ClimbRight(t) => SetPc(s, t, Climb(s.pcs[t].w, pages[s.pcs[t].parent].right.value))
    case AlreadyLinked(t) => Finish(s, t, s.pcs[t].w, tree)
    case AddLink(t) =>
      var pc := s.pcs[t];
      var q := pages[pc.parent];
      Finish(s, t, pc.w, tree.(pages := pages[pc.parent := q.(body := Down(AddDownlink(q.body.node, pc.w.sep, pc.w.right)))]))
    case SplitParent(t, newId) =>
      var pc := s.pcs[t];
      var h := Split(pages[pc.parent].body.node, pc.w.sep, pc.w.right);
      SetPc(s, t, Link(pc.w.(sep := h.up, right := newId, left := pc.parent)))
        .(tree := tree.(pages := SplitPages(pages, pc.parent, newId, h.up, Down(h.left), Down(h.right))))
    case CheckRoot(t) =>
      var w := s.pcs[t].w;
      if tree.root != w.left then Finish(s, t, w, tree) else SetPc(s, t, Grow(w))
    case GrowRoot(t, newId) =>
      var w := s.pcs[t].w;
      SetPc(s, t, Publish(w, newId))
        .(tree := tree.(pages := pages[newId := Page(pages[w.left].level + 1, NegInf, 0.0, PosInf, None,
                                                     Down(Node([w.sep], [w.left, w.right])))]))
    case PublishRoot(t) =>
      Finish(s, t, s.pcs[t].w, tree.(root := s.pcs[t].top))
  }

  /** The thread stops on an error, or finds no room for its row in the lower half of its split. */
  ghost predicate GivesUp(s: Sys, step: Step)
    requires Enabled(s, step)
  {
    step.Leave? || (step.SplitLeaf? && s.pcs[step.t].key < s.tree.pages[s.pcs[step.t].pid].body.rows[step.mid] && !step.room)
  }

  ghost predicate Runs(s: Sys, steps: seq<Step>, s': Sys)
    decreases |steps|
  {
    if steps == [] then s' == s else Enabled(s, steps[0]) && Runs(Apply(s, steps[0]), steps[1..], s')
  }

  /** `create`: one empty leaf. */
  ghost predicate Init(s: Sys) {
    s.pcs == map[] && s.tops == map[] && s.tree.pages == map[s.tree.root := Page(0, NegInf, 0.0, PosInf, None, Rows([]))]
    && s.tree.chain == [s.tree.root]
  }

  // ── Invariant ──────────────────────────────────────────────────────────────

  ghost predicate ChildOk(pages: Pages, q: Page, i: nat)
    requires q.body.Down? && |q.body.node.children| == |q.body.node.keys| + 1 && i < |q.body.node.children|
  {
    var c := q.body.node.children[i];
    c in pages && pages[c].level + 1 == q.level
    && pages[c].low == if i == 0 then q.low else Fin(q.body.node.keys[i - 1])
  }

  ghost predicate InRange(q: Page, keys: seq<Key>) {
    forall i {:trigger keys[i]} :: 0 <= i < |keys| ==> From(q.low, keys[i]) && UpTo(keys[i], q.high)
  }

  ghost predicate RightOk(pages: Pages, q: Page) {
    LeB(q.low, q.high) && !q.low.PosInf? && !q.high.NegInf?
    && if q.right.None? then q.high.PosInf?
       else q.high.Fin? && q.right.value in pages
            && var r := pages[q.right.value]; r.level == q.level && r.low == q.high && q.ord < r.ord
  }

  ghost predicate BodyOk(pages: Pages, q: Page) {
    match q.body
    case Rows(rows) => q.level == 0 && Sorted(rows) && InRange(q, rows)
    case Down(node) =>
      q.level > 0 && Wf(node) && InRange(q, node.keys)
      && forall i {:trigger node.children[i]} :: 0 <= i < |node.children| ==> ChildOk(pages, q, i)
  }

  ghost predicate PageOk(pages: Pages, p: PageId)
    requires p in pages
  {
    RightOk(pages, pages[p]) && BodyOk(pages, pages[p])
  }

  ghost predicate PagesOk(pages: Pages) { forall p {:trigger PageOk(pages, p)} :: p in pages ==> PageOk(pages, p) }

  /** The first `n` pages of the stack lead down to `p`, a level at a time, low bounds rising. */
  ghost predicate StackOk(pages: Pages, stack: seq<PageId>, n: nat, p: PageId) {
    n <= |stack| && p in pages
    && (forall i {:trigger stack[i]} :: 0 <= i < n ==>
          stack[i] in pages && pages[stack[i]].level == pages[p].level + n - i)
    && (forall i, j {:trigger stack[i], stack[j]} :: 0 <= i < j < n ==> LeB(pages[stack[i]].low, pages[stack[j]].low))
    && (n > 0 ==> LeB(pages[stack[n - 1]].low, pages[p].low))
  }

  ghost predicate DescendOk(pages: Pages, key: Key, p: PageId, stack: seq<PageId>) {
    StackOk(pages, stack, |stack|, p) && From(pages[p].low, key)
  }

  ghost predicate LinkOk(pages: Pages, w: Work) {
    w.left in pages && w.right in pages && pages[w.left].level == pages[w.right].level
    && pages[w.right].low == Fin(w.sep) && LeB(pages[w.left].low, Fin(w.sep))
    && (w.after.Resume? ==> DescendOk(pages, w.key, w.after.pid, w.stack))
  }

  ghost predicate PcOk(pages: Pages, pc: Pc) {
    match pc
    case Idle => true
    case Ended(_) => true
    case Descend(key, _, p, stack) => DescendOk(pages, key, p, stack)
    case Link(w) => LinkOk(pages, w) && StackOk(pages, w.stack, w.depth, w.left)
    case Climb(w, parent) =>
      LinkOk(pages, w) && StackOk(pages, w.stack, w.depth, parent)
      && pages[parent].level == pages[w.left].level + 1 && LeB(pages[parent].low, Fin(w.sep))
    case Grow(w) => LinkOk(pages, w) && pages[w.left].low == NegInf
    case Publish(w, top) => LinkOk(pages, w) && top in pages && pages[top].low == NegInf
  }

  ghost predicate RootOk(tree: Tree) { tree.root in tree.pages && tree.pages[tree.root].low == NegInf }

  ghost predicate ThreadsOk(s: Sys) {
    forall t {:trigger PcOk(s.tree.pages, s.pcs[t])} :: t in s.pcs ==> PcOk(s.tree.pages, s.pcs[t])
  }

  /** Nothing a thread relies on changes: pages stay, with their level, low bound and place. */
  ghost predicate Grows(pages: Pages, pages': Pages) {
    forall p {:trigger pages'[p]} {:trigger p in pages'} :: p in pages ==>
      p in pages' && pages'[p].level == pages[p].level && pages'[p].low == pages[p].low && pages'[p].ord == pages[p].ord
  }

  lemma StackKept(pages: Pages, pages': Pages, stack: seq<PageId>, n: nat, p: PageId)
    requires Grows(pages, pages') && StackOk(pages, stack, n, p)
    ensures StackOk(pages', stack, n, p)
  {
  }

  lemma PcKept(pages: Pages, pages': Pages, pc: Pc)
    requires Grows(pages, pages') && PcOk(pages, pc)
    ensures PcOk(pages', pc)
  {
    if pc.Descend? { StackKept(pages, pages', pc.stack, |pc.stack|, pc.pid); }
    else if !pc.Idle? && !pc.Ended? {
      if pc.w.after.Resume? { StackKept(pages, pages', pc.w.stack, |pc.w.stack|, pc.w.after.pid); }
      if pc.Link? { StackKept(pages, pages', pc.w.stack, pc.w.depth, pc.w.left); }
      if pc.Climb? { StackKept(pages, pages', pc.w.stack, pc.w.depth, pc.parent); }
    }
  }

  lemma PageKept(pages: Pages, pages': Pages, p: PageId)
    requires Grows(pages, pages') && p in pages && PageOk(pages, p) && p in pages' && pages'[p] == pages[p]
    ensures PageOk(pages', p)
  {
    var q := pages[p];
    if q.body.Down? {
      forall i | 0 <= i < |q.body.node.children| ensures ChildOk(pages', q, i) { assert ChildOk(pages, q, i); }
    }
  }

  // ── What each page change keeps ────────────────────────────────────────────

  ghost predicate Inside(q: Page, key: Key) { From(q.low, key) && UpTo(key, q.high) }

  lemma BodyKept(pages: Pages, pages': Pages, q: Page)
    requires Grows(pages, pages') && BodyOk(pages, q)
    ensures BodyOk(pages', q)
  {
    if q.body.Down? {
      forall i | 0 <= i < |q.body.node.children| ensures ChildOk(pages', q, i) { assert ChildOk(pages, q, i); }
    }
  }

  /** Changing one page's body alone. */
  lemma UpdateKeeps(pages: Pages, p: PageId, body: Body)
    requires PagesOk(pages) && p in pages && BodyOk(pages, pages[p].(body := body))
    ensures var pages' := pages[p := pages[p].(body := body)]; PagesOk(pages') && Grows(pages, pages')
  {
    var pages' := pages[p := pages[p].(body := body)];
    hide BodyOk;
    forall r | r in pages' ensures PageOk(pages', r) {
      assert PageOk(pages, r);
      if r == p { BodyKept(pages, pages', pages'[p]); } else { PageKept(pages, pages', r); }
    }
  }

  lemma SplitKeeps(pages: Pages, p: PageId, newId: PageId, sep: Key, left: Body, right: Body)
    requires PagesOk(pages) && p in pages && newId !in pages && Inside(pages[p], sep)
    requires pages[p].right.Some? ==> pages[p].right.value in pages
    requires BodyOk(pages, pages[p].(high := Fin(sep), body := left))
    requires BodyOk(pages, pages[p].(low := Fin(sep), body := right))
    ensures var pages' := SplitPages(pages, p, newId, sep, left, right); PagesOk(pages') && Grows(pages, pages')
  {
    var q, pages' := pages[p], SplitPages(pages, p, newId, sep, left, right);
    assert PageOk(pages, p);
    hide BodyOk;
    assert Grows(pages, pages');
    forall r | r in pages' ensures PageOk(pages', r) {
      if r == p {
        BodyKept(pages, pages', q.(high := Fin(sep), body := left));
        SameBody(pages', q.(high := Fin(sep), body := left), pages'[p]);
      } else if r == newId {
        BodyKept(pages, pages', q.(low := Fin(sep), body := right));
        SameBody(pages', q.(low := Fin(sep), body := right), pages'[newId]);
      } else {
        assert PageOk(pages, r);
        PageKept(pages, pages', r);
      }
    }
  }

  /** A page's place and right link say nothing about its body. */
  lemma SameBody(pages: Pages, q: Page, q': Page)
    requires BodyOk(pages, q) && q'.level == q.level && q'.low == q.low && q'.high == q.high && q'.body == q.body
    ensures BodyOk(pages, q')
  {
    if q.body.Down? {
      forall i | 0 <= i < |q.body.node.children| ensures ChildOk(pages, q', i) { assert ChildOk(pages, q, i); }
    }
  }

  lemma RowInserted(pages: Pages, q: Page, pos: nat, key: Key)
    requires q.body.Rows? && BodyOk(pages, q) && FitsAt(q.body.rows, key, pos) && Inside(q, key)
    ensures BodyOk(pages, q.(body := Rows(InsertRow(q.body.rows, pos, key))))
  {
  }

  lemma RowRemoved(pages: Pages, q: Page, pos: nat)
    requires q.body.Rows? && BodyOk(pages, q) && pos < |q.body.rows|
    ensures BodyOk(pages, q.(body := Rows(q.body.rows[..pos] + q.body.rows[pos + 1..])))
  {
  }

  lemma RowsSplit(pages: Pages, q: Page, mid: nat)
    requires q.body.Rows? && BodyOk(pages, q) && mid < |q.body.rows|
    ensures Inside(q, q.body.rows[mid])
    ensures BodyOk(pages, q.(high := Fin(q.body.rows[mid]), body := Rows(q.body.rows[..mid])))
    ensures BodyOk(pages, q.(low := Fin(q.body.rows[mid]), body := Rows(q.body.rows[mid..])))
  {
  }

  lemma LinkAdded(pages: Pages, q: Page, sep: Key, child: PageId)
    requires q.body.Down? && BodyOk(pages, q) && Inside(q, sep)
    requires child in pages && pages[child].level + 1 == q.level && pages[child].low == Fin(sep)
    ensures BodyOk(pages, q.(body := Down(AddDownlink(q.body.node, sep, child))))
  {
    var n := q.body.node;
    var m := AddDownlink(n, sep, child);
    AddDownlinkWf(n, sep, child);
    var q', i := q.(body := Down(m)), Route(n.keys, sep);
    forall j | 0 <= j < |m.keys| ensures Inside(q, m.keys[j]) {
      assert m.keys[j] == if j < i then n.keys[j] else if j == i then sep else n.keys[j - 1];
    }
    forall j | 0 <= j < |m.children| ensures ChildOk(pages, q', j) {
      if j <= i { assert m.children[j] == n.children[j] && ChildOk(pages, q, j); assert j > 0 ==> m.keys[j - 1] == n.keys[j - 1]; }
      else if j > i + 1 { assert m.children[j] == n.children[j - 1] && ChildOk(pages, q, j - 1) && m.keys[j - 1] == n.keys[j - 2]; }
    }
  }

  lemma NodeSplit(pages: Pages, q: Page, sep: Key, child: PageId)
    requires q.body.Down? && Wf(q.body.node)
    requires BodyOk(pages, q.(body := Down(AddDownlink(q.body.node, sep, child))))
    ensures var h := Split(q.body.node, sep, child);
            Inside(q, h.up) && BodyOk(pages, q.(high := Fin(h.up), body := Down(h.left)))
            && BodyOk(pages, q.(low := Fin(h.up), body := Down(h.right)))
  {
    var m, h := AddDownlink(q.body.node, sep, child), Split(q.body.node, sep, child);
    var mid, qm := |m.keys| / 2, q.(body := Down(m));
    var ql, qr := q.(high := Fin(h.up), body := Down(h.left)), q.(low := Fin(h.up), body := Down(h.right));
    assert Wf(m);
    forall j | 0 <= j < |h.left.children| ensures ChildOk(pages, ql, j) {
      assert h.left.children[j] == m.children[j] && ChildOk(pages, qm, j);
    }
    forall j | 0 <= j < |h.right.children| ensures ChildOk(pages, qr, j) {
      assert h.right.children[j] == m.children[mid + 1 + j] && ChildOk(pages, qm, mid + 1 + j);
    }
  }

  // ── Every step ─────────────────────────────────────────────────────────────

  ghost predicate Inv(s: Sys) { PagesOk(s.tree.pages) && RootOk(s.tree) && ThreadsOk(s) }

  lemma SplitLeafKeeps(s: Sys, step: Step)
    requires Inv(s) && Enabled(s, step) && step.SplitLeaf?
    ensures var pages' := Apply(s, step).tree.pages; PagesOk(pages') && Grows(s.tree.pages, pages')
  {
    var pages, pc := s.tree.pages, s.pcs[step.t];
    var q := pages[pc.pid];
    var rows, sep := q.body.rows, q.body.rows[step.mid];
    assert PageOk(pages, pc.pid) && PcOk(pages, pc);
    RowsSplit(pages, q, step.mid);
    var left := q.(high := Fin(sep), body := Rows(rows[..step.mid]));
    if pc.key < sep && step.room { RowInserted(pages, left, step.pos, pc.key); }
    SplitKeeps(pages, pc.pid, step.newId, sep,
               Rows(if pc.key < sep && step.room then InsertRow(rows[..step.mid], step.pos, pc.key) else rows[..step.mid]), Rows(rows[step.mid..]));
  }

  lemma LinkStepKeeps(s: Sys, step: Step)
    requires Inv(s) && Enabled(s, step) && (step.AddLink? || step.SplitParent?)
    ensures var pages' := Apply(s, step).tree.pages; PagesOk(pages') && Grows(s.tree.pages, pages')
  {
    var pages, pc := s.tree.pages, s.pcs[step.t];
    var q, w := pages[pc.parent], pc.w;
    assert PageOk(pages, pc.parent) && PcOk(pages, pc);
    LinkAdded(pages, q, w.sep, w.right);
    if step.AddLink? { UpdateKeeps(pages, pc.parent, Down(AddDownlink(q.body.node, w.sep, w.right))); }
    else {
      NodeSplit(pages, q, w.sep, w.right);
      var h := Split(q.body.node, w.sep, w.right);
      SplitKeeps(pages, pc.parent, step.newId, h.up, Down(h.left), Down(h.right));
    }
  }

  lemma GrowKeeps(s: Sys, step: Step)
    requires Inv(s) && Enabled(s, step) && step.GrowRoot?
    ensures var pages' := Apply(s, step).tree.pages; PagesOk(pages') && Grows(s.tree.pages, pages')
  {
    var pages, pages', w := s.tree.pages, Apply(s, step).tree.pages, s.pcs[step.t].w;
    assert PcOk(pages, s.pcs[step.t]);
    forall r | r in pages' ensures PageOk(pages', r) {
      if r == step.newId {
        var q := pages'[r];
        assert ChildOk(pages', q, 0) && ChildOk(pages', q, 1);
      } else { assert PageOk(pages, r); PageKept(pages, pages', r); }
    }
  }

  lemma RowStepKeeps(s: Sys, step: Step)
    requires Inv(s) && Enabled(s, step) && (step.Insert? || step.Remove?)
    ensures var pages' := Apply(s, step).tree.pages; PagesOk(pages') && Grows(s.tree.pages, pages')
  {
    var pages := s.tree.pages;
    var p := if step.Insert? then s.pcs[step.t].pid else step.p;
    var q := pages[p];
    assert PageOk(pages, p);
    if step.Insert? {
      assert PcOk(pages, s.pcs[step.t]);
      RowInserted(pages, q, step.pos, s.pcs[step.t].key);
    } else { RowRemoved(pages, q, step.pos); }
    UpdateKeeps(pages, p, Apply(s, step).tree.pages[p].body);
  }

  lemma PagesStep(s: Sys, step: Step)
    requires Inv(s) && Enabled(s, step)
    ensures var pages' := Apply(s, step).tree.pages; PagesOk(pages') && Grows(s.tree.pages, pages')
  {
    if step.SplitLeaf? { SplitLeafKeeps(s, step); }
    else if step.AddLink? || step.SplitParent? { LinkStepKeeps(s, step); }
    else if step.GrowRoot? { GrowKeeps(s, step); }
    else if step.Insert? || step.Remove? { RowStepKeeps(s, step); }
    else { assert Apply(s, step).tree.pages == s.tree.pages; }
  }

  // Descents: moving right raises the low bound, going down keeps it within the window.

  lemma LeBTrans(a: Bound, b: Bound, c: Bound)
    requires LeB(a, b) && LeB(b, c) && !b.PosInf?
    ensures LeB(a, c)
  {
  }

  lemma StackFollows(pages: Pages, stack: seq<PageId>, n: nat, p: PageId, r: PageId)
    requires StackOk(pages, stack, n, p) && r in pages && pages[r].level == pages[p].level
    requires LeB(pages[p].low, pages[r].low) && !pages[p].low.PosInf?
    ensures StackOk(pages, stack, n, r)
  {
    if n > 0 { LeBTrans(pages[stack[n - 1]].low, pages[p].low, pages[r].low); }
  }

  lemma VisitOk(pages: Pages, key: Key, p: PageId, stack: seq<PageId>)
    requires PagesOk(pages) && DescendOk(pages, key, p, stack)
    ensures !Below(key, pages[p].high) ==> pages[p].right.Some? && DescendOk(pages, key, pages[p].right.value, stack)
    ensures Below(key, pages[p].high) && pages[p].body.Down? ==>
              Wf(pages[p].body.node) && DescendOk(pages, key, Child(pages[p].body.node, key), stack + [p])
  {
    assert PageOk(pages, p);
    var q := pages[p];
    if !Below(key, q.high) { StackFollows(pages, stack, |stack|, p, q.right.value); }
    else if q.body.Down? {
      var i := Route(q.body.node.keys, key);
      RouteIs(q.body.node.keys, key);
      assert ChildOk(pages, q, i);
      var c, stack' := q.body.node.children[i], stack + [p];
      assert LeB(q.low, pages[c].low) by { if i > 0 { assert Inside(q, q.body.node.keys[i - 1]); } }
      forall i, j | 0 <= i < j < |stack'| ensures LeB(pages[stack'[i]].low, pages[stack'[j]].low) {
        if j == |stack| && i < j - 1 {
          assert LeB(pages[stack[i]].low, pages[stack[j - 1]].low) && PageOk(pages, stack[j - 1]);
          LeBTrans(pages[stack[i]].low, pages[stack[j - 1]].low, q.low);
        }
      }
    }
  }

  lemma FinishedOk(tree: Tree, w: Work)
    requires RootOk(tree) && LinkOk(tree.pages, w)
    ensures PcOk(tree.pages, Finished(tree, w))
  {
  }

  /** The thread that moves, for the steps that change no page. */
  lemma MoverOk(s: Sys, step: Step)
    requires Inv(s) && Enabled(s, step) && RootOk(Apply(s, step).tree)
    requires step.Start? || step.Visit? || step.Leave? || step.FinishSplit? || step.Enter? || step.ClimbRight?
             || step.AlreadyLinked? || step.CheckRoot? || step.PublishRoot?
    ensures var s' := Apply(s, step); PcOk(s'.tree.pages, s'.pcs[step.t])
  {
    var pages, t, s' := s.tree.pages, step.t, Apply(s, step);
    if !step.Start? { assert PcOk(pages, s.pcs[t]); }
    match step
    case Visit(_) => VisitOk(pages, s.pcs[t].key, s.pcs[t].pid, s.pcs[t].stack);
    case FinishSplit(_) => assert PageOk(pages, s.pcs[t].pid);
    case Enter(_) =>
      var w := s.pcs[t].w;
      var parent := w.stack[w.depth - 1];
      assert PageOk(pages, w.left);
      LeBTrans(pages[parent].low, pages[w.left].low, Fin(w.sep));
    case ClimbRight(_) =>
      assert PageOk(pages, s.pcs[t].parent);
      StackFollows(pages, s.pcs[t].w.stack, s.pcs[t].w.depth, s.pcs[t].parent, pages[s.pcs[t].parent].right.value);
    case AlreadyLinked(_) => FinishedOk(s.tree, s.pcs[t].w);
    case CheckRoot(_) => FinishedOk(s.tree, s.pcs[t].w);
    case PublishRoot(_) => FinishedOk(s'.tree, s.pcs[t].w);
    case _ =>
  }

  lemma SplitterOk(s: Sys, step: Step)
    requires Inv(s) && Enabled(s, step) && Grows(s.tree.pages, Apply(s, step).tree.pages)
    requires step.SplitLeaf? || step.SplitParent?
    ensures var s' := Apply(s, step); PcOk(s'.tree.pages, s'.pcs[step.t])
  {
    var pages, s', pc := s.tree.pages, Apply(s, step), s.pcs[step.t];
    var pages' := s'.tree.pages;
    assert PcOk(pages, pc);
    PcKept(pages, pages', pc);
    var p := if step.SplitLeaf? then pc.pid else pc.parent;
    assert PageOk(pages, p);
    if step.SplitLeaf? {
      RowsSplit(pages, pages[p], step.mid);
      if pc.key >= pages[p].body.rows[step.mid] { StackFollows(pages', pc.stack, |pc.stack|, p, step.newId); }
    } else {
      LinkAdded(pages, pages[p], pc.w.sep, pc.w.right);
      NodeSplit(pages, pages[p], pc.w.sep, pc.w.right);
      if pc.w.after.Resume? { StackKept(pages, pages', pc.w.stack, |pc.w.stack|, pc.w.after.pid); }
    }
  }

  lemma LinkerOk(s: Sys, step: Step)
    requires Inv(s) && Enabled(s, step) && Grows(s.tree.pages, Apply(s, step).tree.pages) && RootOk(Apply(s, step).tree)
    requires step.AddLink? || step.GrowRoot?
    ensures var s' := Apply(s, step); PcOk(s'.tree.pages, s'.pcs[step.t])
  {
    var s', pc := Apply(s, step), s.pcs[step.t];
    assert PcOk(s.tree.pages, pc);
    PcKept(s.tree.pages, s'.tree.pages, pc);
    if step.AddLink? { FinishedOk(s'.tree, pc.w); }
  }

  lemma OthersStay(s: Sys, step: Step, t: nat)
    requires Enabled(s, step) && t in Apply(s, step).pcs && (step.Remove? || step.t != t)
    ensures t in s.pcs && Apply(s, step).pcs[t] == s.pcs[t]
  {
    hide SplitPages, After1;
  }

  lemma InvStep(s: Sys, step: Step)
    requires Inv(s) && Enabled(s, step)
    ensures Inv(Apply(s, step)) && Grows(s.tree.pages, Apply(s, step).tree.pages)
  {
    PagesStep(s, step);
    var s' := Apply(s, step);
    assert RootOk(s'.tree) by { if step.PublishRoot? { assert PcOk(s.tree.pages, s.pcs[step.t]); } }
    hide PagesOk, RootOk, Grows, SplitPages, After1, PcOk;
    forall t | t in s'.pcs ensures PcOk(s'.tree.pages, s'.pcs[t]) {
      if !step.Remove? && t == step.t {
        if step.SplitLeaf? || step.SplitParent? { SplitterOk(s, step); }
        else if step.AddLink? || step.GrowRoot? { LinkerOk(s, step); }
        else if step.Insert? { EndedOk(s'.tree.pages, s.pcs[t].key); }
        else { MoverOk(s, step); }
      } else {
        OthersStay(s, step, t);
        assert PcOk(s.tree.pages, s.pcs[t]);
        PcKept(s.tree.pages, s'.tree.pages, s.pcs[t]);
      }
    }
  }

  lemma EndedOk(pages: Pages, key: Key)
    ensures PcOk(pages, Ended(key))
  {
  }
}
