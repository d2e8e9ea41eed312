/**
Routing in an internal page (crates/storage/src/page/internal.rs, `find_child`) and what a
downlink insertion or an internal split does to it (crates/storage/src/index/smo.rs).
Keys are reals: any countable order, the order of byte strings included, embeds in them.
*/
module InternalNode {

  type Key = real
  type PageId = nat

  datatype Node = Node(keys: seq<Key>, children: seq<PageId>)

  predicate Sorted(keys: seq<Key>) { forall i, j :: 0 <= i < j < |keys| ==> keys[i] <= keys[j] }

  predicate Wf(n: Node) { |n.children| == |n.keys| + 1 && Sorted(n.keys) }

  /** `i` is the first position whose key is greater. */
  predicate IsRoute(keys: seq<Key>, key: Key, i: nat) {
    i <= |keys| && (forall j :: 0 <= j < i ==> keys[j] <= key) && (forall j :: i <= j < |keys| ==> key < keys[j])
  }

  function Route(keys: seq<Key>, key: Key): (i: nat)
    ensures i <= |keys|
  {
    if keys == [] || key < keys[0] then 0 else 1 + Route(keys[1..], key)
  }

  lemma {:induction false} RouteIs(keys: seq<Key>, key: Key)
    requires Sorted(keys)
    ensures IsRoute(keys, key, Route(keys, key))
    decreases |keys|
  {
    if keys != [] && key >= keys[0] {
      var rest := keys[1..];
      RouteIs(rest, key);
      forall j | 0 <= j < Route(keys, key) ensures keys[j] <= key { if j > 0 { assert keys[j] == rest[j - 1]; } }
      forall j | Route(keys, key) <= j < |keys| ensures key < keys[j] { assert keys[j] == rest[j - 1]; }
    }
  }

  lemma RouteUnique(keys: seq<Key>, key: Key, i: nat)
    requires Sorted(keys) && IsRoute(keys, key, i)
    ensures i == Route(keys, key)
  {
    RouteIs(keys, key);
    var r := Route(keys, key);
    assert i < |keys| ==> key < keys[i];
    assert r < |keys| ==> key < keys[r];
  }

  lemma RouteMonotone(keys: seq<Key>, a: Key, b: Key)
    requires Sorted(keys) && a <= b
    ensures Route(keys, a) <= Route(keys, b)
  {
    RouteIs(keys, a);
    RouteIs(keys, b);
    assert Route(keys, b) < |keys| ==> b < keys[Route(keys, b)];
  }

  function Child(n: Node, key: Key): PageId
    requires |n.children| == |n.keys| + 1
  {
    n.children[Route(n.keys, key)]
  }

  /** `find_child`: the first child whose right-hand key is greater than `key`. */
  method FindChild(n: Node, key: Key) returns (idx: nat, child: PageId)
    requires Wf(n)
    ensures idx == Route(n.keys, key) && child == Child(n, key)
  {
    idx := UpperBound(n.keys, key);
    child := n.children[idx];
  }

  /** The binary search `find_child` and `split_internal_ly` share. */
  method UpperBound(keys: seq<Key>, key: Key) returns (low: nat)
    requires Sorted(keys)
    ensures low == Route(keys, key)
  {
    low := 0;
    var high := |keys|;
    while low < high
      invariant 0 <= low <= high <= |keys|
      invariant forall j :: 0 <= j < low ==> keys[j] <= key
      invariant forall j :: high <= j < |keys| ==> key < keys[j]
    {
      var mid := low + (high - low) / 2;
      if keys[mid] > key { high := mid; } else { low := mid + 1; }
    }
    RouteUnique(keys, key, low);
  }

  // ── Downlink insertion ─────────────────────────────────────────────────────

  function AddDownlink(n: Node, sep: Key, child: PageId): Node
    requires |n.children| == |n.keys| + 1
  {
    var i := Route(n.keys, sep);
    Node(n.keys[..i] + [sep] + n.keys[i..], n.children[..i + 1] + [child] + n.children[i + 1..])
  }

  lemma AddDownlinkWf(n: Node, sep: Key, child: PageId)
    requires Wf(n)
    ensures Wf(AddDownlink(n, sep, child))
  {
    RouteIs(n.keys, sep);
  }

  lemma AddDownlinkRoute(n: Node, sep: Key, child: PageId, key: Key)
    requires Wf(n)
    ensures Route(AddDownlink(n, sep, child).keys, key) == Route(n.keys, key) + if sep <= key then 1 else 0
  {
    AddDownlinkWf(n, sep, child);
    RouteIs(n.keys, sep);
    RouteIs(n.keys, key);
    var m, i, r := AddDownlink(n, sep, child), Route(n.keys, sep), Route(n.keys, key);
    if sep <= key { RouteMonotone(n.keys, sep, key); } else { RouteMonotone(n.keys, key, sep); }
    RouteUnique(m.keys, key, if sep <= key then r + 1 else r);
  }

  /** Only the keys from the separator up, in the window it falls into, are rerouted. */
  lemma AddDownlinkReroutes(n: Node, sep: Key, child: PageId, key: Key)
    requires Wf(n)
    ensures Child(AddDownlink(n, sep, child), key)
            == if sep <= key && Route(n.keys, key) == Route(n.keys, sep) then child else Child(n, key)
  {
    AddDownlinkRoute(n, sep, child, key);
    if sep <= key { RouteMonotone(n.keys, sep, key); } else { RouteMonotone(n.keys, key, sep); }
  }

  // ── Internal split, with the new downlink fused in ─────────────────────────

  datatype Halves = Halves(left: Node, up: Key, right: Node)

  function Split(n: Node, sep: Key, child: PageId): Halves
    requires |n.children| == |n.keys| + 1
  {
    var m := AddDownlink(n, sep, child);
    var mid := |m.keys| / 2;
    Halves(Node(m.keys[..mid], m.children[..mid + 1]), m.keys[mid], Node(m.keys[mid + 1..], m.children[mid + 1..]))
  }

  /** For every key the half its comparison with the pushed-up key picks routes as the whole page would. */
  lemma SplitRoutes(n: Node, sep: Key, child: PageId, key: Key)
    requires Wf(n)
    ensures var h := Split(n, sep, child);
            Wf(h.left) && Wf(h.right) && Wf(AddDownlink(n, sep, child))
            && Child(AddDownlink(n, sep, child), key) == if key < h.up then Child(h.left, key) else Child(h.right, key)
  {
    AddDownlinkWf(n, sep, child);
    var m := AddDownlink(n, sep, child);
    var mid, r := |m.keys| / 2, Route(m.keys, key);
    RouteIs(m.keys, key);
    if key < m.keys[mid] { RouteLeft(m.keys, mid, key, r); } else { RouteRight(m.keys, mid, key, r); }
  }

  lemma RouteLeft(keys: seq<Key>, mid: nat, key: Key, r: nat)
    requires Sorted(keys) && mid < |keys| && IsRoute(keys, key, r) && key < keys[mid]
    ensures r <= mid && r == Route(keys[..mid], key)
  {
    RouteUnique(keys[..mid], key, r);
  }

  lemma RouteRight(keys: seq<Key>, mid: nat, key: Key, r: nat)
    requires Sorted(keys) && mid < |keys| && IsRoute(keys, key, r) && keys[mid] <= key
    ensures mid < r && r - mid - 1 == Route(keys[mid + 1..], key)
  {
    var tail := keys[mid + 1..];
    assert forall j :: 0 <= j < |tail| ==> tail[j] == keys[mid + 1 + j];
    RouteUnique(tail, key, r - mid - 1);
  }

  /** `split_internal_ly` on the decoded page. */
  method SplitInternal(n: Node, sep: Key, child: PageId) returns (h: Halves)
    requires Wf(n)
    ensures h == Split(n, sep, child)
  {
    hide Route;
    var at := UpperBound(n.keys, sep);
    var m := Node(n.keys[..at] + [sep] + n.keys[at..], n.children[..at + 1] + [child] + n.children[at + 1..]);
    var mid := |m.keys| / 2;
    var right := Build(m, mid + 1, |m.keys|);
    var left := Build(m, 0, mid);
    h := Halves(left, m.keys[mid], right);
  }

  /** The builder's pushes: children `from` to `to` and the keys between them. */
  method Build(m: Node, from: nat, to: nat) returns (n: Node)
    requires |m.children| == |m.keys| + 1 && from <= to <= |m.keys|
    ensures n == Node(m.keys[from..to], m.children[from..to + 1])
  {
    n := Node([], [m.children[from]]);
    for i := from to to
      invariant n == Node(m.keys[from..i], m.children[from..i + 1])
    {
      n := Node(n.keys + [m.keys[i]], n.children + [m.children[i + 1]]);
    }
  }
}
