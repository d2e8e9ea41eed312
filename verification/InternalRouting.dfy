/**
Routing, downlink insertion and the internal split on page bytes
(crates/storage/src/page/internal.rs, `find_child` and `InternalPageBuilder`;
crates/storage/src/index/smo.rs, `split_internal_ly`): through any key order they do what
`InternalNode` says of the decoded page, and the split does so exactly when both halves fit.
*/
module InternalRouting {
  import opened ByteTypes
  import opened PageLayout
  import opened PageBytes
  import opened Redo
  import opened InternalPage
  import LeafBuilder
  import N = InternalNode

  type Rank = LeafBuilder.Rank

  function Ranks(keys: seq<bytes>, rank: Rank): (r: seq<real>)
    ensures |r| == |keys| && forall i {:trigger r[i]} :: 0 <= i < |keys| ==> r[i] == rank(keys[i])
  {
    seq(|keys|, i requires 0 <= i < |keys| => rank(keys[i]))
  }

  /** The page as the tree protocol sees it. */
  ghost function NodeOf(s: bytes, rank: Rank): (n: N.Node)
    requires Wf(s)
    ensures |n.keys| == Count(s) && |n.children| == Count(s) + 1
  {
    N.Node(Ranks(Keys(s), rank), Children(s))
  }

  ghost predicate Routable(s: bytes, rank: Rank) { Wf(s) && N.Sorted(NodeOf(s, rank).keys) }

  /** `find_child` on the page. */
  method FindChild(a: array<byte>, rank: Rank, key: bytes) returns (idx: nat, child: nat)
    requires Routable(a[..], rank)
    ensures idx == N.Route(NodeOf(a[..], rank).keys, rank(key)) && child == N.Child(NodeOf(a[..], rank), rank(key))
  {
    var s := a[..];
    ghost var n := NodeOf(s, rank);
    idx := SearchKeys(s, rank, rank(key));
    child := ChildAt(s, idx);
    assert child == n.children[idx];
  }

  method SearchKeys(s: bytes, rank: Rank, k: real) returns (low: nat)
    requires Routable(s, rank)
    ensures low == N.Route(NodeOf(s, rank).keys, k) && low <= Count(s)
  {
    ghost var keys := NodeOf(s, rank).keys;
    var n := Count(s);
    assert |keys| == n && forall i: nat {:trigger keys[i]} :: i < n ==> keys[i] == rank(KeyAt(s, i));
    hide *;
    low := 0;
    var high := n;
    while low < high
      invariant 0 <= low <= high <= n
      invariant forall j :: 0 <= j < low ==> keys[j] <= k
      invariant forall j :: high <= j < n ==> k < keys[j]
    {
      var mid := low + (high - low) / 2;
      var key := ReadKey(s, mid);
      assert keys[mid] == rank(key);
      if rank(key) > k { high := mid; } else { low := mid + 1; }
    }
    Routed(keys, k, low);
  }

  lemma Routed(keys: seq<real>, k: real, i: nat)
    requires N.Sorted(keys) && i <= |keys|
    requires forall j :: 0 <= j < i ==> keys[j] <= k
    requires forall j :: i <= j < |keys| ==> k < keys[j]
    ensures i == N.Route(keys, k)
  {
    N.RouteUnique(keys, k, i);
  }

  lemma RanksInsert(keys: seq<bytes>, rank: Rank, i: nat, key: bytes)
    requires i <= |keys|
    ensures Ranks(InsertAt(keys, i, key), rank) == InsertAt(Ranks(keys, rank), i, rank(key))
  {
  }

  lemma RanksSlice(keys: seq<bytes>, rank: Rank, lo: nat, hi: nat)
    requires lo <= hi <= |keys|
    ensures Ranks(keys[lo..hi], rank) == Ranks(keys, rank)[lo..hi]
  {
  }

  /** Routing to the separator's place and inserting there; refused exactly when the page is too full. */
  method AddDownlink(a: array<byte>, rank: Rank, sep: bytes, child: nat) returns (ok: bool)
    requires Routable(a[..], rank) && Fits64(child)
    modifies a
    ensures ok <==> FreeBytes(old(a[..])) >= 12 + |sep|
    ensures !ok ==> a[..] == old(a[..])
    ensures ok ==> Wf(a[..]) && NodeOf(a[..], rank) == N.AddDownlink(NodeOf(old(a[..]), rank), rank(sep), child)
    ensures RestKept(old(a[..]), a[..]) && High(a[..]) == old(High(a[..]))
  {
    ghost var s := a[..];
    hide Keys, Children, High, KeyStart, U16, U32, U64, Ranks, N.Route, N.Child, FreeBytes, Rises, KeyAt;
    var idx, _ := FindChild(a, rank, sep);
    RanksInsert(Keys(s), rank, idx, sep);
    ok := InsertKeyAndRightChild(a, idx, sep, child);
  }

  // ── The builder ────────────────────────────────────────────────────────────

  const INTERNAL: byte := 2

  /** Type, flags, page id, LSN and right link. */
  datatype Head = Head(kind: byte, flags: byte, id: nat, lsn: nat, right: nat)

  ghost function HeadOf(s: bytes): Head
    requires Whole(s)
  {
    Head(s[0], s[1], U64(s, 8), U64(s, 16), U64(s, 24))
  }

  /** A zeroed page with its type, id, link and high key. */
  method Blank(a: array<byte>, pageId: nat, right: nat, high: bytes)
    requires a.Length == PAGE_SIZE && Fits64(pageId) && Fits64(right) && |high| <= PAGE_SIZE - EndsBase(0)
    modifies a
    ensures Sized(a[..]) && HighLen(a[..]) == |high| && High(a[..]) == high && HeadOf(a[..]) == Head(INTERNAL, 0, pageId, 0, right)
  {
    FillZero(a, 0, PAGE_SIZE);
    a[0] := INTERNAL;
    WriteU64(a, 8, pageId);
    ghost var s1 := a[..];
    WriteU64(a, 24, right);
    ghost var s2 := a[..];
    WriteU16(a, 4, |high|);
    ghost var s3 := a[..];
    WriteBytes(a, PAGE_SIZE - |high|, high);
    BlankDecodes(s1, s2, s3, a[..], pageId, right, high);
  }

  lemma BlankDecodes(s1: bytes, s2: bytes, s3: bytes, s: bytes, pageId: nat, right: nat, high: bytes)
    requires |s1| == PAGE_SIZE && s1[0] == INTERNAL && U64(s1, 8) == pageId && |high| <= PAGE_SIZE - EndsBase(0)
    requires forall k {:trigger s1[k]} :: 1 <= k < 8 || 16 <= k < PAGE_SIZE ==> s1[k] == 0
    requires Changed(s1, s2, 24, 32) && U64(s2, 24) == right && Changed(s2, s3, 4, 6) && U16(s3, 4) == |high|
    requires Changed(s3, s, PAGE_SIZE - |high|, PAGE_SIZE) && s[PAGE_SIZE - |high|..] == high
    ensures Sized(s) && HighLen(s) == |high| && High(s) == high && HeadOf(s) == Head(INTERNAL, 0, pageId, 0, right)
  {
    forall k | 0 <= k < 24 && !(4 <= k < 6) ensures s[k] == s1[k] { assert s[k] == s3[k] == s2[k]; }
    forall k | 24 <= k < 32 ensures s[k] == s2[k] { assert s[k] == s3[k]; }
    assert s[2] == 0 && s[3] == 0;
    U64Kept(s1, s, 8);
    U64Kept(s1, s, 16);
    LeafBuilder.ZeroField(s1, 16);
    U64Kept(s2, s, 24);
    U16Kept(s3, s, 4);
  }

  /**
  The builder from `new` to `finish`.  It fails where the source's slice copy panics; short
  of that it writes the key data over the high key, if it reaches that far.
  */
  method BuildPage(a: array<byte>, pageId: nat, right: nat, high: bytes, children: seq<nat>, keys: seq<bytes>) returns (ok: bool)
    requires a.Length == PAGE_SIZE && Fits64(pageId) && Fits64(right) && |high| <= PAGE_SIZE - EndsBase(0)
    requires |children| == |keys| + 1 && forall i {:trigger children[i]} :: 0 <= i < |children| ==> Fits64(children[i])
    modifies a
    ensures ok <==> Needed(|children|, keys) <= PAGE_SIZE
    ensures ok ==> (Wf(a[..]) <==> Needed(|children|, keys) + |high| <= PAGE_SIZE)
    ensures ok && Wf(a[..]) ==> Children(a[..]) == children && Keys(a[..]) == keys && High(a[..]) == high
                                && HeadOf(a[..]) == Head(INTERNAL, 0, pageId, 0, right)
  {
    if Needed(|children|, keys) > PAGE_SIZE { return false; }
    Blank(a, pageId, right, high);
    ghost var s := a[..];
    hide Wf, Keys, Children, High, KeyBytes, U16, U64;
    WriteSections(a, children, keys);
    if Wf(a[..]) { HeadKept(s, a[..]); }
    return true;
  }

  lemma HeadKept(s: bytes, s': bytes)
    requires Sized(s) && Whole(s') && RestKept(s, s')
    ensures HeadOf(s') == HeadOf(s)
  {
    assert s'[0] == s[0] && s'[1] == s[1];
    U64Kept(s, s', 8);
    U64Kept(s, s', 16);
    U64Kept(s, s', 24);
  }

  // ── The split ──────────────────────────────────────────────────────────────

  const MAX_KEY_SIZE := 512
  const INCOMPLETE_SPLIT: byte := 1

  /** The page's keys with the separator in its place. */
  ghost function Fused(s: bytes, rank: Rank, sep: bytes): (m: seq<bytes>)
    requires Wf(s)
    ensures |m| == Count(s) + 1
  {
    InsertAt(Keys(s), N.Route(NodeOf(s, rank).keys, rank(sep)), sep)
  }

  ghost function FusedChildren(s: bytes, rank: Rank, sep: bytes, child: nat): (c: seq<nat>)
    requires Wf(s)
    ensures |c| == Count(s) + 2
  {
    InsertAt(Children(s), N.Route(NodeOf(s, rank).keys, rank(sep)) + 1, child)
  }

  /** The pages are the halves of the node, `up` the key between them and the left one's high key. */
  ghost predicate SplitInto(s: bytes, rank: Rank, sep: bytes, child: nat, left: bytes, right: bytes, up: bytes)
    requires Wf(s) && Wf(left) && Wf(right)
  {
    N.Split(NodeOf(s, rank), rank(sep), child) == N.Halves(NodeOf(left, rank), rank(up), NodeOf(right, rank))
    && High(left) == up && High(right) == High(s)
  }

  /** Bytes of the half that keeps the lower keys and takes the pushed-up one as its high key ... */
  function LeftBytes(m: seq<bytes>): nat
    requires m != []
  {
    var mid := |m| / 2;
    Needed(mid + 1, m[..mid]) + |m[mid]|
  }

  /** ... and of the half that keeps the page's high key. */
  function RightBytes(m: seq<bytes>, highLen: nat): nat
    requires m != []
  {
    var mid := |m| / 2;
    Needed(|m| - mid, m[mid + 1..]) + highLen
  }

  ghost predicate SplitFits(s: bytes, rank: Rank, sep: bytes)
    requires Wf(s)
  {
    LeftBytes(Fused(s, rank, sep)) <= PAGE_SIZE && RightBytes(Fused(s, rank, sep), HighLen(s)) <= PAGE_SIZE
  }

  /** Splitting the byte keys at the middle splits the node. */
  lemma FusedSplits(keys: seq<bytes>, children: seq<nat>, rank: Rank, sep: bytes, child: nat)
    requires |children| == |keys| + 1
    ensures var n := N.Node(Ranks(keys, rank), children);
            var i := N.Route(n.keys, rank(sep));
            var m, c := InsertAt(keys, i, sep), InsertAt(children, i + 1, child);
            var mid := |m| / 2;
            N.Split(n, rank(sep), child)
            == N.Halves(N.Node(Ranks(m[..mid], rank), c[..mid + 1]), rank(m[mid]), N.Node(Ranks(m[mid + 1..], rank), c[mid + 1..]))
  {
    var i := N.Route(Ranks(keys, rank), rank(sep));
    var m := InsertAt(keys, i, sep);
    var mid := |m| / 2;
    RanksInsert(keys, rank, i, sep);
    RanksSlice(m, rank, 0, mid);
    RanksSlice(m, rank, mid + 1, |m|);
    assert m[0..mid] == m[..mid] && m[mid + 1..|m|] == m[mid + 1..];
    hide Ranks, N.Route;
  }

  /** The two lists a half is built from decode to the half `InternalNode` names. */
  lemma HalvesDecode(s: bytes, rank: Rank, sep: bytes, child: nat, left: bytes, right: bytes)
    requires Wf(s) && Wf(left) && Wf(right)
    requires var m, c := Fused(s, rank, sep), FusedChildren(s, rank, sep, child);
             var mid := |m| / 2;
             Keys(left) == m[..mid] && Children(left) == c[..mid + 1] && Keys(right) == m[mid + 1..] && Children(right) == c[mid + 1..]
             && High(left) == m[mid] && High(right) == High(s)
    ensures var m := Fused(s, rank, sep); SplitInto(s, rank, sep, child, left, right, m[|m| / 2])
  {
    hide Wf, Keys, Children, High, Ranks, N.Route, N.Split, InsertAt, U16, U32, U64, Whole, Sized, KeyStart;
    FusedSplits(Keys(s), Children(s), rank, sep, child);
  }

  /** Both builders: the right page first, then the left one in place. */
  method BuildHalves(a: array<byte>, b: array<byte>, leftId: nat, rightId: nat, right: nat, high: bytes, children: seq<nat>, keys: seq<bytes>)
    returns (ok: bool)
    requires a.Length == b.Length == PAGE_SIZE && a != b && Fits64(leftId) && Fits64(rightId) && Fits64(right)
    requires |children| == |keys| + 1 && keys != [] && |high| <= PAGE_SIZE - EndsBase(0)
    requires forall i {:trigger children[i]} :: 0 <= i < |children| ==> Fits64(children[i])
    requires forall i {:trigger keys[i]} :: 0 <= i < |keys| ==> |keys[i]| <= PAGE_SIZE - EndsBase(0)
    modifies a, b
    ensures ok && Wf(a[..]) && Wf(b[..]) <==> LeftBytes(keys) <= PAGE_SIZE && RightBytes(keys, |high|) <= PAGE_SIZE
    ensures var mid := |keys| / 2;
            ok && Wf(a[..]) && Wf(b[..]) ==>
              Keys(a[..]) == keys[..mid] && Children(a[..]) == children[..mid + 1]
              && Keys(b[..]) == keys[mid + 1..] && Children(b[..]) == children[mid + 1..]
              && High(a[..]) == keys[mid] && High(b[..]) == high
              && HeadOf(a[..]) == Head(INTERNAL, INCOMPLETE_SPLIT, leftId, 0, rightId)
              && HeadOf(b[..]) == Head(INTERNAL, 0, rightId, 0, right)
  {
    hide Wf, Keys, Children, High, U16, U64, KeyBytes, HeadOf;
    var mid := |keys| / 2;
    var lower, upper := children[..mid + 1], children[mid + 1..];
    assert forall i {:trigger lower[i]} :: 0 <= i < |lower| ==> lower[i] == children[i];
    assert forall i {:trigger upper[i]} :: 0 <= i < |upper| ==> upper[i] == children[mid + 1 + i];
    ok := BuildPage(b, rightId, right, high, upper, keys[mid + 1..]);
    if !ok { return; }
    ok := BuildPage(a, leftId, rightId, keys[mid], lower, keys[..mid]);
    if !ok { return; }
    ghost var s := a[..];
    a[1] := INCOMPLETE_SPLIT;
    FlagSet(s, a[..]);
  }

  /**
  `split_internal_ly`'s two pages: `a` keeps the lower half, `b` becomes its right sibling.
  Both decode to the halves of the decoded page if and only if both fit.
  */
  method SplitPage(a: array<byte>, b: array<byte>, leftId: nat, rightId: nat, rank: Rank, sep: bytes, child: nat)
    returns (ok: bool, up: bytes)
    requires Routable(a[..], rank) && |sep| <= MAX_KEY_SIZE && Fits64(child)
    requires b.Length == PAGE_SIZE && a != b && Fits64(leftId) && Fits64(rightId)
    modifies a, b
    ensures ok && Wf(a[..]) && Wf(b[..]) <==> SplitFits(old(a[..]), rank, sep)
    ensures ok && Wf(a[..]) && Wf(b[..]) ==> SplitInto(old(a[..]), rank, sep, child, a[..], b[..], up)
    ensures ok && Wf(a[..]) && Wf(b[..]) ==>
              HeadOf(a[..]) == Head(INTERNAL, INCOMPLETE_SPLIT, leftId, 0, rightId)
              && HeadOf(b[..]) == Head(INTERNAL, 0, rightId, 0, old(HeadOf(a[..])).right)
  {
    ghost var s := a[..];
    var children, keys, high, right := ReadFused(a, rank, sep, child);
    assert |high| == HighLen(s) && a.Length == PAGE_SIZE && keys != [];
    assert SplitFits(s, rank, sep) <==> LeftBytes(keys) <= PAGE_SIZE && RightBytes(keys, |high|) <= PAGE_SIZE;
    hide *;
    up := keys[|keys| / 2];
    ok := BuildHalves(a, b, leftId, rightId, right, high, children, keys);
    if ok && Wf(a[..]) && Wf(b[..]) { HalvesDecode(s, rank, sep, child, a[..], b[..]); }
  }

  lemma KeysShort(s: bytes)
    requires Wf(s)
    ensures forall i {:trigger Keys(s)[i]} :: 0 <= i < Count(s) ==> |Keys(s)[i]| <= PAGE_SIZE - EndsBase(0)
  {
    forall i | 0 <= i < Count(s) ensures |Keys(s)[i]| <= PAGE_SIZE - EndsBase(0) {
      StartsRise(s, i, i + 1);
      StartsRise(s, i + 1, Count(s));
    }
  }

  method ReadLinks(s: bytes) returns (high: bytes, right: nat)
    requires Wf(s)
    ensures high == High(s) && |high| <= PAGE_SIZE - EndsBase(0) && right == HeadOf(s).right && Fits64(right)
  {
    high := s[PAGE_SIZE - HighLen(s)..];
    right := U64(s, 24);
    U64Fits(s, 24);
  }

  /** Reads the page, finds the separator's place and fuses it in. */
  method ReadFused(a: array<byte>, rank: Rank, sep: bytes, child: nat)
    returns (children: seq<nat>, keys: seq<bytes>, high: bytes, right: nat)
    requires Routable(a[..], rank) && |sep| <= MAX_KEY_SIZE && Fits64(child)
    ensures keys == Fused(a[..], rank, sep) && high == High(a[..]) && right == HeadOf(a[..]).right && Fits64(right)
    ensures children == FusedChildren(a[..], rank, sep, child)
    ensures |children| == |keys| + 1 && forall i {:trigger children[i]} :: 0 <= i < |children| ==> Fits64(children[i])
    ensures |high| <= PAGE_SIZE - EndsBase(0) && forall i {:trigger keys[i]} :: 0 <= i < |keys| ==> |keys[i]| <= PAGE_SIZE - EndsBase(0)
  {
    var s := a[..];
    high, right := ReadLinks(s);
    KeysShort(s);
    hide Wf, Keys, Children, High, HeadOf, Ranks, U16, U32, U64, KeyStart, N.Route, N.Sorted, Whole, Sized;
    var ids, had := Snapshot(a);
    var at := SearchKeys(s, rank, rank(sep));
    children := InsertAt(ids, at + 1, child);
    keys := InsertAt(had, at, sep);
  }

  lemma FlagSet(s: bytes, s': bytes)
    requires Whole(s) && Changed(s, s', 1, 2)
    ensures Wf(s') <==> Wf(s)
    ensures Wf(s) ==> Keys(s') == Keys(s) && Children(s') == Children(s) && High(s') == High(s)
    ensures HeadOf(s') == HeadOf(s).(flags := s'[1])
  {
    if Wf(s) { HeaderSet(s, s', 1, 2); }
    if Wf(s') { HeaderSet(s', s, 1, 2); }
    assert s'[0] == s[0];
    U64Kept(s, s', 8);
    U64Kept(s, s', 16);
    U64Kept(s, s', 24);
    hide Wf, Keys, Children, High, U64;
  }

  // ── A page that does not split ─────────────────────────────────────────────

  /** A key of the largest size, ranked by its first byte. */
  function Big(i: byte): (k: bytes)
    ensures |k| == MAX_KEY_SIZE && k[0] == i
  {
    [i] + seq(MAX_KEY_SIZE - 1, _ => 0)
  }

  function FirstByte(k: bytes): real { if k == [] then 0.0 else k[0] as real }

  lemma {:induction false} UniformBytes(keys: seq<bytes>, len: nat)
    requires forall i {:trigger keys[i]} :: 0 <= i < |keys| ==> |keys[i]| == len
    ensures KeyBytes(keys) == len * |keys|
    decreases |keys|
  {
    if keys != [] {
      UniformBytes(keys[1..], len);
      assert len * |keys| == len + len * (|keys| - 1);
    }
  }

  /**
  Seven keys of 512 bytes below six of one byte: a page of 3794 bytes with no room for an
  eighth key of 512, and no split either, for the lower half would take 4228.
  */
  method UnsplittablePage() returns (a: array<byte>, sep: bytes)
    ensures fresh(a) && a.Length == PAGE_SIZE && Routable(a[..], FirstByte) && |sep| <= MAX_KEY_SIZE
    ensures forall k :: k in Keys(a[..]) ==> |k| <= MAX_KEY_SIZE
    ensures FreeBytes(a[..]) < 12 + |sep| && !SplitFits(a[..], FirstByte, sep)
  {
    var big: seq<bytes> := seq(7, i requires 0 <= i < 7 => Big(i));
    var small: seq<bytes> := seq(6, i requires 0 <= i < 6 => [i + 8]);
    sep := Big(7);
    a := new byte[PAGE_SIZE];
    UniformBytes(big, 512);
    UniformBytes(small, 1);
    KeyBytesConcat(big, small);
    var ok := BuildPage(a, 1, 0, [], seq(14, i => i), big + small);
    LastEnd(a[..]);
    Crowded(a[..], big, small);
  }

  lemma Crowded(s: bytes, big: seq<bytes>, small: seq<bytes>)
    requires Wf(s) && Keys(s) == big + small && |big| == 7 && |small| == 6 && KeyBytes(big) == 3584
    requires forall i {:trigger big[i]} :: 0 <= i < 7 ==> big[i] == Big(i)
    requires forall i {:trigger small[i]} :: 0 <= i < 6 ==> small[i] == [i + 8]
    ensures Routable(s, FirstByte) && !SplitFits(s, FirstByte, Big(7))
  {
    var ranks := NodeOf(s, FirstByte).keys;
    forall i | 0 <= i < 13 ensures ranks[i] == (if i < 7 then i else i + 1) as real {
      if i < 7 { assert (big + small)[i] == big[i]; } else { assert (big + small)[i] == small[i - 7]; }
    }
    Routed(ranks, 7.0, 7);
    var m := Fused(s, FirstByte, Big(7));
    assert m[..7] == big && m[7] == Big(7);
  }
}
