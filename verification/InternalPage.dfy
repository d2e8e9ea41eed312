/**
The internal page (crates/storage/src/page/internal.rs) as bytes: child ids, key end
offsets, packed key data, and the high key at the very end of the page.
*/
module InternalPage {
  import opened ByteTypes
  import opened PageLayout
  import opened PageBytes
  import opened Redo

  const INT_HEADER := 40

  predicate Whole(s: bytes) { |s| == PAGE_SIZE }

  function Count(s: bytes): nat requires Whole(s) { U16(s, 2) }
  function HighLen(s: bytes): nat requires Whole(s) { U16(s, 4) }

  function EndsBase(n: nat): nat { INT_HEADER + 8 * (n + 1) }
  function DataBase(n: nat): nat { EndsBase(n) + 4 * n }

  predicate Sized(s: bytes) { Whole(s) && HighLen(s) <= PAGE_SIZE && DataBase(Count(s)) <= PAGE_SIZE - HighLen(s) }

  /** Where key `i` starts, relative to the key data; also where key `i - 1` ends. */
  function KeyStart(s: bytes, i: nat): nat
    requires Sized(s) && i <= Count(s)
  {
    if i == 0 then 0 else U32(s, EndsBase(Count(s)) + 4 * (i - 1))
  }

  ghost predicate Rises(s: bytes, i: nat)
    requires Sized(s) && i < Count(s)
  {
    KeyStart(s, i) <= KeyStart(s, i + 1)
  }

  ghost predicate Wf(s: bytes) {
    Sized(s)
    && (forall i: nat {:trigger Rises(s, i)} :: i < Count(s) ==> Rises(s, i))
    && DataBase(Count(s)) + KeyStart(s, Count(s)) <= PAGE_SIZE - HighLen(s)
  }

  lemma StartsRise(s: bytes, i: nat, j: nat)
    requires Wf(s) && i <= j <= Count(s)
    ensures KeyStart(s, i) <= KeyStart(s, j)
    decreases j
  {
    if i < j {
      StartsRise(s, i, j - 1);
      assert Rises(s, j - 1);
    }
  }

  function ChildAt(s: bytes, i: nat): nat
    requires Sized(s) && i <= Count(s)
  {
    U64(s, INT_HEADER + 8 * i)
  }

  ghost function KeyAt(s: bytes, i: nat): bytes
    requires Wf(s) && i < Count(s)
  {
    StartsRise(s, i, i + 1);
    StartsRise(s, i + 1, Count(s));
    s[DataBase(Count(s)) + KeyStart(s, i)..DataBase(Count(s)) + KeyStart(s, i + 1)]
  }

  ghost function Children(s: bytes): seq<nat>
    requires Wf(s)
  {
    seq(Count(s) + 1, i requires 0 <= i < Count(s) + 1 => ChildAt(s, i))
  }

  ghost function Keys(s: bytes): seq<bytes>
    requires Wf(s)
  {
    seq(Count(s), i requires 0 <= i < Count(s) => KeyAt(s, i))
  }

  ghost function High(s: bytes): bytes
    requires Sized(s)
  {
    s[PAGE_SIZE - HighLen(s)..]
  }

  /** Everything but the key count and the three sections. */
  ghost predicate RestKept(s: bytes, s': bytes)
    requires Sized(s)
  {
    Same(s, s', 0, 2) && Same(s, s', 4, INT_HEADER) && Same(s, s', PAGE_SIZE - HighLen(s), PAGE_SIZE)
  }

  // ── Sizes ──────────────────────────────────────────────────────────────────

  lemma {:induction false} KeyBytesConcat(a: seq<bytes>, b: seq<bytes>)
    ensures KeyBytes(a + b) == KeyBytes(a) + KeyBytes(b)
    decreases |a|
  {
    if a == [] { assert a + b == b; }
    else {
      assert (a + b)[0] == a[0] && (a + b)[1..] == a[1..] + b;
      KeyBytesConcat(a[1..], b);
    }
  }

  /** Total length of the first `i` keys. */
  ghost function Upto(keys: seq<bytes>, i: nat): nat
    requires i <= |keys|
  {
    KeyBytes(keys[..i])
  }

  lemma UptoNext(keys: seq<bytes>, i: nat)
    requires i < |keys|
    ensures Upto(keys, i + 1) == Upto(keys, i) + |keys[i]|
  {
    var last: seq<bytes> := [keys[i]];
    assert keys[..i + 1] == keys[..i] + last && |last[1..]| == 0;
    KeyBytesConcat(keys[..i], [keys[i]]);
  }

  lemma {:induction false} UptoRises(keys: seq<bytes>, i: nat, j: nat)
    requires i <= j <= |keys|
    ensures Upto(keys, i) <= Upto(keys, j)
    decreases j
  {
    if i < j {
      UptoRises(keys, i, j - 1);
      UptoNext(keys, j - 1);
    }
  }

  lemma UptoAll(keys: seq<bytes>)
    ensures Upto(keys, |keys|) == KeyBytes(keys)
  {
    assert keys[..|keys|] == keys;
  }

  lemma {:induction false} SumsRun(starts: seq<nat>, keys: seq<bytes>, i: nat)
    requires |starts| == |keys| + 1 && starts[0] == 0 && i <= |keys|
    requires forall k {:trigger keys[k]} :: 0 <= k < |keys| ==> starts[k + 1] == starts[k] + |keys[k]|
    ensures starts[i] == Upto(keys, i)
    decreases i
  {
    EmptyBytes(keys);
    hide Upto;
    if i > 0 {
      SumsRun(starts, keys, i - 1);
      UptoNext(keys, i - 1);
    }
  }

  /** The last end offset is the total key length. */
  lemma LastEnd(s: bytes)
    requires Wf(s)
    ensures KeyStart(s, Count(s)) == KeyBytes(Keys(s))
  {
    var n := Count(s);
    var starts := seq(n + 1, i requires 0 <= i < n + 1 => KeyStart(s, i));
    forall k | 0 <= k < n ensures starts[k + 1] == starts[k] + |Keys(s)[k]| { StartsRise(s, k, k + 1); StartsRise(s, k + 1, n); }
    hide KeyBytes, Upto, U32, U16, KeyStart, KeyAt;
    SumsRun(starts, Keys(s), n);
    UptoAll(Keys(s));
  }

  lemma EmptyBytes(keys: seq<bytes>)
    ensures Upto(keys, 0) == 0
  {
  }

  // ── Rewriting ──────────────────────────────────────────────────────────────

  function Needed(children: nat, keys: seq<bytes>): nat { INT_HEADER + 8 * children + 4 * |keys| + KeyBytes(keys) }

  ghost predicate ChildOk(s: bytes, children: seq<nat>, i: nat)
    requires i < |children| && INT_HEADER + 8 * |children| <= |s|
  {
    U64(s, INT_HEADER + 8 * i) == children[i]
  }

  method WriteChildren(a: array<byte>, children: seq<nat>)
    requires a.Length == PAGE_SIZE && INT_HEADER + 8 * |children| <= PAGE_SIZE
    requires forall i {:trigger children[i]} :: 0 <= i < |children| ==> Fits64(children[i])
    modifies a
    ensures Changed(old(a[..]), a[..], INT_HEADER, INT_HEADER + 8 * |children|)
    ensures forall i: nat {:trigger ChildOk(a[..], children, i)} :: i < |children| ==> ChildOk(a[..], children, i)
  {
    for i := 0 to |children|
      invariant Changed(old(a[..]), a[..], INT_HEADER, INT_HEADER + 8 * i)
      invariant forall k: nat {:trigger ChildOk(a[..], children, k)} :: k < i ==> ChildOk(a[..], children, k)
    {
      ghost var s := a[..];
      WriteU64(a, INT_HEADER + 8 * i, children[i]);
      hide U64;
      forall k: nat | k < i ensures ChildOk(a[..], children, k) {
        assert ChildOk(s, children, k);
        U64Kept(s, a[..], INT_HEADER + 8 * k);
      }
    }
  }

  ghost predicate EndOk(s: bytes, keys: seq<bytes>, i: nat)
    requires i < |keys| && DataBase(|keys|) <= |s|
  {
    U32(s, EndsBase(|keys|) + 4 * i) == Upto(keys, i + 1)
  }

  method WriteEnds(a: array<byte>, keys: seq<bytes>)
    requires a.Length == PAGE_SIZE && DataBase(|keys|) + KeyBytes(keys) <= PAGE_SIZE
    modifies a
    ensures Changed(old(a[..]), a[..], EndsBase(|keys|), DataBase(|keys|))
    ensures forall i: nat {:trigger EndOk(a[..], keys, i)} :: i < |keys| ==> EndOk(a[..], keys, i)
  {
    var n, cumulative := |keys|, 0;
    UptoAll(keys);
    EmptyBytes(keys);
    hide KeyBytes, Upto;
    for i := 0 to n
      invariant cumulative == Upto(keys, i)
      invariant Changed(old(a[..]), a[..], EndsBase(n), EndsBase(n) + 4 * i)
      invariant forall k: nat {:trigger EndOk(a[..], keys, k)} :: k < i ==> EndOk(a[..], keys, k)
    {
      UptoNext(keys, i);
      UptoRises(keys, i + 1, n);
      cumulative := cumulative + |keys[i]|;
      ghost var s := a[..];
      WriteU32(a, EndsBase(n) + 4 * i, cumulative);
      hide U32;
      forall k: nat | k < i ensures EndOk(a[..], keys, k) {
        assert EndOk(s, keys, k);
        U32Kept(s, a[..], EndsBase(n) + 4 * k);
      }
    }
  }

  ghost predicate KeyOk(s: bytes, keys: seq<bytes>, i: nat)
    requires i < |keys|
  {
    var at := DataBase(|keys|) + Upto(keys, i);
    at + |keys[i]| <= |s| && s[at..at + |keys[i]|] == keys[i]
  }

  method WriteKeys(a: array<byte>, keys: seq<bytes>)
    requires a.Length == PAGE_SIZE && DataBase(|keys|) + KeyBytes(keys) <= PAGE_SIZE
    modifies a
    ensures Changed(old(a[..]), a[..], DataBase(|keys|), DataBase(|keys|) + KeyBytes(keys))
    ensures forall i: nat {:trigger KeyOk(a[..], keys, i)} :: i < |keys| ==> KeyOk(a[..], keys, i)
  {
    var base := DataBase(|keys|);
    UptoAll(keys);
    EmptyBytes(keys);
    hide KeyBytes, Upto;
    var off := base;
    for i := 0 to |keys|
      invariant off == base + Upto(keys, i) <= PAGE_SIZE
      invariant Changed(old(a[..]), a[..], base, base + Upto(keys, i))
      invariant forall k: nat {:trigger KeyOk(a[..], keys, k)} :: k < i ==> KeyOk(a[..], keys, k)
    {
      UptoNext(keys, i);
      UptoRises(keys, i + 1, |keys|);
      ghost var s := a[..];
      WriteBytes(a, off, keys[i]);
      assert KeyOk(a[..], keys, i);
      forall k: nat | k < i ensures KeyOk(a[..], keys, k) {
        assert KeyOk(s, keys, k);
        KeyOkKept(s, a[..], keys, k, i);
      }
      off := off + |keys[i]|;
    }
  }

  lemma KeyOkKept(s: bytes, s': bytes, keys: seq<bytes>, k: nat, i: nat)
    requires k < i < |keys| && KeyOk(s, keys, k)
    requires Changed(s, s', DataBase(|keys|) + Upto(keys, i), |s|)
    ensures KeyOk(s', keys, k)
  {
    hide Upto;
    UptoNext(keys, k);
    UptoRises(keys, k + 1, i);
    var at := DataBase(|keys|) + Upto(keys, k);
    SameSlice(s, s', at, at + |keys[k]|);
  }

  /** The writes `rewrite` and the builder's `finish` share: the page decodes to these lists exactly when they fit. */
  method WriteSections(a: array<byte>, children: seq<nat>, keys: seq<bytes>)
    requires Sized(a[..]) && |children| == |keys| + 1 && Needed(|children|, keys) <= PAGE_SIZE
    requires forall i {:trigger children[i]} :: 0 <= i < |children| ==> Fits64(children[i])
    modifies a
    ensures Wf(a[..]) <==> Needed(|children|, keys) <= PAGE_SIZE - HighLen(old(a[..]))
    ensures Wf(a[..]) ==> Children(a[..]) == children && Keys(a[..]) == keys
    ensures Wf(a[..]) ==> RestKept(old(a[..]), a[..]) && High(a[..]) == old(High(a[..]))
  {
    ghost var s := a[..];
    hide KeyBytes, Upto, U32, U64, Wf, Children, Keys, High, KeyOk, EndOk, ChildOk;
    WriteU16(a, 2, |keys|);
    ghost var s1 := a[..];
    WriteChildren(a, children);
    ghost var s2 := a[..];
    WriteEnds(a, keys);
    ghost var s3 := a[..];
    WriteKeys(a, keys);
    if Needed(|children|, keys) <= PAGE_SIZE - HighLen(s) {
      SectionsWritten(s, s1, s2, s3, a[..], |keys|, KeyBytes(keys));
      RewriteDecodes(s, s2, s3, a[..], children, keys);
    } else { Overfull(s, s1, s2, s3, a[..], keys); }
  }

  /** Key data that reaches into the high key leaves no well-formed page. */
  lemma Overfull(s: bytes, s1: bytes, s2: bytes, s3: bytes, s4: bytes, keys: seq<bytes>)
    requires Whole(s) && PAGE_SIZE - HighLen(s) < DataBase(|keys|) + KeyBytes(keys) <= PAGE_SIZE
    requires Changed(s, s1, 2, 4) && U16(s1, 2) == |keys| && Changed(s1, s2, INT_HEADER, EndsBase(|keys|))
    requires Changed(s2, s3, EndsBase(|keys|), DataBase(|keys|)) && Changed(s3, s4, DataBase(|keys|), PAGE_SIZE)
    requires forall i: nat {:trigger EndOk(s3, keys, i)} :: i < |keys| ==> EndOk(s3, keys, i)
    ensures !Wf(s4)
  {
    forall k | 2 <= k < 6 ensures s4[k] == s1[k] { assert s4[k] == s3[k] == s2[k]; }
    U16Kept(s1, s4, 2);
    U16Kept(s1, s4, 4);
    U16Kept(s, s1, 4);
    UptoAll(keys);
    hide KeyBytes, Upto, U16, U32, EndOk, KeyStart;
    if Sized(s4) { EndsDecode(s3, s4, keys, |keys|); }
  }

  /** `rewrite`: the sections hold exactly these children and keys; links, LSN and high key stay. */
  method Rewrite(a: array<byte>, children: seq<nat>, keys: seq<bytes>)
    requires Wf(a[..]) && |children| == |keys| + 1 && Needed(|children|, keys) <= PAGE_SIZE - HighLen(a[..])
    requires forall i {:trigger children[i]} :: 0 <= i < |children| ==> Fits64(children[i])
    modifies a
    ensures Wf(a[..]) && Children(a[..]) == children && Keys(a[..]) == keys
    ensures RestKept(old(a[..]), a[..]) && High(a[..]) == old(High(a[..]))
  {
    hide Children, Keys, High, KeyBytes, U16;
    WriteSections(a, children, keys);
  }

  /** Each section survives the writes after it. */
  lemma SectionsWritten(s: bytes, s1: bytes, s2: bytes, s3: bytes, s4: bytes, n: nat, data: nat)
    requires Sized(s) && DataBase(n) + data <= PAGE_SIZE - HighLen(s)
    requires Changed(s, s1, 2, 4) && U16(s1, 2) == n && Changed(s1, s2, INT_HEADER, EndsBase(n))
    requires Changed(s2, s3, EndsBase(n), DataBase(n)) && Changed(s3, s4, DataBase(n), DataBase(n) + data)
    ensures RestKept(s, s4) && Sized(s4) && Count(s4) == n && HighLen(s4) == HighLen(s)
    ensures Same(s2, s4, INT_HEADER, EndsBase(n)) && Same(s3, s4, EndsBase(n), DataBase(n))
  {
    forall k | 0 <= k < PAGE_SIZE && (k < 2 || 4 <= k < INT_HEADER || PAGE_SIZE - HighLen(s) <= k) ensures s4[k] == s[k] {
      assert s4[k] == s3[k] == s2[k] == s1[k];
    }
    forall k | 2 <= k < 4 ensures s4[k] == s1[k] { assert s4[k] == s3[k] == s2[k]; }
    assert s4[2] == s1[2] && s4[3] == s1[3] && s4[4] == s[4] && s4[5] == s[5];
    forall k | INT_HEADER <= k < EndsBase(n) ensures s4[k] == s2[k] { assert s4[k] == s3[k]; }
  }

  lemma EndsDecode(s: bytes, s': bytes, keys: seq<bytes>, i: nat)
    requires Sized(s') && Count(s') == |keys| && i <= |keys| && Same(s, s', EndsBase(|keys|), DataBase(|keys|))
    requires forall k: nat {:trigger EndOk(s, keys, k)} :: k < |keys| ==> EndOk(s, keys, k)
    ensures KeyStart(s', i) == Upto(keys, i)
  {
    EmptyBytes(keys);
    hide U32, U16, Upto;
    if i > 0 {
      assert EndOk(s, keys, i - 1);
      U32Kept(s, s', EndsBase(|keys|) + 4 * (i - 1));
    }
  }

  lemma WfDecodes(s: bytes, s': bytes, keys: seq<bytes>)
    requires Sized(s') && Count(s') == |keys| && Same(s, s', EndsBase(|keys|), DataBase(|keys|))
    requires DataBase(|keys|) + KeyBytes(keys) <= PAGE_SIZE - HighLen(s')
    requires forall k: nat {:trigger EndOk(s, keys, k)} :: k < |keys| ==> EndOk(s, keys, k)
    ensures Wf(s')
  {
    UptoAll(keys);
    hide KeyBytes, Upto, U32, U16, KeyStart, EndOk;
    EndsDecode(s, s', keys, |keys|);
    forall i: nat | i < |keys| ensures Rises(s', i) {
      EndsDecode(s, s', keys, i);
      EndsDecode(s, s', keys, i + 1);
      UptoRises(keys, i, i + 1);
    }
  }

  lemma KeyDecodes(s: bytes, s': bytes, keys: seq<bytes>, i: nat)
    requires Wf(s') && Count(s') == |keys| && Same(s, s', EndsBase(|keys|), DataBase(|keys|)) && i < |keys|
    requires forall k: nat {:trigger EndOk(s, keys, k)} :: k < |keys| ==> EndOk(s, keys, k)
    requires KeyOk(s', keys, i)
    ensures KeyAt(s', i) == keys[i]
  {
    hide KeyBytes, Upto, U32, U16, KeyStart, EndOk;
    EndsDecode(s, s', keys, i);
    EndsDecode(s, s', keys, i + 1);
    UptoNext(keys, i);
  }

  lemma RewriteDecodes(s: bytes, s2: bytes, s3: bytes, s4: bytes, children: seq<nat>, keys: seq<bytes>)
    requires Sized(s) && |children| == |keys| + 1 && DataBase(|keys|) + KeyBytes(keys) <= PAGE_SIZE - HighLen(s)
    requires Sized(s4) && RestKept(s, s4) && Count(s4) == |keys| && HighLen(s4) == HighLen(s)
    requires Same(s2, s4, INT_HEADER, EndsBase(|keys|)) && Same(s3, s4, EndsBase(|keys|), DataBase(|keys|))
    requires forall i: nat {:trigger ChildOk(s2, children, i)} :: i < |children| ==> ChildOk(s2, children, i)
    requires forall i: nat {:trigger EndOk(s3, keys, i)} :: i < |keys| ==> EndOk(s3, keys, i)
    requires forall i: nat {:trigger KeyOk(s4, keys, i)} :: i < |keys| ==> KeyOk(s4, keys, i)
    ensures Wf(s4) && Children(s4) == children && Keys(s4) == keys && High(s4) == High(s)
  {
    WfDecodes(s3, s4, keys);
    SameSlice(s, s4, PAGE_SIZE - HighLen(s), PAGE_SIZE);
    hide KeyBytes, Upto, U32, U64, U16, KeyStart, Wf, EndOk, KeyOk, KeyAt;
    forall i: nat | i < |keys| ensures KeyAt(s4, i) == keys[i] { assert KeyOk(s4, keys, i); KeyDecodes(s3, s4, keys, i); }
    forall i: nat | i < |children| ensures ChildAt(s4, i) == children[i] {
      assert ChildOk(s2, children, i);
      U64Kept(s2, s4, INT_HEADER + 8 * i);
    }
  }

  // ── Header fields ──────────────────────────────────────────────────────────

  /** Header bytes that belong to no section, count or length: flags, page id and LSN. */
  ghost predicate Outside(lo: nat, hi: nat) { 1 <= lo && (hi <= 2 || (8 <= lo && hi <= 24)) }

  lemma StartKept(s: bytes, s': bytes, lo: nat, hi: nat, i: nat)
    requires Sized(s) && Changed(s, s', lo, hi) && Outside(lo, hi) && i <= Count(s)
    ensures Sized(s') && Count(s') == Count(s) && HighLen(s') == HighLen(s) && KeyStart(s', i) == KeyStart(s, i)
  {
    U16Kept(s, s', 2);
    U16Kept(s, s', 4);
    hide U16, U32;
    if i > 0 { U32Kept(s, s', EndsBase(Count(s)) + 4 * (i - 1)); }
  }

  lemma WfKept(s: bytes, s': bytes, lo: nat, hi: nat)
    requires Wf(s) && Changed(s, s', lo, hi) && Outside(lo, hi)
    ensures Wf(s') && Count(s') == Count(s) && High(s') == High(s)
  {
    hide U16, U32, KeyStart, Changed;
    StartKept(s, s', lo, hi, Count(s));
    forall i: nat | i < Count(s) ensures Rises(s', i) {
      assert Rises(s, i);
      StartKept(s, s', lo, hi, i);
      StartKept(s, s', lo, hi, i + 1);
    }
    ChangedSame(s, s', lo, hi, PAGE_SIZE - HighLen(s), PAGE_SIZE);
    SameSlice(s, s', PAGE_SIZE - HighLen(s), PAGE_SIZE);
  }

  lemma KeyKept(s: bytes, s': bytes, lo: nat, hi: nat, i: nat)
    requires Wf(s) && Changed(s, s', lo, hi) && Outside(lo, hi) && i < Count(s) && Wf(s') && Count(s') == Count(s)
    ensures KeyAt(s', i) == KeyAt(s, i)
  {
    var n := Count(s);
    StartsRise(s, i, i + 1);
    StartsRise(s, i + 1, n);
    StartKept(s, s', lo, hi, i);
    StartKept(s, s', lo, hi, i + 1);
    hide U16, U32, KeyStart;
    SameSlice(s, s', DataBase(n) + KeyStart(s, i), DataBase(n) + KeyStart(s, i + 1));
  }

  lemma HeaderSet(s: bytes, s': bytes, lo: nat, hi: nat)
    requires Wf(s) && Changed(s, s', lo, hi) && Outside(lo, hi)
    ensures Wf(s') && Keys(s') == Keys(s) && Children(s') == Children(s) && High(s') == High(s)
  {
    WfKept(s, s', lo, hi);
    hide U16, U32, U64, KeyStart, Wf, KeyAt, High;
    forall i: nat | i < Count(s) ensures KeyAt(s', i) == KeyAt(s, i) { KeyKept(s, s', lo, hi, i); }
    forall i: nat | i < Count(s) + 1 ensures ChildAt(s', i) == ChildAt(s, i) { U64Kept(s, s', INT_HEADER + 8 * i); }
  }

  // ── Mutators ───────────────────────────────────────────────────────────────

  /** `snapshot`: reads both sections. */
  method Snapshot(a: array<byte>) returns (children: seq<nat>, keys: seq<bytes>)
    requires Wf(a[..])
    ensures children == Children(a[..]) && keys == Keys(a[..])
    ensures forall i {:trigger children[i]} :: 0 <= i < |children| ==> Fits64(children[i])
  {
    children := ReadChildren(a);
    keys := ReadKeys(a);
  }

  method ReadChildren(a: array<byte>) returns (children: seq<nat>)
    requires Wf(a[..])
    ensures children == Children(a[..])
    ensures forall i {:trigger children[i]} :: 0 <= i < |children| ==> Fits64(children[i])
  {
    var s := a[..];
    ghost var all := Children(s);
    children := [];
    hide U64;
    for i := 0 to Count(s) + 1
      invariant children == all[..i]
      invariant forall k {:trigger children[k]} :: 0 <= k < |children| ==> Fits64(children[k])
    {
      U64Fits(s, INT_HEADER + 8 * i);
      children := children + [ChildAt(s, i)];
    }
  }

  method ReadKey(s: bytes, i: nat) returns (key: bytes)
    requires Wf(s) && i < Count(s)
    ensures key == KeyAt(s, i)
  {
    StartsRise(s, i, i + 1);
    StartsRise(s, i + 1, Count(s));
    key := s[DataBase(Count(s)) + KeyStart(s, i)..DataBase(Count(s)) + KeyStart(s, i + 1)];
  }

  method ReadKeys(a: array<byte>) returns (keys: seq<bytes>)
    requires Wf(a[..])
    ensures keys == Keys(a[..])
  {
    var s := a[..];
    ghost var all := Keys(s);
    keys := [];
    var n := Count(s);
    assert |all| == n && forall i: nat {:trigger all[i]} :: i < n ==> all[i] == KeyAt(s, i);
    hide Keys, KeyAt, Wf, KeyStart;
    for i := 0 to n
      invariant keys == all[..i]
    {
      var key := ReadKey(s, i);
      assert all[i] == key;
      keys := keys + [key];
    }
  }

  /** Bytes free between the key data and the high key. */
  function FreeBytes(s: bytes): int
    requires Sized(s)
  {
    PAGE_SIZE - DataBase(Count(s)) - KeyStart(s, Count(s)) - HighLen(s)
  }

  /** `insert_key_and_right_child`: refused exactly when the page is too full. */
  method InsertKeyAndRightChild(a: array<byte>, index: nat, key: bytes, child: nat) returns (ok: bool)
    requires Wf(a[..]) && index <= Count(a[..]) && Fits64(child)
    modifies a
    ensures ok <==> FreeBytes(old(a[..])) >= 12 + |key|
    ensures !ok ==> a[..] == old(a[..])
    ensures ok ==> Wf(a[..]) && Keys(a[..]) == InsertAt(old(Keys(a[..])), index, key)
                   && Children(a[..]) == InsertAt(old(Children(a[..])), index + 1, child)
    ensures RestKept(old(a[..]), a[..]) && High(a[..]) == old(High(a[..]))
  {
    ghost var s := a[..];
    if FreeBytes(a[..]) < 12 + |key| { return false; }
    var children, keys := Snapshot(a);
    LastEnd(s);
    InsertedBytes(keys, index, key);
    hide KeyBytes, U16, U32, U64, KeyStart, KeyAt, High;
    Rewrite(a, InsertAt(children, index + 1, child), InsertAt(keys, index, key));
    return true;
  }

  lemma InsertedBytes(keys: seq<bytes>, index: nat, key: bytes)
    requires index <= |keys|
    ensures KeyBytes(InsertAt(keys, index, key)) == KeyBytes(keys) + |key|
  {
    var one: seq<bytes> := [key];
    assert keys == keys[..index] + keys[index..] && |one[1..]| == 0;
    KeyBytesConcat(keys[..index], keys[index..]);
    KeyBytesConcat(keys[..index] + one, keys[index..]);
    KeyBytesConcat(keys[..index], one);
  }

  lemma RemovedBytes(keys: seq<bytes>, index: nat)
    requires index < |keys|
    ensures KeyBytes(keys) == KeyBytes(RemoveAt(keys, index)) + |keys[index]|
  {
    InsertedBytes(RemoveAt(keys, index), index, keys[index]);
    assert InsertAt(RemoveAt(keys, index), index, keys[index]) == keys;
  }

  /** `remove_key_at`: the key and the child on the side not kept. */
  method RemoveKeyAt(a: array<byte>, index: nat, keepRight: bool)
    requires Wf(a[..]) && index < Count(a[..])
    modifies a
    ensures Wf(a[..]) && Keys(a[..]) == RemoveAt(old(Keys(a[..])), index)
    ensures Children(a[..]) == RemoveAt(old(Children(a[..])), if keepRight then index else index + 1)
    ensures RestKept(old(a[..]), a[..]) && High(a[..]) == old(High(a[..]))
  {
    ghost var s := a[..];
    var children, keys := Snapshot(a);
    LastEnd(s);
    RemovedBytes(keys, index);
    var ids, rest := RemoveAt(children, if keepRight then index else index + 1), RemoveAt(keys, index);
    assert Needed(|ids|, rest) <= PAGE_SIZE - HighLen(s) && |ids| == |rest| + 1;
    hide KeyBytes, U16, U32, U64, KeyStart, KeyAt, High, Keys, Children, Wf, RestKept, Needed;
    Rewrite(a, ids, rest);
  }
}
