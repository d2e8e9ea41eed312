/**
The logged page changes (crates/storage/src/index/mod.rs and smo.rs): each one run in place
on a page buffer, with the payload it logs.  Every contract says what the change is, and
that redo of the logged block makes the same change.
*/
module WritePath {
  import opened Options
  import opened ByteTypes
  import opened PageBytes
  import opened Redo
  import C = OpCodec
  import I = InternalPage
  import L = LeafPage
  import P = RedoPages
  import W = WalCodec

  /** Redo of the block takes the page as it was to the page as it is, and then leaves it alone. */
  ghost predicate Logged(ty: W.RecordType, index: nat, data: Option<bytes>, q: Page, q': Page) {
    var r := C.Read(ty, index, data);
    && r.Does?
    && (q.lsn < q'.lsn ==> RedoBlock(q, q'.lsn, r.op) == Some(q'))
    && RedoBlock(q', q'.lsn, r.op) == Some(q')
  }

  lemma LogsChange(ty: W.RecordType, index: nat, op: Op, q: Page, q': Page)
    requires C.Carries(ty, index, op) && C.Fits(op) && Apply(op, q.content) == Some(q'.content)
    ensures Logged(ty, index, C.Payload(op), q, q')
  {
    C.RoundTrip(ty, index, op);
    hide Apply, C.Payload, C.Read, C.Fits;
  }

  // ── Leaf pages ─────────────────────────────────────────────────────────────

  ghost predicate Relinked(c: Content, c': Content, right: PageId, prev: PageId) {
    c.Leaf? && c' == Leaf(c.rows, c.high, right, prev, c.incomplete, c.halfDead)
  }

  ghost predicate Flagged(c: Content, c': Content, incomplete: bool, halfDead: bool) {
    c.Leaf? && c' == Leaf(c.rows, c.high, c.right, c.prev, incomplete, halfDead)
  }

  /** `insert` and `update`: the new version, with its writer as creator and no deleter. */
  method InsertVersion(a: array<byte>, lsn: nat, slot: nat, key: bytes, val: bytes, recType: byte, txn: nat)
    returns (ok: bool, data: Option<bytes>)
    requires P.IsLeaf(a[..]) && slot <= |P.LeafContent(a[..]).rows| && Fits64(txn) && Fits64(lsn)
    modifies a
    ensures ok <==> P.RowRoom(P.LeafContent(old(a[..])), key, val, P.Waste(old(a[..])))
    ensures !ok ==> a[..] == old(a[..])
    ensures ok ==> P.IsLeaf(a[..]) && Logged(W.Insert, 0, data, P.LeafPageOf(old(a[..])), P.LeafPageOf(a[..]))
    ensures ok ==> var c := P.LeafContent(old(a[..]));
                   P.LeafPageOf(a[..]) == Page(lsn, c.(rows := InsertAt(c.rows, slot, Row(key, val, recType, txn, 0))))
  {
    ghost var s := a[..];
    RoomMeans(s, slot, key, val);
    hide P.IsLeaf, P.LeafContent, P.RowRoom, RowFits, P.Waste, C.Payload, Logged, U64;
    ghost var q := P.LeafPageOf(s);
    ok := P.InsertAndStamp(a, slot, Row(key, val, recType, txn, 0));
    data := C.Payload(InsertRow(slot, key, val, recType, txn));
    if ok {
      P.StampLeaf(a, lsn);
      LogsChange(W.Insert, 0, InsertRow(slot, key, val, recType, txn), q, P.LeafPageOf(a[..]));
    }
  }

  /** A record that has room fits its length fields, and a page without the dead space. */
  lemma RoomMeans(s: bytes, slot: nat, key: bytes, val: bytes)
    requires P.IsLeaf(s) && slot <= |P.LeafContent(s).rows|
    ensures Fits16(slot) && (P.RowRoom(P.LeafContent(s), key, val, P.Waste(s)) ==>
                               RowFits(P.LeafContent(s), key, val) && Fits16(|key|) && Fits16(|val|))
  {
    P.GapIsFit(s, key, val);
    hide L.DirOk, L.Dir, L.Rows, U64, RowBytes, P.Waste;
  }

  /** `delete` and `update`: the version's deleter, and nothing else. */
  method MarkDeleted(a: array<byte>, lsn: nat, slot: nat, txn: nat) returns (data: Option<bytes>)
    requires P.IsLeaf(a[..]) && slot < |P.LeafContent(a[..]).rows| && Fits64(txn) && Fits64(lsn)
    modifies a
    ensures P.IsLeaf(a[..]) && Logged(W.SetXMax, 0, data, P.LeafPageOf(old(a[..])), P.LeafPageOf(a[..]))
    ensures var c := P.LeafContent(old(a[..])); var r := c.rows[slot];
            P.LeafPageOf(a[..]) == Page(lsn, c.(rows := c.rows[slot := Row(r.key, r.val, r.recType, r.xmin, txn)]))
  {
    ghost var s := a[..];
    assert Fits16(slot);
    hide P.IsLeaf, P.LeafContent, P.Waste, C.Payload, Logged, U64;
    ghost var q := P.LeafPageOf(s);
    data := C.Payload(SetXmax(slot, txn));
    P.Restamp(a, slot, L.Xmax, txn);
    P.StampLeaf(a, lsn);
    LogsChange(W.SetXMax, 0, SetXmax(slot, txn), q, P.LeafPageOf(a[..]));
  }

  /** The split leaf's flag, once its downlink is in the parent or the new root. */
  method ClearLeafSplit(a: array<byte>, lsn: nat)
    requires P.IsLeaf(a[..]) && Fits64(lsn)
    modifies a
    ensures P.IsLeaf(a[..]) && P.LeafPageOf(a[..]).lsn == lsn
    ensures Flagged(P.LeafContent(old(a[..])), P.LeafContent(a[..]), false, P.LeafContent(old(a[..])).halfDead)
    ensures Logged(W.InsertDownLink, 1, None, P.LeafPageOf(old(a[..])), P.LeafPageOf(a[..]))
    ensures Logged(W.NewRoot, 2, None, P.LeafPageOf(old(a[..])), P.LeafPageOf(a[..]))
  {
    hide P.IsLeaf, P.LeafContent, P.Waste, Logged, U64;
    ghost var q := P.LeafPageOf(a[..]);
    P.SetFlags(a, true);
    P.StampLeaf(a, lsn);
    ClearLogged(q, P.LeafPageOf(a[..]));
  }

  lemma ClearLogged(q: Page, q': Page)
    requires q.content.Leaf? && Flagged(q.content, q'.content, false, q.content.halfDead)
    ensures Logged(W.InsertDownLink, 1, None, q, q') && Logged(W.NewRoot, 2, None, q, q')
  {
    LogsChange(W.InsertDownLink, 1, ClearIncomplete, q, q');
    LogsChange(W.NewRoot, 2, ClearIncomplete, q, q');
  }

  /** `delete_empty_leaf`, first record: the leaf is on its way out. */
  method MarkHalfDead(a: array<byte>, lsn: nat)
    requires P.IsLeaf(a[..]) && Fits64(lsn)
    modifies a
    ensures P.IsLeaf(a[..]) && P.LeafPageOf(a[..]).lsn == lsn
    ensures Flagged(P.LeafContent(old(a[..])), P.LeafContent(a[..]), P.LeafContent(old(a[..])).incomplete, true)
    ensures Logged(W.MarkHalfDead, 0, None, P.LeafPageOf(old(a[..])), P.LeafPageOf(a[..]))
  {
    hide P.IsLeaf, P.LeafContent, P.Waste, Logged, U64;
    ghost var q := P.LeafPageOf(a[..]);
    P.SetFlags(a, false);
    P.StampLeaf(a, lsn);
    HalfDeadLogged(q, P.LeafPageOf(a[..]));
  }

  lemma HalfDeadLogged(q: Page, q': Page)
    requires q.content.Leaf? && Flagged(q.content, q'.content, q.content.incomplete, true)
    ensures Logged(W.MarkHalfDead, 0, None, q, q')
  {
    LogsChange(W.MarkHalfDead, 0, SetHalfDead, q, q');
  }

  /** `delete_empty_leaf`, second record: a sibling's link skips the leaf; 0 where there is no sibling. */
  method Relink(a: array<byte>, lsn: nat, forward: bool, sibling: PageId) returns (data: Option<bytes>)
    requires P.IsLeaf(a[..]) && Fits64(sibling) && Fits64(lsn)
    modifies a
    ensures P.IsLeaf(a[..]) && P.LeafPageOf(a[..]).lsn == lsn
    ensures var c := P.LeafContent(old(a[..]));
            Relinked(c, P.LeafContent(a[..]), if forward then sibling else c.right, if forward then c.prev else sibling)
    ensures forall index :: Logged(W.UnlinkPage, index, data, P.LeafPageOf(old(a[..])), P.LeafPageOf(a[..]))
  {
    hide P.IsLeaf, P.LeafContent, P.Waste, Logged, U64, C.Payload, C.Fits;
    ghost var q := P.LeafPageOf(a[..]);
    data := C.Payload(if forward then SetRight(sibling) else SetPrev(sibling));
    P.SetLink(a, if forward then 32 else 24, sibling);
    P.StampLeaf(a, lsn);
    forall index: nat ensures Logged(W.UnlinkPage, index, data, q, P.LeafPageOf(a[..])) {
      LinkLogged(index, q, P.LeafPageOf(a[..]), forward, sibling);
    }
  }

  lemma LinkLogged(index: nat, q: Page, q': Page, forward: bool, sibling: PageId)
    requires q.content.Leaf? && Fits64(sibling)
    requires Relinked(q.content, q'.content, if forward then sibling else q.content.right, if forward then q.content.prev else sibling)
    ensures Logged(W.UnlinkPage, index, C.Payload(if forward then SetRight(sibling) else SetPrev(sibling)), q, q')
  {
    LogsChange(W.UnlinkPage, index, if forward then SetRight(sibling) else SetPrev(sibling), q, q');
  }

  /** A page built whole and logged as an image: redo gives it back from any earlier page. */
  method StampLeafImage(a: array<byte>, lsn: nat) returns (image: bytes)
    requires P.IsLeaf(a[..]) && Fits64(lsn)
    modifies a
    ensures image == old(a[..]) && P.IsLeaf(a[..]) && P.LeafContent(a[..]) == P.LeafContent(old(a[..]))
    ensures forall was: nat | was < lsn :: P.ImageRedone(was, lsn, P.LeafContent(image), P.LeafPageOf(a[..]))
  {
    hide P.IsLeaf, P.LeafContent, P.Waste, U64;
    image := a[..];
    P.StampLeaf(a, lsn);
  }

  // ── Internal pages ─────────────────────────────────────────────────────────

  /** `finish_split` where the parent has room. */
  method AddDownlink(a: array<byte>, lsn: nat, at: nat, sep: bytes, child: PageId) returns (ok: bool, data: Option<bytes>)
    requires P.IsInternal(a[..]) && at <= |P.InternalContent(a[..]).keys| && Fits64(child) && Fits64(lsn)
    modifies a
    ensures ok <==> KeyFits(P.InternalContent(old(a[..])), sep)
    ensures !ok ==> a[..] == old(a[..])
    ensures ok ==> P.IsInternal(a[..]) && Logged(W.InsertDownLink, 0, data, P.InternalPageOf(old(a[..])), P.InternalPageOf(a[..]))
    ensures ok ==> var c := P.InternalContent(old(a[..]));
                   P.InternalPageOf(a[..]) == Page(lsn, c.(keys := InsertAt(c.keys, at, sep), children := InsertAt(c.children, at + 1, child)))
  {
    ghost var s := a[..];
    P.RoomIsFit(s, sep);
    assert Fits16(at);
    hide KeyFits, I.Keys, I.Children, I.High, U64, U32, I.KeyStart, I.Rises, Apply, C.Payload, Logged;
    ok := I.InsertKeyAndRightChild(a, at, sep, child);
    data := C.Payload(InsertDownlink(at, sep, child));
    if ok {
      P.SectionsChanged(s, a[..], P.InternalContent(s));
      DownlinkLogged(s, a, lsn, at, sep, child);
    }
  }

  method DownlinkLogged(ghost s: bytes, a: array<byte>, lsn: nat, ghost at: nat, ghost sep: bytes, ghost child: PageId)
    requires P.IsInternal(a[..]) && P.IsInternal(s) && Fits64(lsn) && Fits16(at) && Fits16(|sep|) && Fits64(child)
    requires Apply(InsertDownlink(at, sep, child), P.InternalContent(s)) == Some(P.InternalContent(a[..]))
    modifies a
    ensures P.IsInternal(a[..]) && P.InternalPageOf(a[..]) == Page(lsn, P.InternalContent(old(a[..])))
    ensures Logged(W.InsertDownLink, 0, C.Payload(InsertDownlink(at, sep, child)), P.InternalPageOf(s), P.InternalPageOf(a[..]))
  {
    hide P.IsInternal, P.InternalContent, Apply, Logged, U64, C.Payload;
    P.StampInternal(a, lsn);
    LogsChange(W.InsertDownLink, 0, InsertDownlink(at, sep, child), P.InternalPageOf(s), P.InternalPageOf(a[..]));
  }

  /**
  `delete_empty_leaf`: the downlink at child `j` goes, with the key on its left or, for the
  first child, the key on its right.
  */
  method RemoveDownlink(a: array<byte>, lsn: nat, j: nat) returns (data: Option<bytes>)
    requires P.IsInternal(a[..]) && Fits64(lsn)
    requires var c := P.InternalContent(a[..]); j < |c.children| && |c.keys| > 0
    modifies a
    ensures P.IsInternal(a[..]) && P.InternalPageOf(a[..]).lsn == lsn
    ensures WithoutChild(P.InternalContent(old(a[..])), P.InternalContent(a[..]), j)
    ensures forall index :: Logged(W.UnlinkPage, index, data, P.InternalPageOf(old(a[..])), P.InternalPageOf(a[..]))
  {
    ghost var s := a[..];
    assert Fits16(j);
    var op := Removal(j);
    hide I.Keys, I.Children, I.High, U64, U32, I.KeyStart, I.Rises, Apply, C.Payload, Logged;
    data := C.Payload(op);
    I.RemoveKeyAt(a, op.index, op.keepRight);
    P.SectionsChanged(s, a[..], P.InternalContent(s));
    RemovalLogged(s, a, lsn, j);
  }

  /** How the log names the removal of child `j`. */
  function Removal(j: nat): Op { RemoveKey(if j == 0 then 0 else j - 1, j == 0) }

  ghost predicate WithoutChild(c: Content, c': Content, j: nat) {
    && c.Internal? && j < |c.children| == |c.keys| + 1 && |c.keys| > 0
    && c' == Internal(RemoveAt(c.children, j), RemoveAt(c.keys, if j == 0 then 0 else j - 1), c.high, c.right, c.incomplete)
  }

  method RemovalLogged(ghost s: bytes, a: array<byte>, lsn: nat, ghost j: nat)
    requires P.IsInternal(a[..]) && P.IsInternal(s) && Fits64(lsn) && Fits16(j)
    requires WithoutChild(P.InternalContent(s), P.InternalContent(a[..]), j)
    modifies a
    ensures P.IsInternal(a[..]) && P.InternalPageOf(a[..]) == Page(lsn, P.InternalContent(old(a[..])))
    ensures forall index :: Logged(W.UnlinkPage, index, C.Payload(Removal(j)),
                                   P.InternalPageOf(s), P.InternalPageOf(a[..]))
  {
    hide P.IsInternal, P.InternalContent, Logged, U64, C.Payload, C.Fits;
    P.StampInternal(a, lsn);
    forall index: nat
      ensures Logged(W.UnlinkPage, index, C.Payload(Removal(j)), P.InternalPageOf(s), P.InternalPageOf(a[..]))
    {
      RemovalRedone(index, P.InternalPageOf(s), P.InternalPageOf(a[..]), j);
    }
  }

  lemma RemovalRedone(index: nat, q: Page, q': Page, j: nat)
    requires Fits16(j) && WithoutChild(q.content, q'.content, j)
    ensures Logged(W.UnlinkPage, index, C.Payload(Removal(j)), q, q')
  {
    LogsChange(W.UnlinkPage, index, Removal(j), q, q');
  }

  /** The split internal page's flag. */
  method ClearInternalSplit(a: array<byte>, lsn: nat)
    requires P.IsInternal(a[..]) && Fits64(lsn)
    modifies a
    ensures P.IsInternal(a[..]) && P.InternalPageOf(a[..]).lsn == lsn
    ensures Unflagged(P.InternalContent(old(a[..])), P.InternalContent(a[..]))
    ensures Logged(W.InsertDownLink, 1, None, P.InternalPageOf(old(a[..])), P.InternalPageOf(a[..]))
    ensures Logged(W.NewRoot, 2, None, P.InternalPageOf(old(a[..])), P.InternalPageOf(a[..]))
  {
    ghost var s := a[..];
    ghost var q := P.InternalPageOf(s);
    hide I.Wf, I.Keys, I.Children, I.High, U64, Apply, Logged;
    a[1] := P.WithoutIncomplete(a[1]);
    P.InternalHeaderSet(s, a[..], 1, 2);
    U64Kept(s, a[..], 24);
    assert Unflagged(P.InternalContent(s), P.InternalContent(a[..]));
    P.StampInternal(a, lsn);
    UnflagLogged(q, P.InternalPageOf(a[..]));
  }

  ghost predicate Unflagged(c: Content, c': Content) {
    c.Internal? && c' == Internal(c.children, c.keys, c.high, c.right, false)
  }

  lemma UnflagLogged(q: Page, q': Page)
    requires Unflagged(q.content, q'.content)
    ensures Logged(W.InsertDownLink, 1, None, q, q') && Logged(W.NewRoot, 2, None, q, q')
  {
    LogsChange(W.InsertDownLink, 1, ClearIncomplete, q, q');
    LogsChange(W.NewRoot, 2, ClearIncomplete, q, q');
  }

  method StampInternalImage(a: array<byte>, lsn: nat) returns (image: bytes)
    requires P.IsInternal(a[..]) && Fits64(lsn)
    modifies a
    ensures image == old(a[..]) && P.IsInternal(a[..]) && P.InternalContent(a[..]) == P.InternalContent(old(a[..]))
    ensures forall was: nat | was < lsn :: P.ImageRedone(was, lsn, P.InternalContent(image), P.InternalPageOf(a[..]))
  {
    hide P.IsInternal, P.InternalContent, U64;
    image := a[..];
    P.StampInternal(a, lsn);
  }

  // ── Page 0 ─────────────────────────────────────────────────────────────────

  /** `finish_split` at the root: page 0 names the new root and keeps its free-space page. */
  method PublishRoot(a: array<byte>, lsn: nat, root: PageId) returns (data: Option<bytes>)
    requires P.IsMeta(a[..]) && Fits64(lsn) && Fits64(root)
    modifies a
    ensures P.IsMeta(a[..]) && P.MetaPageOf(a[..]) == Page(lsn, Meta(root, P.MetaPageOf(old(a[..])).content.freeSpace))
    ensures Logged(W.NewRoot, 1, data, P.MetaPageOf(old(a[..])), P.MetaPageOf(a[..]))
  {
    hide U64, C.Payload, Logged;
    ghost var q := P.MetaPageOf(a[..]);
    data := C.Payload(SetRoot(root));
    P.SetRootAndStamp(a, lsn, root);
    LogsChange(W.NewRoot, 1, SetRoot(root), q, P.MetaPageOf(a[..]));
  }
}
