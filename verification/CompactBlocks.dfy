/** Compact block announcements and their reconstruction
    (include/hive_native/perf/compact_block.hpp).  The short identifier of a
    transaction is a parameter. */
module CompactBlocks {
  import opened Types

  type ShortId = Bytes
  type Mempool = map<ShortId, string>

  datatype Prefilled = Prefilled(index: nat, tx: string)

  datatype CompactBlock = CompactBlock(headerHash: Bytes, shortIds: seq<ShortId>, prefilled: seq<Prefilled>) {
    function TxCount(): nat { |shortIds| + |prefilled| }
  }

  datatype Reconstruction = Reconstruction(txs: seq<string>, missing: seq<ShortId>) {
    predicate Ok() { missing == [] }
  }

  // ----- announcements

  /** The prefilled indexes in range. */
  function Marked(txs: seq<string>, prefill: seq<nat>): set<nat> {
    set i | i in prefill && i < |txs|
  }

  function PrefilledOf(txs: seq<string>, marks: set<nat>, n: nat): seq<Prefilled>
    requires n <= |txs|
  {
    if n == 0 then []
    else PrefilledOf(txs, marks, n - 1) + if n - 1 in marks then [Prefilled(n - 1, txs[n - 1])] else []
  }

  function ShortIdsOf(txs: seq<string>, marks: set<nat>, shortId: string -> ShortId, n: nat): seq<ShortId>
    requires n <= |txs|
  {
    if n == 0 then []
    else ShortIdsOf(txs, marks, shortId, n - 1) + if n - 1 in marks then [] else [shortId(txs[n - 1])]
  }

  function Announce(header: Bytes, txs: seq<string>, marks: set<nat>, shortId: string -> ShortId): CompactBlock {
    CompactBlock(header, ShortIdsOf(txs, marks, shortId, |txs|), PrefilledOf(txs, marks, |txs|))
  }

  method MakeCompactBlock(header: Bytes, txs: seq<string>, prefill: seq<nat>, shortId: string -> ShortId)
    returns (cb: CompactBlock)
    requires |txs| <= 0x1_0000_0000
    ensures cb == Announce(header, txs, Marked(txs, prefill), shortId)
    ensures Announces(cb, header, txs, prefill, shortId)
  {
    AnnouncementSays(header, txs, prefill, shortId);
    var isPrefilled := new bool[|txs|](_ => false);
    for k := 0 to |prefill|
      invariant forall i :: 0 <= i < |txs| ==> (isPrefilled[i] <==> i in prefill[..k])
    {
      if prefill[k] < |txs| { isPrefilled[prefill[k]] := true; }
      assert prefill[..k + 1] == prefill[..k] + [prefill[k]];
    }
    assert prefill[..|prefill|] == prefill;
    ghost var marks := Marked(txs, prefill);
    var shortIds, prefilled := [], [];
    for i := 0 to |txs|
      invariant shortIds == ShortIdsOf(txs, marks, shortId, i)
      invariant prefilled == PrefilledOf(txs, marks, i)
    {
      if isPrefilled[i] {
        prefilled := prefilled + [Prefilled(i, txs[i])];
      } else {
        shortIds := shortIds + [shortId(txs[i])];
      }
    }
    cb := CompactBlock(header, shortIds, prefilled);
  }

  /** The announcement has the header, the transactions at the listed indexes in full, and the
      short identifiers of the others, in block order. */
  ghost predicate Announces(cb: CompactBlock, header: Bytes, txs: seq<string>, prefill: seq<nat>,
                            shortId: string -> ShortId)
  {
    && cb.headerHash == header
    && (forall i: nat, tx :: Prefilled(i, tx) in cb.prefilled <==> i < |txs| && tx == txs[i] && i in prefill)
    && cb.shortIds == Others(txs, prefill, shortId, 0)
  }

  /** The short identifiers of the transactions from position i on that are not listed. */
  ghost function Others(txs: seq<string>, prefill: seq<nat>, shortId: string -> ShortId, i: nat): seq<ShortId>
    requires i <= |txs|
    decreases |txs| - i
  {
    if i == |txs| then []
    else (if i in prefill then [] else [shortId(txs[i])]) + Others(txs, prefill, shortId, i + 1)
  }

  lemma {:induction false} PrefilledMembers(txs: seq<string>, marks: set<nat>, n: nat, i: nat, tx: string)
    requires n <= |txs|
    ensures Prefilled(i, tx) in PrefilledOf(txs, marks, n) <==> i < n && i in marks && tx == txs[i]
  {
    if n == 0 {
    } else {
      PrefilledMembers(txs, marks, n - 1, i, tx);
    }
  }

  lemma {:induction false} OthersFollow(txs: seq<string>, prefill: seq<nat>, shortId: string -> ShortId, i: nat)
    requires i <= |txs|
    ensures var marks := Marked(txs, prefill);
            ShortIdsOf(txs, marks, shortId, i) + Others(txs, prefill, shortId, i) ==
            ShortIdsOf(txs, marks, shortId, |txs|)
    decreases |txs| - i
  {
    if i < |txs| { OthersFollow(txs, prefill, shortId, i + 1); }
  }

  lemma AnnouncementSays(header: Bytes, txs: seq<string>, prefill: seq<nat>, shortId: string -> ShortId)
    ensures Announces(Announce(header, txs, Marked(txs, prefill), shortId), header, txs, prefill, shortId)
  {
    var marks := Marked(txs, prefill);
    forall i: nat, tx
      ensures Prefilled(i, tx) in PrefilledOf(txs, marks, |txs|) <==> i < |txs| && tx == txs[i] && i in prefill
    {
      PrefilledMembers(txs, marks, |txs|, i, tx);
    }
    OthersFollow(txs, prefill, shortId, 0);
  }

  // ----- what an announcement says about each position

  datatype Source = Inline(tx: string) | ById(id: ShortId)

  /** Prefilled indexes ascend and lie inside the block. */
  ghost predicate WellFormed(cb: CompactBlock) {
    && (forall p :: 0 <= p < |cb.prefilled| ==> cb.prefilled[p].index < cb.TxCount())
    && (forall p :: 0 < p < |cb.prefilled| ==> cb.prefilled[p - 1].index < cb.prefilled[p].index)
  }

  /** Prefilled entries from p on have index at least i. */
  ghost predicate Pending(cb: CompactBlock, i: nat, p: nat) {
    p <= |cb.prefilled| && p <= i && (p < |cb.prefilled| ==> i <= cb.prefilled[p].index)
  }

  /** There are as many positions left as entries. */
  lemma {:induction false} EntriesFit(cb: CompactBlock, i: nat, p: nat)
    requires WellFormed(cb) && Pending(cb, i, p) && i <= cb.TxCount()
    ensures |cb.prefilled| - p <= cb.TxCount() - i
    decreases |cb.prefilled| - p
  {
    if p < |cb.prefilled| {
      var j := cb.prefilled[p].index + 1;
      assert Pending(cb, j, p + 1) || p + 1 > j;
      if p + 1 <= j { EntriesFit(cb, j, p + 1); }
    }
  }

  /** Sources of positions i and after, when p prefilled entries lie before i. */
  function Layout(cb: CompactBlock, i: nat, p: nat): seq<Source>
    decreases cb.TxCount() - i
  {
    if i >= cb.TxCount() then []
    else if p < |cb.prefilled| && cb.prefilled[p].index == i
    then [Inline(cb.prefilled[p].tx)] + Layout(cb, i + 1, p + 1)
    else if p <= i && i - p < |cb.shortIds| then [ById(cb.shortIds[i - p])] + Layout(cb, i + 1, p)
    else []
  }

  function Missing(sources: seq<Source>, mempool: Mempool): seq<ShortId> {
    if sources == [] then []
    else
      (if sources[0].ById? && sources[0].id !in mempool then [sources[0].id] else []) + Missing(sources[1..], mempool)
  }

  function Resolve(source: Source, mempool: Mempool): string {
    match source
    case Inline(tx) => tx
    case ById(id) => if id in mempool then mempool[id] else ""
  }

  function Body(sources: seq<Source>, mempool: Mempool): seq<string> {
    if sources == [] then [] else [Resolve(sources[0], mempool)] + Body(sources[1..], mempool)
  }

  /** Reconstruction: position by position from the announced sources. */
  ghost function Rebuild(cb: CompactBlock, mempool: Mempool): Reconstruction {
    if !WellFormed(cb) then Reconstruction([], cb.shortIds)
    else
      var sources := Layout(cb, 0, 0);
      var missing := Missing(sources, mempool);
      Reconstruction(if missing == [] then Body(sources, mempool) else [], missing)
  }

  method CheckIndexes(cb: CompactBlock) returns (ok: bool)
    ensures ok <==> WellFormed(cb)
  {
    for p := 0 to |cb.prefilled|
      invariant forall q :: 0 <= q < p ==> cb.prefilled[q].index < cb.TxCount()
      invariant forall q :: 0 < q < p ==> cb.prefilled[q - 1].index < cb.prefilled[q].index
    {
      if cb.prefilled[p].index >= cb.TxCount() { return false; }
      if p > 0 && cb.prefilled[p].index <= cb.prefilled[p - 1].index { return false; }
    }
    return true;
  }

  /** One pass over the positions.  `late` says whether one of the two later checks, for
      lacking and for surplus entries, failed; after the index check neither does. */
  method FillSlots(cb: CompactBlock, mempool: Mempool) returns (r: Reconstruction, late: bool)
    ensures late ==> r == Reconstruction([], cb.shortIds)
    ensures WellFormed(cb) ==> !late && r == Rebuild(cb, mempool)
  {
    var n := cb.TxCount();
    var txs, missing: seq<ShortId> := [], [];
    var shortI, prefI := 0, 0;
    for i := 0 to n
      invariant shortI <= |cb.shortIds| && prefI <= |cb.prefilled|
      invariant WellFormed(cb) ==> shortI == i - prefI && Progress(cb, mempool, i, prefI, txs, missing)
    {
      if WellFormed(cb) { ProgressStep(cb, mempool, i, prefI, txs, missing); }
      if prefI < |cb.prefilled| && cb.prefilled[prefI].index == i {
        txs := txs + [cb.prefilled[prefI].tx];
        prefI := prefI + 1;
        continue;
      }
      if shortI >= |cb.shortIds| {
        return Reconstruction([], cb.shortIds), true;
      }
      var sid := cb.shortIds[shortI];
      shortI := shortI + 1;
      if sid !in mempool {
        missing := missing + [sid];
        txs := txs + [""];
      } else {
        txs := txs + [mempool[sid]];
      }
    }
    if WellFormed(cb) { EntriesFit(cb, n, prefI); }
    if prefI != |cb.prefilled| || shortI != |cb.shortIds| {
      return Reconstruction([], cb.shortIds), true;
    }
    return Reconstruction(if missing != [] then [] else txs, missing), false;
  }

  /** What is built so far, followed by what the remaining layout gives, is the result. */
  ghost predicate Progress(cb: CompactBlock, mempool: Mempool, i: nat, p: nat, txs: seq<string>,
                           missing: seq<ShortId>) {
    && Pending(cb, i, p)
    && missing + Missing(Layout(cb, i, p), mempool) == Missing(Layout(cb, 0, 0), mempool)
    && txs + Body(Layout(cb, i, p), mempool) == Body(Layout(cb, 0, 0), mempool)
  }

  lemma ProgressStep(cb: CompactBlock, mempool: Mempool, i: nat, p: nat, txs: seq<string>, missing: seq<ShortId>)
    requires WellFormed(cb) && i < cb.TxCount() && Progress(cb, mempool, i, p, txs, missing)
    ensures if p < |cb.prefilled| && cb.prefilled[p].index == i
            then Progress(cb, mempool, i + 1, p + 1, txs + [cb.prefilled[p].tx], missing)
            else && i - p < |cb.shortIds|
                 && var id := cb.shortIds[i - p];
                 if id in mempool then Progress(cb, mempool, i + 1, p, txs + [mempool[id]], missing)
                 else Progress(cb, mempool, i + 1, p, txs + [""], missing + [id])
  {
    LayoutStep(cb, i, p, mempool);
    if p < |cb.prefilled| && cb.prefilled[p].index == i {
      Regroup(txs, [cb.prefilled[p].tx], Body(Layout(cb, i + 1, p + 1), mempool));
    } else {
      var id := cb.shortIds[i - p];
      var rest := Layout(cb, i + 1, p);
      Regroup(txs, [if id in mempool then mempool[id] else ""], Body(rest, mempool));
      Regroup(missing, if id in mempool then [] else [id], Missing(rest, mempool));
      assert missing + [] == missing;
    }
  }

  lemma Regroup<T>(a: seq<T>, b: seq<T>, c: seq<T>)
    ensures (a + b) + c == a + (b + c)
  {
  }

  /** Rebuilds the body, or lists the short identifiers to ask for. */
  method Reconstruct(cb: CompactBlock, mempool: Mempool) returns (r: Reconstruction)
    ensures r == Rebuild(cb, mempool)
    ensures WellFormed(cb) ==> r.missing == Unknown(cb.shortIds, mempool)
    ensures r.Ok() && |r.txs| == cb.TxCount() <==> WellFormed(cb) && forall id :: id in cb.shortIds ==> id in mempool
  {
    RebuildMeans(cb, mempool);
    if cb.TxCount() == 0 {
      return Reconstruction([], []);
    }
    var ok := CheckIndexes(cb);
    if !ok {
      return Reconstruction([], cb.shortIds);
    }
    var late;
    r, late := FillSlots(cb, mempool);
  }

  lemma LayoutStep(cb: CompactBlock, i: nat, p: nat, mempool: Mempool)
    requires WellFormed(cb) && Pending(cb, i, p) && i < cb.TxCount()
    ensures if p < |cb.prefilled| && cb.prefilled[p].index == i
            then && Missing(Layout(cb, i, p), mempool) == Missing(Layout(cb, i + 1, p + 1), mempool)
                 && Body(Layout(cb, i, p), mempool) == [cb.prefilled[p].tx] + Body(Layout(cb, i + 1, p + 1), mempool)
                 && Pending(cb, i + 1, p + 1)
            else && i - p < |cb.shortIds|
                 && var id := cb.shortIds[i - p];
                 && Missing(Layout(cb, i, p), mempool) ==
                    (if id in mempool then [] else [id]) + Missing(Layout(cb, i + 1, p), mempool)
                 && Body(Layout(cb, i, p), mempool) ==
                    [if id in mempool then mempool[id] else ""] + Body(Layout(cb, i + 1, p), mempool)
                 && Pending(cb, i + 1, p)
  {
    if p < |cb.prefilled| && cb.prefilled[p].index == i {
      assert Layout(cb, i, p)[1..] == Layout(cb, i + 1, p + 1);
    } else {
      EntriesFit(cb, i + 1, p);
      assert Layout(cb, i, p)[1..] == Layout(cb, i + 1, p);
    }
  }

  // ----- what any well formed announcement describes

  /** The short identifiers among the sources, in order. */
  function Ids(sources: seq<Source>): seq<ShortId> {
    if sources == [] then []
    else (if sources[0].ById? then [sources[0].id] else []) + Ids(sources[1..])
  }

  /** A prefilled transaction stands at its index, a short identifier at no index. */
  ghost predicate Fits(cb: CompactBlock, n: nat, source: Source) {
    match source
    case Inline(tx) => Prefilled(n, tx) in cb.prefilled
    case ById(_) => forall q :: 0 <= q < |cb.prefilled| ==> cb.prefilled[q].index != n
  }

  ghost predicate AllFit(cb: CompactBlock, sources: seq<Source>, i: nat) {
    forall k :: 0 <= k < |sources| ==> Fits(cb, i + k, sources[k])
  }

  /** One source for each position: the prefilled transaction at every prefilled index, and
      the short identifiers in order everywhere else. */
  ghost predicate Describes(cb: CompactBlock, sources: seq<Source>) {
    |sources| == cb.TxCount() && AllFit(cb, sources, 0) && Ids(sources) == cb.shortIds
  }

  lemma {:induction false} IndexesAscend(cb: CompactBlock, p: nat, q: nat)
    requires WellFormed(cb) && p < q < |cb.prefilled|
    ensures cb.prefilled[p].index < cb.prefilled[q].index
    decreases q
  {
    if p + 1 < q { IndexesAscend(cb, p, q - 1); }
  }

  /** Exactly the entries before p have index less than i. */
  ghost predicate Cursor(cb: CompactBlock, i: nat, p: nat) {
    Pending(cb, i, p) && (p > 0 ==> cb.prefilled[p - 1].index < i)
  }

  ghost predicate TakesInline(cb: CompactBlock, i: nat, p: nat) {
    p < |cb.prefilled| && cb.prefilled[p].index == i
  }

  lemma OtherIndexes(cb: CompactBlock, i: nat, p: nat, q: nat)
    requires WellFormed(cb) && Cursor(cb, i, p) && q < |cb.prefilled|
    ensures cb.prefilled[q].index == i <==> q == p && TakesInline(cb, i, p)
  {
    if p < q { IndexesAscend(cb, p, q); }
    if q + 1 < p { IndexesAscend(cb, q, p - 1); }
  }

  lemma FitsHere(cb: CompactBlock, i: nat, p: nat, source: Source)
    requires WellFormed(cb) && Cursor(cb, i, p)
    ensures Fits(cb, i, source) <==>
            if TakesInline(cb, i, p) then source == Inline(cb.prefilled[p].tx) else source.ById?
  {
    forall q | 0 <= q < |cb.prefilled| ensures cb.prefilled[q].index == i <==> q == p && TakesInline(cb, i, p) {
      OtherIndexes(cb, i, p, q);
    }
    if TakesInline(cb, i, p) { assert cb.prefilled[p] == Prefilled(i, cb.prefilled[p].tx); }
  }

  lemma CursorMoves(cb: CompactBlock, i: nat, p: nat)
    requires WellFormed(cb) && Cursor(cb, i, p) && i < cb.TxCount()
    ensures if TakesInline(cb, i, p) then Cursor(cb, i + 1, p + 1) else Cursor(cb, i + 1, p) && i - p < |cb.shortIds|
  {
    if !TakesInline(cb, i, p) { EntriesFit(cb, i + 1, p); }
  }

  lemma AllFitTail(cb: CompactBlock, sources: seq<Source>, i: nat)
    requires sources != []
    ensures AllFit(cb, sources, i) <==> Fits(cb, i, sources[0]) && AllFit(cb, sources[1..], i + 1)
  {
    var rest := sources[1..];
    if Fits(cb, i, sources[0]) && AllFit(cb, rest, i + 1) {
      forall k | 0 <= k < |sources| ensures Fits(cb, i + k, sources[k]) {
        if k > 0 { assert Fits(cb, i + 1 + (k - 1), rest[k - 1]); }
      }
    }
    if AllFit(cb, sources, i) {
      assert Fits(cb, i + 0, sources[0]);
      forall k | 0 <= k < |rest| ensures Fits(cb, i + 1 + k, rest[k]) { assert Fits(cb, i + (k + 1), sources[k + 1]); }
    }
  }

  ghost function Head(cb: CompactBlock, i: nat, p: nat): Source
    requires Cursor(cb, i, p) && (!TakesInline(cb, i, p) ==> i - p < |cb.shortIds|)
  {
    if TakesInline(cb, i, p) then Inline(cb.prefilled[p].tx) else ById(cb.shortIds[i - p])
  }

  lemma LayoutUnfolds(cb: CompactBlock, i: nat, p: nat)
    requires WellFormed(cb) && Cursor(cb, i, p) && i < cb.TxCount()
    requires !TakesInline(cb, i, p) ==> i - p < |cb.shortIds|
    ensures Layout(cb, i, p) == [Head(cb, i, p)] + Layout(cb, i + 1, if TakesInline(cb, i, p) then p + 1 else p)
  {
  }

  lemma {:induction false} LayoutFits(cb: CompactBlock, i: nat, p: nat)
    requires WellFormed(cb) && Cursor(cb, i, p) && i <= cb.TxCount()
    ensures |Layout(cb, i, p)| == cb.TxCount() - i && AllFit(cb, Layout(cb, i, p), i)
    decreases cb.TxCount() - i
  {
    if i < cb.TxCount() {
      CursorMoves(cb, i, p);
      LayoutUnfolds(cb, i, p);
      var all := Layout(cb, i, p);
      var p' := if TakesInline(cb, i, p) then p + 1 else p;
      LayoutFits(cb, i + 1, p');
      assert all[1..] == Layout(cb, i + 1, p');
      FitsHere(cb, i, p, all[0]);
      AllFitTail(cb, all, i);
    }
  }

  lemma IdsCons(x: Source, rest: seq<Source>)
    ensures Ids([x] + rest) == (if x.ById? then [x.id] else []) + Ids(rest)
  {
    assert ([x] + rest)[1..] == rest;
  }

  lemma Suffix<T>(ids: seq<T>, k: nat)
    requires k < |ids|
    ensures ids[k..] == [ids[k]] + ids[k + 1..]
  {
  }

  /** The identifiers from position i on, given those of the position after. */
  lemma IdsHere(cb: CompactBlock, i: nat, p: nat, rest: seq<Source>)
    requires Cursor(cb, i, p) && (!TakesInline(cb, i, p) ==> i - p < |cb.shortIds|)
    requires TakesInline(cb, i, p) ==> i - p <= |cb.shortIds| && Ids(rest) == cb.shortIds[i - p..]
    requires !TakesInline(cb, i, p) ==> Ids(rest) == cb.shortIds[i - p + 1..]
    ensures Ids([Head(cb, i, p)] + rest) == cb.shortIds[i - p..]
  {
    IdsCons(Head(cb, i, p), rest);
    if !TakesInline(cb, i, p) { Suffix(cb.shortIds, i - p); }
  }

  lemma {:induction false} LayoutIds(cb: CompactBlock, i: nat, p: nat)
    requires WellFormed(cb) && Cursor(cb, i, p) && i <= cb.TxCount()
    ensures i - p <= |cb.shortIds| && Ids(Layout(cb, i, p)) == cb.shortIds[i - p..]
    decreases cb.TxCount() - i
  {
    EntriesFit(cb, i, p);
    if i < cb.TxCount() {
      CursorMoves(cb, i, p);
      LayoutUnfolds(cb, i, p);
      var p' := if TakesInline(cb, i, p) then p + 1 else p;
      LayoutIds(cb, i + 1, p');
      IdsHere(cb, i, p, Layout(cb, i + 1, p'));
    }
  }

  lemma IdsTail(sources: seq<Source>, ids: seq<ShortId>)
    requires sources != [] && Ids(sources) == ids
    ensures if sources[0].ById? then ids != [] && sources[0].id == ids[0] && Ids(sources[1..]) == ids[1..]
            else Ids(sources[1..]) == ids
  {
    var rest := Ids(sources[1..]);
    if sources[0].ById? { assert ids == [sources[0].id] + rest; } else { assert ids == rest; }
  }

  lemma OneFits(cb: CompactBlock, n: nat, x: Source, y: Source)
    requires WellFormed(cb) && Fits(cb, n, x) && Fits(cb, n, y)
    ensures x == y || (x.ById? && y.ById?)
  {
    if x.Inline? && y.Inline? {
      var p: nat :| p < |cb.prefilled| && cb.prefilled[p] == Prefilled(n, x.tx);
      var q: nat :| q < |cb.prefilled| && cb.prefilled[q] == Prefilled(n, y.tx);
      if p < q { IndexesAscend(cb, p, q); }
      if q < p { IndexesAscend(cb, q, p); }
    }
  }

  lemma {:induction false} DescriptionsAgree(cb: CompactBlock, u: seq<Source>, v: seq<Source>, i: nat)
    requires WellFormed(cb) && |u| == |v| && AllFit(cb, u, i) && AllFit(cb, v, i) && Ids(u) == Ids(v)
    ensures u == v
    decreases |u|
  {
    if u == [] {
    } else {
      AllFitTail(cb, u, i);
      AllFitTail(cb, v, i);
      OneFits(cb, i, u[0], v[0]);
      IdsTail(u, Ids(u));
      IdsTail(v, Ids(v));
      DescriptionsAgree(cb, u[1..], v[1..], i + 1);
      assert u == [u[0]] + u[1..] && v == [v[0]] + v[1..];
    }
  }

  /** The layout of a well formed announcement is the one description of its positions; it
      has each prefilled transaction at its index. */
  lemma LayoutIsDescription(cb: CompactBlock, sources: seq<Source>)
    requires WellFormed(cb)
    ensures Describes(cb, sources) <==> sources == Layout(cb, 0, 0)
    ensures |Layout(cb, 0, 0)| == cb.TxCount()
    ensures forall q :: 0 <= q < |cb.prefilled| ==>
            Layout(cb, 0, 0)[cb.prefilled[q].index] == Inline(cb.prefilled[q].tx)
  {
    LayoutFits(cb, 0, 0);
    LayoutIds(cb, 0, 0);
    assert cb.shortIds[0..] == cb.shortIds;
    if Describes(cb, sources) { DescriptionsAgree(cb, sources, Layout(cb, 0, 0), 0); }
    var all := Layout(cb, 0, 0);
    forall q | 0 <= q < |cb.prefilled| ensures all[cb.prefilled[q].index] == Inline(cb.prefilled[q].tx) {
      var n := cb.prefilled[q].index;
      assert Fits(cb, 0 + n, all[n]);
      IndexIsPosition(cb, q);
      FitsHere(cb, n, q, all[n]);
    }
  }

  lemma {:induction false} IndexAtLeast(cb: CompactBlock, q: nat)
    requires WellFormed(cb) && q < |cb.prefilled|
    ensures q <= cb.prefilled[q].index
  {
    if q == 0 {
    } else {
      IndexAtLeast(cb, q - 1);
    }
  }

  lemma IndexIsPosition(cb: CompactBlock, q: nat)
    requires WellFormed(cb) && q < |cb.prefilled|
    ensures Cursor(cb, cb.prefilled[q].index, q)
  {
    IndexAtLeast(cb, q);
  }

  /** Those of the identifiers that the mempool lacks, in order. */
  function Unknown(ids: seq<ShortId>, mempool: Mempool): seq<ShortId> {
    if ids == [] then []
    else (if ids[0] in mempool then [] else [ids[0]]) + Unknown(ids[1..], mempool)
  }

  lemma {:induction false} MissingIsUnknown(sources: seq<Source>, mempool: Mempool)
    ensures Missing(sources, mempool) == Unknown(Ids(sources), mempool)
    ensures |Body(sources, mempool)| == |sources|
  {
    if sources == [] {
    } else {
      var rest := sources[1..];
      MissingIsUnknown(rest, mempool);
      if sources[0].ById? {
        assert Ids(sources)[0] == sources[0].id && Ids(sources)[1..] == Ids(rest);
      } else {
        assert Ids(sources) == Ids(rest);
      }
    }
  }

  lemma {:induction false} NoneUnknown(ids: seq<ShortId>, mempool: Mempool)
    ensures Unknown(ids, mempool) == [] <==> forall id :: id in ids ==> id in mempool
  {
    if ids == [] {
    } else {
      NoneUnknown(ids[1..], mempool);
    }
  }

  /** For every announcement, a block's own or not: what is missing are the short
      identifiers the mempool lacks, in order; the whole body comes back exactly when the
      announcement is well formed and the mempool knows all of them, and it then is what the
      announcement describes; and a malformed one passes exactly when it has none. */
  lemma RebuildMeans(cb: CompactBlock, mempool: Mempool)
    ensures var r := Rebuild(cb, mempool);
            && (WellFormed(cb) ==> r.missing == Unknown(cb.shortIds, mempool))
            && (r.Ok() && |r.txs| == cb.TxCount() <==>
                WellFormed(cb) && forall id :: id in cb.shortIds ==> id in mempool)
            && (WellFormed(cb) && r.Ok() ==>
                forall sources :: Describes(cb, sources) ==> r.txs == Body(sources, mempool))
            && (!WellFormed(cb) ==> r.txs == [] && (r.Ok() <==> cb.shortIds == []))
  {
    if WellFormed(cb) {
      LayoutIsDescription(cb, Layout(cb, 0, 0));
      MissingIsUnknown(Layout(cb, 0, 0), mempool);
      NoneUnknown(cb.shortIds, mempool);
      forall sources | Describes(cb, sources) ensures sources == Layout(cb, 0, 0) { LayoutIsDescription(cb, sources); }
    }
  }

  /** One prefilled transaction at index one of a block of one: malformed, and passed as an
      empty block without anything missing. */
  lemma MalformedPasses(header: Bytes, mempool: Mempool)
    ensures var cb := CompactBlock(header, [], [Prefilled(1, "tx")]);
            !WellFormed(cb) && cb.TxCount() == 1 && Rebuild(cb, mempool).Ok() && Rebuild(cb, mempool).txs == []
  {
    var cb := CompactBlock(header, [], [Prefilled(1, "tx")]);
    assert cb.prefilled[0].index == 1;
    RebuildMeans(cb, mempool);
  }

  // ----- the announcement of a block describes that block

  /** The sources a block's announcement stands for. */
  function SourcesOf(txs: seq<string>, marks: set<nat>, shortId: string -> ShortId): (r: seq<Source>)
    ensures |r| == |txs|
  {
    seq(|txs|, i requires 0 <= i < |txs| => if i in marks then Inline(txs[i]) else ById(shortId(txs[i])))
  }

  lemma {:induction false} AnnouncedUpTo(txs: seq<string>, marks: set<nat>, shortId: string -> ShortId, n: nat)
    requires n <= |txs|
    ensures |PrefilledOf(txs, marks, n)| + |ShortIdsOf(txs, marks, shortId, n)| == n
    ensures PrefilledOf(txs, marks, n) <= PrefilledOf(txs, marks, |txs|)
    ensures ShortIdsOf(txs, marks, shortId, n) <= ShortIdsOf(txs, marks, shortId, |txs|)
    ensures forall p :: 0 <= p < |PrefilledOf(txs, marks, n)| ==> PrefilledOf(txs, marks, n)[p].index < n
    ensures forall p :: 0 < p < |PrefilledOf(txs, marks, n)| ==>
            PrefilledOf(txs, marks, n)[p - 1].index < PrefilledOf(txs, marks, n)[p].index
    decreases |txs| - n, 0
  {
    AnnouncedBelow(txs, marks, shortId, n);
    if n < |txs| { AnnouncedUpTo(txs, marks, shortId, n + 1); }
  }

  lemma {:induction false} AnnouncedCount(txs: seq<string>, marks: set<nat>, shortId: string -> ShortId, n: nat)
    requires n <= |txs|
    ensures |PrefilledOf(txs, marks, n)| + |ShortIdsOf(txs, marks, shortId, n)| == n
  {
    if n == 0 {
    } else {
      AnnouncedCount(txs, marks, shortId, n - 1);
    }
  }

  ghost predicate AscendBelow(prefilled: seq<Prefilled>, n: nat) {
    && (forall p :: 0 <= p < |prefilled| ==> prefilled[p].index < n)
    && (forall p :: 0 < p < |prefilled| ==> prefilled[p - 1].index < prefilled[p].index)
  }

  lemma AscendAppend(prefilled: seq<Prefilled>, n: nat, tx: string)
    requires AscendBelow(prefilled, n)
    ensures AscendBelow(prefilled, n + 1) && AscendBelow(prefilled + [Prefilled(n, tx)], n + 1)
  {
  }

  lemma {:induction false} PrefilledAscend(txs: seq<string>, marks: set<nat>, n: nat)
    requires n <= |txs|
    ensures AscendBelow(PrefilledOf(txs, marks, n), n)
  {
    if n == 0 {
    } else {
      PrefilledAscend(txs, marks, n - 1);
      AscendAppend(PrefilledOf(txs, marks, n - 1), n - 1, txs[n - 1]);
    }
  }

  lemma AnnouncedBelow(txs: seq<string>, marks: set<nat>, shortId: string -> ShortId, n: nat)
    requires n <= |txs|
    ensures |PrefilledOf(txs, marks, n)| + |ShortIdsOf(txs, marks, shortId, n)| == n
    ensures AscendBelow(PrefilledOf(txs, marks, n), n)
  {
    AnnouncedCount(txs, marks, shortId, n);
    PrefilledAscend(txs, marks, n);
  }

  lemma AnnouncementWellFormed(header: Bytes, txs: seq<string>, marks: set<nat>, shortId: string -> ShortId)
    ensures WellFormed(Announce(header, txs, marks, shortId))
    ensures Announce(header, txs, marks, shortId).TxCount() == |txs|
  {
    AnnouncedBelow(txs, marks, shortId, |txs|);
  }

  lemma {:induction false} LayoutOfAnnouncement(header: Bytes, txs: seq<string>, marks: set<nat>,
                                                shortId: string -> ShortId, i: nat)
    requires i <= |txs|
    ensures Layout(Announce(header, txs, marks, shortId), i, |PrefilledOf(txs, marks, i)|) ==
            SourcesOf(txs, marks, shortId)[i..]
    decreases |txs| - i
  {
    var cb, all := Announce(header, txs, marks, shortId), SourcesOf(txs, marks, shortId);
    AnnouncementWellFormed(header, txs, marks, shortId);
    if i < |txs| {
      LayoutOfAnnouncement(header, txs, marks, shortId, i + 1);
      NextEntry(txs, marks, shortId, i);
      var p := |PrefilledOf(txs, marks, i)|;
      assert all[i..] == [all[i]] + all[i + 1..];
      if i in marks {
        assert Layout(cb, i, p) == [all[i]] + Layout(cb, i + 1, p + 1);
      } else {
        assert Layout(cb, i, p) == [all[i]] + Layout(cb, i + 1, p);
      }
    }
  }

  /** The entry announced next is the one of position i. */
  lemma NextEntry(txs: seq<string>, marks: set<nat>, shortId: string -> ShortId, i: nat)
    requires i < |txs|
    ensures var pre, ids := PrefilledOf(txs, marks, |txs|), ShortIdsOf(txs, marks, shortId, |txs|);
            var p := |PrefilledOf(txs, marks, i)|;
            && p <= i
            && (i in marks ==> p < |pre| && pre[p] == Prefilled(i, txs[i]))
            && (i !in marks ==> i - p < |ids| && ids[i - p] == shortId(txs[i]) && (p < |pre| ==> pre[p].index != i))
  {
    AnnouncedUpTo(txs, marks, shortId, i);
    AnnouncedUpTo(txs, marks, shortId, i + 1);
    var pre, p := PrefilledOf(txs, marks, |txs|), |PrefilledOf(txs, marks, i)|;
    if i !in marks && p < |pre| { LaterEntries(txs, marks, i + 1, |txs|); }
  }

  /** Entries beyond the first n positions have index at least n. */
  lemma {:induction false} LaterEntries(txs: seq<string>, marks: set<nat>, n: nat, m: nat)
    requires n <= m <= |txs|
    ensures |PrefilledOf(txs, marks, n)| <= |PrefilledOf(txs, marks, m)|
    ensures forall p :: |PrefilledOf(txs, marks, n)| <= p < |PrefilledOf(txs, marks, m)| ==>
            PrefilledOf(txs, marks, m)[p].index >= n
    decreases m
  {
    if n < m { LaterEntries(txs, marks, n, m - 1); }
  }

  // ----- round trip

  /** Where the mempool knows one of the block's short identifiers, it holds that transaction. */
  ghost predicate Correct(mempool: Mempool, txs: seq<string>, marks: set<nat>, shortId: string -> ShortId) {
    forall i :: 0 <= i < |txs| && i !in marks && shortId(txs[i]) in mempool ==> mempool[shortId(txs[i])] == txs[i]
  }

  /** The short identifiers of positions i and after that the mempool lacks, in block order. */
  function AbsentFrom(txs: seq<string>, marks: set<nat>, shortId: string -> ShortId, mempool: Mempool, i: nat)
    : seq<ShortId>
    requires i <= |txs|
    decreases |txs| - i
  {
    if i == |txs| then []
    else (if i !in marks && shortId(txs[i]) !in mempool then [shortId(txs[i])] else [])
         + AbsentFrom(txs, marks, shortId, mempool, i + 1)
  }

  lemma {:induction false} MissingIsAbsent(txs: seq<string>, marks: set<nat>, shortId: string -> ShortId,
                                           mempool: Mempool, i: nat)
    requires i <= |txs|
    ensures Missing(SourcesOf(txs, marks, shortId)[i..], mempool) == AbsentFrom(txs, marks, shortId, mempool, i)
    decreases |txs| - i
  {
    var all := SourcesOf(txs, marks, shortId);
    if i < |txs| {
      MissingIsAbsent(txs, marks, shortId, mempool, i + 1);
      assert all[i..][0] == all[i] && all[i..][1..] == all[i + 1..];
    }
  }

  lemma {:induction false} BodyIsBlock(txs: seq<string>, marks: set<nat>, shortId: string -> ShortId,
                                       mempool: Mempool, i: nat)
    requires i <= |txs| && Correct(mempool, txs, marks, shortId)
    requires AbsentFrom(txs, marks, shortId, mempool, i) == []
    ensures Body(SourcesOf(txs, marks, shortId)[i..], mempool) == txs[i..]
    decreases |txs| - i
  {
    var all := SourcesOf(txs, marks, shortId);
    if i < |txs| {
      BodyIsBlock(txs, marks, shortId, mempool, i + 1);
      assert all[i..][0] == all[i] && all[i..][1..] == all[i + 1..];
      assert txs[i..] == [txs[i]] + txs[i + 1..];
    }
  }

  /** Reconstructing the announcement of a block lists exactly the short identifiers the
      mempool lacks, in block order, and returns the block when it lacks none. */
  lemma RoundTrip(header: Bytes, txs: seq<string>, marks: set<nat>, shortId: string -> ShortId, mempool: Mempool)
    requires Correct(mempool, txs, marks, shortId)
    ensures var absent := AbsentFrom(txs, marks, shortId, mempool, 0);
            Rebuild(Announce(header, txs, marks, shortId), mempool) ==
            Reconstruction(if absent == [] then txs else [], absent)
  {
    var all := SourcesOf(txs, marks, shortId);
    AnnouncementWellFormed(header, txs, marks, shortId);
    LayoutOfAnnouncement(header, txs, marks, shortId, 0);
    MissingIsAbsent(txs, marks, shortId, mempool, 0);
    assert all[0..] == all && txs[0..] == txs;
    if AbsentFrom(txs, marks, shortId, mempool, 0) == [] { BodyIsBlock(txs, marks, shortId, mempool, 0); }
  }

  lemma {:induction false} FilledLeavesNoneAbsent(txs: seq<string>, marks: set<nat>, shortId: string -> ShortId,
                                                  mempool: Mempool, full: Mempool, i: nat)
    requires i <= |txs|
    requires forall id :: id in mempool ==> id in full
    requires forall id :: id in AbsentFrom(txs, marks, shortId, mempool, i) ==> id in full
    ensures AbsentFrom(txs, marks, shortId, full, i) == []
    decreases |txs| - i
  {
    if i < |txs| {
      var here := if i !in marks && shortId(txs[i]) !in mempool then [shortId(txs[i])] else [];
      assert AbsentFrom(txs, marks, shortId, mempool, i) == here + AbsentFrom(txs, marks, shortId, mempool, i + 1);
      assert here != [] ==> here[0] in full;
      FilledLeavesNoneAbsent(txs, marks, shortId, mempool, full, i + 1);
    }
  }

  /** Adding correct answers for the listed identifiers makes the retry succeed. */
  lemma RetrySucceeds(header: Bytes, txs: seq<string>, marks: set<nat>, shortId: string -> ShortId, mempool: Mempool,
                      answers: Mempool)
    requires Correct(mempool, txs, marks, shortId) && Correct(answers, txs, marks, shortId)
    requires forall id :: id in Rebuild(Announce(header, txs, marks, shortId), mempool).missing ==> id in answers
    ensures Rebuild(Announce(header, txs, marks, shortId), mempool + answers) == Reconstruction(txs, [])
  {
    RoundTrip(header, txs, marks, shortId, mempool);
    FilledLeavesNoneAbsent(txs, marks, shortId, mempool, mempool + answers, 0);
    RoundTrip(header, txs, marks, shortId, mempool + answers);
  }
}
