/** Slot arrays of an open-addressing table: linear probing with wraparound, tombstones
    and growth, as functions on sequences of slots
    (include/hive_native/perf/flat_hash_map.hpp). */
module ProbeTable {
  import opened Wrappers

  datatype Slot<K, V> = Empty | Full(key: K, value: V) | Tomb

  // ----- probe paths

  /** The slot d steps after slot i, wrapping around. */
  function Probe(i: nat, d: nat, cap: nat): (j: nat)
    requires i < cap && d < cap
    ensures j < cap
  {
    if i + d < cap then i + d else i + d - cap
  }

  function Distance(i: nat, j: nat, cap: nat): (d: nat)
    requires i < cap && j < cap
    ensures d < cap && Probe(i, d, cap) == j
    ensures forall e: nat :: e < cap && Probe(i, e, cap) == j ==> e == d
  {
    if i <= j then j - i else j + cap - i
  }

  function Home<K>(hash: K -> nat, k: K, cap: nat): (i: nat)
    requires cap > 0
    ensures i < cap
  {
    hash(k) % cap
  }

  predicate Matches<K(==), V>(x: Slot<K, V>, k: K) {
    x.Full? && x.key == k
  }

  /** How far a search for k from slot i goes: to the first slot that is empty or holds k. */
  function SearchEnd<K(==), V>(s: seq<Slot<K, V>>, k: K, i: nat, d: nat): (e: nat)
    requires i < |s| && d <= |s|
    ensures d <= e <= |s|
    ensures e < |s| ==> s[Probe(i, e, |s|)].Empty? || Matches(s[Probe(i, e, |s|)], k)
    ensures forall c: nat :: d <= c < e ==> !s[Probe(i, c, |s|)].Empty? && !Matches(s[Probe(i, c, |s|)], k)
    decreases |s| - d
  {
    if d == |s| then d
    else
      var j := Probe(i, d, |s|);
      if s[j].Empty? || Matches(s[j], k) then d else SearchEnd(s, k, i, d + 1)
  }

  /** How far an insertion of k from slot i goes: to the first slot that is not full or holds k. */
  function InsertEnd<K(==), V>(s: seq<Slot<K, V>>, k: K, i: nat, d: nat): (e: nat)
    requires i < |s| && d <= |s|
    ensures d <= e <= |s|
    ensures e < |s| ==> !s[Probe(i, e, |s|)].Full? || Matches(s[Probe(i, e, |s|)], k)
    ensures forall c: nat :: d <= c < e ==> s[Probe(i, c, |s|)].Full? && !Matches(s[Probe(i, c, |s|)], k)
    decreases |s| - d
  {
    if d == |s| then d
    else
      var j := Probe(i, d, |s|);
      if !s[j].Full? || Matches(s[j], k) then d else InsertEnd(s, k, i, d + 1)
  }

  // ----- the operations

  /** The slot in which k is found. */
  function Find<K(==), V>(s: seq<Slot<K, V>>, hash: K -> nat, k: K): (r: Option<nat>)
    ensures r.Some? ==> r.value < |s| && Matches(s[r.value], k)
  {
    if s == [] then None
    else
      var i := Home(hash, k, |s|);
      var e := SearchEnd(s, k, i, 0);
      if e < |s| && Matches(s[Probe(i, e, |s|)], k) then Some(Probe(i, e, |s|)) else None
  }

  function Lookup<K(==), V>(s: seq<Slot<K, V>>, hash: K -> nat, k: K): Option<V> {
    match Find(s, hash, k)
    case None => None
    case Some(j) => Some(s[j].value)
  }

  function Place<K(==), V>(s: seq<Slot<K, V>>, hash: K -> nat, k: K, v: V): (t: seq<Slot<K, V>>)
    ensures |t| == |s|
  {
    if s == [] then s
    else
      var i := Home(hash, k, |s|);
      var e := InsertEnd(s, k, i, 0);
      if e < |s| then s[Probe(i, e, |s|) := Full(k, v)] else s
  }

  function Erased<K(==), V>(s: seq<Slot<K, V>>, hash: K -> nat, k: K): (t: seq<Slot<K, V>>)
    ensures |t| == |s|
  {
    match Find(s, hash, k)
    case None => s
    case Some(j) => s[j := Tomb]
  }

  function Blank<K, V>(cap: nat): (s: seq<Slot<K, V>>)
    ensures |s| == cap && forall j :: 0 <= j < cap ==> s[j] == Empty
  {
    seq(cap, _ => Empty)
  }

  /** The least number of the form c, 2c, 4c, ... that is at least n. */
  function Doubled(c: nat, n: nat): (r: nat)
    requires c > 0
    ensures r >= n && r >= c
    decreases n - c
  {
    if c >= n then c else Doubled(2 * c, n)
  }

  /** Reinsertion of the first n slots of s into a blank table, in slot order. */
  function Rebuilt<K(==), V>(s: seq<Slot<K, V>>, hash: K -> nat, n: nat, cap: nat): (t: seq<Slot<K, V>>)
    requires n <= |s|
    ensures |t| == cap
  {
    if n == 0 then Blank(cap)
    else
      var t := Rebuilt(s, hash, n - 1, cap);
      if s[n - 1].Full? then Place(t, hash, s[n - 1].key, s[n - 1].value) else t
  }

  function Count<K, V>(s: seq<Slot<K, V>>, n: nat): (c: nat)
    requires n <= |s|
    ensures c <= n
  {
    if n == 0 then 0 else Count(s, n - 1) + if s[n - 1].Full? then 1 else 0
  }

  predicate Crowded<K, V>(s: seq<Slot<K, V>>) {
    Count(s, |s|) * 10 >= |s| * 7
  }

  function Grown<K(==), V>(s: seq<Slot<K, V>>, hash: K -> nat): seq<Slot<K, V>> {
    if Crowded(s) then Rebuilt(s, hash, |s|, Doubled(1, 2 * |s|)) else s
  }

  function Inserted<K(==), V>(s: seq<Slot<K, V>>, hash: K -> nat, k: K, v: V): seq<Slot<K, V>> {
    Place(Grown(s, hash), hash, k, v)
  }

  // ----- invariants

  /** No empty slot lies between the home of a stored key and its slot. */
  ghost predicate Reachable<K, V>(s: seq<Slot<K, V>>, hash: K -> nat) {
    forall j :: 0 <= j < |s| && s[j].Full? ==> PathOpen(s, hash, j)
  }

  ghost predicate PathOpen<K, V>(s: seq<Slot<K, V>>, hash: K -> nat, j: nat)
    requires j < |s| && s[j].Full?
  {
    var i := Home(hash, s[j].key, |s|);
    forall c: nat :: c < Distance(i, j, |s|) ==> !s[Probe(i, c, |s|)].Empty?
  }

  ghost predicate NoDuplicates<K, V>(s: seq<Slot<K, V>>) {
    forall i, j :: 0 <= i < j < |s| && s[i].Full? && s[j].Full? ==> s[i].key != s[j].key
  }

  ghost predicate NoTombs<K, V>(s: seq<Slot<K, V>>) {
    forall j :: 0 <= j < |s| ==> !s[j].Tomb?
  }

  ghost predicate Stored<K, V>(s: seq<Slot<K, V>>, k: K) {
    exists j :: 0 <= j < |s| && Matches(s[j], k)
  }

  /** The map held by the first n slots; a later slot overrides an earlier one. */
  ghost function ContentsUpTo<K, V>(s: seq<Slot<K, V>>, n: nat): map<K, V>
    requires n <= |s|
  {
    if n == 0 then map[]
    else
      var m := ContentsUpTo(s, n - 1);
      if s[n - 1].Full? then m[s[n - 1].key := s[n - 1].value] else m
  }

  ghost function Contents<K, V>(s: seq<Slot<K, V>>): map<K, V> {
    ContentsUpTo(s, |s|)
  }

  lemma {:induction false} ContentsAre<K, V>(s: seq<Slot<K, V>>, n: nat)
    requires n <= |s| && NoDuplicates(s)
    ensures forall k :: k in ContentsUpTo(s, n) <==> exists j :: 0 <= j < n && Matches(s[j], k)
    ensures forall j :: 0 <= j < n && s[j].Full? ==>
              s[j].key in ContentsUpTo(s, n) && ContentsUpTo(s, n)[s[j].key] == s[j].value
    ensures |ContentsUpTo(s, n)| == Count(s, n)
  {
    if n == 0 {
    } else {
      ContentsAre(s, n - 1);
    }
  }

  lemma {:induction false} NothingFull<K, V>(s: seq<Slot<K, V>>, n: nat)
    requires n <= |s| && forall j :: 0 <= j < |s| ==> !s[j].Full?
    ensures ContentsUpTo(s, n) == map[]
  {
    if n == 0 {
    } else {
      NothingFull(s, n - 1);
    }
  }

  /** Without duplicates, a search finds exactly what the table holds. */
  lemma LookupIsContents<K, V>(s: seq<Slot<K, V>>, hash: K -> nat, k: K)
    requires Reachable(s, hash) && NoDuplicates(s)
    ensures Lookup(s, hash, k) == if k in Contents(s) then Some(Contents(s)[k]) else None
  {
    ContentsAre(s, |s|);
    if Stored(s, k) {
      StoredIsFound(s, hash, k);
    }
  }

  /** A stored key is found, even among duplicates. */
  lemma StoredIsFound<K, V>(s: seq<Slot<K, V>>, hash: K -> nat, k: K)
    requires Reachable(s, hash) && Stored(s, k)
    ensures Find(s, hash, k).Some?
  {
    var j :| 0 <= j < |s| && Matches(s[j], k);
    var i := Home(hash, k, |s|);
    var d, e := Distance(i, j, |s|), SearchEnd(s, k, i, 0);
    assert PathOpen(s, hash, j);
    assert e <= d;
  }

  // ----- placing

  lemma {:induction false} CountUpdate<K, V>(s: seq<Slot<K, V>>, j: nat, x: Slot<K, V>, n: nat)
    requires j < |s| && n <= |s|
    ensures Count(s[j := x], n) ==
            Count(s, n) + if j < n then (if x.Full? then 1 else 0) - (if s[j].Full? then 1 else 0) else 0
  {
    if n == 0 {
    } else {
      CountUpdate(s, j, x, n - 1);
    }
  }

  lemma {:induction false} CountAllFull<K, V>(s: seq<Slot<K, V>>, n: nat)
    requires n <= |s| && forall j :: 0 <= j < n ==> s[j].Full?
    ensures Count(s, n) == n
  {
    if n == 0 {
    } else {
      CountAllFull(s, n - 1);
    }
  }

  /** If some slot is not full, insertion stops inside the table. */
  lemma InsertionStops<K, V>(s: seq<Slot<K, V>>, k: K, i: nat)
    requires i < |s| && Count(s, |s|) < |s|
    ensures InsertEnd(s, k, i, 0) < |s|
  {
    if InsertEnd(s, k, i, 0) == |s| {
      forall j | 0 <= j < |s| ensures s[j].Full? {
        var d := Distance(i, j, |s|);
        assert s[Probe(i, d, |s|)].Full?;
      }
      CountAllFull(s, |s|);
    }
  }

  /** The slot an insertion writes to. */
  function Target<K(==), V>(s: seq<Slot<K, V>>, hash: K -> nat, k: K): (j: nat)
    requires Count(s, |s|) < |s|
    ensures j < |s| && (!s[j].Full? || Matches(s[j], k))
  {
    InsertionStops(s, k, Home(hash, k, |s|));
    Probe(Home(hash, k, |s|), InsertEnd(s, k, Home(hash, k, |s|), 0), |s|)
  }

  lemma PlaceIsUpdate<K, V>(s: seq<Slot<K, V>>, hash: K -> nat, k: K, v: V)
    requires Count(s, |s|) < |s|
    ensures Place(s, hash, k, v) == s[Target(s, hash, k) := Full(k, v)]
  {
    InsertionStops(s, k, Home(hash, k, |s|));
  }

  lemma PlaceKeepsReachable<K, V>(s: seq<Slot<K, V>>, hash: K -> nat, k: K, v: V)
    requires Count(s, |s|) < |s| && Reachable(s, hash)
    ensures Reachable(Place(s, hash, k, v), hash)
  {
    PlaceIsUpdate(s, hash, k, v);
    var t, w := Place(s, hash, k, v), Target(s, hash, k);
    var i := Home(hash, k, |s|);
    forall j | 0 <= j < |t| && t[j].Full? ensures PathOpen(t, hash, j) {
      if j == w {
        assert Distance(i, w, |s|) == InsertEnd(s, k, i, 0);
      } else {
        assert PathOpen(s, hash, j);
      }
    }
  }

  /** A tombstone lies on k's probe path before the slot that holds k. */
  ghost predicate BehindTomb<K, V>(s: seq<Slot<K, V>>, hash: K -> nat, k: K) {
    exists j, c: nat :: 0 <= j < |s| && Matches(s[j], k)
      && c < Distance(Home(hash, k, |s|), j, |s|) && s[Probe(Home(hash, k, |s|), c, |s|)].Tomb?
  }

  lemma TargetOfStored<K, V>(s: seq<Slot<K, V>>, hash: K -> nat, k: K)
    requires Count(s, |s|) < |s| && Reachable(s, hash) && NoDuplicates(s)
    requires Stored(s, k)
    ensures if BehindTomb(s, hash, k) then s[Target(s, hash, k)].Tomb? else Matches(s[Target(s, hash, k)], k)
  {
    var j :| 0 <= j < |s| && Matches(s[j], k);
    var i := Home(hash, k, |s|);
    InsertionStops(s, k, i);
    var d, e := Distance(i, j, |s|), InsertEnd(s, k, i, 0);
    assert PathOpen(s, hash, j);
    assert e <= d;
    if e < d {
      assert s[Probe(i, e, |s|)].Tomb?;
    } else {
      assert forall c: nat :: c < d ==> s[Probe(i, c, |s|)].Full?;
    }
  }

  /** Placing a key keeps keys unique exactly when the key is not stored behind a tombstone. */
  lemma PlaceKeepsUnique<K, V>(s: seq<Slot<K, V>>, hash: K -> nat, k: K, v: V)
    requires Count(s, |s|) < |s| && Reachable(s, hash) && NoDuplicates(s)
    ensures NoDuplicates(Place(s, hash, k, v)) <==> !BehindTomb(s, hash, k)
  {
    PlaceIsUpdate(s, hash, k, v);
    var t, w := Place(s, hash, k, v), Target(s, hash, k);
    if Stored(s, k) {
      TargetOfStored(s, hash, k);
      var j :| 0 <= j < |s| && Matches(s[j], k);
      if BehindTomb(s, hash, k) {
        assert Matches(t[j], k) && Matches(t[w], k) && j != w;
      }
    }
  }

  /** A search for a key just placed ends where the insertion ended. */
  lemma PlacedIsFound<K, V>(s: seq<Slot<K, V>>, hash: K -> nat, k: K, v: V)
    requires Count(s, |s|) < |s|
    ensures Find(Place(s, hash, k, v), hash, k) == Some(Target(s, hash, k))
  {
    var i := Home(hash, k, |s|);
    InsertionStops(s, k, i);
    assert SearchEnd(Place(s, hash, k, v), k, i, 0) == InsertEnd(s, k, i, 0);
  }

  /** After placing, the key is found with its new value and every other key as before,
      whether or not a duplicate was left behind. */
  lemma PlaceLookup<K, V>(s: seq<Slot<K, V>>, hash: K -> nat, k: K, v: V, k': K)
    requires Count(s, |s|) < |s| && Reachable(s, hash) && NoDuplicates(s)
    ensures Lookup(Place(s, hash, k, v), hash, k') == if k' == k then Some(v) else Lookup(s, hash, k')
  {
    PlaceIsUpdate(s, hash, k, v);
    PlaceKeepsReachable(s, hash, k, v);
    var t, w := Place(s, hash, k, v), Target(s, hash, k);
    if k' == k {
      PlacedIsFound(s, hash, k, v);
    } else if j :| 0 <= j < |s| && Matches(s[j], k') {
      assert Matches(t[j], k');
      StoredIsFound(s, hash, k');
      StoredIsFound(t, hash, k');
      assert Find(s, hash, k') == Some(j) && Find(t, hash, k') == Some(j);
    }
  }

  ghost function Get<K, V>(m: map<K, V>, k: K): Option<V> {
    if k in m then Some(m[k]) else None
  }

  /** A table that answers every search as m does holds m. */
  lemma ContentsByLookup<K(!new), V>(t: seq<Slot<K, V>>, hash: K -> nat, m: map<K, V>)
    requires Reachable(t, hash) && NoDuplicates(t)
    requires forall k :: Lookup(t, hash, k) == Get(m, k)
    ensures Contents(t) == m
  {
    forall k ensures Get(Contents(t), k) == Get(m, k) {
      LookupIsContents(t, hash, k);
      assert Lookup(t, hash, k) == Get(m, k);
    }
    assert forall k :: k in Contents(t) <==> k in m by {
      forall k ensures k in Contents(t) <==> k in m { assert Get(Contents(t), k) == Get(m, k); }
    }
    forall k | k in m ensures Contents(t)[k] == m[k] { assert Get(Contents(t), k) == Get(m, k); }
  }

  lemma PlaceContents<K(!new), V>(s: seq<Slot<K, V>>, hash: K -> nat, k: K, v: V)
    requires Count(s, |s|) < |s| && Reachable(s, hash) && NoDuplicates(s) && !BehindTomb(s, hash, k)
    ensures Contents(Place(s, hash, k, v)) == Contents(s)[k := v]
  {
    var t, m := Place(s, hash, k, v), Contents(s)[k := v];
    PlaceKeepsUnique(s, hash, k, v);
    PlaceKeepsReachable(s, hash, k, v);
    forall k' ensures Lookup(t, hash, k') == Get(m, k') {
      PlaceLookup(s, hash, k, v, k');
      LookupIsContents(s, hash, k');
    }
    ContentsByLookup(t, hash, m);
  }

  lemma PlaceCount<K, V>(s: seq<Slot<K, V>>, hash: K -> nat, k: K, v: V)
    requires Count(s, |s|) < |s|
    ensures Count(Place(s, hash, k, v), |s|) == Count(s, |s|) + if s[Target(s, hash, k)].Full? then 0 else 1
  {
    PlaceIsUpdate(s, hash, k, v);
    CountUpdate(s, Target(s, hash, k), Full(k, v), |s|);
  }

  // ----- growing

  lemma {:induction false} BlankIsEmpty<K, V>(cap: nat, n: nat)
    requires n <= cap
    ensures Count(Blank<K, V>(cap), n) == 0 && ContentsUpTo(Blank<K, V>(cap), n) == map[]
  {
    if n == 0 {
    } else {
      BlankIsEmpty<K, V>(cap, n - 1);
    }
  }

  ghost predicate Tidy<K, V>(t: seq<Slot<K, V>>, hash: K -> nat) {
    Reachable(t, hash) && NoDuplicates(t) && NoTombs(t)
  }

  /** Reinsertion leaves no tombstones and no duplicates, and holds what the slots held,
      the last duplicate winning. */
  lemma {:induction false} RebuiltHolds<K(!new), V>(s: seq<Slot<K, V>>, hash: K -> nat, n: nat, cap: nat)
    requires n <= |s| < cap
    ensures Tidy(Rebuilt(s, hash, n, cap), hash)
    ensures Contents(Rebuilt(s, hash, n, cap)) == ContentsUpTo(s, n)
    ensures Count(Rebuilt(s, hash, n, cap), cap) <= n
  {
    if n == 0 {
      BlankIsEmpty<K, V>(cap, cap);
    } else {
      RebuiltHolds(s, hash, n - 1, cap);
      var t := Rebuilt(s, hash, n - 1, cap);
      if s[n - 1].Full? {
        var k, v := s[n - 1].key, s[n - 1].value;
        PlaceIsUpdate(t, hash, k, v);
        PlaceKeepsReachable(t, hash, k, v);
        PlaceKeepsUnique(t, hash, k, v);
        PlaceContents(t, hash, k, v);
        PlaceCount(t, hash, k, v);
      }
    }
  }

  /** Growing changes neither contents nor soundness and makes room. */
  lemma GrownHolds<K(!new), V>(s: seq<Slot<K, V>>, hash: K -> nat)
    requires s != [] && Reachable(s, hash)
    ensures Reachable(Grown(s, hash), hash)
    ensures !Crowded(Grown(s, hash)) && Count(Grown(s, hash), |Grown(s, hash)|) < |Grown(s, hash)|
    ensures NoDuplicates(s) ==> NoDuplicates(Grown(s, hash)) && Contents(Grown(s, hash)) == Contents(s)
    ensures Crowded(s) ==> Tidy(Grown(s, hash), hash)
  {
    if Crowded(s) {
      RebuiltHolds(s, hash, |s|, Doubled(1, 2 * |s|));
    }
  }

  // ----- the three operations against a finite map

  /** Insertion always makes the key findable with its value and leaves other keys alone;
      it keeps keys unique exactly when it grows the table or the key is not stored behind
      a tombstone. */
  lemma InsertedRefines<K(!new), V>(s: seq<Slot<K, V>>, hash: K -> nat, k: K, v: V)
    requires s != [] && Reachable(s, hash) && NoDuplicates(s)
    ensures Reachable(Inserted(s, hash, k, v), hash)
    ensures forall k' :: Lookup(Inserted(s, hash, k, v), hash, k') == if k' == k then Some(v) else Lookup(s, hash, k')
    ensures NoDuplicates(Inserted(s, hash, k, v)) <==> Crowded(s) || !BehindTomb(s, hash, k)
    ensures NoDuplicates(Inserted(s, hash, k, v)) ==> Contents(Inserted(s, hash, k, v)) == Contents(s)[k := v]
  {
    GrownHolds(s, hash);
    var g := Grown(s, hash);
    PlaceKeepsReachable(g, hash, k, v);
    PlaceKeepsUnique(g, hash, k, v);
    if !BehindTomb(g, hash, k) { PlaceContents(g, hash, k, v); }
    forall k' ensures Lookup(Inserted(s, hash, k, v), hash, k') == if k' == k then Some(v) else Lookup(s, hash, k') {
      PlaceLookup(g, hash, k, v, k');
      LookupIsContents(s, hash, k');
      LookupIsContents(g, hash, k');
    }
  }

  lemma EraseKeepsReachable<K, V>(s: seq<Slot<K, V>>, hash: K -> nat, k: K)
    requires Reachable(s, hash)
    ensures Reachable(Erased(s, hash, k), hash)
  {
    var t := Erased(s, hash, k);
    forall j | 0 <= j < |t| && t[j].Full? ensures PathOpen(t, hash, j) { assert PathOpen(s, hash, j); }
  }

  lemma ErasedKeeps<K, V>(s: seq<Slot<K, V>>, hash: K -> nat, k: K)
    requires Reachable(s, hash) && NoDuplicates(s)
    ensures Reachable(Erased(s, hash, k), hash) && NoDuplicates(Erased(s, hash, k))
  {
    EraseKeepsReachable(s, hash, k);
  }

  lemma ErasedLookup<K, V>(s: seq<Slot<K, V>>, hash: K -> nat, k: K, k': K)
    requires Reachable(s, hash) && NoDuplicates(s)
    ensures Lookup(Erased(s, hash, k), hash, k') == if k' == k then None else Lookup(s, hash, k')
  {
    var t := Erased(s, hash, k);
    ErasedKeeps(s, hash, k);
    if Find(t, hash, k').Some? {
      var j := Find(t, hash, k').value;
      assert Matches(s[j], k');
      StoredIsFound(s, hash, k');
    } else if Find(s, hash, k').Some? && k' != k {
      var j := Find(s, hash, k').value;
      assert Matches(t[j], k');
      StoredIsFound(t, hash, k');
    }
  }

  /** Erasing removes exactly the key, and reports whether it was there. */
  lemma ErasedRefines<K(!new), V>(s: seq<Slot<K, V>>, hash: K -> nat, k: K)
    requires Reachable(s, hash) && NoDuplicates(s)
    ensures Reachable(Erased(s, hash, k), hash) && NoDuplicates(Erased(s, hash, k))
    ensures Contents(Erased(s, hash, k)) == Contents(s) - {k}
    ensures Find(s, hash, k).Some? <==> k in Contents(s)
  {
    ErasedKeeps(s, hash, k);
    forall k' ensures Lookup(Erased(s, hash, k), hash, k') == Get(Contents(s) - {k}, k') {
      ErasedLookup(s, hash, k, k');
      LookupIsContents(s, hash, k');
    }
    ContentsByLookup(Erased(s, hash, k), hash, Contents(s) - {k});
    LookupIsContents(s, hash, k);
  }

  // ----- runs

  datatype Event<K, V> = Put(key: K, value: V) | Remove(key: K) | Wipe

  function StepTable<K(==), V>(s: seq<Slot<K, V>>, hash: K -> nat, ev: Event<K, V>): seq<Slot<K, V>> {
    match ev
    case Put(k, v) => Inserted(s, hash, k, v)
    case Remove(k) => Erased(s, hash, k)
    case Wipe => Blank(|s|)
  }

  function StepMap<K(==), V>(m: map<K, V>, ev: Event<K, V>): map<K, V> {
    match ev
    case Put(k, v) => m[k := v]
    case Remove(k) => m - {k}
    case Wipe => map[]
  }

  function RunTable<K(==), V>(s: seq<Slot<K, V>>, hash: K -> nat, evs: seq<Event<K, V>>): seq<Slot<K, V>>
    decreases |evs|
  {
    if evs == [] then s else RunTable(StepTable(s, hash, evs[0]), hash, evs[1..])
  }

  function RunMap<K(==), V>(m: map<K, V>, evs: seq<Event<K, V>>): map<K, V>
    decreases |evs|
  {
    if evs == [] then m else RunMap(StepMap(m, evs[0]), evs[1..])
  }

  /** Every key put is, at that time, absent or updated in place or moved by growth. */
  ghost predicate Careful<K, V>(s: seq<Slot<K, V>>, hash: K -> nat, evs: seq<Event<K, V>>)
    decreases |evs|
  {
    evs != [] ==>
      && Safe(s, hash, evs[0])
      && Careful(StepTable(s, hash, evs[0]), hash, evs[1..])
  }

  /** Every key put is absent from the map at that time. */
  ghost predicate AllFresh<K, V>(m: map<K, V>, evs: seq<Event<K, V>>)
    decreases |evs|
  {
    evs != [] ==> (evs[0].Put? ==> evs[0].key !in m) && AllFresh(StepMap(m, evs[0]), evs[1..])
  }

  lemma WipeIsEmpty<K, V>(cap: nat, hash: K -> nat)
    ensures Reachable(Blank<K, V>(cap), hash) && NoDuplicates(Blank<K, V>(cap)) && Contents(Blank<K, V>(cap)) == map[]
  {
    BlankIsEmpty<K, V>(cap, cap);
  }

  ghost predicate IsMap<K, V>(s: seq<Slot<K, V>>, hash: K -> nat, m: map<K, V>) {
    s != [] && Reachable(s, hash) && NoDuplicates(s) && Contents(s) == m
  }

  /** The event leaves no duplicate. */
  ghost predicate Safe<K, V>(s: seq<Slot<K, V>>, hash: K -> nat, ev: Event<K, V>) {
    ev.Put? ==> Crowded(s) || !BehindTomb(s, hash, ev.key)
  }

  lemma StepRefinesMap<K(!new), V>(s: seq<Slot<K, V>>, hash: K -> nat, ev: Event<K, V>, m: map<K, V>)
    requires IsMap(s, hash, m) && Safe(s, hash, ev)
    ensures IsMap(StepTable(s, hash, ev), hash, StepMap(m, ev))
  {
    match ev
    case Put(k, v) => InsertedRefines(s, hash, k, v); GrownHolds(s, hash);
    case Remove(k) => ErasedRefines(s, hash, k);
    case Wipe => WipeIsEmpty<K, V>(|s|, hash);
  }

  lemma AbsentIsSafe<K(!new), V>(s: seq<Slot<K, V>>, hash: K -> nat, ev: Event<K, V>, m: map<K, V>)
    requires IsMap(s, hash, m) && (ev.Put? ==> ev.key !in m)
    ensures Safe(s, hash, ev)
  {
    ContentsAre(s, |s|);
  }

  lemma {:induction false} CarefulRunIsMap<K(!new), V>(s: seq<Slot<K, V>>, hash: K -> nat,
                                                       evs: seq<Event<K, V>>, m: map<K, V>)
    requires IsMap(s, hash, m) && Careful(s, hash, evs)
    ensures IsMap(RunTable(s, hash, evs), hash, RunMap(m, evs))
    decreases |evs|
  {
    if evs == [] {
    } else {
      assert Safe(s, hash, evs[0]);
      StepRefinesMap(s, hash, evs[0], m);
      CarefulRunIsMap(StepTable(s, hash, evs[0]), hash, evs[1..], StepMap(m, evs[0]));
    }
  }

  /** Over every careful run the table is a finite map: it finds exactly what the map holds,
      and counts its keys. */
  lemma RunRefinesMap<K(!new), V>(s: seq<Slot<K, V>>, hash: K -> nat, evs: seq<Event<K, V>>, m: map<K, V>)
    requires IsMap(s, hash, m) && Careful(s, hash, evs)
    ensures IsMap(RunTable(s, hash, evs), hash, RunMap(m, evs))
    ensures Count(RunTable(s, hash, evs), |RunTable(s, hash, evs)|) == |RunMap(m, evs)|
    ensures forall k :: Lookup(RunTable(s, hash, evs), hash, k) == Get(RunMap(m, evs), k)
  {
    CarefulRunIsMap(s, hash, evs, m);
    var t := RunTable(s, hash, evs);
    ContentsAre(t, |t|);
    forall k ensures Lookup(t, hash, k) == Get(RunMap(m, evs), k) { LookupIsContents(t, hash, k); }
  }

  /** Putting only absent keys is careful. */
  lemma {:induction false} FreshIsCareful<K(!new), V>(s: seq<Slot<K, V>>, hash: K -> nat,
                                                      evs: seq<Event<K, V>>, m: map<K, V>)
    requires IsMap(s, hash, m) && AllFresh(m, evs)
    ensures Careful(s, hash, evs)
    decreases |evs|
  {
    if evs == [] {
    } else {
      AbsentIsSafe(s, hash, evs[0], m);
      StepRefinesMap(s, hash, evs[0], m);
      FreshIsCareful(StepTable(s, hash, evs[0]), hash, evs[1..], StepMap(m, evs[0]));
    }
  }

  // ----- the stale duplicate

  lemma StaleValueReturns<K(!new), V>(s: seq<Slot<K, V>>, hash: K -> nat, k: K, v: V)
    requires s != [] && Reachable(s, hash) && NoDuplicates(s) && !Crowded(s) && BehindTomb(s, hash, k)
    ensures Erased(Inserted(s, hash, k, v), hash, k) == s && Lookup(s, hash, k).Some?
  {
    PlaceIsUpdate(s, hash, k, v);
    PlacedIsFound(s, hash, k, v);
    TargetOfStored(s, hash, k);
    StoredIsFound(s, hash, k);
    assert s[Target(s, hash, k) := Full(k, v)][Target(s, hash, k) := Tomb] == s;
  }

  /** Erasing a key just inserted removes it exactly when it was not left behind a
      tombstone; otherwise the value it had before comes back. */
  lemma EraseAfterInsert<K(!new), V>(s: seq<Slot<K, V>>, hash: K -> nat, k: K, v: V)
    requires s != [] && Reachable(s, hash) && NoDuplicates(s)
    ensures var stale := !Crowded(s) && BehindTomb(s, hash, k);
            && (stale ==> Lookup(s, hash, k).Some?)
            && Lookup(Erased(Inserted(s, hash, k, v), hash, k), hash, k) == if stale then Lookup(s, hash, k) else None
  {
    if !Crowded(s) && BehindTomb(s, hash, k) {
      StaleValueReturns(s, hash, k, v);
    } else {
      InsertedRefines(s, hash, k, v);
      ErasedLookup(Inserted(s, hash, k, v), hash, k, k);
    }
  }

  /** Such tables arise: put b, put a with the same home, remove b. */
  lemma CollisionHidesKey<K(!new), V>(cap: nat, hash: K -> nat, a: K, b: K, v: V, w: V)
    requires cap >= 8 && a != b && Home(hash, a, cap) == Home(hash, b, cap)
    ensures var t := Erased(Inserted(Inserted(Blank<K, V>(cap), hash, b, w), hash, a, v), hash, b);
            !Crowded(t) && BehindTomb(t, hash, a) && Lookup(t, hash, a) == Some(v)
  {
    var h := Home(hash, a, cap);
    var s0 := Blank<K, V>(cap);
    BlankIsEmpty<K, V>(cap, cap);
    assert InsertEnd(s0, b, h, 0) == 0;
    var s1 := Place(s0, hash, b, w);
    assert s1 == s0[h := Full(b, w)];
    CountUpdate(s0, h, Full(b, w), cap);
    assert InsertEnd(s1, a, h, 0) == InsertEnd(s1, a, h, 1) == 1;
    var s2 := Place(s1, hash, a, v);
    var g := Probe(h, 1, cap);
    assert s2 == s1[g := Full(a, v)];
    CountUpdate(s1, g, Full(a, v), cap);
    assert SearchEnd(s2, b, h, 0) == 0;
    var s3 := Erased(s2, hash, b);
    assert s3 == s2[h := Tomb];
    CountUpdate(s2, h, Tomb, cap);
    assert Matches(s3[g], a) && Distance(h, g, cap) == 1 && s3[Probe(h, 0, cap)].Tomb?;
    assert SearchEnd(s3, a, h, 0) == SearchEnd(s3, a, h, 1) == 1;
  }
}
