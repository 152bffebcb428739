/** The open-addressing hash map as a mutable object
    (include/hive_native/perf/flat_hash_map.hpp).  The hash function is a parameter. */
module FlatHashMap {
  import opened Wrappers
  import opened ProbeTable

  ghost predicate PowerOfTwo(n: nat) {
    n == 1 || (n > 1 && n % 2 == 0 && PowerOfTwo(n / 2))
  }

  lemma {:induction false} DoubledIsPower(c: nat, n: nat)
    requires PowerOfTwo(c)
    ensures PowerOfTwo(Doubled(c, n))
    decreases n - c
  {
    if c < n {
      assert PowerOfTwo(2 * c);
      DoubledIsPower(2 * c, n);
    }
  }

  /** Twice a power of two is the least power of two that is large enough. */
  lemma {:induction false} DoubledToPower(c: nat, n: nat)
    requires PowerOfTwo(c) && PowerOfTwo(n) && c <= n
    ensures Doubled(c, n) == n
    decreases n - c
  {
    if c < n {
      PowersAreApart(c, n);
      assert PowerOfTwo(2 * c);
      DoubledToPower(2 * c, n);
    }
  }

  lemma {:induction false} PowersAreApart(c: nat, n: nat)
    requires PowerOfTwo(c) && PowerOfTwo(n) && c < n
    ensures 2 * c <= n
  {
    if c > 1 { PowersAreApart(c / 2, n / 2); }
  }

  lemma DoublingIsExact(cap: nat)
    requires PowerOfTwo(cap)
    ensures Doubled(1, 2 * cap) == 2 * cap
  {
    assert PowerOfTwo(2 * cap);
    DoubledToPower(1, 2 * cap);
  }

  lemma RebuiltStep<K(!new), V>(s: seq<Slot<K, V>>, hash: K -> nat, i: nat, cap: nat)
    requires i < |s| && cap >= 8 && cap >= 2 * |s|
    ensures !Crowded(Rebuilt(s, hash, i, cap))
    ensures Rebuilt(s, hash, i + 1, cap) ==
            if s[i].Full? then Inserted(Rebuilt(s, hash, i, cap), hash, s[i].key, s[i].value)
            else Rebuilt(s, hash, i, cap)
  {
    RebuiltHolds(s, hash, i, cap);
  }

  /** What the size says about an insertion into a table with unique keys. */
  lemma InsertReport<K(!new), V>(s: seq<Slot<K, V>>, hash: K -> nat, k: K, v: V, before: nat, after: nat)
    requires s != [] && Reachable(s, hash)
    requires before == Count(Grown(s, hash), |Grown(s, hash)|)
    requires after == Count(Inserted(s, hash, k, v), |Inserted(s, hash, k, v)|)
    ensures NoDuplicates(s) ==>
              && (NoDuplicates(Inserted(s, hash, k, v)) <==> Crowded(s) || !BehindTomb(s, hash, k))
              && (NoDuplicates(Inserted(s, hash, k, v)) ==>
                    && Contents(Inserted(s, hash, k, v)) == Contents(s)[k := v]
                    && (after == before + 1 <==> k !in Contents(s)))
  {
    if NoDuplicates(s) {
      InsertedRefines(s, hash, k, v);
      GrownHolds(s, hash);
      var g, t := Grown(s, hash), Inserted(s, hash, k, v);
      ContentsAre(g, |g|);
      if NoDuplicates(t) { ContentsAre(t, |t|); }
    }
  }

  class HashMap<K(!new, ==), V> {
    const hash: K -> nat
    var slots: array<Slot<K, V>>
    var size: nat

    ghost predicate Valid()
      reads this, slots
    {
      && slots.Length >= 8 && PowerOfTwo(slots.Length)
      && size == Count(slots[..], slots.Length)
      && Reachable(slots[..], hash)
    }

    /** No key is stored twice. */
    ghost predicate Unique()
      reads this, slots
    {
      NoDuplicates(slots[..])
    }

    ghost function Model(): map<K, V>
      reads this, slots
    {
      Contents(slots[..])
    }

    constructor (cap: nat, hash: K -> nat)
      ensures Valid() && Unique() && Model() == map[] && fresh(slots)
      ensures this.hash == hash && slots.Length == Doubled(1, if cap < 8 then 8 else cap)
      ensures slots[..] == Blank(slots.Length)
    {
      this.hash := hash;
      slots := new Slot<K, V>[0](_ => Empty);
      size := 0;
      new;
      Rehash(if cap < 8 then 8 else cap);
      WipeIsEmpty<K, V>(slots.Length, hash);
    }

    method Clear()
      requires Valid()
      modifies this, slots
      ensures Valid() && Unique() && Model() == map[] && slots == old(slots) && slots[..] == Blank(slots.Length)
    {
      for i := 0 to slots.Length
        invariant forall j :: 0 <= j < i ==> slots[j].Empty?
        modifies slots
      {
        slots[i] := Empty;
      }
      size := 0;
      assert slots[..] == Blank(slots.Length);
      BlankIsEmpty<K, V>(slots.Length, slots.Length);
    }

    /** The probe loop of an insertion; it ends because some slot is not full. */
    method PutSlot(key: K, value: V) returns (added: bool)
      requires Valid() && size < slots.Length
      modifies this, slots
      ensures Valid() && slots == old(slots)
      ensures slots[..] == Place(old(slots[..]), hash, key, value)
      ensures size == old(size) + (if added then 1 else 0)
    {
      ghost var s := slots[..];
      PlaceIsUpdate(s, hash, key, value);
      PlaceKeepsReachable(s, hash, key, value);
      PlaceCount(s, hash, key, value);
      var cap := slots.Length;
      var home := hash(key) % cap;
      InsertionStops(s, key, home);
      var i := home;
      ghost var d := 0;
      while true
        invariant d < cap && i == Probe(home, d, cap)
        invariant slots[..] == s && size == old(size)
        invariant InsertEnd(s, key, home, d) == InsertEnd(s, key, home, 0)
        decreases cap - d
      {
        if !slots[i].Full? {
          slots[i] := Full(key, value);
          size := size + 1;
          return true;
        }
        if slots[i].key == key {
          slots[i] := Full(key, value);
          return false;
        }
        i := if i + 1 == cap then 0 else i + 1;
        d := d + 1;
      }
    }

    /** Puts the key into the first slot on its path that is not full or already holds it,
        growing the table first when it is seven tenths full.  From unique keys, the result
        is the updated map exactly when it grew or the key was not stored behind a tombstone. */
    method Insert(key: K, value: V) returns (added: bool)
      requires Valid()
      modifies this, slots
      ensures Valid() && if old(Crowded(slots[..])) then fresh(slots) else slots == old(slots)
      ensures slots.Length == old(slots.Length) * if old(size) * 10 >= old(slots.Length) * 7 then 2 else 1
      ensures slots[..] == Inserted(old(slots[..]), hash, key, value)
      ensures old(Unique()) ==>
                && (Unique() <==> old(Crowded(slots[..])) || !old(BehindTomb(slots[..], hash, key)))
                && (Unique() ==> Model() == old(Model())[key := value] && (added <==> key !in old(Model())))
      decreases if size * 10 >= slots.Length * 7 then 3 else 0
    {
      ghost var before := slots[..];
      GrownHolds(before, hash);
      DoublingIsExact(slots.Length);
      if size * 10 >= slots.Length * 7 { Rehash(slots.Length * 2); }
      ghost var grown := slots[..];
      ghost var size0 := size;
      assert grown == Grown(before, hash);
      added := PutSlot(key, value);
      InsertReport(before, hash, key, value, size0, size);
    }

    method FindSlot(key: K) returns (r: Option<nat>)
      requires Valid()
      ensures r == Find(slots[..], hash, key)
    {
      var cap := slots.Length;
      var home := hash(key) % cap;
      var i := home;
      for n := 0 to cap
        invariant n < cap ==> i == Probe(home, n, cap)
        invariant SearchEnd(slots[..], key, home, n) == SearchEnd(slots[..], key, home, 0)
      {
        if slots[i].Empty? { return None; }
        if slots[i].Full? && slots[i].key == key { return Some(i); }
        i := if i + 1 == cap then 0 else i + 1;
      }
      return None;
    }

    method Lookup(key: K) returns (r: Option<V>)
      requires Valid()
      ensures r == ProbeTable.Lookup(slots[..], hash, key)
      ensures Unique() ==> r == Get(Model(), key)
    {
      LookupIsModel(key);
      var at := FindSlot(key);
      match at
      case None => r := None;
      case Some(j) => r := Some(slots[j].value);
    }

    lemma LookupIsModel(key: K)
      requires Valid()
      ensures Unique() ==> ProbeTable.Lookup(slots[..], hash, key) == Get(Model(), key)
    {
      if Unique() { LookupIsContents(slots[..], hash, key); }
    }

    method Erase(key: K) returns (removed: bool)
      requires Valid()
      modifies this, slots
      ensures Valid() && slots == old(slots)
      ensures slots[..] == Erased(old(slots[..]), hash, key)
      ensures removed <==> Find(old(slots[..]), hash, key).Some?
      ensures old(Unique()) ==> Unique() && Model() == old(Model()) - {key} && (removed <==> key in old(Model()))
    {
      ghost var s := slots[..];
      if Unique() { ErasedRefines(s, hash, key); }
      var at := FindSlot(key);
      if at.Some? {
        CountUpdate(s, at.value, Tomb, |s|);
        EraseKeepsReachable(s, hash, key);
        slots[at.value] := Tomb;
        size := size - 1;
      }
      removed := at.Some?;
      assert slots[..] == Erased(s, hash, key);
    }

    method Capacity(n: nat) returns (cap: nat)
      ensures cap == Doubled(1, n) && PowerOfTwo(cap)
    {
      cap := 1;
      while cap < n
        invariant cap > 0 && PowerOfTwo(cap) && Doubled(cap, n) == Doubled(1, n)
        decreases n - cap
      {
        assert PowerOfTwo(cap * 2);
        cap := cap * 2;
      }
    }

    method Rehash(n: nat)
      requires n >= 8 && n >= 2 * slots.Length
      modifies this
      ensures Valid() && fresh(slots)
      ensures slots[..] == Rebuilt(old(slots[..]), hash, old(slots.Length), Doubled(1, n))
      decreases 2
    {
      var cap := Capacity(n);
      var previous := slots;
      slots := new Slot<K, V>[cap](_ => Empty);
      size := 0;
      WipeIsEmpty<K, V>(cap, hash);
      BlankIsEmpty<K, V>(cap, cap);
      assert slots[..] == Blank(cap);
      Reinsert(previous);
    }

    /** Inserts every full slot of the previous array, in slot order. */
    method Reinsert(previous: array<Slot<K, V>>)
      requires Valid() && slots != previous && slots.Length >= 2 * previous.Length
      requires slots[..] == Blank(slots.Length)
      modifies this, slots
      ensures Valid() && slots == old(slots)
      ensures slots[..] == Rebuilt(previous[..], hash, previous.Length, slots.Length)
      decreases 1
    {
      ghost var s, cap := previous[..], slots.Length;
      for i := 0 to previous.Length
        invariant Valid() && slots == old(slots) && previous[..] == s
        invariant slots[..] == Rebuilt(s, hash, i, cap)
      {
        RebuiltStep(s, hash, i, cap);
        if previous[i].Full? {
          var added := Insert(previous[i].key, previous[i].value);
        }
      }
    }
  }
}
