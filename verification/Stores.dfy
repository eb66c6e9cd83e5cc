/** The stores of db.py: a dictionary, overlays that hide changes from the store below, and the
    reference-counting store on top. */
module Stores {
  import opened Nibbles
  import opened Encoding
  import opened Options
  import opened RefcountValues
  import opened Sealed

  /** Entries over what is below; a missing entry hides what is below it. */
  function Overlaid<K, V>(under: map<K, V>, entries: map<K, Option<V>>): map<K, V> {
    map k | k in under.Keys + entries.Keys && (k in entries ==> entries[k].Some?) ::
      if k in entries then entries[k].value else under[k]
  }

  /** Looks into `Db.Shows`. */
  predicate OpenDb(s: Seal) { true }

  /** With nothing below this is the dictionary of _EphemDB. Over another store it is an OverlayDB: it
      keeps all changes to itself, deletions as missing entries. */
  class Db<K(==), V(==)> {
    const below: Db?<K, V>
    var entries: map<K, Option<V>>
    /** This store and all below. */
    ghost const Repr: set<Db<K, V>>

    ghost predicate Valid()
      reads this, Repr
      decreases Repr
    {
      && this in Repr
      && (below != null ==> below in Repr && below.Repr <= Repr - {this} && below.Valid())
      && (below == null ==> forall k :: k in entries ==> entries[k].Some?)
    }

    /** A store over a valid store is valid, and shows its own entries over what that shows. */
    lemma Stacked()
      requires this in Repr && below != null && below in Repr && below.Repr <= Repr - {this} && below.Valid()
      ensures Valid() && Shown() == Overlaid(below.Shown(), entries)
    {
    }

    /** And the other way round. */
    lemma Layers()
      requires Valid() && below != null
      ensures this in Repr && below in Repr && below.Repr <= Repr - {this} && below.Valid()
      ensures Shown() == Overlaid(below.Shown(), entries)
    {
    }

    constructor (below: Db?<K, V>)
      requires below != null ==> below.Valid()
      ensures Valid() && this.below == below && Shown() == if below == null then map[] else below.Shown()
      ensures Repr == {this} + if below == null then {} else below.Repr
    {
      this.below, entries := below, map[];
      Repr := {this} + if below == null then {} else below.Repr;
    }

    /** What a reader sees. */
    function Shown(): map<K, V>
      requires Valid()
      reads this, Repr
      decreases Repr
    {
      Overlaid(if below == null then map[] else below.Shown(), entries)
    }

    ghost predicate Shows(m: map<K, V>)
      reads this, Repr
    {
      forall s: Seal :: OpenDb(s) ==> Valid() && Shown() == m
    }

    lemma Reads(m: map<K, V>)
      requires Shows(m)
      ensures Valid() && Shown() == m
    {
      assert OpenDb(Seal);
    }

    function Get(key: K): (r: Option<V>)
      requires Valid()
      reads this, Repr
      ensures r.Some? <==> key in Shown()
      ensures r.Some? ==> r.value == Shown()[key]
      decreases Repr
    {
      if key in entries then entries[key] else if below == null then None else below.Get(key)
    }

    method Put(key: K, value: V)
      requires Valid()
      modifies this
      ensures Valid() && Shown() == old(Shown())[key := value]
    {
      entries := entries[key := Some(value)];
    }

    /** A dictionary fails on an absent key; an overlay hides the key, present or not. */
    method Delete(key: K) returns (ok: bool)
      requires Valid()
      modifies this
      ensures Valid() && Shown() == old(Shown()) - {key}
      ensures ok <==> below != null || key in old(Shown())
    {
      ok := below != null || key in entries;
      entries := if below == null then entries - {key} else entries[key := None];
    }
  }

  /** The counting store over a dictionary or an overlay. */
  class RefcountDb {
    const db: Db<Bytes, Bytes>

    constructor (db: Db<Bytes, Bytes>)
      ensures this.db == db
    {
      this.db := db;
    }

    function Get(key: Bytes): (r: Option<Bytes>)
      requires db.Valid()
      reads this, db, db.Repr
      ensures r == if key in db.Shown() then Some(Content(db.Shown()[key])) else None
    {
      var stored := db.Get(key);
      if stored.Some? then Some(Content(stored.value)) else None
    }

    /** ok is false if the assertion fails that the key has this value already. */
    method Put(key: Bytes, value: Bytes) returns (ok: bool)
      requires db.Valid()
      modifies db
      ensures db.Valid() && ok == RefcountValues.Put(old(db.Shown()), key, value).Some?
      ensures db.Shown() == if ok then RefcountValues.Put(old(db.Shown()), key, value).value else old(db.Shown())
    {
      var existing := db.Get(key);
      if existing.None? {
        db.Put(key, ONE + value);
        return true;
      }
      if Content(existing.value) != value { return false; }
      db.Put(key, Add1(Counter(existing.value)) + value);
      return true;
    }

    method Delete(key: Bytes) returns (ok: bool)
      requires db.Valid()
      modifies db
      ensures db.Valid() && ok == RefcountValues.Delete(old(db.Shown()), key).Some?
      ensures db.Shown() == if ok then RefcountValues.Delete(old(db.Shown()), key).value else old(db.Shown())
    {
      var existing := db.Get(key);
      if existing.None? { return false; }
      if Counter(existing.value) == ONE {
        var _ := db.Delete(key);
        return true;
      }
      if FromBigEndian(Counter(existing.value)) == 0 { return false; }
      db.Put(key, Sub1(Counter(existing.value)) + Content(existing.value));
      return true;
    }
  }

  /** A run on a counting store stacked on an overlay counts as the run on values does, and the store
      below the overlay shows what it showed. */
  method RunOnOverlay(base: Db<Bytes, Bytes>, content: Bytes -> Bytes, ops: seq<DbOp>, ghost counts: Counts)
    returns (store: RefcountDb)
    requires base.Valid() && Represents(base.Shown(), counts, content) && InBounds(counts, ops)
    ensures base.Valid() && base.Shown() == old(base.Shown())
    ensures store.db.below == base && store.db.Valid() && fresh(store.db)
    ensures forall k :: GetRefcount(store.db.Shown(), k) == CountIn(counts, k) + Puts(ops, k) - Deletes(ops, k)
    ensures forall k :: store.Get(k) == if GetRefcount(store.db.Shown(), k) > 0 then Some(content(k)) else None
  {
    RunCounts(base.Shown(), counts, content, ops);
    var overlay := new Db(base);
    store := new RefcountDb(overlay);
    var _ := RunAll(store, content, ops);
  }

  /** A run up to its first exception. */
  method RunAll(store: RefcountDb, content: Bytes -> Bytes, ops: seq<DbOp>) returns (ok: bool)
    requires store.db.Valid()
    modifies store.db
    ensures store.db.Valid() && ok == RunDb(old(store.db.Shown()), content, ops).Some?
    ensures ok ==> store.db.Shown() == RunDb(old(store.db.Shown()), content, ops).value
  {
    for i := 0 to |ops|
      invariant store.db.Valid()
      invariant RunDb(store.db.Shown(), content, ops[i..]) == RunDb(old(store.db.Shown()), content, ops)
    {
      ghost var left := ops[i..];
      assert left[0] == ops[i] && left[1..] == ops[i + 1..];
      if ops[i].PutOp? { ok := store.Put(ops[i].key, content(ops[i].key)); } else { ok := store.Delete(ops[i].key); }
      if !ok { return; }
    }
    ok := true;
  }
}
