/** The cache of model instances shared by all models (common/djangoapps/cache_toolbox). */
module InstanceCache {
  import opened Wrappers
  import Decimal

  /** A model, by its app label and module name. */
  datatype Model = Model(appLabel: string, name: string)

  type Field = string

  /** A field value; files cannot be cached as such, only by name. */
  datatype Value = Plain(text: string) | File(name: string)

  /** A row's fields beside its primary key. */
  type Fields = map<Field, Value>

  /** A model's non-key fields: those that are not file fields, those that are, and everyone's default. */
  datatype Schema = Schema(plain: set<Field>, files: set<Field>, defaults: Fields)

  type Key = string

  datatype Slot = Slot(data: map<Field, string>, expires: int)

  datatype Table = Table(schema: Schema, rows: map<int, Fields>)

  function InstanceKey(m: Model, pk: int): Key {
    m.appLabel + "." + m.name + ":" + Decimal.PrintInt(pk)
  }

  /** The position of the first, or last, occurrence of a character. */
  function FirstAt(s: string, c: char): nat
    requires c in s
  {
    if s[0] == c then 0 else 1 + FirstAt(s[1..], c)
  }

  lemma {:induction false} FirstAtIs(a: string, c: char, b: string)
    requires c !in a
    ensures c in a + [c] + b && FirstAt(a + [c] + b, c) == |a|
  {
    if a == "" {
      assert (a + [c] + b)[0] == c;
    } else {
      FirstAtIs(a[1..], c, b);
      assert (a + [c] + b)[1..] == a[1..] + [c] + b;
      assert (a + [c] + b)[|a|] == c;
    }
  }

  /** Splitting at the first separator is unambiguous. */
  lemma FirstSplit(a: string, b: string, a': string, b': string, c: char)
    requires c !in a && c !in a' && a + [c] + b == a' + [c] + b'
    ensures a == a' && b == b'
  {
    FirstAtIs(a, c, b);
    FirstAtIs(a', c, b');
    assert (a + [c] + b)[..|a|] == a && (a' + [c] + b')[..|a'|] == a';
    assert (a + [c] + b)[|a| + 1..] == b && (a' + [c] + b')[|a'| + 1..] == b';
  }

  /** Splitting at the last separator is unambiguous. */
  lemma {:induction false} LastSplit(a: string, b: string, a': string, b': string, c: char)
    requires c !in b && c !in b' && a + [c] + b == a' + [c] + b'
    ensures a == a' && b == b'
    decreases |b|
  {
    var s := a + [c] + b;
    assert s == a' + [c] + b';
    EndsOnSeparator(a, b, c);
    EndsOnSeparator(a', b', c);
    if b == "" {
      assert s[..|s| - 1] == a && s[..|s| - 1] == a';
    } else {
      var d, d' := b[..|b| - 1], b'[..|b'| - 1];
      assert s[..|s| - 1] == a + [c] + d && s[..|s| - 1] == a' + [c] + d';
      LastSplit(a, d, a', d', c);
      assert s[|s| - 1] == b[|b| - 1] == b'[|b'| - 1];
      assert b == d + [b[|b| - 1]] && b' == d' + [b'[|b'| - 1]];
    }
  }

  lemma EndsOnSeparator(a: string, b: string, c: char)
    requires c !in b
    ensures var s := a + [c] + b; s[|s| - 1] == c <==> b == ""
  {
    var s := a + [c] + b;
    assert b != "" ==> s[|s| - 1] == b[|b| - 1];
  }

  lemma PrintNoColon(pk: int)
    ensures ':' !in Decimal.PrintInt(pk)
  {
    var digits := Decimal.Print(if pk < 0 then -pk else pk);
    assert forall i :: 0 <= i < |digits| ==> Decimal.IsDigit(digits[i]);
  }

  /** Two cache keys agree only for the same row of the same model, if app labels have no dot. */
  lemma KeyInjective(m: Model, pk: int, m': Model, pk': int)
    requires '.' !in m.appLabel && '.' !in m'.appLabel
    ensures InstanceKey(m, pk) == InstanceKey(m', pk') <==> m == m' && pk == pk'
  {
    if InstanceKey(m, pk) == InstanceKey(m', pk') {
      PrintNoColon(pk);
      PrintNoColon(pk');
      LastSplit(m.appLabel + "." + m.name, Decimal.PrintInt(pk), m'.appLabel + "." + m'.name, Decimal.PrintInt(pk'),
                ':');
      FirstSplit(m.appLabel, m.name, m'.appLabel, m'.name, '.');
      Decimal.PrintIntInjective(pk, pk');
    }
  }

  predicate Conforms(schema: Schema, fields: Fields) {
    && fields.Keys == schema.plain + schema.files
    && (forall f :: f in schema.plain ==> fields[f].Plain?)
    && (forall f :: f in schema.files ==> fields[f].File?)
  }

  /** What is cached of a row: plain values as they are, files by name. */
  function Cached(fields: Fields): map<Field, string> {
    map f | f in fields :: match fields[f] case Plain(text) => text case File(name) => name
  }

  predicate WellFormed(schema: Schema) {
    schema.plain !! schema.files && Conforms(schema, schema.defaults)
  }

  /** `model(pk=pk, **data)`: an unknown field is an error, a missing one gets its default. */
  function Rebuilt(schema: Schema, data: map<Field, string>): Option<Fields> {
    if !(data.Keys <= schema.defaults.Keys) then None
    else Some(map f | f in schema.defaults ::
                if f !in data then schema.defaults[f] else if f in schema.files then File(data[f]) else Plain(data[f]))
  }

  /** A row with the fields that are not known replaced by their defaults. */
  function WithDefaults(schema: Schema, fields: Fields, known: set<Field>): Fields
  {
    map f | f in fields :: if f in known || f !in schema.defaults then fields[f] else schema.defaults[f]
  }

  /** Data that agrees with a row rebuilds it exactly if every field it lacks has its default in the row. */
  lemma RebuildsRow(schema: Schema, fields: Fields, data: map<Field, string>)
    requires Conforms(schema, fields) && WellFormed(schema)
    requires forall f :: f in data ==> f in fields && data[f] == Cached(fields)[f]
    ensures Rebuilt(schema, data) == Some(WithDefaults(schema, fields, data.Keys))
    ensures Rebuilt(schema, data) == Some(fields) <==>
            forall f :: f in fields && f !in data ==> fields[f] == schema.defaults[f]
    ensures data == Cached(fields) ==> Rebuilt(schema, data) == Some(fields)
  {
    assert Cached(fields).Keys == fields.Keys;
    var built := WithDefaults(schema, fields, data.Keys);
    assert Rebuilt(schema, data).value == built;
    if forall f :: f in fields && f !in data ==> fields[f] == schema.defaults[f] {
      assert built == fields;
    } else {
      var f :| f in fields && f !in data && fields[f] != schema.defaults[f];
      assert built[f] != fields[f];
    }
  }

  datatype Found = Row(pk: int, fields: Fields) | Nothing | DoesNotExist

  type Tables = map<Model, Table>

  type Cache = map<Key, Slot>

  predicate TableConforms(t: Table) {
    WellFormed(t.schema) && forall pk :: pk in t.rows ==> Conforms(t.schema, t.rows[pk])
  }

  /** The model cannot be built from the data: another release, with a field this one lacks, wrote it. */
  predicate Unreadable(t: Table, data: map<Field, string>) {
    Rebuilt(t.schema, data).None?
  }

  /** The data is of no use, or agrees with the stored row on the fields this release knows. */
  predicate Agrees(t: Table, pk: int, data: map<Field, string>) {
    Unreadable(t, data) ||
    (pk in t.rows && forall f :: f in data && f in t.rows[pk] ==> data[f] == Cached(t.rows[pk])[f])
  }

  /** The cache entry is the row's, and agrees with it. */
  predicate Backs(tables: Tables, cache: Cache, m: Model, pk: int, key: Key) {
    key in cache && key == InstanceKey(m, pk) && m in tables && Agrees(tables[m], pk, cache[key].data)
  }

  /** Every entry belongs to a row, and if it can be read at all it agrees with that row as it is stored. */
  ghost predicate Fits(tables: Tables, cache: Cache) {
    forall key :: key in cache ==> exists m, pk :: Backs(tables, cache, m, pk, key)
  }

  /** No entry lacks a field of its model. */
  ghost predicate Full(tables: Tables, cache: Cache) {
    forall m, pk :: m in tables && InstanceKey(m, pk) in cache ==>
      tables[m].schema.defaults.Keys <= cache[InstanceKey(m, pk)].data.Keys
  }

  /** The data lacks a field that does not have its default in the row. */
  predicate LacksValue(t: Table, pk: int, data: map<Field, string>) {
    pk in t.rows &&
    exists f :: f in t.rows[pk] && f in t.schema.defaults && f !in data && t.rows[pk][f] != t.schema.defaults[f]
  }

  lemma EvictionFits(tables: Tables, cache: Cache, keys: set<Key>)
    requires Fits(tables, cache)
    ensures Fits(tables, cache - keys)
  {
    forall key | key in cache - keys
      ensures exists m, pk :: Backs(tables, cache - keys, m, pk, key)
    {
      var m, pk :| Backs(tables, cache, m, pk, key);
      assert Backs(tables, cache - keys, m, pk, key);
    }
  }

  /** After one row changed and its key was purged, the rest of the cache still fits. */
  lemma PurgeFits(tables: Tables, cache: Cache, tables': Tables, m: Model, pk: int)
    requires Fits(tables, cache) && m in tables && tables'.Keys == tables.Keys
    requires forall n :: n in tables && n != m ==> tables'[n] == tables[n]
    requires tables'[m].schema == tables[m].schema
    requires forall k :: k != pk && k in tables[m].rows ==>
               k in tables'[m].rows && tables'[m].rows[k] == tables[m].rows[k]
    ensures Fits(tables', cache - {InstanceKey(m, pk)})
  {
    var cache' := cache - {InstanceKey(m, pk)};
    forall key | key in cache'
      ensures exists n, k :: Backs(tables', cache', n, k, key)
    {
      var n, k :| Backs(tables, cache, n, k, key);
      assert Backs(tables', cache', n, k, key);
    }
  }

  predicate AllConform(tables: Tables) {
    forall m :: m in tables ==> '.' !in m.appLabel && TableConforms(tables[m])
  }

  /** A write of one row and its purge keep everything the cache is relied on for. */
  lemma WriteThenPurge(tables: Tables, cache: Cache, m: Model, pk: int, rows: map<int, Fields>)
    requires AllConform(tables) && Fits(tables, cache) && m in tables
    requires forall k :: k != pk && k in tables[m].rows ==> k in rows && rows[k] == tables[m].rows[k]
    requires forall k :: k in rows ==> Conforms(tables[m].schema, rows[k])
    ensures var after := tables[m := tables[m].(rows := rows)];
            && AllConform(after) && Fits(after, cache - {InstanceKey(m, pk)})
            && (Full(tables, cache) ==> Full(after, cache - {InstanceKey(m, pk)}))
  {
    PurgeFits(tables, cache, tables[m := tables[m].(rows := rows)], m, pk);
  }

  lemma FillFits(tables: Tables, cache: Cache, m: Model, pk: int, data: map<Field, string>, expires: int)
    requires Fits(tables, cache) && m in tables
    requires Agrees(tables[m], pk, data)
    ensures Fits(tables, cache[InstanceKey(m, pk) := Slot(data, expires)])
  {
    var key := InstanceKey(m, pk);
    var cache' := cache[key := Slot(data, expires)];
    assert Backs(tables, cache', m, pk, key);
    forall other | other in cache' && other != key
      ensures exists n, k :: Backs(tables, cache', n, k, other)
    {
      var n, k :| Backs(tables, cache, n, k, other);
      assert Backs(tables, cache', n, k, other);
    }
  }

  /** A cached entry that can be read rebuilds its row exactly if no value of the row is lacking. */
  lemma HitIsExact(tables: Tables, cache: Cache, m: Model, pk: int)
    requires Fits(tables, cache) && InstanceKey(m, pk) in cache
    requires m in tables && AllConform(tables)
    ensures var t, data := tables[m], cache[InstanceKey(m, pk)].data;
            Rebuilt(t.schema, data).Some? ==>
              && pk in t.rows && Rebuilt(t.schema, data).value == WithDefaults(t.schema, t.rows[pk], data.Keys)
              && (Rebuilt(t.schema, data).value == t.rows[pk] <==> !LacksValue(t, pk, data))
  {
    var n, k :| Backs(tables, cache, n, k, InstanceKey(m, pk));
    KeyInjective(m, pk, n, k);
    if Rebuilt(tables[m].schema, cache[InstanceKey(m, pk)].data).Some? {
      RebuildsRow(tables[m].schema, tables[m].rows[pk], cache[InstanceKey(m, pk)].data);
    }
  }

  lemma FillFull(tables: Tables, cache: Cache, m: Model, pk: int, slot: Slot)
    requires Full(tables, cache) && m in tables && tables[m].schema.defaults.Keys <= slot.data.Keys
    requires forall n :: n in tables ==> '.' !in n.appLabel
    ensures Full(tables, cache[InstanceKey(m, pk) := slot])
  {
    forall n, k | n in tables && InstanceKey(n, k) in cache[InstanceKey(m, pk) := slot]
      ensures tables[n].schema.defaults.Keys <= cache[InstanceKey(m, pk) := slot][InstanceKey(n, k)].data.Keys
    {
      KeyInjective(m, pk, n, k);
    }
  }

  /** What a lookup finds without a cache. */
  function Stored(t: Table, pk: Option<int>): Found {
    if pk.None? then Nothing
    else if pk.value in t.rows then Row(pk.value, t.rows[pk.value]) else DoesNotExist
  }

  predicate Live(cache: Cache, key: Key, now: int) {
    key in cache && now < cache[key].expires
  }

  predicate Hit(t: Table, cache: Cache, key: Key, now: int) {
    Live(cache, key, now) && !Unreadable(t, cache[key].data)
  }

  /** What a lookup finds: on a hit, whatever the entry's data builds. */
  function Lookup(t: Table, cache: Cache, key: Key, pk: int, now: int): Found {
    if Hit(t, cache, key, now) then Row(pk, Rebuilt(t.schema, cache[key].data).value) else Stored(t, Some(pk))
  }

  /** The cache after a lookup: a hit leaves it alone; otherwise a useless entry goes and a stored row goes in. */
  function AfterLookup(t: Table, cache: Cache, key: Key, pk: int, now: int, timeout: int): Cache {
    if Hit(t, cache, key, now) then cache
    else if pk in t.rows then cache[key := Slot(Cached(t.rows[pk]), now + timeout)]
    else if Live(cache, key, now) then cache - {key}
    else cache
  }

  /**
    A lookup finds what is stored unless it hits an entry that lacks a field, and the field does not have
    its default in the row; then it finds the row with the default. Full entries never do that.
   */
  lemma LookupIsExact(tables: Tables, cache: Cache, m: Model, pk: int, now: int)
    requires Fits(tables, cache)
    requires m in tables && AllConform(tables)
    ensures var t, key := tables[m], InstanceKey(m, pk);
            && (Lookup(t, cache, key, pk, now) == Stored(t, Some(pk)) <==>
                !(Hit(t, cache, key, now) && LacksValue(t, pk, cache[key].data)))
            && (Full(tables, cache) ==> Lookup(t, cache, key, pk, now) == Stored(t, Some(pk)))
            && (Hit(t, cache, key, now) ==>
                  && pk in t.rows
                  && Lookup(t, cache, key, pk, now) ==
                     Row(pk, WithDefaults(t.schema, t.rows[pk], cache[key].data.Keys)))
  {
    if Hit(tables[m], cache, InstanceKey(m, pk), now) {
      HitIsExact(tables, cache, m, pk);
    }
  }

  lemma LookupFits(tables: Tables, cache: Cache, m: Model, pk: int, now: int, timeout: int)
    requires Fits(tables, cache)
    requires m in tables && AllConform(tables)
    ensures var after := AfterLookup(tables[m], cache, InstanceKey(m, pk), pk, now, timeout);
            Fits(tables, after) && (Full(tables, cache) ==> Full(tables, after))
  {
    if pk in tables[m].rows {
      var slot := Slot(Cached(tables[m].rows[pk]), now + timeout);
      FillFits(tables, cache, m, pk, slot.data, slot.expires);
      if Full(tables, cache) {
        FillFull(tables, cache, m, pk, slot);
      }
    }
    EvictionFits(tables, cache, {InstanceKey(m, pk)});
  }

  /** A miss, step by step: a useless entry is purged first, and a stored row then cached. */
  lemma MissSteps(t: Table, cache: Cache, key: Key, pk: int, now: int, timeout: int)
    requires !Hit(t, cache, key, now)
    ensures var purged := if Live(cache, key, now) then cache - {key} else cache;
            && Lookup(t, cache, key, pk, now) == Stored(t, Some(pk))
            && AfterLookup(t, cache, key, pk, now, timeout) ==
               if pk in t.rows then purged[key := Slot(Cached(t.rows[pk]), now + timeout)] else purged
  {
    if pk in t.rows {
      var slot := Slot(Cached(t.rows[pk]), now + timeout);
      assert (cache - {key})[key := slot] == cache[key := slot];
    }
  }

  /** A row fetched past the cache is served from it until the timeout has passed, and no longer. */
  lemma ServedUntilTimeout(t: Table, cache: Cache, key: Key, pk: int, now: int, timeout: int, d: nat)
    requires TableConforms(t) && !Hit(t, cache, key, now) && pk in t.rows
    ensures var after := AfterLookup(t, cache, key, pk, now, timeout);
            && (Hit(t, after, key, now + d) <==> d < timeout)
            && Lookup(t, after, key, pk, now + d) == Row(pk, t.rows[pk])
  {
    RebuildsRow(t.schema, t.rows[pk], Cached(t.rows[pk]));
  }

  /** A row that is not there is never cached as missing: a lookup finds it as soon as it is saved. */
  lemma AbsenceNotCached(t: Table, cache: Cache, key: Key, pk: int, now: int, timeout: int, later: nat, saved: Table)
    requires !Hit(t, cache, key, now) && pk !in t.rows && pk in saved.rows
    requires saved.schema == t.schema
    ensures var after := AfterLookup(t, cache, key, pk, now, timeout);
            && Lookup(t, cache, key, pk, now) == DoesNotExist
            && Lookup(saved, after, key, pk, now + later) == Row(pk, saved.rows[pk])
  {
  }

  /** A lookup leaves the entries of all other rows alone. */
  lemma OthersStayCached(t: Table, cache: Cache, key: Key, pk: int, now: int, timeout: int, other: Key)
    requires other != key
    ensures var after := AfterLookup(t, cache, key, pk, now, timeout);
            (other in after <==> other in cache) && (other in cache ==> after[other] == cache[other])
  {
  }

  class Store {
    var tables: Tables
    var cache: Cache
    var now: int

    /** What the cache still serves agrees with what the tables hold. */
    ghost predicate Valid()
      reads this
    {
      AllConform(tables) && Fits(tables, cache)
    }

    constructor (schemas: map<Model, Schema>)
      requires forall m :: m in schemas ==> '.' !in m.appLabel && WellFormed(schemas[m])
      ensures Valid() && Full(tables, cache) && cache == map[]
      ensures tables == map m | m in schemas :: Table(schemas[m], map[])
    {
      tables := map m | m in schemas :: Table(schemas[m], map[]);
      cache, now := map[], 0;
    }

    /** Time passes; any entries may be evicted. */
    method Pass(d: nat, evicted: set<Key>)
      requires Valid()
      modifies this`now, this`cache
      ensures Valid() && now == old(now) + d && cache == old(cache) - evicted
      ensures old(Full(tables, cache)) ==> Full(tables, cache)
    {
      now := now + d;
      EvictionFits(tables, cache, evicted);
      cache := cache - evicted;
    }

    /** A server of another release, whose model has fields more or fewer, caches its own view of a row. */
    method CacheByOtherRelease(m: Model, pk: int, slot: Slot)
      requires Valid() && m in tables && Agrees(tables[m], pk, slot.data)
      modifies this`cache
      ensures Valid() && cache == old(cache)[InstanceKey(m, pk) := slot]
    {
      FillFits(tables, cache, m, pk, slot.data, slot.expires);
      cache := cache[InstanceKey(m, pk) := slot];
    }

    method DeleteInstance(m: Model, pk: int)
      modifies this`cache
      ensures cache == old(cache) - {InstanceKey(m, pk)}
    {
      cache := cache - {InstanceKey(m, pk)};
    }

    /** `instance.save()`: the write, then the `post_save` handler. */
    method Save(m: Model, pk: int, fields: Fields)
      requires Valid() && m in tables && Conforms(tables[m].schema, fields)
      modifies this`tables, this`cache
      ensures Valid()
      ensures tables == old(tables)[m := old(tables)[m].(rows := old(tables)[m].rows[pk := fields])]
      ensures cache == old(cache) - {InstanceKey(m, pk)} && (old(Full(tables, cache)) ==> Full(tables, cache))
    {
      var t := tables[m];
      WriteThenPurge(tables, cache, m, pk, t.rows[pk := fields]);
      tables := tables[m := t.(rows := t.rows[pk := fields])];
      DeleteInstance(m, pk);
    }

    /** `instance.delete()`: the deletion, then the `post_delete` handler. */
    method Delete(m: Model, pk: int)
      requires Valid() && m in tables
      modifies this`tables, this`cache
      ensures Valid()
      ensures tables == old(tables)[m := old(tables)[m].(rows := old(tables)[m].rows - {pk})]
      ensures cache == old(cache) - {InstanceKey(m, pk)} && (old(Full(tables, cache)) ==> Full(tables, cache))
    {
      var t := tables[m];
      WriteThenPurge(tables, cache, m, pk, t.rows - {pk});
      tables := tables[m := t.(rows := t.rows - {pk})];
      DeleteInstance(m, pk);
    }

    /** `Model.get_cached(pk)`; as long as every entry is full, exactly what is stored. */
    method GetCached(m: Model, pk: Option<int>, timeout: int) returns (found: Found)
      requires Valid() && m in tables
      modifies this`cache
      ensures Valid() && (old(Full(tables, cache)) ==> Full(tables, cache) && found == Stored(tables[m], pk))
      ensures pk.None? ==> found == Nothing && cache == old(cache)
      ensures pk.Some? ==>
                var t, key := tables[m], InstanceKey(m, pk.value);
                && cache == AfterLookup(t, old(cache), key, pk.value, now, timeout)
                && found == if Hit(t, old(cache), key, now) && pk.value in t.rows
                            then Row(pk.value, WithDefaults(t.schema, t.rows[pk.value], old(cache)[key].data.Keys))
                            else Stored(t, pk)
    {
      if pk.None? {
        return Nothing;
      }
      LookupIsExact(tables, cache, m, pk.value, now);
      LookupFits(tables, cache, m, pk.value, now, timeout);
      found := GetInstance(m, pk.value, timeout);
    }

    method GetInstance(m: Model, pk: int, timeout: int) returns (found: Found)
      requires m in tables
      modifies this`cache
      ensures found == Lookup(tables[m], old(cache), InstanceKey(m, pk), pk, now)
      ensures cache == AfterLookup(tables[m], old(cache), InstanceKey(m, pk), pk, now, timeout)
    {
      var key := InstanceKey(m, pk);
      if !Hit(tables[m], cache, key, now) {
        MissSteps(tables[m], cache, key, pk, now, timeout);
      }
      if key in cache && now < cache[key].expires {
        var instance := Rebuilt(tables[m].schema, cache[key].data);
        if instance.Some? {
          return Row(pk, instance.value);
        }
        cache := cache - {key};
      }
      if pk !in tables[m].rows {
        return DoesNotExist;
      }
      var fields := tables[m].rows[pk];
      var data := CollectFields(fields);
      cache := cache[key := Slot(data, now + timeout)];
      return Row(pk, fields);
    }

    /** The loop over the instance's fields that fills the cached dictionary. */
    static method CollectFields(fields: Fields) returns (data: map<Field, string>)
      ensures data == Cached(fields)
    {
      data := map[];
      var left := fields.Keys;
      while left != {}
        invariant left <= fields.Keys && data.Keys == fields.Keys - left
        invariant forall f :: f in data ==> data[f] == Cached(fields)[f]
      {
        var f :| f in left;
        match fields[f] {
          case Plain(text) => data := data[f := text];
          case File(name) => data := data[f := name];
        }
        left := left - {f};
      }
    }
  }

  lemma OneFieldFewer(t: Table, pk: int, f: Field)
    requires TableConforms(t) && pk in t.rows && f in t.rows[pk]
    ensures var row, data := t.rows[pk], Cached(t.rows[pk]) - {f};
            && Agrees(t, pk, data) && !Unreadable(t, data) && f in t.schema.defaults
            && WithDefaults(t.schema, row, data.Keys) == row[f := t.schema.defaults[f]]
  {
    RebuildsRow(t.schema, t.rows[pk], Cached(t.rows[pk]) - {f});
    assert Cached(t.rows[pk]).Keys == t.rows[pk].Keys;
  }

  /**
    A release whose model has one field fewer caches a row; this release then finds the row with the field's
    default, whatever is stored in it.
   */
  method FewerFieldsHideValue(store: Store, m: Model, pk: int, f: Field) returns (found: Found)
    requires store.Valid() && m in store.tables && pk in store.tables[m].rows && f in store.tables[m].rows[pk]
    requires f in store.tables[m].schema.defaults && store.tables[m].rows[pk][f] != store.tables[m].schema.defaults[f]
    modifies store`cache
    ensures store.Valid() && found != Stored(store.tables[m], Some(pk))
    ensures found == Row(pk, store.tables[m].rows[pk][f := store.tables[m].schema.defaults[f]])
  {
    OneFieldFewer(store.tables[m], pk, f);
    var data := Cached(store.tables[m].rows[pk]) - {f};
    found := FoundAfter(store, m, pk, data);
  }

  method FoundAfter(store: Store, m: Model, pk: int, data: map<Field, string>) returns (found: Found)
    requires store.Valid() && m in store.tables && pk in store.tables[m].rows
    requires Agrees(store.tables[m], pk, data) && !Unreadable(store.tables[m], data)
    modifies store`cache
    ensures store.Valid()
    ensures found == Row(pk, WithDefaults(store.tables[m].schema, store.tables[m].rows[pk], data.Keys))
  {
    store.CacheByOtherRelease(m, pk, Slot(data, store.now + 1));
    found := store.GetCached(m, Some(pk), 1);
  }
}
