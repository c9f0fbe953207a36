/** Keyspace and table definitions (src/storage.rs): a metadata engine and two caches, which
    together behave like one plain catalog. Definitions are kept as values: their JSON form
    is not part of this model. */
module Schema {
  import opened Bytes
  import opened Keys
  import opened RowCodec

  datatype KeyspaceDef = KeyspaceDef(name: bytes, replication: seq<(bytes, bytes)>)

  datatype Meta = KeyspaceMeta(keyspace: KeyspaceDef) | TableMeta(table: TableDef) | Row(value: bytes)

  type TableName = (bytes, bytes)

  function KsKey(name: bytes): bytes {
    KS_PREFIX + name
  }

  /** The prefix of all table definitions of a keyspace. */
  function TablesPrefix(ks: bytes): (r: bytes)
    ensures r != [] && r[|r| - 1] == BANG
  {
    TB_PREFIX + ks + [BANG]
  }

  function TbKey(ks: bytes, tb: bytes): bytes {
    TablesPrefix(ks) + tb
  }

  /** The metadata engine and the two caches. */
  datatype State = State(
    meta: map<bytes, Meta>,
    keyspaces: map<bytes, KeyspaceDef>,
    tables: map<TableName, TableDef>)

  /* ---------- The operations ---------- */

  function PutKeyspace(s: State, d: KeyspaceDef): State {
    s.(meta := s.meta[KsKey(d.name) := KeyspaceMeta(d)], keyspaces := s.keyspaces[d.name := d])
  }

  /** A miss reads the engine and fills the cache. */
  function GetKeyspace(s: State, name: bytes): (State, Result<Option<KeyspaceDef>>) {
    if name in s.keyspaces then (s, Ok(Some(s.keyspaces[name])))
    else match Lookup(s.meta, KsKey(name))
      case None => (s, Ok(None))
      case Some(m) =>
        if m.KeyspaceMeta? then (s.(keyspaces := s.keyspaces[name := m.keyspace]), Ok(Some(m.keyspace)))
        else (s, Err(Corrupt))
  }

  function WithoutPrefix(m: map<bytes, Meta>, prefix: bytes): map<bytes, Meta> {
    map k | k in m && !StartsWith(k, prefix) :: m[k]
  }

  function DropKeyspace(s: State, name: bytes): State {
    State(WithoutPrefix(s.meta - {KsKey(name)}, TablesPrefix(name)),
          s.keyspaces - {name},
          map n | n in s.tables && n.0 != name :: s.tables[n])
  }

  function PutTable(s: State, d: TableDef): State {
    s.(meta := s.meta[TbKey(d.keyspace, d.name) := TableMeta(d)], tables := s.tables[(d.keyspace, d.name) := d])
  }

  function GetTable(s: State, ks: bytes, tb: bytes): (State, Result<Option<TableDef>>) {
    if (ks, tb) in s.tables then (s, Ok(Some(s.tables[(ks, tb)])))
    else match Lookup(s.meta, TbKey(ks, tb))
      case None => (s, Ok(None))
      case Some(m) =>
        if m.TableMeta? then (s.(tables := s.tables[(ks, tb) := m.table]), Ok(Some(m.table)))
        else (s, Err(Corrupt))
  }

  function DropTable(s: State, ks: bytes, tb: bytes): State {
    s.(meta := s.meta - {TbKey(ks, tb)}, tables := s.tables - {(ks, tb)})
  }

  /* ---------- One plain catalog ---------- */

  datatype Catalog = Catalog(keyspaces: map<bytes, KeyspaceDef>, tables: map<TableName, TableDef>)

  datatype Command =
    | CreateKeyspace(keyspace: KeyspaceDef)
    | FindKeyspace(name: bytes)
    | RemoveKeyspace(name: bytes)
    | CreateTable(table: TableDef)
    | FindTable(ks: bytes, tb: bytes)
    | RemoveTable(ks: bytes, tb: bytes)

  datatype Answer = Done | Keyspace(k: Result<Option<KeyspaceDef>>) | Table(t: Result<Option<TableDef>>)

  function Execute(s: State, c: Command): (State, Answer) {
    match c
    case CreateKeyspace(d) => (PutKeyspace(s, d), Done)
    case FindKeyspace(n) => var r := GetKeyspace(s, n); (r.0, Keyspace(r.1))
    case RemoveKeyspace(n) => (DropKeyspace(s, n), Done)
    case CreateTable(d) => (PutTable(s, d), Done)
    case FindTable(ks, tb) => var r := GetTable(s, ks, tb); (r.0, Table(r.1))
    case RemoveTable(ks, tb) => (DropTable(s, ks, tb), Done)
  }

  /** The same commands without engine keys or caches. Dropping a keyspace drops exactly
      its tables. */
  function Meaning(p: Catalog, c: Command): (Catalog, Answer) {
    match c
    case CreateKeyspace(d) => (p.(keyspaces := p.keyspaces[d.name := d]), Done)
    case FindKeyspace(n) => (p, Keyspace(Ok(Lookup(p.keyspaces, n))))
    case RemoveKeyspace(n) => (Catalog(p.keyspaces - {n}, map t | t in p.tables && t.0 != n :: p.tables[t]), Done)
    case CreateTable(d) => (p.(tables := p.tables[(d.keyspace, d.name) := d]), Done)
    case FindTable(ks, tb) => (p, Table(Ok(Lookup(p.tables, (ks, tb)))))
    case RemoveTable(ks, tb) => (p.(tables := p.tables - {(ks, tb)}), Done)
  }

  /** Keyspace names hold no `!`. */
  predicate PlainNames(c: Command) {
    match c
    case CreateKeyspace(_) => true
    case FindKeyspace(_) => true
    case RemoveKeyspace(n) => Plain(n)
    case CreateTable(d) => Plain(d.keyspace)
    case FindTable(ks, _) => Plain(ks)
    case RemoveTable(ks, _) => Plain(ks)
  }

  predicate StoresKeyspace(m: map<bytes, Meta>, p: Catalog, n: bytes) {
    Lookup(m, KsKey(n)) == if n in p.keyspaces then Some(KeyspaceMeta(p.keyspaces[n])) else None
  }

  predicate StoresTable(m: map<bytes, Meta>, p: Catalog, ks: bytes, tb: bytes) {
    Lookup(m, TbKey(ks, tb)) == if (ks, tb) in p.tables then Some(TableMeta(p.tables[(ks, tb)])) else None
  }

  /** The engine stores exactly the catalog. */
  ghost predicate Stores(m: map<bytes, Meta>, p: Catalog) {
    (forall n :: StoresKeyspace(m, p, n)) && (forall ks, tb | Plain(ks) :: StoresTable(m, p, ks, tb))
  }

  /** Every cached definition is the stored one. */
  ghost predicate Cached(s: State, p: Catalog) {
    && (forall n | n in s.keyspaces :: n in p.keyspaces && s.keyspaces[n] == p.keyspaces[n])
    && (forall t | t in s.tables :: t in p.tables && s.tables[t] == p.tables[t])
  }

  lemma KeysApart(n: bytes, ks: bytes, tb: bytes)
    ensures KsKey(n) != TbKey(ks, tb) && !StartsWith(KsKey(n), TablesPrefix(ks))
  {
    assert KsKey(n)[0] == 0x6B && TbKey(ks, tb)[0] == 0x74 && TablesPrefix(ks)[0] == 0x74;
  }

  lemma KsKeyInjective(a: bytes, b: bytes)
    requires KsKey(a) == KsKey(b)
    ensures a == b
  {
    assert a == KsKey(a)[3..] && b == KsKey(b)[3..];
  }

  /** A definition key lies below a keyspace's prefix exactly when it is that keyspace's. */
  lemma TableOfKeyspace(ks: bytes, tb: bytes, name: bytes)
    requires Plain(ks) && Plain(name)
    ensures StartsWith(TbKey(ks, tb), TablesPrefix(name)) <==> ks == name
  {
    if StartsWith(TbKey(ks, tb), TablesPrefix(name)) {
      var rest := TbKey(ks, tb)[|TablesPrefix(name)|..];
      assert TbKey(ks, tb) == TablesPrefix(name) + rest;
      assert TbKey(ks, tb)[3..] == ks + [BANG] + tb == name + [BANG] + rest;
      SplitAtBang(ks, tb, name, rest);
    }
  }

  lemma TbKeyInjective(ks: bytes, tb: bytes, ks': bytes, tb': bytes)
    requires Plain(ks) && Plain(ks') && TbKey(ks, tb) == TbKey(ks', tb')
    ensures ks == ks' && tb == tb'
  {
    TableOfKeyspace(ks, tb, ks');
    assert TbKey(ks, tb)[|TablesPrefix(ks)|..] == tb && TbKey(ks', tb')[|TablesPrefix(ks)|..] == tb';
  }

  lemma CommandStoresKeyspace(s: State, p: Catalog, c: Command, n: bytes)
    requires StoresKeyspace(s.meta, p, n)
    ensures StoresKeyspace(Execute(s, c).0.meta, Meaning(p, c).0, n)
  {
    hide KsKey, TbKey, TablesPrefix, StartsWith;
    match c
    case CreateKeyspace(d) =>
      if KsKey(n) == KsKey(d.name) {
        KsKeyInjective(n, d.name);
      }
    case RemoveKeyspace(x) =>
      KeysApart(n, x, []);
      if KsKey(n) == KsKey(x) {
        KsKeyInjective(n, x);
      }
    case CreateTable(d) => KeysApart(n, d.keyspace, d.name);
    case RemoveTable(ks, tb) => KeysApart(n, ks, tb);
    case _ =>
  }

  lemma CommandStoresTable(s: State, p: Catalog, c: Command, ks: bytes, tb: bytes)
    requires StoresTable(s.meta, p, ks, tb) && PlainNames(c) && Plain(ks)
    ensures StoresTable(Execute(s, c).0.meta, Meaning(p, c).0, ks, tb)
  {
    hide KsKey, TbKey, TablesPrefix, StartsWith, Plain;
    match c
    case CreateKeyspace(d) => KeysApart(d.name, ks, tb);
    case RemoveKeyspace(x) =>
      KeysApart(x, ks, tb);
      TableOfKeyspace(ks, tb, x);
    case CreateTable(d) =>
      if TbKey(ks, tb) == TbKey(d.keyspace, d.name) {
        TbKeyInjective(ks, tb, d.keyspace, d.name);
      }
    case RemoveTable(x, y) =>
      if TbKey(ks, tb) == TbKey(x, y) {
        TbKeyInjective(ks, tb, x, y);
      }
    case _ =>
  }

  lemma CommandStores(s: State, p: Catalog, c: Command)
    requires Stores(s.meta, p) && PlainNames(c)
    ensures Stores(Execute(s, c).0.meta, Meaning(p, c).0)
  {
    hide StoresKeyspace, StoresTable, Execute, Meaning, PlainNames, Plain;
    forall n
      ensures StoresKeyspace(Execute(s, c).0.meta, Meaning(p, c).0, n)
    {
      CommandStoresKeyspace(s, p, c, n);
    }
    forall ks, tb | Plain(ks)
      ensures StoresTable(Execute(s, c).0.meta, Meaning(p, c).0, ks, tb)
    {
      CommandStoresTable(s, p, c, ks, tb);
    }
  }

  lemma CommandAnswers(s: State, p: Catalog, c: Command)
    requires Cached(s, p)
    requires c.FindKeyspace? ==> StoresKeyspace(s.meta, p, c.name)
    requires c.FindTable? ==> StoresTable(s.meta, p, c.ks, c.tb)
    ensures Execute(s, c).1 == Meaning(p, c).1 && Cached(Execute(s, c).0, Meaning(p, c).0)
  {
    hide KsKey, TbKey, TablesPrefix, WithoutPrefix;
  }

  /** Every command answers as the plain catalog does, keeps the engine equal to it, and
      leaves no stale definition in a cache. */
  lemma CommandRefines(s: State, p: Catalog, c: Command)
    requires Stores(s.meta, p) && Cached(s, p) && PlainNames(c)
    ensures var r, q := Execute(s, c), Meaning(p, c);
            r.1 == q.1 && Stores(r.0.meta, q.0) && Cached(r.0, q.0)
  {
    hide Execute, Meaning, Cached, StoresKeyspace, StoresTable, Plain;
    CommandStores(s, p, c);
    CommandAnswers(s, p, c);
  }

  /* ---------- The storage ---------- */

  class Storage {
    var meta: map<bytes, Meta>
    var keyspaces: map<bytes, KeyspaceDef>
    var tables: map<TableName, TableDef>

    /** The catalog the engine and the caches stand for. */
    ghost var catalog: Catalog

    ghost function Now(): State
      reads this
    {
      State(meta, keyspaces, tables)
    }

    ghost predicate Valid()
      reads this
    {
      Stores(meta, catalog) && Cached(Now(), catalog)
    }

    /** A storage opened on an engine that holds some catalog: the caches are empty. */
    constructor (contents: map<bytes, Meta>, ghost p: Catalog)
      requires Stores(contents, p)
      ensures Valid() && catalog == p && Now() == State(contents, map[], map[])
    {
      meta, keyspaces, tables, catalog := contents, map[], map[], p;
    }

    /** `delete_prefix`: a range delete up to the upper bound, or key by key when there is
        none. It removes exactly the keys below the prefix unless that ends in 0xFF after a
        smaller byte. */
    method DeletePrefix(prefix: bytes)
      modifies this`meta
      ensures UpperBound(prefix).None? || prefix[|prefix| - 1] < 0xFF ==> meta == WithoutPrefix(old(meta), prefix)
    {
      var end := PrefixUpperBound(prefix);
      if end.Some? {
        UpperBoundExactly(prefix);
        meta := map k | k in meta && !InRange(k, prefix, end.value) :: meta[k];
      } else {
        var found := set k | k in meta && StartsWith(k, prefix);
        while found != {}
          invariant forall k | k in found :: k in meta
          invariant forall k | k in meta && StartsWith(k, prefix) :: k in found
          invariant forall k | k in old(meta) && !StartsWith(k, prefix) :: k in meta
          invariant forall k | k in meta :: k in old(meta) && meta[k] == old(meta)[k]
          invariant forall k | k in found :: StartsWith(k, prefix)
        {
          var k :| k in found;
          meta := meta - {k};
          found := found - {k};
        }
      }
    }

    method PutKeyspaceDef(d: KeyspaceDef)
      requires Valid()
      modifies this
      ensures Now() == PutKeyspace(old(Now()), d)
      ensures Valid() && catalog == old(catalog).(keyspaces := old(catalog).keyspaces[d.name := d])
    {
      CommandRefines(Now(), catalog, CreateKeyspace(d));
      catalog := Meaning(catalog, CreateKeyspace(d)).0;
      meta := meta[KS_PREFIX + d.name := KeyspaceMeta(d)];
      keyspaces := keyspaces[d.name := d];
    }

    method GetKeyspaceDef(name: bytes) returns (r: Result<Option<KeyspaceDef>>)
      requires Valid()
      modifies this`keyspaces
      ensures (Now(), r) == GetKeyspace(old(Now()), name)
      ensures Valid() && r == Ok(Lookup(catalog.keyspaces, name))
    {
      CommandRefines(Now(), catalog, FindKeyspace(name));
      if name in keyspaces {
        return Ok(Some(keyspaces[name]));
      }
      var key := KS_PREFIX + name;
      if key !in meta {
        return Ok(None);
      }
      if !meta[key].KeyspaceMeta? {
        return Err(Corrupt);
      }
      var d := meta[key].keyspace;
      keyspaces := keyspaces[name := d];
      return Ok(Some(d));
    }

    method DeleteKeyspace(name: bytes)
      requires Valid() && PlainNames(RemoveKeyspace(name))
      modifies this
      ensures Now() == DropKeyspace(old(Now()), name)
      ensures Valid() && catalog.keyspaces == old(catalog).keyspaces - {name}
      ensures forall n: TableName ::
                Lookup(catalog.tables, n) == if n.0 == name then None else Lookup(old(catalog).tables, n)
    {
      CommandRefines(Now(), catalog, RemoveKeyspace(name));
      catalog := Meaning(catalog, RemoveKeyspace(name)).0;
      meta := meta - {KS_PREFIX + name};
      DeletePrefix(TB_PREFIX + name + [BANG]);
      keyspaces := keyspaces - {name};
      tables := map n | n in tables && n.0 != name :: tables[n];
    }

    method PutTableDef(d: TableDef)
      requires Valid() && PlainNames(CreateTable(d))
      modifies this
      ensures Now() == PutTable(old(Now()), d)
      ensures Valid() && catalog == old(catalog).(tables := old(catalog).tables[(d.keyspace, d.name) := d])
    {
      CommandRefines(Now(), catalog, CreateTable(d));
      catalog := Meaning(catalog, CreateTable(d)).0;
      meta := meta[TB_PREFIX + d.keyspace + [BANG] + d.name := TableMeta(d)];
      tables := tables[(d.keyspace, d.name) := d];
    }

    method GetTableDef(ks: bytes, tb: bytes) returns (r: Result<Option<TableDef>>)
      requires Valid() && PlainNames(FindTable(ks, tb))
      modifies this`tables
      ensures (Now(), r) == GetTable(old(Now()), ks, tb)
      ensures Valid() && r == Ok(Lookup(catalog.tables, (ks, tb)))
    {
      CommandRefines(Now(), catalog, FindTable(ks, tb));
      if (ks, tb) in tables {
        return Ok(Some(tables[(ks, tb)]));
      }
      var key := TB_PREFIX + ks + [BANG] + tb;
      if key !in meta {
        return Ok(None);
      }
      if !meta[key].TableMeta? {
        return Err(Corrupt);
      }
      var d := meta[key].table;
      tables := tables[(ks, tb) := d];
      return Ok(Some(d));
    }

    method DeleteTable(ks: bytes, tb: bytes)
      requires Valid() && PlainNames(RemoveTable(ks, tb))
      modifies this
      ensures Now() == DropTable(old(Now()), ks, tb)
      ensures Valid() && catalog == old(catalog).(tables := old(catalog).tables - {(ks, tb)})
    {
      CommandRefines(Now(), catalog, RemoveTable(ks, tb));
      catalog := Meaning(catalog, RemoveTable(ks, tb)).0;
      meta := meta - {TB_PREFIX + ks + [BANG] + tb};
      tables := tables - {(ks, tb)};
    }
  }

  /* ---------- Whole runs ---------- */

  function ExecuteAll(s: State, cs: seq<Command>): (State, seq<Answer>)
    decreases |cs|
  {
    if cs == [] then (s, []) else
    var first := Execute(s, cs[0]);
    var rest := ExecuteAll(first.0, cs[1..]);
    (rest.0, [first.1] + rest.1)
  }

  function MeaningAll(p: Catalog, cs: seq<Command>): (Catalog, seq<Answer>)
    decreases |cs|
  {
    if cs == [] then (p, []) else
    var first := Meaning(p, cs[0]);
    var rest := MeaningAll(first.0, cs[1..]);
    (rest.0, [first.1] + rest.1)
  }

  /** Over every sequential run of creates, lookups and drops the cached schema answers like
      the plain catalog, and each cached definition equals the stored one throughout. */
  lemma {:induction false} SchemaIsAPlainCatalog(s: State, p: Catalog, cs: seq<Command>)
    requires Stores(s.meta, p) && Cached(s, p) && forall i | 0 <= i < |cs| :: PlainNames(cs[i])
    ensures var r, q := ExecuteAll(s, cs), MeaningAll(p, cs);
            r.1 == q.1 && Stores(r.0.meta, q.0) && Cached(r.0, q.0)
    decreases |cs|
  {
    hide Stores, Cached, Execute, Meaning, PlainNames;
    if cs != [] {
      CommandRefines(s, p, cs[0]);
      SchemaIsAPlainCatalog(Execute(s, cs[0]).0, Meaning(p, cs[0]).0, cs[1..]);
    }
  }

  /** After DROP KEYSPACE neither engine nor caches hold the keyspace or any of its tables,
      and every other keyspace and table is as before, in both. */
  lemma DropKeyspaceIsExact(s: State, name: bytes)
    requires Plain(name)
    ensures var d := DropKeyspace(s, name);
            && KsKey(name) !in d.meta && name !in d.keyspaces
            && (forall tb :: TbKey(name, tb) !in d.meta && (name, tb) !in d.tables)
            && (forall n | n != name :: Lookup(d.meta, KsKey(n)) == Lookup(s.meta, KsKey(n)))
            && (forall n | n != name :: Lookup(d.keyspaces, n) == Lookup(s.keyspaces, n))
            && (forall ks, tb | Plain(ks) && ks != name ::
                  Lookup(d.meta, TbKey(ks, tb)) == Lookup(s.meta, TbKey(ks, tb)))
            && (forall t: TableName | t.0 != name :: Lookup(d.tables, t) == Lookup(s.tables, t))
            && (forall k | k in s.meta && !StartsWith(k, TablesPrefix(name)) && k != KsKey(name) ::
                  Lookup(d.meta, k) == Lookup(s.meta, k))
  {
    hide KsKey, TbKey, TablesPrefix, StartsWith;
    var d := DropKeyspace(s, name);
    forall n | n != name
      ensures Lookup(d.meta, KsKey(n)) == Lookup(s.meta, KsKey(n))
    {
      KeysApart(n, name, []);
      if KsKey(n) == KsKey(name) { KsKeyInjective(n, name); }
    }
    forall ks, tb | Plain(ks)
      ensures if ks == name then TbKey(ks, tb) !in d.meta
              else Lookup(d.meta, TbKey(ks, tb)) == Lookup(s.meta, TbKey(ks, tb))
    {
      KeysApart(name, ks, tb);
      TableOfKeyspace(ks, tb, name);
    }
  }

  /** With `!` in a keyspace name one table's definition overwrites another's and leaves a
      stale one in the cache. */
  lemma BangLeavesAStaleDefinition(a: TableDef, b: TableDef)
    requires a.keyspace == [0x61] && a.name == [0x62, 0x21, 0x63]
    requires b.keyspace == [0x61, 0x21, 0x62] && b.name == [0x63]
    ensures var s := PutTable(PutTable(State(map[], map[], map[]), a), b);
            s.tables[(a.keyspace, a.name)] == a && s.meta[TbKey(a.keyspace, a.name)] == TableMeta(b) && a != b
  {
    assert TbKey(a.keyspace, a.name) == TbKey(b.keyspace, b.name);
  }
}
