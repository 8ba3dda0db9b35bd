/**
 * `GeoIPMultiversion`: one GeoIP city database per IP version, kept as files
 * in a cache directory, downloaded when a file is missing and loaded on the
 * first lookup. The database reader and gzip are foreign code; they are
 * tables here (`Backend`), as is the network.
 */
module Geo {
  import opened Wrappers
  import opened Exceptions
  import opened Text
  import opened Address
  import opened Files

  /** A city record: its coordinates and, when the database has one, the name of its country. */
  datatype Record = Record(longitude: real, latitude: real, countryName: Option<string>)

  /** A GeoIP city database, as the record it holds for each address it knows. */
  type GeoDb = map<Addr, Record>

  datatype Coordinate = Coordinate(longitude: real, latitude: real)

  /**
   * What the cache needs from outside: the network, what `gzip.decompress`
   * gives for each stream it accepts, and the database `pygeoip.GeoIP` reads
   * from each file contents it accepts.
   */
  datatype Backend = Backend(net: Network, gunzip: map<Bytes, Bytes>, reader: map<Bytes, GeoDb>)

  /** `GeoIPMultiversion.versions`: the versions in the order they are downloaded and loaded. */
  const Versions: seq<nat> := [4, 6]

  /** The keys of the source's per-version tables. */
  predicate IsVersion(v: nat) {
    v == 4 || v == 6
  }

  /**
   * `GeoIPMultiversion.db_names` and `GeoIPMultiversion.db_sources`: for each
   * version, the name of its database file in the cache and the URL it is
   * downloaded from.
   */
  datatype Catalog = Catalog(dbNames: map<nat, string>, dbSources: map<nat, string>) {
    /** Both versions have a file and a URL, and their files have distinct, non-empty names. */
    predicate Valid() {
      && 4 in dbNames && 6 in dbNames && 4 in dbSources && 6 in dbSources
      && dbNames[4] != [] && dbNames[6] != [] && dbNames[4] != dbNames[6]
    }
  }

  /** The source's tables. */
  const GeoCatalog: Catalog := Catalog(
    map[4 := "GeoLiteCity.dat", 6 := "GeoLiteCityv6.dat"],
    map[4 := "http://geolite.maxmind.com/download/geoip/database/GeoLiteCity.dat.gz",
        6 := "http://geolite.maxmind.com/download/geoip/database/GeoLiteCityv6-beta/GeoLiteCityv6.dat.gz"])

  lemma GeoCatalogValid()
    ensures GeoCatalog.Valid()
  {
    assert GeoCatalog.dbNames[4][11] != GeoCatalog.dbNames[6][11];
  }

  /**
   * `gzip.decompress(gz)`: the payload of a stream it accepts. Every refusal
   * is named OSError here, though a truncated stream raises EOFError and
   * corrupt deflate data `zlib.error`; no caller tells them apart.
   */
  function Decompress(gunzip: map<Bytes, Bytes>, gz: Bytes): (r: Result<Bytes, Exception>)
    ensures r.Ok? <==> gz in gunzip
    ensures r.Ok? ==> r.value == gunzip[gz]
    ensures r.Err? ==> r.error == OSError
  {
    if gz in gunzip then Ok(gunzip[gz]) else Err(OSError)
  }

  /** The database file of `version` as `update_cache` obtains it: downloaded, then decompressed. */
  function Download(c: Catalog, b: Backend, version: nat): (r: Result<Bytes, Exception>)
    requires c.Valid() && IsVersion(version)
    ensures r.Ok? <==> c.dbSources[version] in b.net.replies && b.net.replies[c.dbSources[version]] in b.gunzip
    ensures r.Ok? ==> r.value == b.gunzip[b.net.replies[c.dbSources[version]]]
    ensures r.Err? ==> r.error in {URLError, OSError}
  {
    match Fetch(b.net, c.dbSources[version])
    case Err(e) => Err(e)
    case Ok(gz) => Decompress(b.gunzip, gz)
  }

  /** The files `update_cache` writes, in order, each with what its download gives. */
  function Items(c: Catalog, b: Backend): (items: seq<Item>)
    requires c.Valid()
    ensures |items| == |Versions| && Distinct(items)
    ensures forall i :: 0 <= i < |Versions| ==> items[i] == (c.dbNames[Versions[i]], Download(c, b, Versions[i]))
  {
    [(c.dbNames[4], Download(c, b, 4)), (c.dbNames[6], Download(c, b, 6))]
  }

  /** `check_cache()`: the files of versions 4 and 6 are present in `dir`. */
  predicate Cached(nodes: Nodes, dir: string, c: Catalog)
    requires c.Valid()
  {
    IsFile(nodes, PathJoin(dir, c.dbNames[4])) && IsFile(nodes, PathJoin(dir, c.dbNames[6]))
  }

  /** `check_loaded()`: there is a database for versions 4 and 6. */
  predicate IsLoaded(dbs: map<nat, GeoDb>) {
    4 in dbs && 6 in dbs
  }

  /**
   * The loop of `check_cache`: it returns False at the first version whose
   * file is missing, and True when the loop ends, so it holds exactly when
   * every version's file is there.
   */
  lemma CachedEveryVersion(nodes: Nodes, dir: string, c: Catalog)
    requires c.Valid()
    ensures Cached(nodes, dir, c) <==> forall i :: 0 <= i < |Versions| ==> IsFile(nodes, PathJoin(dir, c.dbNames[Versions[i]]))
  {
    assert Versions[0] == 4 && Versions[1] == 6;
  }

  /** The loop of `check_loaded`: it holds exactly when every version has a database. */
  lemma LoadedEveryVersion(dbs: map<nat, GeoDb>)
    ensures IsLoaded(dbs) <==> forall i :: 0 <= i < |Versions| ==> Versions[i] in dbs
  {
    assert Versions[0] == 4 && Versions[1] == 6;
  }

  /** A successful `update_cache` makes `check_cache` true, with each file holding its decompressed download. */
  lemma RefreshCaches(nodes: Nodes, dir: string, c: Catalog, b: Backend)
    requires c.Valid()
    ensures var r := Refresh(nodes, dir, Items(c, b));
      r.1.Pass? ==> Cached(r.0, dir, c) && forall v :: IsVersion(v) ==>
        Download(c, b, v).Ok? && r.0[PathJoin(dir, c.dbNames[v])] == File(Download(c, b, v).value)
  {
    var items := Items(c, b);
    var r := Refresh(nodes, dir, items);
    RefreshPassed(nodes, dir, items);
    if r.1.Pass? {
      assert items[0].0 == c.dbNames[4] && items[1].0 == c.dbNames[6];
    }
  }

  /** `pygeoip.GeoIP(os.path.join(dir, c.dbNames[version]))`: the file must be readable and a database. */
  function OpenDb(nodes: Nodes, dir: string, c: Catalog, reader: map<Bytes, GeoDb>, version: nat): (r: Result<GeoDb, Exception>)
    requires c.Valid() && IsVersion(version)
    ensures r.Ok? <==> IsFile(nodes, PathJoin(dir, c.dbNames[version])) && nodes[PathJoin(dir, c.dbNames[version])].data in reader
    ensures r.Ok? ==> r.value == reader[nodes[PathJoin(dir, c.dbNames[version])].data]
    ensures r.Err? ==> r.error in {FileNotFoundError, IsADirectoryError, DatabaseError}
  {
    match Contents(nodes, dir, c.dbNames[version])
    case Err(e) => Err(e)
    case Ok(data) => if data in reader then Ok(reader[data]) else Err(DatabaseError)
  }

  /**
   * The loop of `load_dbs` over the first `n` versions, starting from an
   * empty `dbs`: each version's database is opened in turn, and an exception
   * stops the loop with the databases opened so far.
   */
  function OpenDbs(nodes: Nodes, dir: string, c: Catalog, reader: map<Bytes, GeoDb>, n: nat): (r: (map<nat, GeoDb>, Outcome<Exception>))
    requires c.Valid() && n <= |Versions|
    ensures forall v :: v in r.0 ==> v in Versions[..n] && IsVersion(v) && OpenDb(nodes, dir, c, reader, v) == Ok(r.0[v])
    ensures r.1.Pass? ==> forall i :: 0 <= i < n ==> Versions[i] in r.0
    ensures r.1.Fail? ==> n > 0 && Versions[n - 1] !in r.0
    ensures r.1.Fail? ==> r.1.error in {FileNotFoundError, IsADirectoryError, DatabaseError}
  {
    if n == 0 then (map[], Pass)
    else
      var prev := OpenDbs(nodes, dir, c, reader, n - 1);
      if prev.1.Fail? then prev
      else
        var db := OpenDb(nodes, dir, c, reader, Versions[n - 1]);
        if db.Err? then (prev.0, Fail(db.error))
        else (prev.0[Versions[n - 1] := db.value], Pass)
  }

  /** An exception in the loop of `load_dbs` ends it: the later versions are not opened. */
  lemma {:induction false} OpenDbsStops(nodes: Nodes, dir: string, c: Catalog, reader: map<Bytes, GeoDb>, n: nat, m: nat)
    requires c.Valid() && n <= m <= |Versions| && OpenDbs(nodes, dir, c, reader, n).1.Fail?
    ensures OpenDbs(nodes, dir, c, reader, m) == OpenDbs(nodes, dir, c, reader, n)
    decreases m
  {
    if m > n {
      OpenDbsStops(nodes, dir, c, reader, n, m - 1);
    }
  }

  /**
   * When the loop of `load_dbs` runs to its end, there is exactly one database
   * per version, each read from its file in the cache.
   */
  lemma OpenDbsAll(nodes: Nodes, dir: string, c: Catalog, reader: map<Bytes, GeoDb>)
    requires c.Valid()
    ensures var r := OpenDbs(nodes, dir, c, reader, |Versions|);
      r.1.Pass? ==> (r.0.Keys == {4, 6} && Cached(nodes, dir, c) &&
        forall v :: IsVersion(v) ==> OpenDb(nodes, dir, c, reader, v) == Ok(r.0[v]))
  {
    var r := OpenDbs(nodes, dir, c, reader, |Versions|);
    if r.1.Pass? {
      assert Versions[0] in r.0 && Versions[1] in r.0;
    }
  }

  /**
   * What `load_dbs` can raise: the file-system errors of `update_cache` and of
   * reading the files, the download's URLError, gzip's OSError and pygeoip's
   * DatabaseError. AttributeError is not among them.
   */
  const LoadErrors: set<Exception> :=
    {NotADirectoryError, FileNotFoundError, IsADirectoryError, FileExistsError, URLError, OSError, DatabaseError}

  /**
   * `load_dbs()` from the files `nodes` and the databases `dbs`: the cache is
   * refreshed only when `check_cache` is false, and an exception there leaves
   * `dbs` as it was; otherwise `dbs` is emptied and refilled version by version.
   */
  function Load(nodes: Nodes, dbs: map<nat, GeoDb>, dir: string, c: Catalog, b: Backend): (r: (Nodes, map<nat, GeoDb>, Outcome<Exception>))
    requires c.Valid()
    ensures Cached(nodes, dir, c) ==> r.0 == nodes
    ensures !Cached(nodes, dir, c) && dir in nodes && !IsDir(nodes, dir) ==> r == (nodes, dbs, Fail(NotADirectoryError))
    ensures !Cached(nodes, dir, c) ==> var rf := Refresh(nodes, dir, Items(c, b));
      (rf.1.Fail? ==> r == (rf.0, dbs, rf.1)) && (rf.1.Pass? ==> r.0 == rf.0)
    ensures Cached(nodes, dir, c) || Refresh(nodes, dir, Items(c, b)).1.Pass? ==>
      (r.1, r.2) == OpenDbs(r.0, dir, c, b.reader, |Versions|)
    ensures r.2.Pass? ==> r.1.Keys == {4, 6} && Cached(r.0, dir, c)
    ensures r.2.Pass? ==> forall v :: IsVersion(v) ==> OpenDb(r.0, dir, c, b.reader, v) == Ok(r.1[v])
    ensures r.2.Fail? ==> r.2.error in LoadErrors
  {
    var (n1, o) := if Cached(nodes, dir, c) then (nodes, Pass) else Refresh(nodes, dir, Items(c, b));
    if o.Fail? then (n1, dbs, o)
    else
      var (d, o2) := OpenDbs(n1, dir, c, b.reader, |Versions|);
      OpenDbsAll(n1, dir, c, b.reader);
      (n1, d, o2)
  }

  /** `if not self.check_loaded(): self.load_dbs()`: nothing happens when the databases are loaded. */
  function EnsureLoaded(nodes: Nodes, dbs: map<nat, GeoDb>, dir: string, c: Catalog, b: Backend): (r: (Nodes, map<nat, GeoDb>, Outcome<Exception>))
    requires c.Valid()
    ensures IsLoaded(dbs) ==> r == (nodes, dbs, Pass)
    ensures !IsLoaded(dbs) ==> r == Load(nodes, dbs, dir, c, b)
    ensures r.2.Pass? ==> IsLoaded(r.1)
  {
    if IsLoaded(dbs) then (nodes, dbs, Pass) else Load(nodes, dbs, dir, c, b)
  }

  /** `record_by_addr(text)` on a database: pygeoip reads the address from its text and looks it up. */
  function RecordByText(db: GeoDb, text: string): Option<Record> {
    match ParseAddr(text)
    case None => None
    case Some(a) => if a in db then Some(db[a]) else None
  }

  /**
   * The lookup in `coord_by_addr` once the databases are loaded: the record of
   * `str(addr)`, turned into a coordinate, or GeoIPError when there is none.
   */
  function CoordOf(db: GeoDb, addr: Addr): (r: Result<Coordinate, Exception>)
    requires addr.Valid()
    ensures r.Ok? <==> addr in db
    ensures r.Ok? ==> r.value == Coordinate(db[addr].longitude, db[addr].latitude)
    ensures r.Err? ==> r.error == GeoIPError
  {
    LiteralRoundTrip(addr);
    match RecordByText(db, Literal(addr))
    case None => Err(GeoIPError)
    case Some(record) => Ok(Coordinate(record.longitude, record.latitude))
  }

  /** `coord_by_addr(addr)`: load when not loaded, then look up in the database of the address's version. */
  function Lookup(nodes: Nodes, dbs: map<nat, GeoDb>, dir: string, c: Catalog, b: Backend, addr: Addr): (r: (Nodes, map<nat, GeoDb>, Result<Coordinate, Exception>))
    requires c.Valid() && addr.Valid()
    ensures IsLoaded(dbs) ==> r.0 == nodes && r.1 == dbs
    ensures !IsLoaded(dbs) ==> var l := Load(nodes, dbs, dir, c, b);
      (r.0, r.1) == (l.0, l.1) &&
      (l.2.Fail? ==> r.2 == Err(l.2.error)) &&
      (l.2.Pass? ==> r.2 == CoordOf(l.1[addr.Version()], addr))
    ensures r.2.Ok? ==> IsLoaded(r.1) && addr in r.1[addr.Version()]
    ensures r.2.Ok? ==> r.2.value == Coordinate(r.1[addr.Version()][addr].longitude, r.1[addr.Version()][addr].latitude)
    ensures IsLoaded(r.1) && addr !in r.1[addr.Version()] ==> r.2 == Err(GeoIPError)
  {
    var (n1, d1, o) := EnsureLoaded(nodes, dbs, dir, c, b);
    if o.Fail? then (n1, d1, Err(o.error))
    else (n1, d1, CoordOf(d1[addr.Version()], addr))
  }

  /**
   * Once a lookup has loaded the databases, later lookups never load again:
   * they leave the files and the databases as they are.
   */
  lemma LoadsOnce(nodes: Nodes, dbs: map<nat, GeoDb>, dir: string, c: Catalog, b: Backend, a1: Addr, a2: Addr)
    requires c.Valid() && a1.Valid() && a2.Valid()
    ensures var first := Lookup(nodes, dbs, dir, c, b, a1);
      IsLoaded(first.1) ==> var second := Lookup(first.0, first.1, dir, c, b, a2);
        second.0 == first.0 && second.1 == first.1
  {
  }

  /**
   * A loaded lookup depends on the database of the address's version only:
   * changing the other version's database does not change the answer.
   */
  lemma DispatchByVersion(nodes: Nodes, d1: map<nat, GeoDb>, d2: map<nat, GeoDb>, dir: string, c: Catalog, b: Backend, addr: Addr)
    requires c.Valid() && addr.Valid() && IsLoaded(d1) && IsLoaded(d2)
    requires d1[addr.Version()] == d2[addr.Version()]
    ensures Lookup(nodes, d1, dir, c, b, addr).2 == Lookup(nodes, d2, dir, c, b, addr).2
  {
  }

  /** The two pygeoip queries modelled: the whole record, and the country name. */
  const RecordByAddr: string := "record_by_addr"
  const CountryNameByAddr: string := "country_name_by_addr"

  /** Both queries go through `__getattr__` to the database. */
  lemma QueriesForward()
    ensures EndsWith(RecordByAddr, "_by_addr") && EndsWith(CountryNameByAddr, "_by_addr")
  {
  }

  /** What a `*_by_addr` query answers. */
  datatype Answer = RecordAnswer(record: Option<Record>) | CountryAnswer(country: Option<string>)

  /**
   * The pygeoip method `name` on a city database, applied to `str(addr)`:
   * `record_by_addr` gives the record or None; `country_name_by_addr` takes
   * the country name out of the record, and fails with AttributeError (on
   * None) when there is no record. A name the database does not have raises
   * AttributeError.
   */
  function Query(name: string, db: GeoDb, addr: Addr): (r: Result<Answer, Exception>)
    requires addr.Valid()
    ensures name == RecordByAddr ==> r == Ok(RecordAnswer(if addr in db then Some(db[addr]) else None))
    ensures name == CountryNameByAddr ==>
      (r.Ok? <==> addr in db) && (r.Ok? ==> r.value == CountryAnswer(db[addr].countryName))
    ensures r.Err? ==> r.error == AttributeError
  {
    LiteralRoundTrip(addr);
    var record := RecordByText(db, Literal(addr));
    if name == RecordByAddr then Ok(RecordAnswer(record))
    else if name == CountryNameByAddr then
      match record
      case None => Err(AttributeError)
      case Some(rec) => Ok(CountryAnswer(rec.countryName))
    else Err(AttributeError)
  }

  /**
   * `getattr(geoipmv, name)(addr)` when Python falls back to `__getattr__`,
   * that is for a name the class does not define (`coord_by_addr` ends in
   * "_by_addr" but is a method, so it never gets here): a
   * name not ending in "_by_addr" raises AttributeError before anything is
   * loaded; any other name loads when not loaded and is forwarded to the
   * database of the address's version.
   */
  function Forward(nodes: Nodes, dbs: map<nat, GeoDb>, dir: string, c: Catalog, b: Backend, name: string, addr: Addr): (r: (Nodes, map<nat, GeoDb>, Result<Answer, Exception>))
    requires c.Valid() && addr.Valid()
    ensures !EndsWith(name, "_by_addr") ==> r == (nodes, dbs, Err(AttributeError))
    ensures IsLoaded(dbs) ==> r.0 == nodes && r.1 == dbs
    ensures EndsWith(name, "_by_addr") && !IsLoaded(dbs) ==> var l := Load(nodes, dbs, dir, c, b);
      (r.0, r.1) == (l.0, l.1) &&
      (l.2.Fail? ==> r.2 == Err(l.2.error)) &&
      (l.2.Pass? ==> r.2 == Query(name, l.1[addr.Version()], addr))
    ensures r.2.Ok? ==> IsLoaded(r.1) && r.2 == Query(name, r.1[addr.Version()], addr)
    ensures IsLoaded(dbs) && EndsWith(name, "_by_addr") ==> r.2 == Query(name, dbs[addr.Version()], addr)
  {
    if !EndsWith(name, "_by_addr") then (nodes, dbs, Err(AttributeError))
    else
      var (n1, d1, o) := EnsureLoaded(nodes, dbs, dir, c, b);
      if o.Fail? then (n1, d1, Err(o.error))
      else (n1, d1, Query(name, d1[addr.Version()], addr))
  }

  /** The GeoIP cache: its directory, its tables, the file system and backend it works with, and the loaded databases. */
  class GeoIPMultiversion {
    const cacheDir: string
    const catalog: Catalog
    const fs: FileSystem
    const backend: Backend
    var dbs: map<nat, GeoDb>

    /** The tables name both versions' files and sources. */
    predicate Valid()
      reads this
    {
      catalog.Valid()
    }

    /** `GeoIPMultiversion(cache_dir)` for a user whose home directory is `home`. */
    constructor (cacheDir: string, home: string, fs: FileSystem, backend: Backend)
      ensures this.cacheDir == ExpandUser(cacheDir, home) && catalog == GeoCatalog
      ensures this.fs == fs && this.backend == backend
      ensures dbs == map[] && !CheckLoaded() && Valid()
    {
      this.cacheDir := ExpandUser(cacheDir, home);
      catalog := GeoCatalog;
      this.fs := fs;
      this.backend := backend;
      dbs := map[];
      GeoCatalogValid();
    }

    /** `check_cache()` */
    predicate CheckCache()
      requires Valid()
      reads this, fs
    {
      Cached(fs.nodes, cacheDir, catalog)
    }

    /** `check_loaded()` */
    predicate CheckLoaded()
      reads this
    {
      IsLoaded(dbs)
    }

    /** `update_cache()` */
    method UpdateCache() returns (r: Outcome<Exception>)
      requires Valid()
      modifies fs
      ensures (fs.nodes, r) == Refresh(old(fs.nodes), cacheDir, Items(catalog, backend))
    {
      var items := Items(catalog, backend);
      if !IsDir(fs.nodes, cacheDir) {
        if cacheDir in fs.nodes {
          return Fail(NotADirectoryError);
        }
        r := fs.MakeDirs(cacheDir);
        if r.Fail? {
          return;
        }
      }
      ghost var start := fs.nodes;
      for i := 0 to |Versions|
        invariant WriteAll(start, cacheDir, items) == WriteAll(fs.nodes, cacheDir, items[i..])
      {
        var name := catalog.dbNames[Versions[i]];
        r := fs.OpenForWriting(cacheDir, name);
        if r.Fail? {
          return;
        }
        var gz := Fetch(backend.net, catalog.dbSources[Versions[i]]);
        if gz.Err? {
          return Fail(gz.error);
        }
        var db := Decompress(backend.gunzip, gz.value);
        if db.Err? {
          return Fail(db.error);
        }
        ghost var truncated := fs.nodes;
        fs.Write(PathJoin(cacheDir, name), db.value);
        assert [] + db.value == db.value;
        assert items[i..][1..] == items[i + 1..];
        assert fs.nodes == truncated[PathJoin(cacheDir, name) := File(db.value)];
      }
      assert items[|Versions|..] == [];
      r := Pass;
    }

    /** `load_dbs()` */
    method LoadDbs() returns (r: Outcome<Exception>)
      requires Valid()
      modifies this, fs
      ensures (fs.nodes, dbs, r) == Load(old(fs.nodes), old(dbs), cacheDir, catalog, backend)
    {
      if !CheckCache() {
        r := UpdateCache();
        if r.Fail? {
          return;
        }
      }
      ghost var refreshed := fs.nodes;
      assert (refreshed, Pass) == (if Cached(old(fs.nodes), cacheDir, catalog) then (old(fs.nodes), Pass)
        else Refresh(old(fs.nodes), cacheDir, Items(catalog, backend)));
      dbs := map[];
      for i := 0 to |Versions|
        invariant fs.nodes == refreshed
        invariant (dbs, Pass) == OpenDbs(fs.nodes, cacheDir, catalog, backend.reader, i)
      {
        var db := OpenDb(fs.nodes, cacheDir, catalog, backend.reader, Versions[i]);
        if db.Err? {
          assert OpenDbs(fs.nodes, cacheDir, catalog, backend.reader, i + 1) == (dbs, Fail(db.error));
          OpenDbsStops(fs.nodes, cacheDir, catalog, backend.reader, i + 1, |Versions|);
          assert OpenDbs(refreshed, cacheDir, catalog, backend.reader, |Versions|) == (dbs, Fail(db.error));
          assert Load(old(fs.nodes), old(dbs), cacheDir, catalog, backend) == (refreshed, dbs, Fail(db.error));
          return Fail(db.error);
        }
        dbs := dbs[Versions[i] := db.value];
      }
      r := Pass;
    }

    /** `coord_by_addr(addr)` */
    method CoordByAddr(addr: Addr) returns (r: Result<Coordinate, Exception>)
      requires Valid() && addr.Valid()
      modifies this, fs
      ensures (fs.nodes, dbs, r) == Lookup(old(fs.nodes), old(dbs), cacheDir, catalog, backend, addr)
    {
      if !CheckLoaded() {
        var loaded := LoadDbs();
        if loaded.Fail? {
          return Err(loaded.error);
        }
      }
      r := CoordOf(dbs[addr.Version()], addr);
    }

    /** `getattr(self, name)(addr)` for a name the class does not define, through `__getattr__`. */
    method ByAddr(name: string, addr: Addr) returns (r: Result<Answer, Exception>)
      requires Valid() && addr.Valid()
      modifies this, fs
      ensures (fs.nodes, dbs, r) == Forward(old(fs.nodes), old(dbs), cacheDir, catalog, backend, name, addr)
    {
      if !EndsWith(name, "_by_addr") {
        return Err(AttributeError);
      }
      if !CheckLoaded() {
        var loaded := LoadDbs();
        if loaded.Fail? {
          return Err(loaded.error);
        }
      }
      r := Query(name, dbs[addr.Version()], addr);
    }
  }
}
