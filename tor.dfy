/**
 * `TorExitNodeDatabase`: the set of Tor exit node addresses, kept as a text
 * file of whitespace-separated addresses in a cache directory, downloaded
 * when the file is missing and loaded on the first query.
 */
module Tor {
  import opened Wrappers
  import opened Exceptions
  import opened Text
  import opened Address
  import opened Files

  /** `TorExitNodeDatabase.db_name` */
  const TorDbName: string := "Tor_ip_list_EXIT.csv"

  /** `TorExitNodeDatabase.db_source` */
  const TorDbSource: string := "http://torstatus.blutmagie.de/ip_list_exit.php/Tor_ip_list_EXIT.csv"

  /** Reading a file opened as text: bytes below 128 are characters; any other byte raises UnicodeDecodeError. */
  function Decode(data: Bytes): (r: Result<string, Exception>)
    ensures r.Ok? <==> forall i :: 0 <= i < |data| ==> data[i] < 128
    ensures r.Ok? ==> |r.value| == |data| && forall i :: 0 <= i < |data| ==> r.value[i] as int == data[i] as int
    ensures r.Err? ==> r.error == UnicodeDecodeError
  {
    if forall i :: 0 <= i < |data| ==> data[i] < 128
    then Ok(seq(|data|, i requires 0 <= i < |data| => (data[i] as int) as char))
    else Err(UnicodeDecodeError)
  }

  /** The bytes of an ASCII text, as a file holds it. */
  function Encode(s: string): (data: Bytes)
    requires All(s, Ascii)
    ensures |data| == |s| && forall i :: 0 <= i < |s| ==> data[i] as int == s[i] as int
  {
    var data := seq(|s|, i requires 0 <= i < |s| => (s[i] as int) as byte);
    assert forall i :: 0 <= i < |s| ==> data[i] as int == s[i] as int;
    data
  }

  /** An ASCII text written to a file reads back unchanged. */
  lemma DecodeEncode(s: string)
    requires All(s, Ascii)
    ensures Decode(Encode(s)) == Ok(s)
  {
    var data := Encode(s);
    assert forall i :: 0 <= i < |data| ==> data[i] < 128;
    var t := Decode(data).value;
    assert forall i :: 0 <= i < |s| ==> t[i] == s[i];
    assert t == s;
  }

  /**
   * The set of the values of `xs`, or ValueError when one of them is None:
   * how a set comprehension over a call that may raise ends.
   */
  function Collect<T(!new)>(xs: seq<Option<T>>): (r: Result<set<T>, Exception>)
    ensures r.Ok? <==> forall i :: 0 <= i < |xs| ==> xs[i].Some?
    ensures r.Ok? ==> forall a :: a in r.value <==> exists i :: 0 <= i < |xs| && xs[i] == Some(a)
    ensures r.Err? ==> r.error == ValueError
  {
    if xs == [] then Ok({})
    else
      var rest := Collect(xs[1..]);
      assert forall i :: 1 <= i < |xs| ==> xs[i] == xs[1..][i - 1];
      if xs[0].None? then Err(ValueError)
      else if rest.Err? then rest
      else
        assert forall x :: x in rest.value ==> exists i :: 0 <= i < |xs| && xs[i] == Some(x) by {
          forall x | x in rest.value ensures exists i :: 0 <= i < |xs| && xs[i] == Some(x) {
            var j :| 0 <= j < |xs[1..]| && xs[1..][j] == Some(x);
            assert xs[j + 1] == Some(x);
          }
        }
        Ok({xs[0].value} + rest.value)
  }

  /**
   * `{ipaddress.ip_address(t) for t in tokens}`: the set of the addresses the
   * tokens denote, or ValueError when one of them is not an address.
   */
  function ExitNodes(tokens: seq<string>): (r: Result<set<Addr>, Exception>)
    ensures r.Ok? <==> forall i :: 0 <= i < |tokens| ==> ParseAddr(tokens[i]).Some?
    ensures r.Ok? ==> forall a :: a in r.value <==> exists i :: 0 <= i < |tokens| && ParseAddr(tokens[i]) == Some(a)
    ensures r.Err? ==> r.error == ValueError
  {
    var parsed := seq(|tokens|, i requires 0 <= i < |tokens| => ParseAddr(tokens[i]));
    assert forall i :: 0 <= i < |tokens| ==> parsed[i] == ParseAddr(tokens[i]);
    Collect(parsed)
  }

  /**
   * `load_dbs`'s read of the list: the file `dir/name` opened as text, split
   * at whitespace, and read as a set of addresses.
   */
  function ReadList(nodes: Nodes, dir: string, name: string): (r: Result<set<Addr>, Exception>)
    ensures r.Ok? ==> IsFile(nodes, PathJoin(dir, name))
  {
    match Contents(nodes, dir, name)
    case Err(e) => Err(e)
    case Ok(data) =>
      match Decode(data)
      case Err(e) => Err(e)
      case Ok(text) => ExitNodes(Words(text))
  }

  /** The one file `update_cache` writes, with what its download gives: the reply as it is, without decompression. */
  function TorItems(name: string, url: string, net: Network): (items: seq<Item>)
    requires name != []
    ensures Distinct(items) && items == [(name, Fetch(net, url))]
  {
    [(name, Fetch(net, url))]
  }

  /**
   * `load_dbs()` from the files `nodes` and the set `db`: the list is
   * refreshed only when its file is missing, then read; an exception leaves
   * `db` as it was.
   */
  function Load(nodes: Nodes, db: Option<set<Addr>>, dir: string, name: string, url: string, net: Network): (r: (Nodes, Option<set<Addr>>, Outcome<Exception>))
    requires name != []
    ensures IsFile(nodes, PathJoin(dir, name)) ==> r.0 == nodes
    ensures !IsFile(nodes, PathJoin(dir, name)) && dir in nodes && !IsDir(nodes, dir) ==> r == (nodes, db, Fail(NotADirectoryError))
    ensures !IsFile(nodes, PathJoin(dir, name)) ==> var rf := Refresh(nodes, dir, TorItems(name, url, net));
      (rf.1.Fail? ==> r == (rf.0, db, rf.1)) && (rf.1.Pass? ==> r.0 == rf.0)
    ensures r.2.Fail? ==> r.1 == db
    ensures r.2.Pass? ==> IsFile(r.0, PathJoin(dir, name)) && ReadList(r.0, dir, name).Ok? && r.1 == Some(ReadList(r.0, dir, name).value)
    ensures IsFile(nodes, PathJoin(dir, name)) || Refresh(nodes, dir, TorItems(name, url, net)).1.Pass? ==>
      var read := ReadList(r.0, dir, name);
      (read.Err? ==> r.1 == db && r.2 == Fail(read.error)) &&
      (read.Ok? ==> r.1 == Some(read.value) && r.2.Pass?)
  {
    var (n1, o) := if IsFile(nodes, PathJoin(dir, name)) then (nodes, Pass) else Refresh(nodes, dir, TorItems(name, url, net));
    if o.Fail? then (n1, db, o)
    else
      match ReadList(n1, dir, name)
      case Err(e) => (n1, db, Fail(e))
      case Ok(s) => (n1, Some(s), Pass)
  }

  /**
   * `is_tor_exit_node(addr)`: load when nothing is loaded (`db` is None),
   * then test membership.
   */
  function Query(nodes: Nodes, db: Option<set<Addr>>, dir: string, name: string, url: string, net: Network, addr: Addr): (r: (Nodes, Option<set<Addr>>, Result<bool, Exception>))
    requires name != []
    ensures db.Some? ==> r == (nodes, db, Ok(addr in db.value))
    ensures db.None? ==> var l := Load(nodes, db, dir, name, url, net);
      (r.0, r.1) == (l.0, l.1) &&
      (l.2.Fail? ==> r.2 == Err(l.2.error)) &&
      (l.2.Pass? ==> r.2 == Ok(addr in l.1.value))
    ensures r.2.Ok? ==> r.1.Some? && r.2.value == (addr in r.1.value)
  {
    if db.Some? then (nodes, db, Ok(addr in db.value))
    else
      var (n1, d1, o) := Load(nodes, db, dir, name, url, net);
      if o.Fail? then (n1, d1, Err(o.error)) else (n1, d1, Ok(addr in d1.value))
  }

  /**
   * An empty list file loads as the empty set, which counts as loaded: later
   * queries answer false without loading again.
   */
  lemma EmptyList(nodes: Nodes, dir: string, name: string, url: string, net: Network, addr: Addr)
    requires name != [] && Get(nodes, PathJoin(dir, name)) == Some(File([]))
    ensures Load(nodes, None, dir, name, url, net) == (nodes, Some({}), Pass)
    ensures Query(nodes, None, dir, name, url, net, addr) == (nodes, Some({}), Ok(false))
  {
    assert Decode([]) == Ok([]);
    assert Words([]) == [];
  }

  /** The text of a list of addresses, one per line. */
  function ListText(addrs: seq<Addr>): (text: string)
    requires forall i :: 0 <= i < |addrs| ==> addrs[i].Valid()
    ensures All(text, Ascii)
    ensures Words(text) == seq(|addrs|, i requires 0 <= i < |addrs| => Literal(addrs[i]))
  {
    var ws := seq(|addrs|, i requires 0 <= i < |addrs| => Literal(addrs[i]));
    LiteralWords(addrs, ws);
    UnlinesIn(ws, Ascii);
    WordsUnlines(ws);
    Unlines(ws)
  }

  /** The literals of addresses are non-empty ASCII words. */
  lemma LiteralWords(addrs: seq<Addr>, ws: seq<string>)
    requires forall i :: 0 <= i < |addrs| ==> addrs[i].Valid()
    requires ws == seq(|addrs|, i requires 0 <= i < |addrs| => Literal(addrs[i]))
    ensures forall i :: 0 <= i < |ws| ==> All(ws[i], Ascii)
    ensures forall w :: w in ws ==> |w| > 0 && All(w, NonSpace)
  {
    forall i | 0 <= i < |ws| ensures |ws[i]| > 0 && All(ws[i], NonSpace) && All(ws[i], Ascii) {
      LiteralShape(addrs[i]);
      AddrCharsAre(ws[i]);
    }
  }

  /** When every entry is present, Collect gives exactly the set of the entries' values. */
  lemma CollectAll<T(!new)>(xs: seq<Option<T>>, ys: seq<T>)
    requires |xs| == |ys| && forall i :: 0 <= i < |xs| ==> xs[i] == Some(ys[i])
    ensures Collect(xs) == Ok(set i | 0 <= i < |ys| :: ys[i])
  {
    var r := Collect(xs);
    var expected := set i | 0 <= i < |ys| :: ys[i];
    forall a ensures a in r.value <==> a in expected {
      if a in expected {
        var i :| 0 <= i < |ys| && ys[i] == a;
        assert xs[i] == Some(a);
      }
      if a in r.value {
        var i :| 0 <= i < |xs| && xs[i] == Some(a);
        assert ys[i] == a;
      }
    }
    assert r.value == expected;
  }

  /** Each literal parses back to its address. */
  lemma LiteralsParse(addrs: seq<Addr>, ws: seq<string>)
    requires forall i :: 0 <= i < |addrs| ==> addrs[i].Valid()
    requires |ws| == |addrs| && forall i :: 0 <= i < |ws| ==> ws[i] == Literal(addrs[i])
    ensures forall i :: 0 <= i < |ws| ==> ParseAddr(ws[i]) == Some(addrs[i])
  {
    forall i | 0 <= i < |ws| ensures ParseAddr(ws[i]) == Some(addrs[i]) {
      LiteralRoundTrip(addrs[i]);
    }
  }

  /** The literals of addresses read back as exactly the set of those addresses. */
  lemma ExitNodesOfLiterals(addrs: seq<Addr>, ws: seq<string>)
    requires forall i :: 0 <= i < |addrs| ==> addrs[i].Valid()
    requires |ws| == |addrs| && forall i :: 0 <= i < |ws| ==> ws[i] == Literal(addrs[i])
    ensures ExitNodes(ws) == Ok(set i | 0 <= i < |addrs| :: addrs[i])
  {
    LiteralsParse(addrs, ws);
    var parsed := seq(|ws|, i requires 0 <= i < |ws| => ParseAddr(ws[i]));
    assert ExitNodes(ws) == Collect(parsed);
    CollectAll(parsed, addrs);
  }

  /**
   * A list file holding addresses one per line, in any order and with
   * repetitions, loads as exactly the set of those addresses.
   */
  lemma ListRoundTrip(nodes: Nodes, dir: string, name: string, addrs: seq<Addr>)
    requires forall i :: 0 <= i < |addrs| ==> addrs[i].Valid()
    requires Get(nodes, PathJoin(dir, name)) == Some(File(Encode(ListText(addrs))))
    ensures ReadList(nodes, dir, name) == Ok(set i | 0 <= i < |addrs| :: addrs[i])
  {
    var text := ListText(addrs);
    DecodeEncode(text);
    assert ReadList(nodes, dir, name) == ExitNodes(Words(text));
    ExitNodesOfLiterals(addrs, Words(text));
  }

  /** The Tor exit node list: its cache directory, its file and source, the file system and network, and the loaded set. */
  class TorExitNodeDatabase {
    const cacheDir: string
    const dbName: string
    const dbSource: string
    const fs: FileSystem
    const net: Network
    var db: Option<set<Addr>>

    /** The list's file has a name. */
    predicate Valid()
      reads this
    {
      dbName != []
    }

    /** `TorExitNodeDatabase(cache_dir)` for a user whose home directory is `home`. */
    constructor (cacheDir: string, home: string, fs: FileSystem, net: Network)
      ensures this.cacheDir == ExpandUser(cacheDir, home) && dbName == TorDbName && dbSource == TorDbSource
      ensures this.fs == fs && this.net == net
      ensures db == None && !CheckLoaded() && Valid()
    {
      this.cacheDir := ExpandUser(cacheDir, home);
      dbName := TorDbName;
      dbSource := TorDbSource;
      this.fs := fs;
      this.net := net;
      db := None;
    }

    /** `check_cache()` */
    predicate CheckCache()
      reads this, fs
    {
      IsFile(fs.nodes, PathJoin(cacheDir, dbName))
    }

    /** `check_loaded()` */
    predicate CheckLoaded()
      reads this
    {
      db.Some?
    }

    /** `update_cache()` */
    method UpdateCache() returns (r: Outcome<Exception>)
      requires Valid()
      modifies fs
      ensures (fs.nodes, r) == Refresh(old(fs.nodes), cacheDir, TorItems(dbName, dbSource, net))
    {
      if !IsDir(fs.nodes, cacheDir) {
        if cacheDir in fs.nodes {
          return Fail(NotADirectoryError);
        }
        r := fs.MakeDirs(cacheDir);
        if r.Fail? {
          return;
        }
      }
      ghost var start := fs.nodes;
      ghost var items := TorItems(dbName, dbSource, net);
      assert Refresh(old(fs.nodes), cacheDir, items) == WriteAll(start, cacheDir, items);
      r := fs.OpenForWriting(cacheDir, dbName);
      if r.Fail? {
        return;
      }
      var body := Fetch(net, dbSource);
      if body.Err? {
        return Fail(body.error);
      }
      ghost var truncated := fs.nodes;
      fs.Write(PathJoin(cacheDir, dbName), body.value);
      assert [] + body.value == body.value;
      assert items[1..] == [];
      assert WriteAll(start, cacheDir, items) == WriteAll(fs.nodes, cacheDir, []);
      assert fs.nodes == truncated[PathJoin(cacheDir, dbName) := File(body.value)];
    }

    /** `load_dbs()` */
    method LoadDbs() returns (r: Outcome<Exception>)
      requires Valid()
      modifies this, fs
      ensures (fs.nodes, db, r) == Load(old(fs.nodes), old(db), cacheDir, dbName, dbSource, net)
    {
      if !CheckCache() {
        r := UpdateCache();
        if r.Fail? {
          return;
        }
      }
      var data := Contents(fs.nodes, cacheDir, dbName);
      if data.Err? {
        return Fail(data.error);
      }
      var text := Decode(data.value);
      if text.Err? {
        return Fail(text.error);
      }
      var nodes := ExitNodes(Words(text.value));
      if nodes.Err? {
        return Fail(nodes.error);
      }
      db := Some(nodes.value);
      r := Pass;
    }

    /** `is_tor_exit_node(addr)` */
    method IsTorExitNode(addr: Addr) returns (r: Result<bool, Exception>)
      requires Valid()
      modifies this, fs
      ensures (fs.nodes, db, r) == Query(old(fs.nodes), old(db), cacheDir, dbName, dbSource, net, addr)
    {
      if !CheckLoaded() {
        var loaded := LoadDbs();
        if loaded.Fail? {
          return Err(loaded.error);
        }
      }
      r := Ok(addr in db.value);
    }
  }
}
