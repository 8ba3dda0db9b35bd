/**
 * The file system and the network as the two caches use them. A path names
 * a directory or a regular file; directories are not nested here, so a file
 * `dir/name` needs only `dir` to be a directory. A URL either has a reply
 * or the download fails.
 */
module Files {
  import opened Wrappers
  import opened Exceptions
  import opened Text

  newtype byte = x: int | 0 <= x < 256

  type Bytes = seq<byte>

  /** What a path names: a directory, or a regular file and its contents. */
  datatype Node = Directory | File(data: Bytes)

  type Nodes = map<string, Node>

  /** What `path` names, if anything. */
  function Get(nodes: Nodes, path: string): Option<Node> {
    if path in nodes then Some(nodes[path]) else None
  }

  /** `os.path.isdir(path)` */
  predicate IsDir(nodes: Nodes, path: string) {
    path in nodes && nodes[path].Directory?
  }

  /** `os.path.isfile(path)` */
  predicate IsFile(nodes: Nodes, path: string) {
    path in nodes && nodes[path].File?
  }

  /** `os.path.join(dir, name)` for a name that is not absolute. */
  function PathJoin(dir: string, name: string): (p: string)
    ensures |p| >= |dir| + |name|
    ensures p[|p| - |name|..] == name
  {
    if dir == [] || dir[|dir| - 1] == '/' then dir + name else dir + "/" + name
  }

  /** Different names in the same directory give different paths, and none of them is the directory. */
  lemma PathJoinDistinct(dir: string, n1: string, n2: string)
    ensures n1 != n2 ==> PathJoin(dir, n1) != PathJoin(dir, n2)
    ensures n1 != [] ==> PathJoin(dir, n1) != dir
  {
    var prefix := if dir == [] || dir[|dir| - 1] == '/' then dir else dir + "/";
    assert PathJoin(dir, n1) == prefix + n1 && PathJoin(dir, n2) == prefix + n2;
    assert (prefix + n1)[|prefix|..] == n1 && (prefix + n2)[|prefix|..] == n2;
  }

  /** The default cache directory of both caches. */
  const DefaultCacheDir: string := "~/.cache/map_ssh_attempts"

  /** `s.rstrip('/')` */
  function TrimSlashes(s: string): (r: string)
    ensures StartsWith(s, r) && (r == [] || r[|r| - 1] != '/')
    ensures forall i :: |r| <= i < |s| ==> s[i] == '/'
  {
    if s == [] || s[|s| - 1] != '/' then s else TrimSlashes(s[..|s| - 1])
  }

  /**
   * `os.path.expanduser(path)` for the current user, whose home directory is
   * `home`: a leading "~" alone or before a '/' becomes the home directory
   * without its trailing slashes; an empty result becomes "/". Any other path
   * is returned as it is.
   */
  function ExpandUser(path: string, home: string): (r: string)
    ensures !StartsWith(path, "~") ==> r == path
    ensures (path == "~" || StartsWith(path, "~/")) && TrimSlashes(home) + path[1..] != [] ==>
      r == TrimSlashes(home) + path[1..]
  {
    if path == [] || path[0] != '~' then path
    else if |path| > 1 && path[1] != '/' then path
    else
      var r := TrimSlashes(home) + path[1..];
      if r == [] then "/" else r
  }

  /** `os.makedirs(path)`: the new nodes, or the exception. */
  function MadeDirs(nodes: Nodes, path: string): (r: (Nodes, Outcome<Exception>))
    ensures r.1.Pass? ==> r.0 == nodes[path := Directory] && path !in nodes
    ensures r.1.Fail? ==> r.0 == nodes
    ensures path != [] && path in nodes ==> r.1 == Fail(FileExistsError)
  {
    if path == [] then (nodes, Fail(FileNotFoundError))
    else if path in nodes then (nodes, Fail(FileExistsError))
    else (nodes[path := Directory], Pass)
  }

  /**
   * `open(os.path.join(dir, name), 'wb')`: the file is created, or emptied
   * when it exists, before anything is written to it.
   */
  function Truncated(nodes: Nodes, dir: string, name: string): (r: (Nodes, Outcome<Exception>))
    ensures r.1.Pass? <==> IsDir(nodes, dir) && !IsDir(nodes, PathJoin(dir, name))
    ensures r.1.Pass? ==> r.0 == nodes[PathJoin(dir, name) := File([])]
    ensures r.1.Fail? ==> r.0 == nodes
  {
    var path := PathJoin(dir, name);
    if !IsDir(nodes, dir) then (nodes, Fail(if dir in nodes then NotADirectoryError else FileNotFoundError))
    else if IsDir(nodes, path) then (nodes, Fail(IsADirectoryError))
    else (nodes[path := File([])], Pass)
  }

  /** `open(os.path.join(dir, name), 'rb').read()` */
  function Contents(nodes: Nodes, dir: string, name: string): (r: Result<Bytes, Exception>)
    ensures r.Ok? <==> IsFile(nodes, PathJoin(dir, name))
    ensures r.Ok? ==> nodes[PathJoin(dir, name)] == File(r.value)
    ensures r.Err? ==> r.error in {FileNotFoundError, IsADirectoryError}
  {
    var path := PathJoin(dir, name);
    if path !in nodes then Err(FileNotFoundError)
    else match nodes[path]
      case Directory => Err(IsADirectoryError)
      case File(data) => Ok(data)
  }

  /** A file to refresh: its name, and what its download gives (the contents, or the exception it raises). */
  type Item = (string, Result<Bytes, Exception>)

  /** `path` is the path of one of the files `items` names. */
  predicate Touched(dir: string, items: seq<Item>, path: string) {
    exists i :: 0 <= i < |items| && path == PathJoin(dir, items[i].0)
  }

  /** The names of `items` are distinct and not empty. */
  predicate Distinct(items: seq<Item>) {
    && (forall i :: 0 <= i < |items| ==> items[i].0 != [])
    && (forall i, j :: 0 <= i < j < |items| ==> items[i].0 != items[j].0)
  }

  /**
   * The loop of `update_cache` over the files: each file is opened for
   * writing, then downloaded, then written; an exception ends the loop and
   * leaves the file it was raised for empty.
   */
  function WriteAll(nodes: Nodes, dir: string, items: seq<Item>): (r: (Nodes, Outcome<Exception>))
    ensures forall p :: !Touched(dir, items, p) ==> Get(r.0, p) == Get(nodes, p)
    ensures r.1.Pass? ==> forall i :: 0 <= i < |items| ==> items[i].1.Ok?
    ensures r.1.Fail? ==>
      (r.1.error in {NotADirectoryError, FileNotFoundError, IsADirectoryError}
       || exists i :: 0 <= i < |items| && items[i].1 == Err(r.1.error))
    decreases |items|
  {
    if items == [] then (nodes, Pass)
    else
      var path := PathJoin(dir, items[0].0);
      match Truncated(nodes, dir, items[0].0)
      case (n1, Fail(e)) => (n1, Fail(e))
      case (n1, Pass) =>
        match items[0].1
        case Err(e) => (n1, Fail(e))
        case Ok(data) =>
          var r := WriteAll(n1[path := File(data)], dir, items[1..]);
          assert forall p :: Touched(dir, items[1..], p) ==> Touched(dir, items, p) by {
            forall p | Touched(dir, items[1..], p) ensures Touched(dir, items, p) {
              var i :| 0 <= i < |items[1..]| && p == PathJoin(dir, items[1..][i].0);
              assert p == PathJoin(dir, items[i + 1].0);
            }
          }
          assert forall i :: 1 <= i < |items| ==> items[i] == items[1..][i - 1];
          r
  }

  /** `update_cache` on the nodes: the cache directory is checked or created, then the files are written. */
  function Refresh(nodes: Nodes, dir: string, items: seq<Item>): (r: (Nodes, Outcome<Exception>))
    ensures dir in nodes && !IsDir(nodes, dir) ==> r == (nodes, Fail(NotADirectoryError))
    ensures r.1.Fail? ==>
      (r.1.error in {NotADirectoryError, FileNotFoundError, IsADirectoryError, FileExistsError}
       || exists i :: 0 <= i < |items| && items[i].1 == Err(r.1.error))
  {
    if IsDir(nodes, dir) then WriteAll(nodes, dir, items)
    else if dir in nodes then (nodes, Fail(NotADirectoryError))
    else
      match MadeDirs(nodes, dir)
      case (n1, Fail(e)) => (n1, Fail(e))
      case (n1, Pass) => WriteAll(n1, dir, items)
  }

  /** Writing a file leaves the directory a directory and the other files as they were. */
  lemma {:induction false} WriteAllKeepsDir(nodes: Nodes, dir: string, items: seq<Item>)
    requires Distinct(items)
    ensures IsDir(nodes, dir) ==> IsDir(WriteAll(nodes, dir, items).0, dir)
  {
    if IsDir(nodes, dir) {
      forall i | 0 <= i < |items| ensures PathJoin(dir, items[i].0) != dir {
        PathJoinDistinct(dir, items[i].0, items[i].0);
      }
      assert !Touched(dir, items, dir);
    }
  }

  /**
   * When every download succeeds and no file is a directory, every file
   * ends up holding exactly what was downloaded for it.
   */
  lemma {:induction false} WriteAllSucceeds(nodes: Nodes, dir: string, items: seq<Item>)
    requires IsDir(nodes, dir) && Distinct(items)
    requires forall i :: 0 <= i < |items| ==> items[i].1.Ok? && !IsDir(nodes, PathJoin(dir, items[i].0))
    ensures WriteAll(nodes, dir, items).1 == Pass
    ensures forall i :: 0 <= i < |items| ==>
      Get(WriteAll(nodes, dir, items).0, PathJoin(dir, items[i].0)) == Some(File(items[i].1.value))
    decreases |items|
  {
    if items != [] {
      var path := PathJoin(dir, items[0].0);
      var n1 := nodes[path := File([])][path := File(items[0].1.value)];
      forall i | 1 <= i < |items| ensures PathJoin(dir, items[i].0) != path && PathJoin(dir, items[i].0) != dir {
        PathJoinDistinct(dir, items[0].0, items[i].0);
        PathJoinDistinct(dir, items[i].0, items[i].0);
      }
      PathJoinDistinct(dir, items[0].0, items[0].0);
      assert forall i :: 1 <= i < |items| ==> items[i] == items[1..][i - 1];
      WriteAllSucceeds(n1, dir, items[1..]);
      var r := WriteAll(n1, dir, items[1..]);
      assert !Touched(dir, items[1..], path);
    }
  }

  /**
   * When the download for file `i` fails, and the files before it were
   * written, the loop stops with that exception and file `i` exists but is
   * empty: it was opened before the download.
   */
  lemma {:induction false} WriteAllFails(nodes: Nodes, dir: string, items: seq<Item>, i: nat)
    requires IsDir(nodes, dir) && Distinct(items) && i < |items|
    requires forall j :: 0 <= j <= i ==> !IsDir(nodes, PathJoin(dir, items[j].0))
    requires forall j :: 0 <= j < i ==> items[j].1.Ok?
    requires items[i].1.Err?
    ensures WriteAll(nodes, dir, items).1 == Fail(items[i].1.error)
    ensures Get(WriteAll(nodes, dir, items).0, PathJoin(dir, items[i].0)) == Some(File([]))
    decreases i
  {
    var path := PathJoin(dir, items[0].0);
    PathJoinDistinct(dir, items[0].0, items[0].0);
    if i > 0 {
      var n1 := nodes[path := File([])][path := File(items[0].1.value)];
      forall j | 1 <= j < |items| ensures PathJoin(dir, items[j].0) != path {
        PathJoinDistinct(dir, items[0].0, items[j].0);
      }
      assert forall j :: 1 <= j < |items| ==> items[j] == items[1..][j - 1];
      WriteAllFails(n1, dir, items[1..], i - 1);
    }
  }

  /** When the loop runs to its end, every file holds exactly what was downloaded for it. */
  lemma {:induction false} WriteAllPassed(nodes: Nodes, dir: string, items: seq<Item>)
    requires Distinct(items)
    ensures var r := WriteAll(nodes, dir, items);
      r.1.Pass? ==> forall i :: 0 <= i < |items| ==> Get(r.0, PathJoin(dir, items[i].0)) == Some(File(items[i].1.value))
    decreases |items|
  {
    var r := WriteAll(nodes, dir, items);
    if items != [] && r.1.Pass? {
      var path := PathJoin(dir, items[0].0);
      var n1 := nodes[path := File([])][path := File(items[0].1.value)];
      forall i | 1 <= i < |items| ensures PathJoin(dir, items[i].0) != path {
        PathJoinDistinct(dir, items[0].0, items[i].0);
      }
      assert forall i :: 1 <= i < |items| ==> items[i] == items[1..][i - 1];
      WriteAllPassed(n1, dir, items[1..]);
      assert !Touched(dir, items[1..], path);
    }
  }

  /**
   * A refresh that raises nothing leaves the cache directory a directory and
   * every file holding exactly what was downloaded for it.
   */
  lemma RefreshPassed(nodes: Nodes, dir: string, items: seq<Item>)
    requires Distinct(items)
    ensures var r := Refresh(nodes, dir, items);
      r.1.Pass? ==> IsDir(r.0, dir) && forall i :: 0 <= i < |items| ==>
        items[i].1.Ok? && Get(r.0, PathJoin(dir, items[i].0)) == Some(File(items[i].1.value))
  {
    var r := Refresh(nodes, dir, items);
    if r.1.Pass? {
      var n1 := if IsDir(nodes, dir) then nodes else nodes[dir := Directory];
      assert r == WriteAll(n1, dir, items);
      WriteAllPassed(n1, dir, items);
      WriteAllKeepsDir(n1, dir, items);
    }
  }

  /** The network: what each URL replies, if it replies. */
  datatype Network = Network(replies: map<string, Bytes>)

  /** `urllib.request.urlopen(url).read()` */
  function Fetch(net: Network, url: string): (r: Result<Bytes, Exception>)
    ensures r.Ok? <==> url in net.replies
    ensures r.Ok? ==> r.value == net.replies[url]
    ensures r.Err? ==> r.error == URLError
  {
    if url in net.replies then Ok(net.replies[url]) else Err(URLError)
  }

  /** The file system: the nodes, which the caches' methods change in place. */
  class FileSystem {
    var nodes: Nodes

    constructor (initial: Nodes)
      ensures nodes == initial
    {
      nodes := initial;
    }

    /** `os.makedirs(path)` */
    method MakeDirs(path: string) returns (r: Outcome<Exception>)
      modifies this
      ensures (nodes, r) == MadeDirs(old(nodes), path)
    {
      var made := MadeDirs(nodes, path);
      nodes, r := made.0, made.1;
    }

    /** `open(os.path.join(dir, name), 'wb')` */
    method OpenForWriting(dir: string, name: string) returns (r: Outcome<Exception>)
      modifies this
      ensures (nodes, r) == Truncated(old(nodes), dir, name)
    {
      var truncated := Truncated(nodes, dir, name);
      nodes, r := truncated.0, truncated.1;
    }

    /** `f.write(data)` on a file opened for writing: the data goes after what the file holds. */
    method Write(path: string, data: Bytes)
      requires IsFile(nodes, path)
      modifies this
      ensures nodes == old(nodes)[path := File(old(nodes)[path].data + data)]
    {
      nodes := nodes[path := File(nodes[path].data + data)];
    }
  }
}
