/**
 * The counting behind `bar_plot`: a dictionary from label (a username or a
 * country name) to the number of attempts with that label, built in one pass
 * over the attempts and then sorted by count into the bar labels and values.
 * The matplotlib calls that draw the chart are not modelled.
 */
module Plot {
  import opened Wrappers
  import opened Exceptions
  import opened Text
  import opened Address
  import opened Files
  import opened Geo
  import opened LogParser

  /** A bar's label: a username, or the country name a lookup gave (None when the record has none). */
  datatype Label = Username(name: string) | Country(country: Option<string>)

  /** A Python dict from label to count, as its items in the order they were first inserted. */
  type Data = seq<(Label, nat)>

  function Labels(data: Data): (labels: seq<Label>)
    ensures |labels| == |data| && forall i :: 0 <= i < |data| ==> labels[i] == data[i].0
  {
    seq(|data|, i requires 0 <= i < |data| => data[i].0)
  }

  function Values(data: Data): (values: seq<nat>)
    ensures |values| == |data| && forall i :: 0 <= i < |data| ==> values[i] == data[i].1
  {
    seq(|data|, i requires 0 <= i < |data| => data[i].1)
  }

  /** The sum of a sequence of counts. */
  function Total(xs: seq<nat>): nat {
    if xs == [] then 0 else xs[0] + Total(xs[1..])
  }

  lemma LabelsCons(data: Data)
    requires data != []
    ensures Labels(data) == [data[0].0] + Labels(data[1..])
  {
  }

  lemma ValuesCons(data: Data)
    requires data != []
    ensures Values(data) == [data[0].1] + Values(data[1..])
  {
  }

  /** No label appears twice: the items of a dict. */
  predicate DistinctLabels(data: Data) {
    forall i, j :: 0 <= i < j < |data| ==> data[i].0 != data[j].0
  }

  /** `data.get(k, 0)` */
  function CountOf(data: Data, k: Label): nat {
    if data == [] then 0
    else if data[0].0 == k then data[0].1
    else CountOf(data[1..], k)
  }

  /** In a dict, the count stored with a label is the one `get` finds. */
  lemma {:induction false} CountOfAt(data: Data, i: nat)
    requires DistinctLabels(data) && i < |data|
    ensures CountOf(data, data[i].0) == data[i].1
  {
    if i > 0 {
      assert data[0].0 != data[i].0;
      assert data[1..][i - 1] == data[i];
      CountOfAt(data[1..], i - 1);
    }
  }

  /**
   * `data[k] = data.get(k, 0) + 1`: an existing label keeps its place and
   * gains one; a new label goes at the end with count 1.
   */
  function Bump(data: Data, k: Label): (r: Data)
    ensures forall x :: x in Labels(r) <==> x in Labels(data) || x == k
    ensures forall x :: CountOf(r, x) == CountOf(data, x) + (if x == k then 1 else 0)
  {
    if data == [] then
      assert Labels([(k, 1)]) == [k] && [(k, 1)][1..] == [];
      [(k, 1)]
    else
      var r := if data[0].0 == k then [(k, data[0].1 + 1)] + data[1..] else [data[0]] + Bump(data[1..], k);
      assert r[1..] == if data[0].0 == k then data[1..] else Bump(data[1..], k);
      LabelsCons(r);
      LabelsCons(data);
      r
  }

  /** Counting one more attempt adds one to the total of the counts. */
  lemma {:induction false} BumpTotal(data: Data, k: Label)
    ensures Total(Values(Bump(data, k))) == Total(Values(data)) + 1
  {
    var r := Bump(data, k);
    ValuesCons(r);
    if data == [] {
      assert Values(r)[1..] == [];
    } else {
      ValuesCons(data);
      if data[0].0 != k {
        assert r[1..] == Bump(data[1..], k);
        BumpTotal(data[1..], k);
      } else {
        assert r[1..] == data[1..];
      }
    }
  }

  /** Counting keeps the labels distinct and the counts positive. */
  lemma {:induction false} BumpDistinct(data: Data, k: Label)
    requires DistinctLabels(data) && forall i :: 0 <= i < |data| ==> data[i].1 > 0
    ensures DistinctLabels(Bump(data, k)) && forall i :: 0 <= i < |Bump(data, k)| ==> Bump(data, k)[i].1 > 0
  {
    var r := Bump(data, k);
    if data != [] && data[0].0 != k {
      var rest := Bump(data[1..], k);
      assert r == [data[0]] + rest;
      BumpDistinct(data[1..], k);
      forall i, j | 0 <= i < j < |r| ensures r[i].0 != r[j].0 {
        if i == 0 {
          assert r[j].0 in Labels(rest);
          if r[j].0 != k {
            assert r[j].0 in Labels(data[1..]);
            var m :| 0 <= m < |data[1..]| && data[1..][m].0 == r[j].0;
            assert data[m + 1].0 == r[j].0;
          }
        } else {
          assert r[i] == rest[i - 1] && r[j] == rest[j - 1];
        }
      }
    } else if data != [] {
      forall i, j | 0 <= i < j < |r| ensures r[i].0 != r[j].0 {
        assert r[j] == data[j];
        if i > 0 {
          assert r[i] == data[i];
        }
      }
    }
  }

  /**
   * The dict after counting `keys` one after the other, from an empty dict.
   * Each label of `keys` appears once, with the number of times it occurs.
   */
  function Tally(keys: seq<Label>): (data: Data)
    ensures forall x :: CountOf(data, x) == multiset(keys)[x]
    ensures forall x :: x in Labels(data) <==> x in keys
  {
    if keys == [] then []
    else
      var front := keys[..|keys| - 1];
      assert keys == front + [keys[|keys| - 1]];
      Bump(Tally(front), keys[|keys| - 1])
  }

  /** The counts of a tally are positive, its labels distinct, and they add up to the number of keys. */
  lemma {:induction false} TallyShape(keys: seq<Label>)
    ensures var data := Tally(keys);
      DistinctLabels(data) && (forall i :: 0 <= i < |data| ==> data[i].1 > 0) && Total(Values(data)) == |keys|
  {
    if keys != [] {
      var front := keys[..|keys| - 1];
      TallyShape(front);
      BumpDistinct(Tally(front), keys[|keys| - 1]);
      BumpTotal(Tally(front), keys[|keys| - 1]);
    } else {
      assert Values([]) == [];
    }
  }

  /** The items in ascending order of count. */
  predicate Ascending(data: Data) {
    forall i, j :: 0 <= i < j < |data| ==> data[i].1 <= data[j].1
  }

  /** The items with count `c`, in their order. */
  function WithCount(data: Data, c: nat): seq<(Label, nat)> {
    if data == [] then []
    else (if data[0].1 == c then [data[0]] else []) + WithCount(data[1..], c)
  }

  /**
   * `x` placed in a sequence before the first item whose count is not
   * smaller, so that among equal counts it comes first.
   */
  function Insert(x: (Label, nat), t: Data): (r: Data)
    ensures |r| == |t| + 1 && multiset(r) == multiset(t) + multiset{x}
  {
    if t == [] || x.1 <= t[0].1 then [x] + t
    else
      assert t == [t[0]] + t[1..];
      [t[0]] + Insert(x, t[1..])
  }

  /** Inserting into an ascending sequence keeps it ascending. */
  lemma {:induction false} InsertAscending(x: (Label, nat), t: Data)
    requires Ascending(t)
    ensures Ascending(Insert(x, t))
  {
    var r := Insert(x, t);
    if t == [] || x.1 <= t[0].1 {
      assert r == [x] + t;
      forall i, j | 0 <= i < j < |r| ensures r[i].1 <= r[j].1 {
        assert r[j] == t[j - 1];
        if i > 0 {
          assert r[i] == t[i - 1];
        } else if j > 1 {
          assert t[0].1 <= t[j - 1].1;
        }
      }
    } else {
      var rest := Insert(x, t[1..]);
      assert r == [t[0]] + rest;
      InsertAscending(x, t[1..]);
      forall i, j | 0 <= i < j < |r| ensures r[i].1 <= r[j].1 {
        if i == 0 {
          assert r[j] == rest[j - 1];
          assert r[j] in multiset(t[1..]) + multiset{x};
          if r[j] != x {
            var m :| 0 <= m < |t[1..]| && t[1..][m] == r[j];
            assert t[m + 1] == r[j];
          }
        } else {
          assert r[i] == rest[i - 1] && r[j] == rest[j - 1];
        }
      }
    }
  }

  /** Among the items of one count, the inserted one comes first. */
  lemma {:induction false} InsertStable(x: (Label, nat), t: Data, c: nat)
    ensures WithCount(Insert(x, t), c) == (if x.1 == c then [x] else []) + WithCount(t, c)
  {
    var r := Insert(x, t);
    var ins := if x.1 == c then [x] else [];
    if t == [] || x.1 <= t[0].1 {
      assert r == [x] + t;
      WithCountCons(x, t, c);
    } else {
      var rest := Insert(x, t[1..]);
      assert r == [t[0]] + rest;
      WithCountCons(t[0], rest, c);
      assert t == [t[0]] + t[1..];
      WithCountCons(t[0], t[1..], c);
      InsertStable(x, t[1..], c);
      var tail := WithCount(t[1..], c);
      NilAppend(tail);
      if t[0].1 == c {
        NilAppend([t[0]] + tail);
      } else {
        NilAppend(ins + tail);
      }
    }
  }

  lemma NilAppend(s: Data)
    ensures [] + s == s
  {
  }

  lemma WithCountCons(y: (Label, nat), s: Data, c: nat)
    ensures WithCount([y] + s, c) == (if y.1 == c then [y] else []) + WithCount(s, c)
  {
    assert ([y] + s)[1..] == s;
  }

  /**
   * `sorted(items, key=operator.itemgetter(1))`: a stable sort by count, here
   * an insertion sort. The result is a permutation of the items.
   */
  function SortByCount(data: Data): (r: Data)
    ensures |r| == |data| && multiset(r) == multiset(data)
  {
    if data == [] then []
    else
      assert data == [data[0]] + data[1..];
      Insert(data[0], SortByCount(data[1..]))
  }

  /** The sorted items are in ascending order of count. */
  lemma {:induction false} SortAscending(data: Data)
    ensures Ascending(SortByCount(data))
  {
    if data != [] {
      SortAscending(data[1..]);
      InsertAscending(data[0], SortByCount(data[1..]));
    }
  }

  /** The sort is stable: the items of each count keep their order. */
  lemma {:induction false} SortStable(data: Data, c: nat)
    ensures WithCount(SortByCount(data), c) == WithCount(data, c)
  {
    if data != [] {
      SortStable(data[1..], c);
      InsertStable(data[0], SortByCount(data[1..]), c);
    }
  }

  /** Inserting an item adds its count to the total. */
  lemma {:induction false} InsertTotal(x: (Label, nat), t: Data)
    ensures Total(Values(Insert(x, t))) == x.1 + Total(Values(t))
  {
    var r := Insert(x, t);
    ValuesCons(r);
    if t == [] || x.1 <= t[0].1 {
      assert r[1..] == t;
    } else {
      ValuesCons(t);
      assert r[1..] == Insert(x, t[1..]);
      InsertTotal(x, t[1..]);
    }
  }

  /** Inserting an item with a new label keeps the labels distinct. */
  lemma {:induction false} InsertDistinct(x: (Label, nat), t: Data)
    requires DistinctLabels(t) && forall e :: e in t ==> e.0 != x.0
    ensures DistinctLabels(Insert(x, t))
  {
    var r := Insert(x, t);
    if t == [] || x.1 <= t[0].1 {
      assert r == [x] + t;
      forall i, j | 0 <= i < j < |r| ensures r[i].0 != r[j].0 {
        assert r[j] == t[j - 1];
        if i > 0 {
          assert r[i] == t[i - 1];
        }
      }
    } else {
      var rest := Insert(x, t[1..]);
      assert r == [t[0]] + rest;
      InsertDistinct(x, t[1..]);
      forall i, j | 0 <= i < j < |r| ensures r[i].0 != r[j].0 {
        if i == 0 {
          assert r[j] == rest[j - 1];
          assert r[j] in multiset(t[1..]) + multiset{x};
          if r[j] != x {
            var m :| 0 <= m < |t[1..]| && t[1..][m] == r[j];
            assert t[m + 1] == r[j];
          }
        } else {
          assert r[i] == rest[i - 1] && r[j] == rest[j - 1];
        }
      }
    }
  }

  /** Sorting keeps the total of the counts and the distinctness of the labels. */
  lemma SortShape(data: Data)
    ensures Total(Values(SortByCount(data))) == Total(Values(data))
    ensures DistinctLabels(data) ==> DistinctLabels(SortByCount(data))
  {
    SortTotal(data);
    if DistinctLabels(data) {
      SortDistinct(data);
    }
  }

  lemma {:induction false} SortTotal(data: Data)
    ensures Total(Values(SortByCount(data))) == Total(Values(data))
  {
    if data != [] {
      SortTotal(data[1..]);
      InsertTotal(data[0], SortByCount(data[1..]));
      ValuesCons(data);
    }
  }

  lemma {:induction false} SortDistinct(data: Data)
    requires DistinctLabels(data)
    ensures DistinctLabels(SortByCount(data))
  {
    if data != [] {
      var rest := SortByCount(data[1..]);
      assert DistinctLabels(data[1..]) by {
        forall i, j | 0 <= i < j < |data| - 1 ensures data[1..][i].0 != data[1..][j].0 {
          assert data[1..][i] == data[i + 1] && data[1..][j] == data[j + 1];
        }
      }
      SortDistinct(data[1..]);
      forall e | e in rest ensures e.0 != data[0].0 {
        assert e in multiset(data[1..]);
        var m :| 0 <= m < |data[1..]| && data[1..][m] == e;
        assert data[m + 1] == e;
      }
      InsertDistinct(data[0], rest);
    }
  }

  /** The bars as (label, value) pairs: what `zip(labels, values)` would give back. */
  function Zip(labels: seq<Label>, values: seq<nat>): (bars: Data)
    requires |labels| == |values|
    ensures |bars| == |labels| && forall i :: 0 <= i < |bars| ==> bars[i] == (labels[i], values[i])
  {
    seq(|labels|, i requires 0 <= i < |labels| => (labels[i], values[i]))
  }

  /** Splitting items into their two columns and zipping them again gives the items back. */
  lemma ZipColumns(data: Data)
    ensures Zip(Labels(data), Values(data)) == data
  {
  }

  /**
   * `labels, values = zip(*sorted(data.items(), key=operator.itemgetter(1)))`:
   * the bars are the items, each once, in ascending order of count, with the
   * items of equal count in the order they had. With no items there is
   * nothing to unpack into the two names, and Python raises ValueError.
   */
  function Chart(data: Data): (r: Result<(seq<Label>, seq<nat>), Exception>)
    ensures r.Err? <==> data == []
    ensures r.Err? ==> r.error == ValueError
    ensures r.Ok? ==> |r.value.0| == |r.value.1| == |data|
    ensures r.Ok? ==> multiset(Zip(r.value.0, r.value.1)) == multiset(data)
    ensures r.Ok? ==> AscendingValues(r.value.1)
    ensures r.Ok? ==> forall c :: WithCount(Zip(r.value.0, r.value.1), c) == WithCount(data, c)
  {
    if data == [] then Err(ValueError)
    else
      var sorted := SortByCount(data);
      SortAscending(data);
      ZipColumns(sorted);
      assert forall c :: WithCount(sorted, c) == WithCount(data, c) by {
        forall c ensures WithCount(sorted, c) == WithCount(data, c) {
          SortStable(data, c);
        }
      }
      Ok((Labels(sorted), Values(sorted)))
  }

  /** Each sorted item of a tally holds the number of times its label occurs. */
  lemma ChartCounts(keys: seq<Label>, sorted: Data)
    requires sorted == SortByCount(Tally(keys))
    ensures forall i :: 0 <= i < |sorted| ==> sorted[i].1 == multiset(keys)[sorted[i].0]
  {
    var data := Tally(keys);
    TallyShape(keys);
    forall i | 0 <= i < |sorted| ensures sorted[i].1 == multiset(keys)[sorted[i].0] {
      assert sorted[i] in multiset(data);
      var j :| 0 <= j < |data| && data[j] == sorted[i];
      CountOfAt(data, j);
    }
  }

  /** A label of the items is a label of any permutation of them. */
  lemma PermutedLabel(data: Data, sorted: Data, k: Label)
    requires multiset(sorted) == multiset(data) && k in Labels(data)
    ensures k in Labels(sorted)
  {
    var j :| 0 <= j < |data| && Labels(data)[j] == k;
    assert data[j] in multiset(sorted);
    var i :| 0 <= i < |sorted| && sorted[i] == data[j];
    assert Labels(sorted)[i] == k;
  }

  /** The sorted items of a tally have exactly the keys as labels. */
  lemma ChartMembers(keys: seq<Label>, sorted: Data)
    requires sorted == SortByCount(Tally(keys))
    ensures forall k :: k in Labels(sorted) <==> k in keys
  {
    var data := Tally(keys);
    forall k ensures k in Labels(sorted) <==> k in keys {
      if k in keys {
        PermutedLabel(data, sorted, k);
      }
      if k in Labels(sorted) {
        PermutedLabel(sorted, data, k);
      }
    }
  }

  /**
   * Bars that count `keys`: one per distinct key, each with the number of
   * times its key occurs, adding up to the number of keys.
   */
  ghost predicate ChartOf(keys: seq<Label>, labels: seq<Label>, values: seq<nat>) {
    |labels| == |values| &&
    (forall i, j :: 0 <= i < j < |labels| ==> labels[i] != labels[j]) &&
    (forall i :: 0 <= i < |labels| ==> values[i] == multiset(keys)[labels[i]]) &&
    (forall k :: k in labels <==> k in keys) &&
    Total(values) == |keys|
  }

  /**
   * The bars of counted keys: one per distinct key, each with the number of
   * times its key occurs, in ascending order of count; the counts add up to
   * the number of keys. With no keys, ValueError.
   */
  lemma ChartOfTally(keys: seq<Label>)
    ensures keys == [] <==> Chart(Tally(keys)) == Err(ValueError)
    ensures Chart(Tally(keys)).Ok? ==> ChartOf(keys, Chart(Tally(keys)).value.0, Chart(Tally(keys)).value.1)
  {
    var data := Tally(keys);
    if keys != [] {
      assert keys[0] in Labels(data);
      var sorted := SortByCount(data);
      var labels, values := Labels(sorted), Values(sorted);
      assert Chart(data) == Ok((labels, values));
      assert forall i, j :: 0 <= i < j < |labels| ==> labels[i] != labels[j] by {
        TallyShape(keys);
        SortShape(data);
      }
      assert forall i :: 0 <= i < |labels| ==> values[i] == multiset(keys)[labels[i]] by {
        ChartCounts(keys, sorted);
      }
      assert forall k :: k in labels <==> k in keys by {
        ChartMembers(keys, sorted);
      }
      assert Total(values) == |keys| by {
        TallyShape(keys);
        SortShape(data);
      }
    }
  }

  /** The parsed addresses are IP addresses. */
  predicate AddressesValid(attempts: seq<Attempt>) {
    forall i :: 0 <= i < |attempts| ==> attempts[i].address.Valid()
  }

  /** The keys the username chart counts: the usernames of the first `n` attempts, in order. */
  function UserKeys(attempts: seq<Attempt>, n: nat): (keys: seq<Label>)
    requires n <= |attempts|
    ensures |keys| == n && forall i :: 0 <= i < n ==> keys[i] == Username(attempts[i].username)
  {
    if n == 0 then [] else UserKeys(attempts, n - 1) + [Username(attempts[n - 1].username)]
  }

  /**
   * The country names of the attempts from the `i`-th on whose address is in
   * the database of its version, in order: what the country chart counts once
   * the databases are loaded.
   */
  function Countries(dbs: map<nat, GeoDb>, attempts: seq<Attempt>, i: nat): (keys: seq<Label>)
    requires IsLoaded(dbs) && AddressesValid(attempts) && i <= |attempts|
    ensures |keys| <= |attempts| - i
    decreases |attempts| - i
  {
    if i == |attempts| then []
    else
      var a := attempts[i].address;
      (if a in dbs[a.Version()] then [Country(dbs[a.Version()][a].countryName)] else []) + Countries(dbs, attempts, i + 1)
  }

  /** The keys counted so far, in front of those a later part of the loop counts, unless that part raised. */
  function Prefixed(keys: seq<Label>, rest: Result<seq<Label>, Exception>): (r: Result<seq<Label>, Exception>)
    ensures r.Err? <==> rest.Err?
    ensures r.Err? ==> r == rest
    ensures r.Ok? ==> |r.value| == |keys| + |rest.value| && r.value[..|keys|] == keys && r.value[|keys|..] == rest.value
  {
    if rest.Err? then rest else Ok(keys + rest.value)
  }

  /**
   * The country chart's loop over the attempts from the `i`-th on, from files
   * `nodes` and databases `dbs`: each attempt's `country_name_by_addr`, its
   * country counted when found, the attempt skipped on AttributeError, and
   * any other error raised at once.
   */
  function CountryKeys(nodes: Nodes, dbs: map<nat, GeoDb>, dir: string, c: Catalog, b: Backend, name: string, attempts: seq<Attempt>, i: nat): (r: (Nodes, map<nat, GeoDb>, Result<seq<Label>, Exception>))
    requires c.Valid() && AddressesValid(attempts) && i <= |attempts| && name == CountryNameByAddr
    ensures r.2.Ok? ==> |r.2.value| <= |attempts| - i
    ensures r.2.Err? ==> r.2.error != AttributeError
    decreases |attempts| - i
  {
    if i == |attempts| then (nodes, dbs, Ok([]))
    else
      var (n1, d1, answer) := Forward(nodes, dbs, dir, c, b, name, attempts[i].address);
      if answer.Ok? then
        var (n2, d2, rest) := CountryKeys(n1, d1, dir, c, b, name, attempts, i + 1);
        (n2, d2, Prefixed([Country(answer.value.country)], rest))
      else if answer.error == AttributeError then CountryKeys(n1, d1, dir, c, b, name, attempts, i + 1)
      else (n1, d1, Err(answer.error))
  }

  /** One pass of the country loop: the lookup of the `i`-th attempt, then the rest of the loop from the state it leaves. */
  lemma CountryKeysStep(nodes: Nodes, dbs: map<nat, GeoDb>, dir: string, c: Catalog, b: Backend, name: string, attempts: seq<Attempt>, i: nat)
    requires c.Valid() && AddressesValid(attempts) && i < |attempts| && name == CountryNameByAddr
    ensures var step := Forward(nodes, dbs, dir, c, b, name, attempts[i].address);
      var rest := CountryKeys(step.0, step.1, dir, c, b, name, attempts, i + 1);
      (step.2.Ok? ==> (step.2.value.CountryAnswer? &&
        CountryKeys(nodes, dbs, dir, c, b, name, attempts, i) == (rest.0, rest.1, Prefixed([Country(step.2.value.country)], rest.2)))) &&
      (step.2 == Err(AttributeError) ==> CountryKeys(nodes, dbs, dir, c, b, name, attempts, i) == rest) &&
      (step.2.Err? && step.2.error != AttributeError ==> CountryKeys(nodes, dbs, dir, c, b, name, attempts, i) == (step.0, step.1, Err(step.2.error)))
  {
  }

  /** Counting keys in two parts is counting them in one. */
  lemma PrefixedAppend(keys: seq<Label>, bar: Label, rest: Result<seq<Label>, Exception>)
    ensures Prefixed(keys, Prefixed([bar], rest)) == Prefixed(keys + [bar], rest)
  {
    if rest.Ok? {
      assert keys + ([bar] + rest.value) == (keys + [bar]) + rest.value;
    }
  }

  /**
   * With the databases loaded, the country loop touches neither the files nor
   * the databases and counts exactly the countries of the addresses found.
   */
  lemma {:induction false} CountryKeysLoaded(nodes: Nodes, dbs: map<nat, GeoDb>, dir: string, c: Catalog, b: Backend, name: string, attempts: seq<Attempt>, i: nat)
    requires c.Valid() && AddressesValid(attempts) && i <= |attempts| && IsLoaded(dbs) && name == CountryNameByAddr
    ensures CountryKeys(nodes, dbs, dir, c, b, name, attempts, i) == (nodes, dbs, Ok(Countries(dbs, attempts, i)))
    decreases |attempts| - i
  {
    if i < |attempts| {
      QueriesForward();
      var a := attempts[i].address;
      var db := dbs[a.Version()];
      var step := Forward(nodes, dbs, dir, c, b, name, a);
      assert step == (nodes, dbs, Query(name, db, a));
      CountryKeysLoaded(nodes, dbs, dir, c, b, name, attempts, i + 1);
      var found := if a in db then [Country(db[a].countryName)] else [];
      assert Countries(dbs, attempts, i) == found + Countries(dbs, attempts, i + 1);
      if a in db {
        assert step.2 == Ok(CountryAnswer(db[a].countryName));
        assert CountryKeys(nodes, dbs, dir, c, b, name, attempts, i) == (nodes, dbs, Prefixed(found, Ok(Countries(dbs, attempts, i + 1))));
      } else {
        assert step.2 == Err(AttributeError);
        assert CountryKeys(nodes, dbs, dir, c, b, name, attempts, i) == CountryKeys(nodes, dbs, dir, c, b, name, attempts, i + 1);
        assert found == [] && found + Countries(dbs, attempts, i + 1) == Countries(dbs, attempts, i + 1);
      }
    }
  }

  /**
   * `bar_plot(ax, prop, attempts)` up to the drawing: the bars' labels and
   * values, with the files as the GeoIP cache leaves them. A `prop` other
   * than "username" and "country" raises ValueError at the first attempt, and
   * with no attempts the unpacking raises it.
   */
  function Plot(nodes: Nodes, dir: string, c: Catalog, b: Backend, prop: string, attempts: seq<Attempt>): (r: (Nodes, Result<(seq<Label>, seq<nat>), Exception>))
    requires c.Valid() && AddressesValid(attempts)
    ensures prop != "country" ==> r.0 == nodes
    ensures prop != "username" && prop != "country" ==> r.1 == Err(ValueError)
    ensures attempts == [] ==> r == (nodes, Err(ValueError))
  {
    if prop == "username" then (nodes, Chart(Tally(UserKeys(attempts, |attempts|))))
    else if prop == "country" then
      var (n1, d1, keys) := CountryKeys(nodes, map[], dir, c, b, CountryNameByAddr, attempts, 0);
      (n1, if keys.Err? then Err(keys.error) else Chart(Tally(keys.value)))
    else (nodes, Err(ValueError))
  }

  /** Bar values in ascending order. */
  predicate AscendingValues(values: seq<nat>) {
    forall i, j :: 0 <= i < j < |values| ==> values[i] <= values[j]
  }

  /**
   * The username chart: one bar per distinct username of the attempts, each
   * as long as the number of attempts with that username, in ascending order;
   * the bars add up to the number of attempts.
   */
  lemma UsernamePlot(nodes: Nodes, dir: string, c: Catalog, b: Backend, attempts: seq<Attempt>)
    requires c.Valid() && AddressesValid(attempts) && attempts != []
    ensures Plot(nodes, dir, c, b, "username", attempts).0 == nodes
    ensures UsernameChartOf(attempts, Plot(nodes, dir, c, b, "username", attempts).1)
  {
    UsernameChart(attempts);
  }

  /** `chart` has a bar per distinct username of `attempts`, counts them, ascends and adds up to their number. */
  ghost predicate UsernameChartOf(attempts: seq<Attempt>, chart: Result<(seq<Label>, seq<nat>), Exception>) {
    chart.Ok? && ChartOf(UserKeys(attempts, |attempts|), chart.value.0, chart.value.1) &&
    AscendingValues(chart.value.1) && Total(chart.value.1) == |attempts|
  }

  /** The chart of the attempts' usernames, apart from the cache it leaves untouched. */
  lemma UsernameChart(attempts: seq<Attempt>)
    requires attempts != []
    ensures UsernameChartOf(attempts, Chart(Tally(UserKeys(attempts, |attempts|))))
  {
    var keys := UserKeys(attempts, |attempts|);
    assert keys != [] && |keys| == |attempts|;
    ChartOfTally(keys);
  }

  /**
   * The country loop as `bar_plot` runs it, on a fresh GeoIP object with no
   * databases: the first lookup loads them. When loading fails, its exception
   * ends the loop (it is never AttributeError); otherwise the loop counts
   * exactly the countries found in the databases just loaded.
   */
  lemma CountryKeysFresh(nodes: Nodes, dir: string, c: Catalog, b: Backend, attempts: seq<Attempt>)
    requires c.Valid() && AddressesValid(attempts)
    ensures var load := Load(nodes, map[], dir, c, b);
      var keys := CountryKeys(nodes, map[], dir, c, b, CountryNameByAddr, attempts, 0);
      (attempts != [] && load.2.Fail? ==> keys == (load.0, load.1, Err(load.2.error))) &&
      (attempts != [] && load.2.Pass? ==> IsLoaded(load.1) && keys == (load.0, load.1, Ok(Countries(load.1, attempts, 0))))
  {
    if attempts != [] {
      var load := Load(nodes, map[], dir, c, b);
      FreshLookup(nodes, dir, c, b, attempts[0].address);
      CountryKeysStep(nodes, map[], dir, c, b, CountryNameByAddr, attempts, 0);
      if load.2.Pass? {
        FreshLoadedKeys(load.0, load.1, dir, c, b, attempts);
      }
    }
  }

  /** The first lookup on a fresh GeoIP object loads the databases, then queries the loaded one of the address's version. */
  lemma FreshLookup(nodes: Nodes, dir: string, c: Catalog, b: Backend, a: Addr)
    requires c.Valid() && a.Valid()
    ensures var load := Load(nodes, map[], dir, c, b);
      var step := Forward(nodes, map[], dir, c, b, CountryNameByAddr, a);
      (load.2.Fail? ==> step == (load.0, load.1, Err(load.2.error)) && load.2.error != AttributeError) &&
      (load.2.Pass? ==> IsLoaded(load.1) && step == (load.0, load.1, Query(CountryNameByAddr, load.1[a.Version()], a)))
  {
    QueriesForward();
    assert !IsLoaded(map[]);
  }

  /** After a successful load, the loop from the first attempt counts the countries found in the loaded databases. */
  lemma FreshLoadedKeys(nodes: Nodes, dbs: map<nat, GeoDb>, dir: string, c: Catalog, b: Backend, attempts: seq<Attempt>)
    requires c.Valid() && AddressesValid(attempts) && attempts != [] && IsLoaded(dbs)
    ensures var a := attempts[0].address;
      var q := Query(CountryNameByAddr, dbs[a.Version()], a);
      var rest := CountryKeys(nodes, dbs, dir, c, b, CountryNameByAddr, attempts, 1);
      (q.Ok? ==> q.value.CountryAnswer? && (rest.0, rest.1, Prefixed([Country(q.value.country)], rest.2)) == (nodes, dbs, Ok(Countries(dbs, attempts, 0)))) &&
      (q == Err(AttributeError) ==> rest == (nodes, dbs, Ok(Countries(dbs, attempts, 0)))) &&
      (q.Err? ==> q.error == AttributeError)
  {
    var a := attempts[0].address;
    var db := dbs[a.Version()];
    CountryKeysLoaded(nodes, dbs, dir, c, b, CountryNameByAddr, attempts, 1);
    var found := if a in db then [Country(db[a].countryName)] else [];
    assert Countries(dbs, attempts, 0) == found + Countries(dbs, attempts, 1);
    if a !in db {
      assert found + Countries(dbs, attempts, 1) == Countries(dbs, attempts, 1);
    }
  }

  /**
   * `chart` is the bar chart of `keys`: ValueError when there are none;
   * otherwise one bar per distinct key with its number of occurrences, in
   * ascending order.
   */
  ghost predicate ChartOfKeys(keys: seq<Label>, chart: Result<(seq<Label>, seq<nat>), Exception>) {
    (chart.Err? <==> keys == []) &&
    (chart.Err? ==> chart.error == ValueError) &&
    (chart.Ok? ==> ChartOf(keys, chart.value.0, chart.value.1) && AscendingValues(chart.value.1))
  }

  /**
   * The country chart: when loading the databases fails, its exception; when
   * it succeeds, the files it leaves and the chart of the country names of the
   * attempts found in the databases it loaded.
   */
  lemma CountryPlot(nodes: Nodes, dir: string, c: Catalog, b: Backend, attempts: seq<Attempt>)
    requires c.Valid() && AddressesValid(attempts)
    ensures var r := Plot(nodes, dir, c, b, "country", attempts);
      var load := Load(nodes, map[], dir, c, b);
      (attempts != [] && load.2.Fail? ==> r == (load.0, Err(load.2.error)) && load.2.error != AttributeError) &&
      (attempts != [] && load.2.Pass? ==> IsLoaded(load.1) && r.0 == load.0 && ChartOfKeys(Countries(load.1, attempts, 0), r.1))
  {
    var load := Load(nodes, map[], dir, c, b);
    CountryKeysFresh(nodes, dir, c, b, attempts);
    if attempts != [] && load.2.Pass? {
      var keys := Countries(load.1, attempts, 0);
      ChartOfTally(keys);
      assert Plot(nodes, dir, c, b, "country", attempts) == (load.0, Chart(Tally(keys)));
    }
  }

  /** The loop of `bar_plot` for "username": each attempt adds one to the count of its username. */
  method CountUsernames(attempts: seq<Attempt>) returns (data: Data)
    ensures data == Tally(UserKeys(attempts, |attempts|))
  {
    data := [];
    for i := 0 to |attempts|
      invariant data == Tally(UserKeys(attempts, i))
    {
      TallyUserStep(attempts, i);
      data := Bump(data, Username(attempts[i].username));
    }
  }

  /** Counting one more attempt's username bumps its count. */
  lemma TallyUserStep(attempts: seq<Attempt>, i: nat)
    requires i < |attempts|
    ensures Tally(UserKeys(attempts, i + 1)) == Bump(Tally(UserKeys(attempts, i)), Username(attempts[i].username))
  {
    var keys := UserKeys(attempts, i + 1);
    assert keys[..i] == UserKeys(attempts, i);
  }

  /**
   * The country loop has run up to the `i`-th attempt, leaving files `nodes`
   * and databases `dbs`, and has collected `keys`: the whole loop's outcome
   * `total` is `keys` followed by what the loop does from there.
   */
  ghost predicate CountryProgress(geo: GeoIPMultiversion, attempts: seq<Attempt>, total: (Nodes, map<nat, GeoDb>, Result<seq<Label>, Exception>), keys: seq<Label>, nodes: Nodes, dbs: map<nat, GeoDb>, i: nat)
    requires geo.Valid() && AddressesValid(attempts) && i <= |attempts|
    reads geo
  {
    var rest := CountryKeys(nodes, dbs, geo.cacheDir, geo.catalog, geo.backend, CountryNameByAddr, attempts, i);
    total == (rest.0, rest.1, Prefixed(keys, rest.2))
  }

  /** Before the first attempt, nothing is collected and the whole loop lies ahead. */
  lemma CountryProgressStart(geo: GeoIPMultiversion, attempts: seq<Attempt>)
    requires geo.Valid() && AddressesValid(attempts)
    ensures CountryProgress(geo, attempts, CountryKeys(geo.fs.nodes, geo.dbs, geo.cacheDir, geo.catalog, geo.backend, CountryNameByAddr, attempts, 0), [], geo.fs.nodes, geo.dbs, 0)
  {
    var total := CountryKeys(geo.fs.nodes, geo.dbs, geo.cacheDir, geo.catalog, geo.backend, CountryNameByAddr, attempts, 0);
    if total.2.Ok? {
      assert [] + total.2.value == total.2.value;
    }
  }

  /** Once every attempt is looked up, the loop's outcome is the keys collected. */
  lemma CountryProgressDone(geo: GeoIPMultiversion, attempts: seq<Attempt>, total: (Nodes, map<nat, GeoDb>, Result<seq<Label>, Exception>), keys: seq<Label>, nodes: Nodes, dbs: map<nat, GeoDb>)
    requires geo.Valid() && AddressesValid(attempts)
    requires CountryProgress(geo, attempts, total, keys, nodes, dbs, |attempts|)
    ensures total == (nodes, dbs, Ok(keys))
  {
    assert keys + [] == keys;
  }

  /**
   * One pass of the loop of `bar_plot` for "country": `country_name_by_addr`
   * of the `i`-th attempt on `geo`, its country counted when found, the
   * attempt skipped (with a warning) on AttributeError, any other error
   * raised.
   */
  method CountCountry(geo: GeoIPMultiversion, attempts: seq<Attempt>, i: nat, data: Data, ghost total: (Nodes, map<nat, GeoDb>, Result<seq<Label>, Exception>), ghost keys: seq<Label>)
      returns (counted: Result<Data, Exception>, ghost found: seq<Label>)
    requires geo.Valid() && AddressesValid(attempts) && i < |attempts|
    requires data == Tally(keys) && CountryProgress(geo, attempts, total, keys, geo.fs.nodes, geo.dbs, i)
    modifies geo, geo.fs
    ensures counted.Ok? ==> counted.value == Tally(found) && CountryProgress(geo, attempts, total, found, geo.fs.nodes, geo.dbs, i + 1)
    ensures counted.Err? ==> total == (geo.fs.nodes, geo.dbs, Err(counted.error))
  {
    CountryKeysStep(geo.fs.nodes, geo.dbs, geo.cacheDir, geo.catalog, geo.backend, CountryNameByAddr, attempts, i);
    var answer := geo.ByAddr(CountryNameByAddr, attempts[i].address);
    if answer.Err? {
      found := keys;
      counted := if answer.error == AttributeError then Ok(data) else Err(answer.error);
    } else {
      var bar := Country(answer.value.country);
      PrefixedAppend(keys, bar, CountryKeys(geo.fs.nodes, geo.dbs, geo.cacheDir, geo.catalog, geo.backend, CountryNameByAddr, attempts, i + 1).2);
      found := keys + [bar];
      assert found[..|keys|] == keys;
      counted := Ok(Bump(data, bar));
    }
  }

  /**
   * The loop of `bar_plot` for "country" on `geo`: the countries' tally, or
   * the first error other than AttributeError. The files and databases are
   * left as the lookups leave them.
   */
  method CountCountries(geo: GeoIPMultiversion, attempts: seq<Attempt>) returns (r: Result<Data, Exception>)
    requires geo.Valid() && AddressesValid(attempts)
    modifies geo, geo.fs
    ensures var total := CountryKeys(old(geo.fs.nodes), old(geo.dbs), geo.cacheDir, geo.catalog, geo.backend, CountryNameByAddr, attempts, 0);
      geo.fs.nodes == total.0 && geo.dbs == total.1 &&
      (total.2.Ok? ==> r == Ok(Tally(total.2.value))) &&
      (total.2.Err? ==> r == Err(total.2.error))
  {
    ghost var total := CountryKeys(geo.fs.nodes, geo.dbs, geo.cacheDir, geo.catalog, geo.backend, CountryNameByAddr, attempts, 0);
    ghost var keys: seq<Label> := [];
    CountryProgressStart(geo, attempts);
    var data: Data := [];
    for i := 0 to |attempts|
      invariant data == Tally(keys)
      invariant CountryProgress(geo, attempts, total, keys, geo.fs.nodes, geo.dbs, i)
    {
      var counted;
      counted, keys := CountCountry(geo, attempts, i, data, total, keys);
      if counted.Err? {
        return counted;
      }
      data := counted.value;
    }
    CountryProgressDone(geo, attempts, total, keys, geo.fs.nodes, geo.dbs);
    r := Ok(data);
  }

  /**
   * `bar_plot` up to the drawing, against the GeoIP cache in its default
   * directory under `home`, on file system `fs` with `backend`.
   */
  method BarPlot(prop: string, attempts: seq<Attempt>, home: string, fs: FileSystem, backend: Backend) returns (r: Result<(seq<Label>, seq<nat>), Exception>)
    requires AddressesValid(attempts)
    modifies fs
    ensures GeoCatalog.Valid()
    ensures (fs.nodes, r) == Plot(old(fs.nodes), ExpandUser(DefaultCacheDir, home), GeoCatalog, backend, prop, attempts)
  {
    GeoCatalogValid();
    var data: Data := [];
    if prop == "username" {
      data := CountUsernames(attempts);
    } else {
      var geo := new GeoIPMultiversion(DefaultCacheDir, home, fs, backend);
      if prop == "country" {
        var counted := CountCountries(geo, attempts);
        if counted.Err? {
          return Err(counted.error);
        }
        data := counted.value;
      } else if attempts != [] {
        return Err(ValueError);
      }
    }
    r := Chart(data);
  }
}
