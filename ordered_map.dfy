/** Python's `collections.OrderedDict` with text keys, as the importer uses it for its registry and its rows. */
module OrderedMaps {
  import opened Wrappers

  /** The entries, plus the keys in the order they were first inserted. */
  datatype OrderedMap<V> = OrderedMap(keys: seq<string>, entries: map<string, V>) {

    /** Every key once in the order, and the order holds exactly the keys of the entries. */
    ghost predicate Valid() {
      (forall i, j :: 0 <= i < j < |keys| ==> keys[i] != keys[j]) &&
      (forall k :: k in entries <==> k in keys)
    }

    /** `d[k] = v`: a new key goes at the end of the order, an existing one keeps its place. */
    function Put(k: string, v: V): (r: OrderedMap<V>)
      ensures k in r.entries && r.entries[k] == v
      ensures keys <= r.keys && |r.keys| <= |keys| + 1
    {
      OrderedMap(if k in entries then keys else keys + [k], entries[k := v])
    }
  }

  function Empty<V>(): (m: OrderedMap<V>)
    ensures m.Valid() && m.keys == []
  {
    OrderedMap([], map[])
  }

  /**
   * `OrderedDict(pairs)`: the pairs put in order. Every pair's key is bound, no other key is, and
   * the last pair's value is the one its key keeps.
   */
  function FromPairs<V>(pairs: seq<(string, V)>): (r: OrderedMap<V>)
    ensures r.Valid()
    ensures forall i :: 0 <= i < |pairs| ==> pairs[i].0 in r.entries
    ensures forall k :: k in r.entries ==> k in Firsts(pairs)
    ensures pairs != [] ==> r.entries[pairs[|pairs| - 1].0] == pairs[|pairs| - 1].1
  {
    if pairs == [] then Empty()
    else
      var init, last := pairs[..|pairs| - 1], pairs[|pairs| - 1];
      var acc := FromPairs(init);
      assert forall i :: 0 <= i < |init| ==> init[i] == pairs[i];
      assert Firsts(pairs) == Firsts(init) + [last.0];
      PutProperties(acc, last.0, last.1);
      acc.Put(last.0, last.1)
  }

  /** Python's `zip(xs, ys)`: pairs at equal positions, as many as the shorter has. */
  function Zip<X, Y>(xs: seq<X>, ys: seq<Y>): (r: seq<(X, Y)>)
    ensures |r| == if |xs| < |ys| then |xs| else |ys|
    ensures forall i :: 0 <= i < |r| ==> r[i] == (xs[i], ys[i])
  {
    if xs == [] || ys == [] then [] else [(xs[0], ys[0])] + Zip(xs[1..], ys[1..])
  }

  function Firsts<X, Y>(pairs: seq<(X, Y)>): (r: seq<X>)
    ensures |r| == |pairs| && forall i :: 0 <= i < |pairs| ==> r[i] == pairs[i].0
  {
    if pairs == [] then [] else Firsts(pairs[..|pairs| - 1]) + [pairs[|pairs| - 1].0]
  }

  ghost predicate Distinct<X>(xs: seq<X>) {
    forall i, j :: 0 <= i < j < |xs| ==> xs[i] != xs[j]
  }

  /**
   * Putting keeps the map valid; it binds k to v and leaves every other binding alone; the keys
   * already present keep their positions; a new key is added at the end and an existing one adds nothing.
   */
  lemma PutProperties<V>(m: OrderedMap<V>, k: string, v: V)
    requires m.Valid()
    ensures m.Put(k, v).Valid()
    ensures k in m.Put(k, v).entries && m.Put(k, v).entries[k] == v
    ensures forall x :: x != k ==> (x in m.Put(k, v).entries <==> x in m.entries)
    ensures forall x :: x != k && x in m.entries ==> m.Put(k, v).entries[x] == m.entries[x]
    ensures |m.Put(k, v).keys| == if k in m.entries then |m.keys| else |m.keys| + 1
    ensures forall i :: 0 <= i < |m.keys| ==> m.Put(k, v).keys[i] == m.keys[i]
    ensures k !in m.entries ==> m.Put(k, v).keys[|m.keys|] == k
  {
  }

  /** With distinct keys, `OrderedDict(pairs)` keeps the pairs' order and binds each key to its value. */
  lemma {:induction false} FromPairsDistinct<V>(pairs: seq<(string, V)>)
    requires Distinct(Firsts(pairs))
    ensures FromPairs(pairs).Valid()
    ensures FromPairs(pairs).keys == Firsts(pairs)
    ensures forall i :: 0 <= i < |pairs| ==> pairs[i].0 in FromPairs(pairs).entries &&
                                             FromPairs(pairs).entries[pairs[i].0] == pairs[i].1
  {
    FromPairsKeys(pairs);
    FromPairsValues(pairs);
  }

  lemma {:induction false} FromPairsKeys<V>(pairs: seq<(string, V)>)
    requires Distinct(Firsts(pairs))
    ensures FromPairs(pairs).Valid() && FromPairs(pairs).keys == Firsts(pairs)
  {
    if pairs != [] {
      var init, last := pairs[..|pairs| - 1], pairs[|pairs| - 1];
      var firsts := Firsts(pairs);
      assert Firsts(init) == firsts[..|pairs| - 1];
      FromPairsKeys(init);
      LastNotInInit(firsts);
      PutProperties(FromPairs(init), last.0, last.1);
    }
  }

  lemma {:induction false} FromPairsValues<V>(pairs: seq<(string, V)>)
    requires Distinct(Firsts(pairs))
    ensures forall i :: 0 <= i < |pairs| ==> pairs[i].0 in FromPairs(pairs).entries &&
                                             FromPairs(pairs).entries[pairs[i].0] == pairs[i].1
  {
    if pairs != [] {
      var init, last := pairs[..|pairs| - 1], pairs[|pairs| - 1];
      var firsts := Firsts(pairs);
      assert Firsts(init) == firsts[..|pairs| - 1];
      FromPairsValues(init);
      var acc := FromPairs(init);
      assert FromPairs(pairs) == acc.Put(last.0, last.1);
      PutProperties(acc, last.0, last.1);
      forall i | 0 <= i < |init|
        ensures pairs[i].0 in FromPairs(pairs).entries && FromPairs(pairs).entries[pairs[i].0] == pairs[i].1
      {
        assert pairs[i] == init[i];
        assert firsts[i] != firsts[|pairs| - 1];
      }
    }
  }

  /** In a sequence without repetitions, the last element occurs nowhere before. */
  lemma LastNotInInit<X>(xs: seq<X>)
    requires xs != [] && Distinct(xs)
    ensures xs[|xs| - 1] !in xs[..|xs| - 1]
  {
    var init := xs[..|xs| - 1];
    forall i | 0 <= i < |init|
      ensures init[i] != xs[|xs| - 1]
    {
      assert init[i] == xs[i];
    }
  }

  // ---------------------------------------------------------------------------
  // Building a map key by key from a computation that may fail
  // ---------------------------------------------------------------------------

  /** The keys put in order, each with the value `cell` computes for it; the first error aborts. */
  function PutEach<V, E>(keys: seq<string>, cell: string --> Result<V, E>): (r: Result<OrderedMap<V>, E>)
    requires forall k :: k in keys ==> cell.requires(k)
    ensures r.Ok? ==> forall i :: 0 <= i < |keys| ==> cell(keys[i]).Ok? && keys[i] in r.value.entries
    ensures r.Err? ==> exists i :: 0 <= i < |keys| && cell(keys[i]) == Err(r.error)
  {
    if keys == [] then Ok(Empty())
    else
      match PutEach(keys[..|keys| - 1], cell)
      case Err(e) => Err(e)
      case Ok(acc) =>
        var key := keys[|keys| - 1];
        match cell(key)
        case Ok(v) => Ok(acc.Put(key, v))
        case Err(e) => Err(e)
  }

  /** One more key: the map so far extended by the key's value, or the key's error. */
  lemma PutEachStep<V, E>(keys: seq<string>, i: nat, cell: string --> Result<V, E>, acc: OrderedMap<V>)
    requires forall k :: k in keys ==> cell.requires(k)
    requires i < |keys| && PutEach(keys[..i], cell) == Ok(acc)
    ensures PutEach(keys[..i + 1], cell) ==
              if cell(keys[i]).Ok? then Ok(acc.Put(keys[i], cell(keys[i]).value)) else Err(cell(keys[i]).error)
  {
    assert keys[..i + 1][..i] == keys[..i];
  }

  /** An error among the first n keys is the error of all of them. */
  lemma {:induction false} PutEachErrorPersists<V, E>(keys: seq<string>, n: nat, cell: string --> Result<V, E>)
    requires forall k :: k in keys ==> cell.requires(k)
    requires n <= |keys| && PutEach(keys[..n], cell).Err?
    ensures PutEach(keys, cell) == PutEach(keys[..n], cell)
    decreases |keys| - n
  {
    if n < |keys| {
      assert keys[..n + 1][..n] == keys[..n];
      assert PutEach(keys[..n + 1], cell) == PutEach(keys[..n], cell);
      PutEachErrorPersists(keys, n + 1, cell);
    } else {
      assert keys[..n] == keys;
    }
  }

  lemma {:induction false} PutEachSucceeds<V, E>(keys: seq<string>, cell: string --> Result<V, E>)
    requires forall k :: k in keys ==> cell.requires(k)
    requires forall i :: 0 <= i < |keys| ==> cell(keys[i]).Ok?
    ensures PutEach(keys, cell).Ok?
  {
    if keys != [] {
      PutEachSucceeds(keys[..|keys| - 1], cell);
    }
  }

  /** With distinct keys that all succeed, the result is valid and keeps the keys in their order ... */
  lemma {:induction false} PutEachKeys<V, E>(keys: seq<string>, cell: string --> Result<V, E>)
    requires forall k :: k in keys ==> cell.requires(k)
    requires Distinct(keys) && forall i :: 0 <= i < |keys| ==> cell(keys[i]).Ok?
    ensures PutEach(keys, cell).Ok? && PutEach(keys, cell).value.Valid() && PutEach(keys, cell).value.keys == keys
  {
    if keys != [] {
      var n := |keys| - 1;
      PutEachKeys(keys[..n], cell);
      var acc := PutEach(keys[..n], cell).value;
      PutEachStep(keys, n, cell, acc);
      assert keys[..n + 1] == keys;
      PutProperties(acc, keys[n], cell(keys[n]).value);
      LastNotInInit(keys);
    }
  }

  /** ... and binds the key at position i to its value. */
  lemma {:induction false} PutEachBinding<V, E>(keys: seq<string>, cell: string --> Result<V, E>, i: nat)
    requires forall k :: k in keys ==> cell.requires(k)
    requires Distinct(keys) && forall i :: 0 <= i < |keys| ==> cell(keys[i]).Ok?
    requires i < |keys|
    ensures PutEach(keys, cell).Ok?
    ensures keys[i] in PutEach(keys, cell).value.entries && PutEach(keys, cell).value.entries[keys[i]] == cell(keys[i]).value
  {
    var n := |keys| - 1;
    var init := keys[..n];
    PutEachSucceeds(init, cell);
    var acc := PutEach(init, cell).value;
    PutEachStep(keys, n, cell, acc);
    assert keys[..n + 1] == keys;
    if i < n {
      PutEachBinding(init, cell, i);
      assert keys[i] == init[i] && keys[i] != keys[n];
    }
  }

  /** When some key fails and every key before it succeeds, the result is that key's error. */
  lemma PutEachFirstError<V, E>(keys: seq<string>, cell: string --> Result<V, E>, n: nat)
    requires forall k :: k in keys ==> cell.requires(k)
    requires n < |keys| && cell(keys[n]).Err?
    requires forall i :: 0 <= i < n ==> cell(keys[i]).Ok?
    ensures PutEach(keys, cell) == Err(cell(keys[n]).error)
  {
    var prefix := keys[..n];
    PutEachSucceeds(prefix, cell);
    PutEachStep(keys, n, cell, PutEach(prefix, cell).value);
    PutEachErrorPersists(keys, n + 1, cell);
  }
}
