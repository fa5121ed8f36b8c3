/** A Python dict from strings to counts or codes, held as its entries in insertion order.
    Assigning to an existing key updates that entry in place; a new key goes last. */
module PyDict {
  import opened Wrappers

  /** The entries of a dict, in insertion order. */
  type Dict = seq<(string, nat)>

  function KeySet(d: Dict): set<string>
    decreases |d|
  {
    if d == [] then {} else {d[0].0} + KeySet(d[1..])
  }

  predicate DistinctKeys(d: Dict)
    decreases |d|
  {
    d == [] || (d[0].0 !in KeySet(d[1..]) && DistinctKeys(d[1..]))
  }

  /** `d.get(name)`. */
  function Lookup(d: Dict, name: string): (r: Option<nat>)
    ensures r.Some? <==> name in KeySet(d)
    decreases |d|
  {
    if d == [] then None
    else if d[0].0 == name then Some(d[0].1)
    else Lookup(d[1..], name)
  }

  /** `d[name] = code`: an existing entry is updated in place, a new one goes last. */
  function Upsert(d: Dict, name: string, code: nat): (r: Dict)
    ensures Lookup(r, name) == Some(code)
    ensures KeySet(r) == KeySet(d) + {name}
    ensures DistinctKeys(d) ==> DistinctKeys(r)
    ensures |r| == if name in KeySet(d) then |d| else |d| + 1
    decreases |d|
  {
    if d == [] then [(name, code)]
    else if d[0].0 == name then
      var r := [(name, code)] + d[1..];
      assert r[1..] == d[1..];
      r
    else
      var r := [d[0]] + Upsert(d[1..], name, code);
      assert r[1..] == Upsert(d[1..], name, code);
      r
  }

  /** Updating one name leaves every other name's entry as it was. */
  lemma {:induction false} UpsertOther(d: Dict, name: string, code: nat, other: string)
    requires other != name
    ensures Lookup(Upsert(d, name, code), other) == Lookup(d, other)
    decreases |d|
  {
    if d != [] && d[0].0 != name {
      var r := Upsert(d, name, code);
      assert r[0] == d[0] && r[1..] == Upsert(d[1..], name, code);
      UpsertOther(d[1..], name, code, other);
    }
    if d != [] && d[0].0 == name {
      var r := Upsert(d, name, code);
      assert r[1..] == d[1..];
    }
  }

  /** `sum(d.values())`. */
  function Sum(d: Dict): nat
    decreases |d|
  {
    if d == [] then 0 else d[0].1 + Sum(d[1..])
  }

  /** Assigning `v` to `name` replaces that key's old value in the total, or adds `v`. */
  lemma {:induction false} SumUpsert(d: Dict, name: string, v: nat)
    ensures Sum(Upsert(d, name, v)) + Lookup(d, name).GetOr(0) == Sum(d) + v
    decreases |d|
  {
    if d != [] && d[0].0 == name {
      assert Upsert(d, name, v)[1..] == d[1..];
    } else if d != [] {
      var r := Upsert(d, name, v);
      assert r[0] == d[0] && r[1..] == Upsert(d[1..], name, v);
      SumUpsert(d[1..], name, v);
    }
  }

  /** `d[name] = d.get(name, 0) + n`: the key's count and the total both grow by `n`,
      and every other key keeps its count. */
  function Bump(d: Dict, name: string, n: nat): (r: Dict)
    ensures Lookup(r, name) == Some(Lookup(d, name).GetOr(0) + n)
    ensures Sum(r) == Sum(d) + n
    ensures KeySet(r) == KeySet(d) + {name}
    ensures DistinctKeys(d) ==> DistinctKeys(r)
  {
    SumUpsert(d, name, Lookup(d, name).GetOr(0) + n);
    Upsert(d, name, Lookup(d, name).GetOr(0) + n)
  }

  /** The total of a list of entries grows by the value of an entry appended to it. */
  lemma {:induction false} SumSnoc(d: Dict, e: (string, nat))
    ensures Sum(d + [e]) == Sum(d) + e.1
    decreases |d|
  {
    if d != [] {
      assert (d + [e])[1..] == d[1..] + [e];
      SumSnoc(d[1..], e);
    }
  }
}
