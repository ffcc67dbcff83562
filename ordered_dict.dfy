/**
 * A Python `dict` from names to real numbers: the keys in insertion order,
 * and the value of each key. Lookup, `d[k] = v` / `d.update({k: v})` and
 * `dict(zip(ks, vs))` keep Python's ordering rule: updating a key that is
 * present keeps its position, a new key goes at the end.
 */
module OrderedDict {
  import opened Wrappers

  type Name = string

  /** The dict with keys of any type; `Dict` is the one keyed by names. */
  datatype Ordered<K(==,!new)> = Ordered(keys: seq<K>, vals: map<K, real>) {

    /** Keys are distinct and are exactly the keys that have a value. */
    ghost predicate Valid() {
      && (forall i, j :: 0 <= i < j < |keys| ==> keys[i] != keys[j])
      && (forall k :: k in vals <==> k in keys)
    }

    /** `len(d)` */
    function Size(): nat {
      |keys|
    }

    /** `list(d.values())`, in key order. */
    function Values(): (vs: seq<real>)
      requires Valid()
      ensures |vs| == |keys|
      ensures forall i :: 0 <= i < |keys| ==> vs[i] == vals[keys[i]]
    {
      seq(|keys|, i requires 0 <= i < |keys| && Valid() => vals[keys[i]])
    }

    /** `d[k]`, with None standing for a KeyError. */
    function Get(k: K): (r: Option<real>)
      requires Valid()
      ensures r.None? <==> k !in keys
      ensures r.Some? ==> r.value == vals[k]
    {
      if k in vals then Some(vals[k]) else None
    }

    /** `d[k] = v`: overwrite in place when `k` is present, append otherwise. */
    function Put(k: K, v: real): (r: Ordered<K>)
      requires Valid()
      ensures r.Valid()
      ensures r.keys == if k in keys then keys else keys + [k]
      ensures r.Get(k) == Some(v)
      ensures forall k' :: k' != k ==> r.Get(k') == Get(k')
    {
      Ordered(if k in vals then keys else keys + [k], vals[k := v])
    }
  }

  /** A dict from names to reals. */
  type Dict = Ordered<Name>

  /** The dict with no entries. */
  function Empty<K(==,!new)>(): (d: Ordered<K>)
    ensures d.Valid() && d.keys == []
  {
    Ordered([], map[])
  }

  /** `zip(ks, vs)`: pairs up to the shorter of the two. */
  function Zip<K>(ks: seq<K>, vs: seq<real>): (es: seq<(K, real)>)
    ensures |es| == if |ks| <= |vs| then |ks| else |vs|
    ensures forall i :: 0 <= i < |es| ==> es[i] == (ks[i], vs[i])
  {
    var n := if |ks| <= |vs| then |ks| else |vs|;
    seq(n, i requires 0 <= i < n => (ks[i], vs[i]))
  }

  /** `{k: v for k, v in es}`: the entries put one after the other. */
  function FromEntries<K(==,!new)>(es: seq<(K, real)>): (d: Ordered<K>)
    ensures d.Valid()
    decreases |es|
  {
    if es == [] then Empty()
    else FromEntries(es[..|es| - 1]).Put(es[|es| - 1].0, es[|es| - 1].1)
  }

  /** No name occurs twice among the entries. */
  ghost predicate DistinctNames<K>(es: seq<(K, real)>) {
    forall i, j :: 0 <= i < j < |es| ==> es[i].0 != es[j].0
  }

  /** With distinct names, the comprehension keeps every name, in order. */
  lemma {:induction false} FromEntriesOrder<K(!new)>(es: seq<(K, real)>)
    requires DistinctNames(es)
    ensures |FromEntries(es).keys| == |es|
    ensures forall i :: 0 <= i < |es| ==> FromEntries(es).keys[i] == es[i].0
  {
    if es != [] {
      var n := |es| - 1;
      var front := es[..n];
      assert forall i :: 0 <= i < n ==> front[i] == es[i];
      assert DistinctNames(front);
      FromEntriesOrder(front);
      var d := FromEntries(front);
      assert es[n].0 !in d.keys by {
        forall i | 0 <= i < n ensures d.keys[i] != es[n].0 {
          assert d.keys[i] == es[i].0;
        }
      }
      var keys := FromEntries(es).keys;
      assert keys == d.keys + [es[n].0];
      forall i | 0 <= i < |es| ensures keys[i] == es[i].0 {
        if i < n {
          assert keys[i] == d.keys[i] == front[i].0;
        }
      }
    }
  }

  /** With distinct names, the value stored under each name is that of its entry. */
  lemma {:induction false} FromEntriesStored<K(!new)>(es: seq<(K, real)>)
    requires DistinctNames(es)
    ensures forall i :: 0 <= i < |es| ==> es[i].0 in FromEntries(es).vals && FromEntries(es).vals[es[i].0] == es[i].1
  {
    if es != [] {
      var n := |es| - 1;
      var front := es[..n];
      assert forall i :: 0 <= i < n ==> front[i] == es[i];
      assert DistinctNames(front);
      FromEntriesStored(front);
      var vals := FromEntries(front).vals;
      var all := FromEntries(es).vals;
      assert all == vals[es[n].0 := es[n].1];
      forall i | 0 <= i < n ensures es[i].0 in all && all[es[i].0] == es[i].1 {
        assert es[i].0 != es[n].0;
        assert front[i].0 in vals && vals[front[i].0] == front[i].1;
      }
    }
  }

  /** With distinct names, the comprehension keeps every entry, in order. */
  lemma FromEntriesDistinct<K(!new)>(es: seq<(K, real)>)
    requires DistinctNames(es)
    ensures |FromEntries(es).keys| == |es|
    ensures forall i :: 0 <= i < |es| ==> FromEntries(es).keys[i] == es[i].0
    ensures forall i :: 0 <= i < |es| ==> FromEntries(es).Get(es[i].0) == Some(es[i].1)
  {
    FromEntriesOrder(es);
    FromEntriesStored(es);
  }

  /** `dict(zip(names, vs))` with distinct names and one value per name: the names in order, each with its value. */
  lemma ZipDistinct<K(!new)>(names: seq<K>, vs: seq<real>)
    requires |names| == |vs|
    requires forall i, j :: 0 <= i < j < |names| ==> names[i] != names[j]
    ensures FromEntries(Zip(names, vs)).keys == names
    ensures forall i :: 0 <= i < |names| ==> FromEntries(Zip(names, vs)).Get(names[i]) == Some(vs[i])
  {
    var es := Zip(names, vs);
    assert DistinctNames(es) by {
      forall i, j | 0 <= i < j < |es| ensures es[i].0 != es[j].0 {
        assert es[i].0 == names[i] && es[j].0 == names[j];
      }
    }
    FromEntriesDistinct(es);
  }

  /** Every value of the comprehension is the value of some entry with that name. */
  lemma {:induction false} FromEntriesValues<K(!new)>(es: seq<(K, real)>, k: K)
    requires k in FromEntries(es).keys
    ensures exists i :: 0 <= i < |es| && es[i] == (k, FromEntries(es).vals[k])
  {
    var n := |es| - 1;
    var front := es[..n];
    if es[n].0 == k {
      assert es[n] == (k, FromEntries(es).vals[k]);
    } else {
      FromEntriesValues(front, k);
      var i :| 0 <= i < n && front[i] == (k, FromEntries(front).vals[k]);
      assert es[i] == front[i];
    }
  }
}
