/** A Python dict that the code changes in place and whose key order it relies on
    (`list(d.keys())`, `next(iter(d.values()))`): the keys in insertion order and the
    entries they map to. */
module PyDict {
  import opened Wrappers

  /** `ks` without the keys listed in `ds`, in the original order. */
  function WithoutAll(ks: seq<string>, ds: seq<string>): (r: seq<string>)
    ensures forall x :: x in r <==> x in ks && x !in ds
    ensures |r| <= |ks|
    decreases |ks|
  {
    if ks == [] then []
    else
      var rest := WithoutAll(ks[..|ks| - 1], ds);
      var last := ks[|ks| - 1];
      assert forall x :: x in ks <==> x in ks[..|ks| - 1] || x == last;
      rest + (if last in ds then [] else [last])
  }

  predicate Distinct(ks: seq<string>)
  {
    forall i, j :: 0 <= i < j < |ks| ==> ks[i] != ks[j]
  }

  /** Dropping keys keeps the remaining ones distinct. */
  lemma {:induction false} WithoutAllDistinct(ks: seq<string>, ds: seq<string>)
    requires Distinct(ks)
    ensures Distinct(WithoutAll(ks, ds))
    decreases |ks|
  {
    if ks != [] {
      var init := ks[..|ks| - 1];
      WithoutAllDistinct(init, ds);
      assert ks[|ks| - 1] !in init;
    }
  }

  /** Dropping one more key after some is dropping them all at once. */
  lemma {:induction false} WithoutAllAppend(ks: seq<string>, ds: seq<string>, k: string)
    ensures WithoutAll(WithoutAll(ks, ds), [k]) == WithoutAll(ks, ds + [k])
    decreases |ks|
  {
    if ks != [] {
      var init := ks[..|ks| - 1];
      var last := ks[|ks| - 1];
      WithoutAllAppend(init, ds, k);
      var r := WithoutAll(init, ds);
      if last in ds {
        assert WithoutAll(ks, ds) == r + [];
        assert r + [] == r;
      } else {
        var s := r + [last];
        assert WithoutAll(ks, ds) == s;
        assert s[..|s| - 1] == r;
      }
    }
  }

  /** Dropping the first of distinct keys leaves the others. */
  lemma {:induction false} WithoutFirst(ks: seq<string>)
    requires ks != [] && Distinct(ks)
    ensures WithoutAll(ks, [ks[0]]) == ks[1..]
    decreases |ks|
  {
    if |ks| > 1 {
      var init := ks[..|ks| - 1];
      WithoutFirst(init);
      assert init[1..] + [ks[|ks| - 1]] == ks[1..];
    } else {
      assert WithoutAll(ks[..0], [ks[0]]) == [];
    }
  }

  class OrderedDict<V> {
    var keys: seq<string>
    var entries: map<string, V>

    /** Every key once, and exactly the keys with an entry. */
    ghost predicate Valid()
      reads this
    {
      Distinct(keys) && forall k :: k in entries <==> k in keys
    }

    constructor (keys: seq<string>, entries: map<string, V>)
      requires Distinct(keys) && forall k :: k in entries <==> k in keys
      ensures Valid() && this.keys == keys && this.entries == entries
    {
      this.keys := keys;
      this.entries := entries;
    }

    /** `d[k]`. */
    function Lookup(k: string): (r: Result<V>)
      reads this
      ensures r.Ok? <==> k in entries
      ensures r.Ok? ==> r.value == entries[k]
    {
      Get(entries, k)
    }

    /** `del d[k]`: the key leaves both the order and the entries; a KeyError, with
        nothing changed, when it is not there. */
    method Delete(k: string) returns (r: Result<()>)
      requires Valid()
      modifies this
      ensures Valid()
      ensures r.Ok? <==> k in old(entries)
      ensures r.Err? ==> r.error == KeyError && keys == old(keys) && entries == old(entries)
      ensures r.Ok? ==> keys == WithoutAll(old(keys), [k]) && entries == old(entries) - {k}
    {
      if k !in entries {
        return Err(KeyError);
      }
      WithoutAllDistinct(keys, [k]);
      keys := WithoutAll(keys, [k]);
      entries := entries - {k};
      r := Ok(());
    }
  }
}
