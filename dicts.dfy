/**
 * Python dictionaries with string keys, as lists of members in insertion order:
 * assigning to a present key keeps its position, assigning to a new key appends
 * it, and `del` removes it.
 */
module Dicts {
  import opened Wrappers

  /** The keys of the members, in order. */
  function Keys<V>(ms: seq<(string, V)>): (ks: seq<string>)
    ensures |ks| == |ms|
  {
    if ms == [] then [] else [ms[0].0] + Keys(ms[1..])
  }

  lemma {:induction false} KeysAppend<V>(ms: seq<(string, V)>, m: (string, V))
    ensures Keys(ms + [m]) == Keys(ms) + [m.0]
  {
    if ms != [] {
      assert (ms + [m])[1..] == ms[1..] + [m];
      KeysAppend(ms[1..], m);
    }
  }

  /** No key occurs twice. */
  predicate DistinctKeys<V>(ms: seq<(string, V)>) {
    ms == [] || (ms[0].0 !in Keys(ms[1..]) && DistinctKeys(ms[1..]))
  }

  /** Whether `k` is a key of the members (`k in d`). */
  predicate HasKey<V>(ms: seq<(string, V)>, k: string) {
    k in Keys(ms)
  }

  /** The value stored under `k`: `d[k]`, None for the KeyError. */
  function Lookup<V>(ms: seq<(string, V)>, k: string): (r: Option<V>)
    ensures r.Some? <==> HasKey(ms, k)
  {
    if ms == [] then None
    else if ms[0].0 == k then Some(ms[0].1)
    else Lookup(ms[1..], k)
  }

  /** `d[k] = v`: overwrite in place when `k` is present, append otherwise. */
  function Insert<V>(ms: seq<(string, V)>, k: string, v: V): (r: seq<(string, V)>)
    requires DistinctKeys(ms)
    ensures DistinctKeys(r)
    ensures Lookup(r, k) == Some(v)
    ensures HasKey(ms, k) ==> Keys(r) == Keys(ms)
    ensures !HasKey(ms, k) ==> r == ms + [(k, v)]
  {
    if ms == [] then [(k, v)]
    else if ms[0].0 == k then [(k, v)] + ms[1..]
    else
      var tail := Insert(ms[1..], k, v);
      var r := [ms[0]] + tail;
      assert r[1..] == tail;
      assert Keys(r) == [ms[0].0] + Keys(tail);
      assert Keys(ms) == [ms[0].0] + Keys(ms[1..]);
      assert ms[0].0 !in Keys(tail) by {
        if HasKey(ms[1..], k) {
        } else {
          assert Keys(tail) == Keys(ms[1..]) + [k] by {
            assert tail == ms[1..] + [(k, v)];
            KeysAppend(ms[1..], (k, v));
          }
        }
      }
      r
  }

  /** `d[k] = v` leaves every other key's value as it was. */
  lemma {:induction false} InsertOther<V>(ms: seq<(string, V)>, k: string, v: V, k': string)
    requires DistinctKeys(ms) && k' != k
    ensures Lookup(Insert(ms, k, v), k') == Lookup(ms, k')
  {
    if ms != [] && ms[0].0 != k {
      InsertOther(ms[1..], k, v, k');
    }
  }

  /** `del d[k]`; None stands for the KeyError on an absent key. */
  function Remove<V>(ms: seq<(string, V)>, k: string): (r: Option<seq<(string, V)>>)
    ensures r.Some? <==> HasKey(ms, k)
    ensures r.Some? ==> |r.value| + 1 == |ms|
  {
    if ms == [] then None
    else if ms[0].0 == k then Some(ms[1..])
    else
      var tail := Remove(ms[1..], k);
      assert Keys(ms) == [ms[0].0] + Keys(ms[1..]);
      if tail.None? then None else Some([ms[0]] + tail.value)
  }

  /** `del d[k]` leaves exactly the other keys, still distinct. */
  lemma {:induction false} RemoveKeys<V>(ms: seq<(string, V)>, k: string)
    requires DistinctKeys(ms) && HasKey(ms, k)
    ensures DistinctKeys(Remove(ms, k).value)
    ensures forall k' :: HasKey(Remove(ms, k).value, k') <==> HasKey(ms, k') && k' != k
  {
    assert Keys(ms) == [ms[0].0] + Keys(ms[1..]);
    if ms[0].0 != k {
      RemoveKeys(ms[1..], k);
      var r := Remove(ms, k).value;
      forall k' ensures HasKey(r, k') <==> HasKey(ms, k') && k' != k {
        assert HasKey(r, k') <==> k' == ms[0].0 || HasKey(r[1..], k');
      }
      assert r[1..] == Remove(ms[1..], k).value;
      assert Keys(r) == [ms[0].0] + Keys(r[1..]);
      assert !HasKey(r[1..], ms[0].0);
      assert r == [ms[0]] + r[1..];
    }
  }

  /** After `del d[k]` every other key maps to what it did before. */
  lemma {:induction false} RemoveLookup<V>(ms: seq<(string, V)>, k: string, k': string)
    requires DistinctKeys(ms) && HasKey(ms, k) && k' != k
    ensures Lookup(Remove(ms, k).value, k') == Lookup(ms, k')
  {
    if ms[0].0 == k {
      assert Lookup(ms, k') == Lookup(ms[1..], k');
    } else {
      assert Keys(ms) == [ms[0].0] + Keys(ms[1..]);
      if ms[0].0 != k' {
        RemoveLookup(ms[1..], k, k');
      }
    }
  }

  lemma {:induction false} KeysConcat<V>(a: seq<(string, V)>, b: seq<(string, V)>)
    ensures Keys(a + b) == Keys(a) + Keys(b)
    decreases |a|
  {
    if a != [] {
      assert (a + b)[1..] == a[1..] + b;
      KeysConcat(a[1..], b);
      assert Keys(a + b) == [a[0].0] + Keys(a[1..] + b);
      assert Keys(a) == [a[0].0] + Keys(a[1..]);
    } else {
      assert a + b == b;
    }
  }

  /** Members with distinct keys, split in two: both halves are distinct and share no key. */
  lemma {:induction false} DistinctConcat<V>(a: seq<(string, V)>, b: seq<(string, V)>)
    requires DistinctKeys(a + b)
    ensures DistinctKeys(a) && DistinctKeys(b)
    ensures forall k :: HasKey(a, k) ==> !HasKey(b, k)
    decreases |a|
  {
    if a != [] {
      assert (a + b)[1..] == a[1..] + b;
      KeysConcat(a[1..], b);
      DistinctConcat(a[1..], b);
      assert Keys(a) == [a[0].0] + Keys(a[1..]);
    } else {
      assert a + b == b;
    }
  }

  /** Every value of `d` after `d[k] = v` is `v` or one of the values before. */
  lemma {:induction false} InsertValues<V>(ms: seq<(string, V)>, k: string, v: V, P: V -> bool)
    requires DistinctKeys(ms) && P(v)
    requires forall i :: 0 <= i < |ms| ==> P(ms[i].1)
    ensures forall i :: 0 <= i < |Insert(ms, k, v)| ==> P(Insert(ms, k, v)[i].1)
  {
    if ms != [] && ms[0].0 != k {
      InsertValues(ms[1..], k, v, P);
      var tail := Insert(ms[1..], k, v);
      assert Insert(ms, k, v) == [ms[0]] + tail;
    }
  }

  /** Every value of `d` after `del d[k]` is one of the values before. */
  lemma {:induction false} RemoveValues<V>(ms: seq<(string, V)>, k: string, P: V -> bool)
    requires HasKey(ms, k)
    requires forall i :: 0 <= i < |ms| ==> P(ms[i].1)
    ensures forall i :: 0 <= i < |Remove(ms, k).value| ==> P(Remove(ms, k).value[i].1)
  {
    if ms[0].0 != k {
      assert Keys(ms) == [ms[0].0] + Keys(ms[1..]);
      RemoveValues(ms[1..], k, P);
      assert Remove(ms, k).value == [ms[0]] + Remove(ms[1..], k).value;
    }
  }

  /** Distinctness depends on the keys alone. */
  lemma {:induction false} DistinctKeysOfKeys<V, W>(a: seq<(string, V)>, b: seq<(string, W)>)
    requires Keys(a) == Keys(b) && DistinctKeys(b)
    ensures DistinctKeys(a)
  {
    if a != [] {
      assert Keys(a[1..]) == Keys(a)[1..] == Keys(b)[1..] == Keys(b[1..]);
      DistinctKeysOfKeys(a[1..], b[1..]);
    }
  }
}
