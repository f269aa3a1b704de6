/**
 * Python dictionaries of attributes: an association list in insertion order
 * with distinct keys. Assigning to a present key keeps its position, a new
 * key goes to the end, `del` removes the entry.
 */
module Dicts {
  import opened Wrappers

  /** An attribute value as the array library stores it. */
  datatype Attr = AStr(s: string) | ANum(x: real) | ABool(b: bool) | AList(items: seq<Attr>) | ANone

  type Dict = seq<(string, Attr)>

  predicate DistinctKeys(d: Dict) {
    forall i, j :: 0 <= i < j < |d| ==> d[i].0 != d[j].0
  }

  /** `d.get(k)`. */
  function Get(d: Dict, k: string): Option<Attr> {
    if |d| == 0 then None
    else if d[0].0 == k then Some(d[0].1)
    else Get(d[1..], k)
  }

  /** `Get` finds a key exactly when some entry has it, and returns that entry's value. */
  lemma {:induction false} GetFinds(d: Dict, k: string)
    ensures Get(d, k).Some? <==> exists i :: 0 <= i < |d| && d[i].0 == k
    ensures Get(d, k).Some? ==> exists i :: 0 <= i < |d| && d[i] == (k, Get(d, k).value)
  {
    if |d| > 0 && d[0].0 != k {
      GetFinds(d[1..], k);
      assert forall i :: 0 < i < |d| ==> d[i] == d[1..][i - 1];
      if exists i :: 0 <= i < |d| && d[i].0 == k {
        var i :| 0 <= i < |d| && d[i].0 == k;
        assert d[1..][i - 1].0 == k;
      }
    }
  }

  /** With distinct keys, the entry at any position is what `Get` finds. */
  lemma GetAt(d: Dict, i: nat)
    requires DistinctKeys(d) && i < |d|
    ensures Get(d, d[i].0) == Some(d[i].1)
  {
    GetFinds(d, d[i].0);
    var r := Get(d, d[i].0);
    var j :| 0 <= j < |d| && d[j] == (d[i].0, r.value);
    assert j == i;
  }

  /** The keys after the first entry of a dictionary with distinct keys are distinct. */
  lemma DistinctTail(d: Dict)
    requires |d| > 0 && DistinctKeys(d)
    ensures DistinctKeys(d[1..]) && Get(d[1..], d[0].0).None?
  {
    forall i, j | 0 <= i < j < |d[1..]| ensures d[1..][i].0 != d[1..][j].0 {
      assert d[1..][i] == d[i + 1] && d[1..][j] == d[j + 1];
    }
    GetFinds(d[1..], d[0].0);
  }

  /** `d[k] = v`. */
  function Put(d: Dict, k: string, v: Attr): (r: Dict)
    ensures forall k' {:trigger Get(r, k')} :: Get(r, k') == if k' == k then Some(v) else Get(d, k')
    ensures DistinctKeys(d) ==> DistinctKeys(r)
  {
    if |d| == 0 then [(k, v)]
    else if d[0].0 == k then
      var r := [(k, v)] + d[1..];
      assert r[1..] == d[1..];
      assert DistinctKeys(d) ==> DistinctKeys(r) by {
        if DistinctKeys(d) {
          forall i, j | 0 <= i < j < |r| ensures r[i].0 != r[j].0 {
            assert r[i].0 == d[i].0 && r[j].0 == d[j].0;
          }
        }
      }
      r
    else
      var t := Put(d[1..], k, v);
      var r := [d[0]] + t;
      assert r[1..] == t;
      assert DistinctKeys(d) ==> DistinctKeys(r) by {
        if DistinctKeys(d) {
          DistinctTail(d);
          forall j | 0 < j < |r| ensures r[0].0 != r[j].0 {
            GetFinds(t, r[j].0);
            assert Get(t, r[j].0).Some? by { assert t[j - 1] == r[j]; }
          }
        }
      }
      r
  }

  /** `del d[k]`, which raises KeyError when `k` is absent. */
  function Del(d: Dict, k: string): (r: Result<Dict>)
    ensures r.Failure? <==> Get(d, k).None?
    ensures r.Failure? ==> r.error == KeyError(k)
    ensures r.Success? ==> forall k' {:trigger Get(r.value, k')} :: k' != k ==> Get(r.value, k') == Get(d, k')
    ensures r.Success? && DistinctKeys(d) ==> DistinctKeys(r.value) && Get(r.value, k).None?
  {
    if |d| == 0 then Failure(KeyError(k))
    else if d[0].0 == k then
      assert DistinctKeys(d) ==> DistinctKeys(d[1..]) && Get(d[1..], k).None? by {
        if DistinctKeys(d) { DistinctTail(d); }
      }
      Success(d[1..])
    else
      match Del(d[1..], k)
      case Failure(e) => Failure(e)
      case Success(t) =>
        var r := [d[0]] + t;
        assert r[1..] == t;
        assert DistinctKeys(d) ==> DistinctKeys(r) by {
          if DistinctKeys(d) {
            DistinctTail(d);
            forall j | 0 < j < |r| ensures r[0].0 != r[j].0 {
              GetFinds(t, r[j].0);
              assert Get(t, r[j].0).Some? by { assert t[j - 1] == r[j]; }
            }
          }
        }
        Success(r)
  }

  /** The value stored under `k`, or None (the value) where there is none. */
  function GetOrNone(d: Dict, k: string): (v: Attr)
    ensures Get(d, k).Some? ==> v == Get(d, k).value
    ensures Get(d, k).None? ==> v == ANone
  {
    match Get(d, k)
    case Some(v) => v
    case None => ANone
  }

  /** Python truthiness of an attribute value. */
  predicate Truthy(a: Attr) {
    match a
    case AStr(s) => s != ""
    case ANum(x) => x != 0.0
    case ABool(b) => b
    case AList(items) => items != []
    case ANone => false
  }

  /**
   * Iterating over an attribute value: a list yields its items, a string its
   * one-character strings; anything else is not iterable (TypeError).
   */
  function Items(a: Attr): (r: Result<seq<Attr>>)
    ensures a.AList? ==> r == Success(a.items)
    ensures a.AStr? ==> r.Success? && |r.value| == |a.s| && forall i :: 0 <= i < |a.s| ==> r.value[i] == AStr([a.s[i]])
    ensures !a.AList? && !a.AStr? ==> r == Failure(TypeError)
  {
    match a
    case AList(items) => Success(items)
    case AStr(s) => Success(seq(|s|, i requires 0 <= i < |s| => AStr([s[i]])))
    case _ => Failure(TypeError)
  }
}
