/** Python dictionaries as the build tools use them: insertion-ordered lists of
    (key, value) pairs with string keys, and the JSON documents they are loaded from. */
module Dicts {
  import opened Bytes

  /** A parsed JSON document; objects keep their keys in file order. */
  datatype Json =
    | Null
    | Bool(b: bool)
    | Num(n: int)
    | Str(s: string)
    | Arr(items: seq<Json>)
    | Obj(fields: seq<(string, Json)>)

  /** A Python dict: keys in insertion order, each key once (see Unique). */
  type Dict<V> = seq<(string, V)>

  predicate Unique<V>(d: Dict<V>)
  {
    forall i, j :: 0 <= i < j < |d| ==> d[i].0 != d[j].0
  }

  /** Where key k sits in d, if anywhere (its first position). */
  function Find<V>(d: Dict<V>, k: string): (r: Option<nat>)
    ensures r.Some? ==> r.value < |d| && d[r.value].0 == k && forall j :: 0 <= j < r.value ==> d[j].0 != k
    ensures r.None? ==> forall j :: 0 <= j < |d| ==> d[j].0 != k
  {
    if d == [] then None
    else if d[0].0 == k then Some(0)
    else match Find(d[1..], k)
      case None => None
      case Some(i) => Some(i + 1)
  }

  /** `k in d` */
  predicate Has<V>(d: Dict<V>, k: string)
  {
    Find(d, k).Some?
  }

  /** `d.get(k)`: the value stored under k, None when k is absent. */
  function Get<V>(d: Dict<V>, k: string): Option<V>
  {
    match Find(d, k)
    case None => None
    case Some(i) => Some(d[i].1)
  }

  /** The keys of a dict, or of any list of pairs, in order. */
  function Keys<K, V>(d: seq<(K, V)>): (ks: seq<K>)
    ensures |ks| == |d| && forall i :: 0 <= i < |d| ==> ks[i] == d[i].0
  {
    seq(|d|, i requires 0 <= i < |d| => d[i].0)
  }

  /** `d[k] = v`: an existing key keeps its place, a new key goes last. */
  function Set<V>(d: Dict<V>, k: string, v: V): Dict<V>
  {
    match Find(d, k)
    case Some(i) => d[i := (k, v)]
    case None => d + [(k, v)]
  }

  /** `del d[k]` for a key that is present; an absent key leaves d alone. */
  function Del<V>(d: Dict<V>, k: string): Dict<V>
  {
    match Find(d, k)
    case Some(i) => d[..i] + d[i + 1..]
    case None => d
  }

  /** `d.update(e)`, or `d[key] = e[key]` for every key of e in order. */
  function Update<V>(d: Dict<V>, e: Dict<V>): Dict<V>
    decreases |e|
  {
    if e == [] then d else Update(Set(d, e[0].0, e[0].1), e[1..])
  }

  /** After `d.update(e)` the keys of d keep their places, and every key comes from d or
      e. */
  lemma {:induction false} UpdateKeeps<V>(d: Dict<V>, e: Dict<V>)
    ensures var r := Update(d, e);
            |r| >= |d| && (forall i :: 0 <= i < |d| ==> r[i].0 == d[i].0)
            && (forall k :: Has(r, k) ==> Has(d, k) || Has(e, k))
            && (forall k :: Has(d, k) ==> Has(r, k))
    decreases |e|
  {
    if e != [] {
      SetKeeps(d, e[0].0, e[0].1);
      UpdateKeeps(Set(d, e[0].0, e[0].1), e[1..]);
      forall k | Has(e[1..], k)
        ensures Has(e, k)
      {
        var p := Find(e[1..], k).value;
        assert e[p + 1].0 == k;
      }
    }
  }

  /** One step of the update loop: the rest of e from position j is its key j written,
      then the rest after it. */
  lemma UpdateFrom<V>(d: Dict<V>, e: Dict<V>, j: nat)
    requires j < |e|
    ensures Update(d, e[j..]) == Update(Set(d, e[j].0, e[j].1), e[j + 1..])
  {
    assert e[j..][1..] == e[j + 1..];
  }

  /** Writing a key keeps every key in its place and adds no key other than k. */
  lemma SetKeeps<V>(d: Dict<V>, k: string, v: V)
    ensures |Set(d, k, v)| >= |d| && forall i :: 0 <= i < |d| ==> Set(d, k, v)[i].0 == d[i].0
    ensures forall j :: Has(Set(d, k, v), j) ==> Has(d, j) || j == k
    ensures forall j :: Has(d, j) ==> Has(Set(d, k, v), j)
  {
    var s := Set(d, k, v);
    forall j | Has(d, j)
      ensures Has(s, j)
    {
      var p := Find(d, j).value;
      assert s[p].0 == j;
    }
    forall j | Has(s, j) && j != k
      ensures Has(d, j)
    {
      var p := Find(s, j).value;
      assert p < |d| && d[p].0 == j;
    }
  }

  /** `j[k]` on a parsed document: KeyError for a missing key, TypeError when j is not
      an object. */
  function Index(j: Json, k: string): (r: Result<Json>)
    ensures r.Ok? <==> j.Obj? && Has(j.fields, k)
    ensures r.Ok? ==> Get(j.fields, k) == Some(r.value)
    ensures r.Err? ==> r.error == if j.Obj? then KeyError else TypeError
  {
    if !j.Obj? then Err(TypeError)
    else match Get(j.fields, k)
      case None => Err(KeyError)
      case Some(v) => Ok(v)
  }

  /** `d[k]` on a dict: KeyError for a missing key. */
  function Lookup<V>(d: Dict<V>, k: string): (r: Result<V>)
    ensures r.Ok? <==> Has(d, k)
    ensures r.Ok? ==> Get(d, k) == Some(r.value)
    ensures r.Err? ==> r.error == KeyError
  {
    match Get(d, k)
    case None => Err(KeyError)
    case Some(v) => Ok(v)
  }

  /** Python truthiness: null, false, 0, "" and empty containers are false. */
  predicate Truthy(j: Json)
  {
    match j
    case Null => false
    case Bool(b) => b
    case Num(n) => n != 0
    case Str(s) => s != ""
    case Arr(items) => items != []
    case Obj(fields) => fields != []
  }

  /** Every object in the document, at any depth, holds each key once, as every
      document parsed from text does. */
  predicate UniqueKeys(j: Json)
  {
    match j
    case Arr(items) => forall i :: 0 <= i < |items| ==> UniqueKeys(items[i])
    case Obj(fields) => Unique(fields) && forall i :: 0 <= i < |fields| ==> UniqueKeys(fields[i].1)
    case _ => true
  }

  // ---------------------------------------------------------------------------
  // What the operations promise

  /** Reading a key just written gives the written value. */
  lemma GetSet<V>(d: Dict<V>, k: string, v: V)
    ensures Get(Set(d, k, v), k) == Some(v)
  {
    var s := Set(d, k, v);
    match Find(d, k)
    case Some(i) =>
      assert Find(s, k) == Some(i) by { FindAt(s, k, i); }
    case None =>
      assert Find(s, k) == Some(|d|) by { FindAt(s, k, |d|); }
  }

  /** Writing one key leaves every other key's value alone. */
  lemma GetSetOther<V>(d: Dict<V>, k: string, v: V, j: string)
    requires j != k
    ensures Get(Set(d, k, v), j) == Get(d, j)
  {
    var s := Set(d, k, v);
    match Find(d, j)
    case Some(i) =>
      FindAt(s, j, i);
    case None =>
      assert forall m :: 0 <= m < |s| ==> s[m].0 != j;
  }

  /** Find is determined by the first position that holds the key. */
  lemma FindAt<V>(d: Dict<V>, k: string, i: nat)
    requires i < |d| && d[i].0 == k && forall j :: 0 <= j < i ==> d[j].0 != k
    ensures Find(d, k) == Some(i)
  {
  }

  /** Writing keeps the keys unique and adds at most the written key, at the end. */
  lemma SetKeys<V>(d: Dict<V>, k: string, v: V)
    requires Unique(d)
    ensures Unique(Set(d, k, v))
    ensures Keys(Set(d, k, v)) == if Has(d, k) then Keys(d) else Keys(d) + [k]
  {
  }

  /** After `del d[k]` the key is gone and every other key keeps its value. */
  lemma GetDel<V>(d: Dict<V>, k: string, j: string)
    requires Unique(d)
    ensures Unique(Del(d, k)) && !Has(Del(d, k), k)
    ensures j != k ==> Get(Del(d, k), j) == Get(d, j)
  {
    var r := Del(d, k);
    match Find(d, k)
    case None =>
    case Some(i) =>
      assert forall m :: 0 <= m < |r| ==> r[m] == if m < i then d[m] else d[m + 1];
      if j != k {
        match Find(d, j)
        case None =>
          assert forall m :: 0 <= m < |r| ==> r[m].0 != j;
        case Some(p) =>
          if p < i {
            FindAt(r, j, p);
          } else {
            FindAt(r, j, p - 1);
          }
      }
  }

  /** After `d.update(e)` a key of e has e's value, and any other key keeps d's. */
  lemma {:induction false} GetUpdate<V>(d: Dict<V>, e: Dict<V>, k: string)
    requires Unique(e)
    ensures Get(Update(d, e), k) == if Has(e, k) then Get(e, k) else Get(d, k)
    decreases |e|
  {
    if e != [] {
      var d' := Set(d, e[0].0, e[0].1);
      GetUpdate(d', e[1..], k);
      if e[0].0 == k {
        GetSet(d, k, e[0].1);
        assert !Has(e[1..], k);
      } else {
        GetSetOther(d, e[0].0, e[0].1, k);
      }
    }
  }

  /** `del d[k]` keeps every other key. */
  lemma DelKeeps<V>(d: Dict<V>, k: string, j: string)
    requires j != k && Has(d, j)
    ensures Has(Del(d, k), j)
  {
    var r := Del(d, k);
    match Find(d, k)
    case None =>
    case Some(i) =>
      var p := Find(d, j).value;
      if p < i {
        assert r[p].0 == j;
      } else {
        assert r[p - 1].0 == j;
      }
  }

  /** `d.update(e)` keeps d's keys unique. */
  lemma {:induction false} UpdateUnique<V>(d: Dict<V>, e: Dict<V>)
    requires Unique(d)
    ensures Unique(Update(d, e))
    decreases |e|
  {
    if e != [] {
      SetKeys(d, e[0].0, e[0].1);
      UpdateUnique(Set(d, e[0].0, e[0].1), e[1..]);
    }
  }
}
