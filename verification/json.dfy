/**
 * The Python values the scrapers build and the service returns: `None`,
 * booleans, integers, floats (exact decimals here), strings, `datetime`
 * objects, lists and dicts. A dict is an association list in insertion
 * order, because Python dicts keep that order and several operations of
 * the service depend on it.
 */
module Json {
  import opened Wrappers
  import opened Numbers
  import opened Calendar

  datatype Value =
    | Null
    | Bool(b: bool)
    | Int(i: int)
    | Num(d: Decimal)
    | Str(s: string)
    | Time(t: DateTimeValue)
    | Arr(items: seq<Value>)
    | Obj(fields: Fields)

  type Fields = seq<(string, Value)>

  /** Python truthiness (`if value:`). */
  predicate Truthy(v: Value) {
    match v
    case Null => false
    case Bool(b) => b
    case Int(i) => i != 0
    case Num(d) => !d.IsZero()
    case Str(s) => |s| > 0
    case Time(_) => true
    case Arr(items) => |items| > 0
    case Obj(fields) => |fields| > 0
  }

  /** An optional float as Python holds it: `None` or a number. */
  function OfRate(r: Option<Decimal>): (v: Value)
    ensures v.Null? <==> r.None?
    ensures r.Some? ==> v == Num(r.value)
  {
    match r
    case None => Null
    case Some(d) => Num(d)
  }

  function OfString(s: Option<string>): (v: Value)
    ensures v.Null? <==> s.None?
    ensures s.Some? ==> v == Str(s.value)
  {
    match s
    case None => Null
    case Some(x) => Str(x)
  }

  function Keys(f: Fields): (ks: seq<string>)
    ensures |ks| == |f|
    ensures forall i :: 0 <= i < |f| ==> ks[i] == f[i].0
  {
    if |f| == 0 then [] else [f[0].0] + Keys(f[1..])
  }

  /** The keys of two dicts written one after the other. */
  lemma KeysAppend(a: Fields, b: Fields)
    ensures Keys(a + b) == Keys(a) + Keys(b)
  {
  }

  /** No key occurs twice: what every Python dict satisfies. */
  predicate DistinctKeys(f: Fields) {
    forall i, j :: 0 <= i < j < |f| ==> f[i].0 != f[j].0
  }

  /** Python's `k in d`. */
  predicate HasKey(f: Fields, k: string) {
    k in Keys(f)
  }

  /** `d.get(k)` with absence kept apart from a stored `None`: the first entry for `k`. */
  function Lookup(f: Fields, k: string): (r: Option<Value>)
    ensures r.Some? <==> HasKey(f, k)
  {
    if |f| == 0 then None
    else if f[0].0 == k then Some(f[0].1)
    else Lookup(f[1..], k)
  }

  /** `d.get(k)`: the stored value, or `None` when the key is absent. */
  function Get(f: Fields, k: string): (v: Value)
    ensures !HasKey(f, k) ==> v == Null
    ensures HasKey(f, k) ==> Some(v) == Lookup(f, k)
  {
    match Lookup(f, k)
    case None => Null
    case Some(v) => v
  }

  /** The value stored at position `i` is what looking its key up finds, when keys are distinct. */
  lemma LookupAt(f: Fields, i: int)
    requires DistinctKeys(f) && 0 <= i < |f|
    ensures Lookup(f, f[i].0) == Some(f[i].1)
  {
    if i > 0 {
      LookupAt(f[1..], i - 1);
    }
  }

  /** `d[k] = v`: an existing key keeps its position and takes the new value; a new key goes last. */
  function Put(f: Fields, k: string, v: Value): (r: Fields)
    ensures Keys(r) == if HasKey(f, k) then Keys(f) else Keys(f) + [k]
    ensures forall i :: 0 <= i < |f| && f[i].0 != k ==> r[i] == f[i]
    ensures Lookup(r, k) == Some(v)
    ensures !HasKey(f, k) ==> r == f + [(k, v)]
  {
    if |f| == 0 then [(k, v)]
    else if f[0].0 == k then
      var r := [(k, v)] + f[1..];
      assert Keys(r) == Keys(f);
      r
    else
      var rest := Put(f[1..], k, v);
      var r := [f[0]] + rest;
      assert r[1..] == rest;
      assert Keys(r) == [f[0].0] + Keys(rest);
      r
  }

  /** Looking up a key finds its first entry: the one at `n` when no earlier entry has it. */
  lemma {:induction false} LookupFirst(f: Fields, n: nat, k: string)
    requires n < |f| && f[n].0 == k
    requires forall i :: 0 <= i < n ==> f[i].0 != k
    ensures Lookup(f, k) == Some(f[n].1)
    decreases n
  {
    if n > 0 {
      forall i | 0 <= i < n - 1
        ensures f[1..][i].0 != k
      {
        assert f[1..][i] == f[i + 1];
      }
      LookupFirst(f[1..], n - 1, k);
    }
  }

  /** Assignment never duplicates a key. */
  lemma PutDistinct(f: Fields, k: string, v: Value)
    requires DistinctKeys(f)
    ensures DistinctKeys(Put(f, k, v))
  {
    var r := Put(f, k, v);
    forall a, b | 0 <= a < b < |r| ensures r[a].0 != r[b].0 {
      assert r[a].0 == Keys(r)[a] && r[b].0 == Keys(r)[b];
      if b == |f| {
        assert Keys(r)[b] == k;
      }
    }
  }

  /** After `d[k] = v`, the dict maps `k` to `v` and every other key as before. */
  lemma PutLookup(f: Fields, k: string, v: Value, j: string)
    requires DistinctKeys(f)
    ensures Lookup(Put(f, k, v), j) == if j == k then Some(v) else Lookup(f, j)
  {
    if j != k {
      var r := Put(f, k, v);
      if HasKey(f, j) {
        var i :| 0 <= i < |f| && Keys(f)[i] == j;
        assert r[i] == f[i];
        PutDistinct(f, k, v);
        LookupAt(f, i);
        LookupAt(r, i);
      } else {
        assert j !in Keys(r);
      }
    }
  }

  /** `d.setdefault(k, v)` (value discarded): sets `k` only when it is absent. */
  function SetDefault(f: Fields, k: string, v: Value): (r: Fields)
    ensures HasKey(f, k) ==> r == f
    ensures !HasKey(f, k) ==> Keys(r) == Keys(f) + [k] && Lookup(r, k) == Some(v)
  {
    if HasKey(f, k) then f else Put(f, k, v)
  }

  /** `setdefault` on a dict: only an absent key gains the default; every other lookup is unchanged. */
  lemma SetDefaultLookup(f: Fields, k: string, v: Value, j: string)
    requires DistinctKeys(f)
    ensures DistinctKeys(SetDefault(f, k, v))
    ensures Lookup(SetDefault(f, k, v), j) == if HasKey(f, j) || j != k then Lookup(f, j) else Some(v)
  {
    if !HasKey(f, k) {
      PutDistinct(f, k, v);
      PutLookup(f, k, v, j);
    }
  }

  /** `d.update(g)`: every entry of `g`, in order, written over `d`. */
  function Update(f: Fields, g: Fields): (r: Fields)
    decreases |g|
  {
    if |g| == 0 then f else Update(Put(f, g[0].0, g[0].1), g[1..])
  }

  /** `d.update(g)` never duplicates a key. */
  lemma {:induction false} UpdateDistinct(f: Fields, g: Fields)
    requires DistinctKeys(f)
    ensures DistinctKeys(Update(f, g))
    decreases |g|
  {
    if |g| > 0 {
      PutDistinct(f, g[0].0, g[0].1);
      UpdateDistinct(Put(f, g[0].0, g[0].1), g[1..]);
    }
  }

  /** How a lookup in a dict splits into its first entry and the rest. */
  lemma LookupCons(g: Fields, j: string)
    requires |g| > 0 && DistinctKeys(g)
    ensures DistinctKeys(g[1..])
    ensures HasKey(g, j) <==> g[0].0 == j || HasKey(g[1..], j)
    ensures HasKey(g[1..], j) ==> Lookup(g, j) == Lookup(g[1..], j)
    ensures g[0].0 == j ==> Lookup(g, j) == Some(g[0].1)
  {
    assert Keys(g) == [g[0].0] + Keys(g[1..]);
    if HasKey(g[1..], j) {
      var i :| 0 <= i < |g[1..]| && Keys(g[1..])[i] == j;
      assert g[i + 1].0 == j;
    }
  }

  /** After `d.update(g)`, a key of `g` maps to `g`'s value (later wins) and any other key to `d`'s. */
  lemma {:induction false} UpdateLookup(f: Fields, g: Fields, j: string)
    requires DistinctKeys(f) && DistinctKeys(g)
    ensures Lookup(Update(f, g), j) == if HasKey(g, j) then Lookup(g, j) else Lookup(f, j)
    decreases |g|
  {
    if |g| > 0 {
      var k0, v0, rest := g[0].0, g[0].1, g[1..];
      var f' := Put(f, k0, v0);
      assert Update(f, g) == Update(f', rest);
      PutDistinct(f, k0, v0);
      LookupCons(g, j);
      UpdateLookup(f', rest, j);
      PutLookup(f, k0, v0, j);
    }
  }
}
