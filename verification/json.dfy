/** JSON values as `json.load` produces them, and Python dicts modelled as
    association lists: a key's value is its LAST binding, so "the later key
    wins" is visible in the model rather than hidden in a map. */
module Json {
  import opened Wrappers

  /** A parsed JSON value. Numbers are integers (floating point is not modelled). */
  datatype Value =
    | Null
    | Bool(b: bool)
    | Num(n: int)
    | Str(s: string)
    | Arr(items: seq<Value>)
    | Obj(members: Members)

  /** The members of a JSON object or Python dict, in insertion order. */
  type Members = seq<(string, Value)>

  /** Python truthiness (`bool(v)`) of a JSON value. */
  predicate Truthy(v: Value): (r: bool)
    ensures !r <==> v in {Null, Bool(false), Num(0), Str(""), Arr([]), Obj([])}
  {
    match v
    case Null => false
    case Bool(b) => b
    case Num(n) => n != 0
    case Str(s) => |s| > 0
    case Arr(items) => |items| > 0
    case Obj(members) => |members| > 0
  }

  function Keys(m: Members): set<string> {
    set i | 0 <= i < |m| :: m[i].0
  }

  /** No key is bound twice: the shape of a real Python dict. */
  predicate UniqueKeys(m: Members) {
    forall i, j :: 0 <= i < j < |m| ==> m[i].0 != m[j].0
  }

  /** `v` is bound to `k` at some position and no later position binds `k`. */
  ghost predicate LastBinding(m: Members, k: string, v: Value) {
    exists i :: 0 <= i < |m| && m[i] == (k, v) &&
      forall j :: i < j < |m| ==> m[j].0 != k
  }

  lemma KeysSnoc(m: Members, p: (string, Value))
    ensures Keys(m + [p]) == Keys(m) + {p.0}
  {
    var m' := m + [p];
    forall k | k in Keys(m')
      ensures k in Keys(m) + {p.0}
    {
      var i :| 0 <= i < |m'| && m'[i].0 == k;
      if i < |m| {
        assert m[i] == m'[i];
      }
    }
    forall k | k in Keys(m) + {p.0}
      ensures k in Keys(m')
    {
      if k == p.0 {
        assert m'[|m|].0 == k;
      } else {
        var i :| 0 <= i < |m| && m[i].0 == k;
        assert m'[i].0 == k;
      }
    }
  }

  lemma KeysInit(m: Members)
    requires |m| > 0
    ensures Keys(m) == Keys(m[..|m| - 1]) + {m[|m| - 1].0}
  {
    KeysSnoc(m[..|m| - 1], m[|m| - 1]);
    assert m[..|m| - 1] + [m[|m| - 1]] == m;
  }

  /** `dict.get(k)`: the last binding of `k`, if any. */
  function Lookup(m: Members, k: string): (r: Option<Value>)
    ensures r.Some? <==> k in Keys(m)
    decreases |m|
  {
    if |m| == 0 then None
    else
      KeysInit(m);
      if m[|m| - 1].0 == k then Some(m[|m| - 1].1)
      else Lookup(m[..|m| - 1], k)
  }

  lemma LookupSnoc(m: Members, p: (string, Value), k: string)
    ensures Lookup(m + [p], k) == if p.0 == k then Some(p.1) else Lookup(m, k)
  {
    assert (m + [p])[..|m|] == m;
  }

  lemma {:induction false} LookupFindsLastBinding(m: Members, k: string)
    requires k in Keys(m)
    ensures LastBinding(m, k, Lookup(m, k).value)
    decreases |m|
  {
    var n := |m| - 1;
    if m[n].0 == k {
      assert m[n] == (k, Lookup(m, k).value);
    } else {
      var init := m[..n];
      LookupFindsLastBinding(init, k);
      var i :| 0 <= i < |init| && init[i] == (k, Lookup(init, k).value) &&
        forall j :: i < j < |init| ==> init[j].0 != k;
      assert m[i] == init[i];
    }
  }

  lemma LastBindingUnique(m: Members, k: string, v: Value, w: Value)
    requires LastBinding(m, k, v) && LastBinding(m, k, w)
    ensures v == w
  {
    var i :| 0 <= i < |m| && m[i] == (k, v) && forall j :: i < j < |m| ==> m[j].0 != k;
    var i' :| 0 <= i' < |m| && m[i'] == (k, w) && forall j :: i' < j < |m| ==> m[j].0 != k;
    assert i == i';
  }

  /** The lookup agrees with the declarative reading of "last binding". */
  lemma LookupIsLastBinding(m: Members, k: string, v: Value)
    ensures Lookup(m, k) == Some(v) <==> LastBinding(m, k, v)
  {
    if LastBinding(m, k, v) {
      var i :| 0 <= i < |m| && m[i] == (k, v) && forall j :: i < j < |m| ==> m[j].0 != k;
      assert k in Keys(m);
      LookupFindsLastBinding(m, k);
      LastBindingUnique(m, k, v, Lookup(m, k).value);
    }
    if Lookup(m, k) == Some(v) {
      LookupFindsLastBinding(m, k);
    }
  }

  /** In a dict with unique keys, every stored pair is what lookup returns. */
  lemma {:induction false} UniqueLookup(m: Members, i: int)
    requires UniqueKeys(m)
    requires 0 <= i < |m|
    ensures Lookup(m, m[i].0) == Some(m[i].1)
  {
    LookupIsLastBinding(m, m[i].0, m[i].1);
  }

  /** Rebinds every occurrence of `k` to `v`, leaving positions unchanged. */
  function Rebind(m: Members, k: string, v: Value): (r: Members)
    ensures |r| == |m|
    ensures Keys(r) == Keys(m)
    ensures forall i :: 0 <= i < |m| ==> r[i] == if m[i].0 == k then (k, v) else m[i]
    ensures forall j :: Lookup(r, j) == if j == k && k in Keys(m) then Some(v) else Lookup(m, j)
    decreases |m|
  {
    if |m| == 0 then []
    else
      var n := |m| - 1;
      var init := Rebind(m[..n], k, v);
      var r := init + [if m[n].0 == k then (k, v) else m[n]];
      KeysInit(m);
      KeysSnoc(init, r[n]);
      assert forall j :: Lookup(r, j) == if j == k && k in Keys(m) then Some(v) else Lookup(m, j) by {
        forall j
          ensures Lookup(r, j) == if j == k && k in Keys(m) then Some(v) else Lookup(m, j)
        {
          LookupSnoc(init, r[n], j);
        }
      }
      r
  }

  /** `d[k] = v`: an existing key keeps its position and takes the new value;
      a new key is appended. */
  function Put(m: Members, k: string, v: Value): (r: Members)
    ensures Lookup(r, k) == Some(v)
    ensures forall j :: j != k ==> Lookup(r, j) == Lookup(m, j)
    ensures Keys(r) == Keys(m) + {k}
    ensures UniqueKeys(m) ==> UniqueKeys(r)
    ensures k in Keys(m) ==>
      |r| == |m| && forall i :: 0 <= i < |m| ==> r[i] == if m[i].0 == k then (k, v) else m[i]
    ensures k !in Keys(m) ==> r == m + [(k, v)]
  {
    if k in Keys(m) then
      Rebind(m, k, v)
    else
      KeysSnoc(m, (k, v));
      assert forall j :: Lookup(m + [(k, v)], j) == if j == k then Some(v) else Lookup(m, j) by {
        forall j
          ensures Lookup(m + [(k, v)], j) == if j == k then Some(v) else Lookup(m, j)
        {
          LookupSnoc(m, (k, v), j);
        }
      }
      m + [(k, v)]
  }

  /** `del d[k]` (or `d.pop(k)` once the value has been read): drops every binding of `k`. */
  function Remove(m: Members, k: string): (r: Members)
    ensures Lookup(r, k) == None
    ensures forall j :: j != k ==> Lookup(r, j) == Lookup(m, j)
    ensures Keys(r) == Keys(m) - {k}
    ensures UniqueKeys(m) ==> UniqueKeys(r)
    ensures |r| <= |m|
    decreases |m|
  {
    if |m| == 0 then []
    else
      var n := |m| - 1;
      var init := Remove(m[..n], k);
      KeysInit(m);
      if m[n].0 == k then
        assert forall j :: j != k ==> Lookup(init, j) == Lookup(m, j);
        init
      else
        var r := init + [m[n]];
        KeysSnoc(init, m[n]);
        assert forall j :: Lookup(r, j) == if j == m[n].0 then Some(m[n].1) else Lookup(init, j) by {
          forall j
            ensures Lookup(r, j) == if j == m[n].0 then Some(m[n].1) else Lookup(init, j)
          {
            LookupSnoc(init, m[n], j);
          }
        }
        assert UniqueKeys(m) ==> UniqueKeys(r) by {
          if UniqueKeys(m) {
            assert m[n].0 !in Keys(m[..n]);
          }
        }
        r
  }

  /** The dict built by assigning the pairs one after another
      (`{k: v for k, v in pairs}`). */
  function FromPairs(ps: Members): (r: Members)
    ensures UniqueKeys(r)
    ensures Keys(r) == Keys(ps)
    ensures forall k :: Lookup(r, k) == Lookup(ps, k)
    decreases |ps|
  {
    if |ps| == 0 then []
    else
      var n := |ps| - 1;
      KeysInit(ps);
      assert forall k :: Lookup(ps, k) == if ps[n].0 == k then Some(ps[n].1) else Lookup(ps[..n], k);
      Put(FromPairs(ps[..n]), ps[n].0, ps[n].1)
  }

  /** A dict with unique keys is rebuilt unchanged. */
  lemma {:induction false} FromPairsOfDict(d: Members)
    requires UniqueKeys(d)
    ensures FromPairs(d) == d
    decreases |d|
  {
    if |d| > 0 {
      var n := |d| - 1;
      var init := d[..n];
      assert FromPairs(init) == init by {
        assert UniqueKeys(init);
        FromPairsOfDict(init);
      }
      assert Put(init, d[n].0, d[n].1) == init + [d[n]] by {
        assert d[n].0 !in Keys(init);
      }
      assert init + [d[n]] == d;
    }
  }

  /** The keys of a dict with unique keys, in insertion order. */
  function KeyList(m: Members): (ks: seq<string>)
    ensures |ks| == |m|
    ensures forall i :: 0 <= i < |m| ==> ks[i] == m[i].0
  {
    seq(|m|, i requires 0 <= i < |m| => m[i].0)
  }
}
