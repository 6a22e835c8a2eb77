/**
  The canonical parameter string that the red-packet request signs
  (`orderParam` in pay/redpack/redpack.go): every parameter except "sign",
  in ascending key order, empty strings skipped, written as `k=v` pairs
  joined by '&', followed by the key suffix.

  `OrderParam` is the specification, `BuildOrderParam` the loop the source
  runs (gather the keys in map order, sort them, write into a buffer); the
  method is proved to compute the function whatever order the map hands out
  its keys.
 */
module Canonical {
  import opened StringOrder
  import Decimal

  /** Go's `int` on a 64-bit platform; `int64(vv)` in the source is then the identity. */
  newtype Int64 = x: int | -0x8000_0000_0000_0000 <= x < 0x8000_0000_0000_0000

  /** A parameter value: the source's map holds Go strings and Go ints. */
  datatype Value = Str(s: string) | Int(i: Int64)

  /** The source's test `v[k] == ""`: true of the empty string only, never of an int. */
  predicate IsEmptyString(v: Value)
    ensures v.Int? ==> !IsEmptyString(v)
  {
    v == Str("")
  }

  /** The value as written into the buffer: a string verbatim, an int in base 10. */
  function RenderValue(v: Value): (r: string)
    ensures v.Str? ==> r == v.s
    ensures v.Int? ==> Decimal.CanonicalDecimal(r) && Decimal.ParseInt(r) == v.i as int
  {
    match v
    case Str(s) => s
    case Int(i) =>
      Decimal.ParseFormat(i as int);
      Decimal.FormatInt(i as int)
  }

  /** One `k=v` pair: the key, '=', then the rendered value. */
  function Pair(k: string, v: Value): (p: string)
    ensures |p| > 0
  {
    k + "=" + RenderValue(v)
  }

  /** A pair splits at the key's length into the key, '=' and the rendered value. */
  lemma PairParts(k: string, v: Value)
    ensures var p := Pair(k, v);
      p[..|k|] == k && p[|k|] == '=' && p[|k| + 1..] == RenderValue(v)
  {
    var p := Pair(k, v);
    assert p[..|k|] == k && p[|k| + 1..] == RenderValue(v);
  }

  /** `k` contributes a pair to the canonical string of `m`. */
  predicate Signed(m: map<string, Value>, k: string) {
    k in m && k != "sign" && !IsEmptyString(m[k])
  }

  /** The keys in `keys` whose values are not the empty string, in the same order. */
  function Kept(m: map<string, Value>, keys: seq<string>): (r: seq<string>)
    requires forall k :: k in keys ==> k in m
    ensures forall k :: k in r <==> k in keys && !IsEmptyString(m[k])
    ensures StrictlyIncreasing(keys) ==> StrictlyIncreasing(r)
    decreases |keys|
  {
    if keys == [] then []
    else
      var n := |keys| - 1;
      var front := Kept(m, keys[..n]);
      if IsEmptyString(m[keys[n]]) then front
      else
        KeptSnoc(front, keys);
        front + [keys[n]]
  }

  lemma KeptSnoc(front: seq<string>, keys: seq<string>)
    requires |keys| > 0
    requires forall x :: x in front ==> x in keys[..|keys| - 1]
    requires StrictlyIncreasing(keys) ==> StrictlyIncreasing(front)
    ensures StrictlyIncreasing(keys) ==> StrictlyIncreasing(front + [keys[|keys| - 1]])
  {
    var n := |keys| - 1;
    if StrictlyIncreasing(keys) {
      forall x | x in front ensures Less(x, keys[n]) {
        var i :| 0 <= i < n && keys[..n][i] == x;
        assert keys[i] == x;
      }
      SnocStrictlyIncreasing(front, keys[n]);
    }
  }

  lemma SnocStrictlyIncreasing(s: seq<string>, k: string)
    requires StrictlyIncreasing(s)
    requires forall x :: x in s ==> Less(x, k)
    ensures StrictlyIncreasing(s + [k])
  {
    var r := s + [k];
    forall i, j | 0 <= i < j < |r| ensures Less(r[i], r[j]) {
      assert r[i] == s[i];
      if j < |s| {
        assert r[j] == s[j];
      }
    }
  }

  /** The `k=v` pair of each key, in order. */
  function Pairs(m: map<string, Value>, keys: seq<string>): (ps: seq<string>)
    requires forall k :: k in keys ==> k in m
    ensures |ps| == |keys|
    ensures forall i :: 0 <= i < |keys| ==> ps[i] == Pair(keys[i], m[keys[i]])
    decreases |keys|
  {
    if keys == [] then []
    else
      var n := |keys| - 1;
      var front := Pairs(m, keys[..n]);
      assert forall i :: 0 <= i < n ==> keys[..n][i] == keys[i];
      front + [Pair(keys[n], m[keys[n]])]
  }

  /** The strings of `ps` with one '&' between neighbours. */
  function Join(ps: seq<string>): (r: string)
    ensures (forall i :: 0 <= i < |ps| ==> |ps[i]| > 0) ==> (r == "" <==> ps == [])
    decreases |ps|
  {
    if |ps| == 0 then ""
    else if |ps| == 1 then ps[0]
    else Join(ps[..|ps| - 1]) + "&" + ps[|ps| - 1]
  }

  /** What the writing loop leaves in the buffer after visiting `keys` in order. */
  function Written(m: map<string, Value>, keys: seq<string>): string
    requires forall k :: k in keys ==> k in m
  {
    Join(Pairs(m, Kept(m, keys)))
  }

  /** The keys whose pairs are signed, in the order they are written. */
  function EmittedKeys(m: map<string, Value>): (r: seq<string>)
    ensures StrictlyIncreasing(r)
    ensures forall k :: k in r <==> Signed(m, k)
  {
    Kept(m, SortedKeys(m.Keys - {"sign"}))
  }

  /** The string `orderParam(m, bizKey)` returns for a map of strings and ints. */
  function OrderParam(m: map<string, Value>, bizKey: string): (r: string)
    ensures |r| >= |bizKey| && r[|r| - |bizKey|..] == bizKey
    ensures r == bizKey <==> EmittedKeys(m) == []
  {
    var body := Written(m, SortedKeys(m.Keys - {"sign"}));
    assert (body + bizKey)[|body|..] == bizKey;
    body + bizKey
  }

  /** Exactly one '&' separates the last pair of one run from the first pair of the next. */
  lemma {:induction false} JoinAppend(ps: seq<string>, qs: seq<string>)
    requires ps != [] && qs != []
    ensures Join(ps + qs) == Join(ps) + "&" + Join(qs)
    decreases |qs|
  {
    var r := ps + qs;
    if |qs| == 1 {
      assert r[..|r| - 1] == ps;
    } else {
      var front := qs[..|qs| - 1];
      assert r[..|r| - 1] == ps + front;
      JoinAppend(ps, front);
    }
  }

  /** Left-to-right reading of `Join`: the first string, then '&' before each later one. */
  function JoinFromLeft(ps: seq<string>): string
    decreases |ps|
  {
    if |ps| == 0 then "" else ps[0] + SeparatedTail(ps[1..])
  }

  function SeparatedTail(qs: seq<string>): string
    decreases |qs|
  {
    if |qs| == 0 then "" else "&" + qs[0] + SeparatedTail(qs[1..])
  }

  /** No '&' before the first pair, one between neighbours, none after the last. */
  lemma {:induction false} JoinFromLeftAgrees(ps: seq<string>)
    ensures Join(ps) == JoinFromLeft(ps)
    decreases |ps|
  {
    if |ps| > 1 {
      var rest := ps[1..];
      JoinFromLeftAgrees(rest);
      JoinAppend([ps[0]], rest);
      assert [ps[0]] + rest == ps;
      assert SeparatedTail(rest) == "&" + JoinFromLeft(rest);
    }
  }

  /** The canonical string read left to right: the first signed pair, '&' before each
      later one, then the suffix. */
  lemma OrderParamFromLeft(m: map<string, Value>, bizKey: string)
    ensures OrderParam(m, bizKey) == JoinFromLeft(Pairs(m, EmittedKeys(m))) + bizKey
  {
    JoinFromLeftAgrees(Pairs(m, EmittedKeys(m)));
  }

  /** Two maps with the same signed keys and the same values on them give the same string. */
  lemma OrderParamCongruence(m1: map<string, Value>, m2: map<string, Value>, bizKey: string)
    requires forall k :: Signed(m1, k) ==> Signed(m2, k) && m1[k] == m2[k]
    requires forall k :: Signed(m2, k) ==> Signed(m1, k)
    ensures OrderParam(m1, bizKey) == OrderParam(m2, bizKey)
  {
    var e1, e2 := EmittedKeys(m1), EmittedKeys(m2);
    StrictlyIncreasingUnique(e1, e2);
    assert Pairs(m1, e1) == Pairs(m2, e2);
  }

  /** Whatever value "sign" has, it contributes nothing. */
  lemma OrderParamIgnoresSign(m: map<string, Value>, v: Value, bizKey: string)
    ensures OrderParam(m["sign" := v], bizKey) == OrderParam(m - {"sign"}, bizKey)
  {
    OrderParamCongruence(m["sign" := v], m - {"sign"}, bizKey);
  }

  /** An entry whose value is the empty string contributes nothing. */
  lemma OrderParamIgnoresEmptyString(m: map<string, Value>, k: string, bizKey: string)
    ensures OrderParam(m[k := Str("")], bizKey) == OrderParam(m - {k}, bizKey)
  {
    OrderParamCongruence(m[k := Str("")], m - {k}, bizKey);
  }

  /** A strictly increasing arrangement of the signed keys is the one the function uses. */
  lemma EmittedKeysUnique(m: map<string, Value>, keys: seq<string>)
    requires StrictlyIncreasing(keys)
    requires forall k :: k in keys <==> Signed(m, k)
    ensures keys == EmittedKeys(m)
  {
    StrictlyIncreasingUnique(keys, EmittedKeys(m));
  }

  /** An int entry other than "sign" is always written, zero included: only a string can
      be skipped as empty. */
  lemma IntAlwaysWritten(m: map<string, Value>, k: string, x: Int64)
    requires k in m && k != "sign" && m[k] == Int(x)
    ensures k in EmittedKeys(m)
    ensures Pair(k, m[k]) in Pairs(m, EmittedKeys(m))
  {
    var e := EmittedKeys(m);
    var i :| 0 <= i < |e| && e[i] == k;
    assert Pairs(m, e)[i] == Pair(k, m[k]);
  }

  /** A string entry other than "sign" is written exactly when it is not empty. */
  lemma StringWrittenUnlessEmpty(m: map<string, Value>, k: string, x: string)
    requires k in m && k != "sign" && m[k] == Str(x)
    ensures k in EmittedKeys(m) <==> x != ""
  {
  }

  /** An example: a single int entry of value zero. */
  lemma ZeroIntIsWritten(bizKey: string)
    ensures OrderParam(map["total_num" := Int(0)], bizKey) == "total_num=0" + bizKey
  {
    var m := map["total_num" := Int(0)];
    EmittedKeysUnique(m, ["total_num"]);
  }

  /** `orderParam` as the source runs it: gather the keys in the map's own
      order, sort them in place, then write the pairs into a buffer. */
  method BuildOrderParam(m: map<string, Value>, bizKey: string) returns (returnStr: string)
    ensures returnStr == OrderParam(m, bizKey)
  {
    var keys := CollectKeys(m);
    var a := new string[|keys|](i requires 0 <= i < |keys| => keys[i]);
    assert a[..] == keys;
    SortStrings(a);
    SortedKeysOfSort(m, keys, a[..]);

    var buf := WritePairs(m, a[..]);
    buf := buf + bizKey;
    returnStr := buf;
  }

  /** The second loop of `orderParam`: each kept key's pair, '&' before all but the first. */
  method WritePairs(m: map<string, Value>, keys: seq<string>) returns (buf: string)
    requires forall k :: k in keys ==> k in m
    ensures buf == Written(m, keys)
  {
    buf := "";
    for i := 0 to |keys|
      invariant buf == WrittenUpTo(m, keys, i)
    {
      buf := WriteKey(m, keys, i, buf);
    }
    assert keys[..|keys|] == keys;
  }

  /** What the buffer holds after the first `i` keys of `keys`. */
  function WrittenUpTo(m: map<string, Value>, keys: seq<string>, i: nat): string
    requires i <= |keys|
    requires forall k :: k in keys ==> k in m
  {
    assert forall k :: k in keys[..i] ==> k in keys;
    Written(m, keys[..i])
  }

  /** One turn of the second loop, on key `keys[i]`: skip an empty string; otherwise '&'
      if the buffer already holds a pair, then the pair. */
  method WriteKey(m: map<string, Value>, keys: seq<string>, i: nat, buf: string)
    returns (out: string)
    requires i < |keys|
    requires forall k :: k in keys ==> k in m
    requires buf == WrittenUpTo(m, keys, i)
    ensures out == WrittenUpTo(m, keys, i + 1)
  {
    var k := keys[i];
    WriteStepAt(m, keys, i);
    out := buf;
    if IsEmptyString(m[k]) {
      return;
    }
    if |out| > 0 {
      out := out + "&";
    }
    out := WritePair(out, k, m[k]);
  }

  /** `WriteStep` at position `i` of `keys`. */
  lemma WriteStepAt(m: map<string, Value>, keys: seq<string>, i: nat)
    requires i < |keys|
    requires forall k :: k in keys ==> k in m
    ensures var before, k := WrittenUpTo(m, keys, i), keys[i];
      WrittenUpTo(m, keys, i + 1) ==
        if IsEmptyString(m[k]) then before
        else if |before| > 0 then before + "&" + Pair(k, m[k])
        else Pair(k, m[k])
  {
    var prefix := keys[..i];
    assert keys[..i + 1] == prefix + [keys[i]];
    assert forall x :: x in prefix ==> x in keys;
    WriteStep(m, prefix, keys[i]);
  }

  /** The three writes of one pair: the key, '=', then the value rendered by its type. */
  method WritePair(buf: string, k: string, v: Value) returns (out: string)
    ensures out == buf + Pair(k, v)
  {
    out := buf + k;
    out := out + "=";
    match v {
      case Str(s) => out := out + s;
      case Int(i) => out := out + Decimal.FormatInt(i as int);
    }
  }

  /** The first loop of `orderParam`: every key but "sign", each once, in the map's order. */
  method CollectKeys(m: map<string, Value>) returns (keys: seq<string>)
    ensures forall k :: k in keys <==> k in m && k != "sign"
    ensures forall k :: multiset(keys)[k] <= 1
  {
    keys := [];
    var unvisited := m.Keys;
    while unvisited != {}
      invariant unvisited <= m.Keys
      invariant forall k :: k in keys <==> k in m && k !in unvisited && k != "sign"
      invariant forall k :: multiset(keys)[k] <= 1
      decreases |unvisited|
    {
      var k :| k in unvisited;
      unvisited := unvisited - {k};
      if k == "sign" {
        continue;
      }
      keys := keys + [k];
    }
  }

  /** Sorting the gathered keys yields the ascending key sequence of the specification. */
  lemma SortedKeysOfSort(m: map<string, Value>, keys: seq<string>, sorted: seq<string>)
    requires forall k :: k in keys <==> k in m && k != "sign"
    requires forall k :: multiset(keys)[k] <= 1
    requires AdjacentSorted(sorted) && multiset(sorted) == multiset(keys)
    ensures sorted == SortedKeys(m.Keys - {"sign"})
  {
    forall k ensures k in sorted <==> k in keys {
      assert k in sorted <==> k in multiset(sorted);
      assert k in keys <==> k in multiset(keys);
    }
    SingleOccurrenceDistinct(sorted);
    AdjacentSortedDistinctStrict(sorted);
    StrictlyIncreasingUnique(sorted, SortedKeys(m.Keys - {"sign"}));
  }

  /** One turn of the writing loop: a kept key adds its pair, after an '&' unless it is the first. */
  lemma WriteStep(m: map<string, Value>, prefix: seq<string>, k: string)
    requires forall x :: x in prefix ==> x in m
    requires k in m
    ensures Written(m, prefix + [k]) ==
      if IsEmptyString(m[k]) then Written(m, prefix)
      else if |Written(m, prefix)| > 0 then Written(m, prefix) + "&" + Pair(k, m[k])
      else Pair(k, m[k])
  {
    var s := prefix + [k];
    assert s[..|prefix|] == prefix;
    var ps := Pairs(m, Kept(m, prefix));
    if !IsEmptyString(m[k]) {
      assert Kept(m, s) == Kept(m, prefix) + [k];
      var qs := Pairs(m, Kept(m, s));
      assert qs == ps + [Pair(k, m[k])];
      assert qs[..|ps|] == ps;
    }
  }

  /** A sequence in which nothing occurs twice has no repeated position. */
  lemma SingleOccurrenceDistinct(s: seq<string>)
    requires forall k :: multiset(s)[k] <= 1
    ensures Distinct(s)
  {
    forall i, j | 0 <= i < j < |s| ensures s[i] != s[j] {
      RepeatCounted(s, i, j);
    }
  }

  lemma RepeatCounted(s: seq<string>, i: int, j: int)
    requires 0 <= i < j < |s|
    ensures s[i] == s[j] ==> multiset(s)[s[i]] >= 2
  {
    assert s == s[..j] + s[j..];
    assert s[i] == s[..j][i] && s[j] == s[j..][0];
    assert multiset(s)[s[i]] == multiset(s[..j])[s[i]] + multiset(s[j..])[s[i]];
  }
}
