/**
  A JavaScript object used as a string-keyed dictionary. Its keys enumerate
  in insertion order (plugin names are assumed not to look like array
  indices), assigning to an existing key keeps its position, and assigning
  to a new key appends it. It is modelled as a list of (key, value) pairs.
 */
module OrderedMap {
  import opened Base
  import opened Seqs

  type OMap<V> = seq<(string, V)>

  /** `Object.keys(m)`. */
  function Keys<V>(m: OMap<V>): (ks: seq<string>)
    ensures |ks| == |m|
    ensures forall i :: 0 <= i < |m| ==> ks[i] == m[i].0
  {
    if |m| == 0 then [] else [m[0].0] + Keys(m[1..])
  }

  /** `Object.values(m)`. */
  function Values<V>(m: OMap<V>): (vs: seq<V>)
    ensures |vs| == |m|
    ensures forall i :: 0 <= i < |m| ==> vs[i] == m[i].1
  {
    if |m| == 0 then [] else [m[0].1] + Values(m[1..])
  }

  /** The object was built by assignments, so no key occurs twice. */
  predicate WellFormed<V>(m: OMap<V>) {
    Distinct(Keys(m))
  }

  /** `m[k]`, `undefined` when the key is absent. */
  function Get<V>(m: OMap<V>, k: string): (r: Option<V>)
    ensures r.Some? <==> k in Keys(m)
    ensures r.Some? ==> (k, r.value) in m
  {
    if |m| == 0 then None
    else if m[0].0 == k then Some(m[0].1)
    else Get(m[1..], k)
  }

  /** `m[k] = v`. */
  function Put<V>(m: OMap<V>, k: string, v: V): (r: OMap<V>)
    ensures Keys(r) == if k in Keys(m) then Keys(m) else Keys(m) + [k]
  {
    if |m| == 0 then [(k, v)]
    else if m[0].0 == k then [(k, v)] + m[1..]
    else
      var rest := Put(m[1..], k, v);
      assert Keys(m) == [m[0].0] + Keys(m[1..]);
      assert Keys([m[0]] + rest) == [m[0].0] + Keys(rest);
      [m[0]] + rest
  }

  /** After `m[k] = v`, `k` reads `v` and every other key reads what it read before. */
  lemma {:induction false} PutGet<V>(m: OMap<V>, k: string, v: V, k': string)
    ensures Get(Put(m, k, v), k') == if k' == k then Some(v) else Get(m, k')
  {
    if |m| > 0 && m[0].0 != k {
      PutGet(m[1..], k, v, k');
    }
  }

  /** Assignment never produces a repeated key. */
  lemma PutWellFormed<V>(m: OMap<V>, k: string, v: V)
    requires WellFormed(m)
    ensures WellFormed(Put(m, k, v))
  {
    if k !in Keys(m) {
      DistinctAppend(Keys(m), k);
    }
  }

  /** Assigning the pairs of `es` one after another, as a `for` loop over
      `Object.entries(es)` or `Object.assign(m, es)` does. */
  function PutAll<V>(m: OMap<V>, es: OMap<V>): OMap<V>
    decreases |es|
  {
    if |es| == 0 then m else PutAll(Put(m, es[0].0, es[0].1), es[1..])
  }

  /** After assigning the distinct pairs of `es`, a key reads its value from
      `es` when `es` has it and from `m` otherwise. */
  lemma {:induction false} PutAllGet<V>(m: OMap<V>, es: OMap<V>, k: string)
    requires WellFormed(es)
    ensures Get(PutAll(m, es), k) == if k in Keys(es) then Get(es, k) else Get(m, k)
    decreases |es|
  {
    if |es| > 0 {
      var m1 := Put(m, es[0].0, es[0].1);
      assert Keys(es) == [es[0].0] + Keys(es[1..]);
      assert WellFormed(es[1..]);
      PutAllGet(m1, es[1..], k);
      PutGet(m, es[0].0, es[0].1, k);
    }
  }

  /** After assigning the distinct pairs of `es`, the keys of `m` keep their
      places and the new keys of `es` follow in the order of `es`. */
  lemma {:induction false} PutAllKeys<V>(m: OMap<V>, es: OMap<V>)
    requires WellFormed(es)
    ensures Keys(PutAll(m, es)) == Keys(m) + Without(Keys(es), Keys(m))
    decreases |es|
  {
    if |es| > 0 {
      var k := es[0].0;
      var m1 := Put(m, k, es[0].1);
      var rest := Keys(es[1..]);
      assert Keys(es) == [k] + rest;
      assert WellFormed(es[1..]);
      PutAllKeys(m1, es[1..]);
      KeysStep(Keys(m), k, rest);
    }
  }

  /** The list bookkeeping of one step of `PutAllKeys`. */
  lemma KeysStep(ms: seq<string>, k: string, rest: seq<string>)
    requires Distinct([k] + rest)
    ensures var ms1 := if k in ms then ms else ms + [k];
      ms1 + Without(rest, ms1) == ms + Without([k] + rest, ms)
  {
    if k in ms {
      KeysStepKnown(ms, k, rest);
    } else {
      HeadNotInTail(k, rest);
      KeysStepNew(ms, k, rest);
    }
  }

  /** A key already present: it is skipped and nothing moves. */
  lemma KeysStepKnown(ms: seq<string>, k: string, rest: seq<string>)
    requires k in ms
    ensures ms + Without(rest, ms) == ms + Without([k] + rest, ms)
  {
    assert ([k] + rest)[1..] == rest;
  }

  /** A new key: it is appended, and removing it from the remaining keys changes nothing. */
  lemma KeysStepNew(ms: seq<string>, k: string, rest: seq<string>)
    requires k !in ms && k !in rest
    ensures (ms + [k]) + Without(rest, ms + [k]) == ms + Without([k] + rest, ms)
  {
    var w := Without(rest, ms);
    WithoutExtend(rest, ms, k);
    var ks := [k] + rest;
    assert ks[0] == k && ks[1..] == rest;
    assert Without(ks, ms) == [k] + w;
    assert (ms + [k]) + w == ms + ([k] + w);
  }

  /** The first element of a distinct list does not occur again. */
  lemma HeadNotInTail(k: string, rest: seq<string>)
    requires Distinct([k] + rest)
    ensures k !in rest
  {
    var ks := [k] + rest;
    forall i | 0 <= i < |rest| ensures rest[i] != k {
      assert ks[0] == k && ks[i + 1] == rest[i];
      assert ks[0] != ks[i + 1];
    }
  }

  /** Assignments never produce a repeated key. */
  lemma {:induction false} PutAllWellFormed<V>(m: OMap<V>, es: OMap<V>)
    requires WellFormed(m)
    ensures WellFormed(PutAll(m, es))
    decreases |es|
  {
    if |es| > 0 {
      PutWellFormed(m, es[0].0, es[0].1);
      PutAllWellFormed(Put(m, es[0].0, es[0].1), es[1..]);
    }
  }

  /** In a well-formed map the pair at position `i` is what its key reads. */
  lemma {:induction false} GetAt<V>(m: OMap<V>, i: nat)
    requires WellFormed(m) && i < |m|
    ensures Get(m, m[i].0) == Some(m[i].1)
  {
    if i > 0 {
      assert Keys(m)[0] != Keys(m)[i];
      assert WellFormed(m[1..]) by {
        assert Keys(m[1..]) == Keys(m)[1..];
      }
      GetAt(m[1..], i - 1);
    }
  }

  /** Assigning the distinct pairs of `es` to an empty object rebuilds `es`:
      the same keys in the same order, each reading the same value. */
  lemma {:induction false} PutAllFromEmpty<V>(es: OMap<V>)
    requires WellFormed(es)
    ensures Keys(PutAll([], es)) == Keys(es)
    ensures forall k :: Get(PutAll([], es), k) == Get(es, k)
  {
    PutAllKeys([], es);
    WithoutNothing(Keys(es));
    forall k ensures Get(PutAll([], es), k) == Get(es, k) {
      PutAllGet([], es, k);
    }
  }

  /** Removing nothing keeps the list. */
  lemma {:induction false} WithoutNothing(xs: seq<string>)
    ensures Without(xs, []) == xs
  {
    if |xs| > 0 {
      WithoutNothing(xs[1..]);
      assert [xs[0]] + xs[1..] == xs;
    }
  }
}
