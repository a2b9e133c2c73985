/**
 * A JavaScript plain object used as a dictionary: its entries in insertion
 * order: the order in which keys were first assigned. That is JavaScript's
 * order for every key the server itself assigns, none of which is an array
 * index. A ban record's keys come from outside and could be integer-like;
 * JavaScript would list those first, and the README's "Left out" section
 * records that this model does not.
 */
module Dict {
  import opened Wrappers

  type Dict<V> = seq<(string, V)>

  function Keys<V>(d: Dict<V>): (ks: seq<string>)
    ensures |ks| == |d|
    ensures forall i :: 0 <= i < |d| ==> ks[i] == d[i].0
  {
    if d == [] then [] else [d[0].0] + Keys(d[1..])
  }

  predicate Distinct(ks: seq<string>)
  {
    forall i, j :: 0 <= i < j < |ks| ==> ks[i] != ks[j]
  }

  /** Each key occurs once, as in every JavaScript object. */
  predicate Unique<V>(d: Dict<V>)
  {
    Distinct(Keys(d))
  }

  /** `d[k]`, with None for `undefined`. */
  function Get<V>(d: Dict<V>, k: string): (r: Option<V>)
    ensures r.Some? <==> k in Keys(d)
  {
    if d == [] then None
    else if d[0].0 == k then Some(d[0].1)
    else Get(d[1..], k)
  }

  /** `d[k] = v`: a present key keeps its place and takes the new value; a new key goes last. */
  function Put<V>(d: Dict<V>, k: string, v: V): (r: Dict<V>)
    ensures Keys(r) == if k in Keys(d) then Keys(d) else Keys(d) + [k]
    ensures k !in Keys(d) ==> r == d + [(k, v)]
  {
    if d == [] then [(k, v)]
    else if d[0].0 == k then [(k, v)] + d[1..]
    else
      var rest := Put(d[1..], k, v);
      assert Keys(d) == [d[0].0] + Keys(d[1..]);
      assert Keys([d[0]] + rest) == [d[0].0] + Keys(rest);
      [d[0]] + rest
  }

  /** After `d[k] = v`, reading k gives v and every other key reads as before. */
  lemma {:induction false} PutGet<V>(d: Dict<V>, k: string, v: V, k': string)
    ensures Get(Put(d, k, v), k') == if k' == k then Some(v) else Get(d, k')
  {
    if d != [] && d[0].0 != k {
      PutGet(d[1..], k, v, k');
    }
  }

  /** Assigning to a present key replaces its entry where it stands. */
  lemma {:induction false} PutAt<V>(d: Dict<V>, i: nat, v: V)
    requires i < |d| && d[i].0 !in Keys(d[..i])
    ensures Put(d, d[i].0, v) == d[i := (d[i].0, v)]
  {
    if i > 0 {
      assert Keys(d[..i]) == [d[0].0] + Keys(d[1..][..i - 1]) by {
        assert d[..i] == [d[0]] + d[1..][..i - 1];
      }
      PutAt(d[1..], i - 1, v);
      assert d[1..][i - 1 := (d[i].0, v)] == d[i := (d[i].0, v)][1..];
    }
  }

  lemma PutKeepsUnique<V>(d: Dict<V>, k: string, v: V)
    requires Unique(d)
    ensures Unique(Put(d, k, v))
  {
    var ks := Keys(Put(d, k, v));
    if k !in Keys(d) {
      forall i, j | 0 <= i < j < |ks| ensures ks[i] != ks[j] {
        if j == |ks| - 1 {
          assert ks[i] == Keys(d)[i];
        } else {
          assert ks[i] == Keys(d)[i] && ks[j] == Keys(d)[j];
        }
      }
    }
  }

  /** The keys of ks that are not in seen, in the order of ks. */
  function Missing(seen: seq<string>, ks: seq<string>): (r: seq<string>)
    ensures forall k :: k in r <==> k in ks && k !in seen
  {
    if ks == [] then [] else (if ks[0] in seen then [] else [ks[0]]) + Missing(seen, ks[1..])
  }

  lemma {:induction false} MissingIgnoresAbsent(seen: seq<string>, k: string, ks: seq<string>)
    requires k !in ks
    ensures Missing(seen + [k], ks) == Missing(seen, ks)
  {
    if ks != [] {
      MissingIgnoresAbsent(seen, k, ks[1..]);
    }
  }

  /**
   * `{...d, ...e}`: a copy of d with e's entries assigned over it in e's
   * order (SpreadKeys and SpreadGet say what that yields).
   */
  function Spread<V>(d: Dict<V>, e: Dict<V>): Dict<V>
    decreases |e|
  {
    if e == [] then d else Spread(Put(d, e[0].0, e[0].1), e[1..])
  }

  lemma UniqueTail<V>(e: Dict<V>)
    requires e != [] && Unique(e)
    ensures Unique(e[1..]) && e[0].0 !in Keys(e[1..])
    ensures Keys(e) == [e[0].0] + Keys(e[1..])
  {
    var ks, ts := Keys(e), Keys(e[1..]);
    assert forall i :: 0 <= i < |ts| ==> ts[i] == ks[i + 1];
    assert ks == [e[0].0] + ts;
  }

  /** One assignment step of a spread, as seen through the keys. */
  lemma PutThenMissing<V>(d: Dict<V>, k: string, v: V, ks': seq<string>)
    requires k !in ks'
    ensures Keys(Put(d, k, v)) + Missing(Keys(Put(d, k, v)), ks') == Keys(d) + Missing(Keys(d), [k] + ks')
  {
    var ks := Keys(d);
    assert ([k] + ks')[1..] == ks';
    if k in ks {
      assert Missing(ks, [k] + ks') == Missing(ks, ks');
    } else {
      MissingIgnoresAbsent(ks, k, ks');
      assert Missing(ks, [k] + ks') == [k] + Missing(ks, ks');
      assert (ks + [k]) + Missing(ks, ks') == ks + ([k] + Missing(ks, ks'));
    }
  }

  /** The keys of `{...d, ...e}`: d's keys in place, then e's new keys in e's order. */
  lemma {:induction false} SpreadKeys<V>(d: Dict<V>, e: Dict<V>)
    requires Unique(e)
    ensures Keys(Spread(d, e)) == Keys(d) + Missing(Keys(d), Keys(e))
    decreases |e|
  {
    if e != [] {
      var (k0, v0) := e[0];
      UniqueTail(e);
      SpreadKeys(Put(d, k0, v0), e[1..]);
      PutThenMissing(d, k0, v0, Keys(e[1..]));
    }
  }

  /** The values of `{...d, ...e}`: e's value where e has the key, otherwise d's. */
  lemma {:induction false} SpreadGet<V>(d: Dict<V>, e: Dict<V>, k: string)
    requires Unique(e)
    ensures Get(Spread(d, e), k) == if k in Keys(e) then Get(e, k) else Get(d, k)
    decreases |e|
  {
    if e != [] {
      var (k0, v0) := e[0];
      UniqueTail(e);
      PutGet(d, k0, v0, k);
      SpreadGet(Put(d, k0, v0), e[1..], k);
    }
  }

  /** `{...d, ...e}` is again an object with distinct keys. */
  lemma {:induction false} SpreadKeepsUnique<V>(d: Dict<V>, e: Dict<V>)
    requires Unique(d)
    ensures Unique(Spread(d, e))
    decreases |e|
  {
    if e != [] {
      PutKeepsUnique(d, e[0].0, e[0].1);
      SpreadKeepsUnique(Put(d, e[0].0, e[0].1), e[1..]);
    }
  }
}
