/** The per-bucket statistics that bucket expansion computes while it relinks
    elements: `expand_mult` and `nonideal_items`. */
module ChainStats {

  const CAPACITY := 10 // HASH_BKT_CAPACITY_THRESH

  /** `expand_mult` of a new bucket after its `count`-th element arrives,
      if it was `mult` before and the ideal chain length is `ideal`. */
  function NextMult(count: nat, mult: nat, ideal: nat): nat {
    if count > ideal && count > mult * ideal then mult + 1 else mult
  }

  /** `expand_mult` of a new bucket that received `count` elements. */
  function MultOf(count: nat, ideal: nat): nat {
    if count == 0 then 0 else NextMult(count, MultOf(count - 1, ideal), ideal)
  }

  /** The header's claim about `expand_mult`, as an inductive bound. */
  lemma {:induction false} MultBounds(count: nat, ideal: nat)
    requires ideal >= 1
    ensures MultOf(count, ideal) == 0 <==> count <= ideal
    ensures count > ideal ==> (MultOf(count, ideal) - 1) * ideal < count
    ensures count <= (MultOf(count, ideal) + 1) * ideal
  {
    if count > 0 {
      MultBounds(count - 1, ideal);
      var m := MultOf(count - 1, ideal);
      Products(m, ideal);
      if count > ideal && count > m * ideal {
        assert MultOf(count, ideal) == m + 1;
      } else {
        assert MultOf(count, ideal) == m;
      }
    }
  }

  lemma Products(m: nat, ideal: nat)
    ensures (m + 1) * ideal == m * ideal + ideal
    ensures (m + 2) * ideal == m * ideal + ideal + ideal
    ensures (m - 1) * ideal == m * ideal - ideal
    ensures m > 0 ==> m * ideal >= ideal
  {
  }

  /** The exact value: ceil(count / ideal), except for a chain one over the
      ideal length and for an ideal length of one. */
  lemma {:induction false} MultExact(count: nat, ideal: nat)
    requires ideal >= 1 && count > ideal
    ensures var m := MultOf(count, ideal);
            if ideal == 1 then m == count - 1
            else if count == ideal + 1 then m == 1
            else (m - 1) * ideal < count <= m * ideal
    decreases count
  {
    MultBounds(count - 1, ideal);
    var m := MultOf(count - 1, ideal);
    Products(m, ideal);
    if count > ideal + 1 {
      MultExact(count - 1, ideal);
      if ideal >= 2 && count - 1 == ideal + 1 {
        assert m * ideal == ideal;
      }
    }
  }

  function SumLens<T>(cs: seq<seq<T>>): nat {
    if cs == [] then 0 else |cs[0]| + SumLens(cs[1..])
  }

  /** The number of elements beyond the first `ideal` of their chain. */
  function SumExcess<T>(cs: seq<seq<T>>, ideal: nat): nat {
    if cs == [] then 0
    else (if |cs[0]| > ideal then |cs[0]| - ideal else 0) + SumExcess(cs[1..], ideal)
  }

  lemma {:induction false} SumLensUpdate<T>(cs: seq<seq<T>>, b: nat, c: seq<T>)
    requires b < |cs|
    ensures SumLens(cs[b := c]) == SumLens(cs) - |cs[b]| + |c|
  {
    if b == 0 {
      assert cs[b := c][1..] == cs[1..];
    } else {
      assert cs[b := c][1..] == cs[1..][b - 1 := c];
      SumLensUpdate(cs[1..], b - 1, c);
    }
  }

  lemma {:induction false} SumExcessPush<T>(cs: seq<seq<T>>, b: nat, x: T, ideal: nat)
    requires b < |cs|
    ensures SumExcess(cs[b := [x] + cs[b]], ideal) ==
            SumExcess(cs, ideal) + if |cs[b]| + 1 > ideal then 1 else 0
  {
    if b == 0 {
      assert cs[b := [x] + cs[b]][1..] == cs[1..];
    } else {
      assert cs[b := [x] + cs[b]][1..] == cs[1..][b - 1 := [x] + cs[1..][b - 1]];
      SumExcessPush(cs[1..], b - 1, x, ideal);
    }
  }

  lemma {:induction false} SumLensConcat<T>(a: seq<seq<T>>, b: seq<seq<T>>)
    ensures SumLens(a + b) == SumLens(a) + SumLens(b)
  {
    if a == [] {
      assert a + b == b;
    } else {
      assert (a + b)[1..] == a[1..] + b;
      SumLensConcat(a[1..], b);
    }
  }

  /** What the excess is: chain by chain, the elements beyond the ideal length. */
  lemma {:induction false} SumExcessConcat<T>(a: seq<seq<T>>, b: seq<seq<T>>, ideal: nat)
    ensures SumExcess(a + b, ideal) == SumExcess(a, ideal) + SumExcess(b, ideal)
  {
    if a == [] {
      assert a + b == b;
    } else {
      assert (a + b)[1..] == a[1..] + b;
      SumExcessConcat(a[1..], b, ideal);
    }
  }

  lemma SumExcessOne<T>(within: seq<T>, beyond: seq<T>)
    ensures SumExcess([within + beyond], |within|) == |beyond|
    ensures beyond != [] ==> SumExcess([within], |within| + |beyond|) == 0
  {
    assert [within + beyond][1..] == [] && [within][1..] == [];
  }

  lemma {:induction false} SumsOfEmpty<T>(cs: seq<seq<T>>, ideal: nat)
    requires forall i :: 0 <= i < |cs| ==> cs[i] == []
    ensures SumLens(cs) == 0 && SumExcess(cs, ideal) == 0
  {
    if cs != [] { SumsOfEmpty(cs[1..], ideal); }
  }
}
