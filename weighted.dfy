/** `weightedCall`: lay the weights of a setup out as consecutive integer ranges, fill a map
    from every index of those ranges to the owning profile's action, and pick the entry at
    one random index in `[0, n)`, where `n` is the sum of the weights. */
module Weighted {

  /** One entry of a weighted setup (Go's `probabilityProfile`). */
  datatype Profile<A> = Profile(prob: int, action: A)

  /** The outcome of `weightedCall`: nil when the map stayed empty, a run-time panic when
      `rand.Intn` is asked for a draw below a non-positive bound, or the chosen action. */
  datatype Pick<A> = NoAction | Panic | Picked(action: A)

  /** The running offset `n` after the outer loop has visited the first `m` profiles: the
      sum of their weights, negative ones included. */
  function Offset<A>(setup: seq<Profile<A>>, m: nat): int
    requires m <= |setup|
  {
    if m == 0 then 0 else Offset(setup, m - 1) + setup[m - 1].prob
  }

  /** The final offset `n`: the sum of all weights. */
  function Total<A>(setup: seq<Profile<A>>): int
  {
    Offset(setup, |setup|)
  }

  /** `k` lies in the range of length `len` that starts at `lo`. */
  predicate InRange(k: int, lo: int, len: int)
  {
    lo <= k < lo + len
  }

  /** The map entries the inner loop writes for one profile when the running offset is `lo`.
      The explicit bounds make the map finite; `InRange` gives the quantifier a trigger. */
  function Span<A>(lo: int, len: int, a: A): map<int, A>
  {
    map k | lo <= k < lo + len && InRange(k, lo, len) :: a
  }

  /** The map `choices` after the outer loop has visited the first `m` profiles; a later
      profile overwrites the entries an earlier one wrote at the same index. */
  function ChoicesAfter<A>(setup: seq<Profile<A>>, m: nat): map<int, A>
    requires m <= |setup|
  {
    if m == 0 then map[]
    else ChoicesAfter(setup, m - 1) + Span(Offset(setup, m - 1), setup[m - 1].prob, setup[m - 1].action)
  }

  /** The map `choices` once every profile has been visited. */
  function Choices<A>(setup: seq<Profile<A>>): map<int, A>
  {
    ChoicesAfter(setup, |setup|)
  }

  /** Profile `j` writes index `k`: its range starts where the weights before it end and is
      `prob` long. */
  ghost predicate Covers<A>(setup: seq<Profile<A>>, j: int, k: int)
    requires 0 <= j < |setup|
  {
    Offset(setup, j) <= k < Offset(setup, j) + setup[j].prob
  }

  /** The last of the first `m` profiles whose range covers `k`, or -1 when none does. */
  ghost function LastCoverBelow<A>(setup: seq<Profile<A>>, m: nat, k: int): (j: int)
    requires m <= |setup|
    ensures -1 <= j < m
  {
    if m == 0 then -1
    else if Covers(setup, m - 1, k) then m - 1
    else LastCoverBelow(setup, m - 1, k)
  }

  /** The last profile whose range covers `k`, or -1 when none does. */
  ghost function LastCover<A>(setup: seq<Profile<A>>, k: int): (j: int)
    ensures -1 <= j < |setup|
  {
    LastCoverBelow(setup, |setup|, k)
  }

  /** `a` is the action of the last profile whose range covers `k`: the entry the map ends
      up with at `k`. */
  ghost predicate LastOwner<A>(setup: seq<Profile<A>>, k: int, a: A)
  {
    var j := LastCover(setup, k);
    0 <= j && Covers(setup, j, k) && setup[j].action == a
  }

  /** `a` is the action of every profile whose range covers `k`. */
  ghost predicate OwnedBy<A>(setup: seq<Profile<A>>, k: int, a: A)
  {
    forall j :: 0 <= j < |setup| && Covers(setup, j, k) ==> setup[j].action == a
  }

  /** No weight is positive, so no index gets written. */
  ghost predicate NoPositiveWeight<A>(setup: seq<Profile<A>>)
  {
    forall j :: 0 <= j < |setup| ==> setup[j].prob <= 0
  }

  /** No weight is negative (every setup `sendCall` builds is of this kind). */
  ghost predicate NonNegative<A>(setup: seq<Profile<A>>)
  {
    forall j :: 0 <= j < |setup| ==> setup[j].prob >= 0
  }

  /** `LastCoverBelow` is what its name says: it covers `k` and no later one of the first
      `m` profiles does, and -1 means that none of them covers `k`. */
  lemma {:induction false} LastCoverIsLast<A>(setup: seq<Profile<A>>, m: nat, k: int)
    requires m <= |setup|
    ensures LastCoverBelow(setup, m, k) >= 0 ==> Covers(setup, LastCoverBelow(setup, m, k), k)
    ensures forall i :: LastCoverBelow(setup, m, k) < i < m ==> !Covers(setup, i, k)
    decreases m
  {
    if m > 0 && !Covers(setup, m - 1, k) {
      LastCoverIsLast(setup, m - 1, k);
    }
  }

  /** An index is in the map after `m` profiles exactly when one of them covers it, and its
      entry is the action of the last one that does. */
  lemma {:induction false} ChoicesAt<A>(setup: seq<Profile<A>>, m: nat, k: int)
    requires m <= |setup|
    ensures k in ChoicesAfter(setup, m) <==> LastCoverBelow(setup, m, k) >= 0
    ensures k in ChoicesAfter(setup, m) ==> ChoicesAfter(setup, m)[k] == setup[LastCoverBelow(setup, m, k)].action
    decreases m
  {
    if m > 0 {
      var p := setup[m - 1];
      var span := Span(Offset(setup, m - 1), p.prob, p.action);
      assert k in span <==> Covers(setup, m - 1, k);
      if !Covers(setup, m - 1, k) {
        ChoicesAt(setup, m - 1, k);
      }
    }
  }

  /** When the offset is positive every index a draw can produce, `0 <= k < n`, was
      filled, whatever the signs of the individual weights. */
  lemma {:induction false} ChoicesNoGaps<A>(setup: seq<Profile<A>>, m: nat, k: int)
    requires m <= |setup|
    requires 0 <= k < Offset(setup, m)
    ensures k in ChoicesAfter(setup, m)
    decreases m
  {
    var p := setup[m - 1];
    if k < Offset(setup, m - 1) {
      ChoicesNoGaps(setup, m - 1, k);
    } else {
      assert k in Span(Offset(setup, m - 1), p.prob, p.action);
    }
  }

  /** With no positive weight the total is not positive either. */
  lemma {:induction false} OffsetNotPositive<A>(setup: seq<Profile<A>>, m: nat)
    requires m <= |setup|
    requires NoPositiveWeight(setup)
    ensures Offset(setup, m) <= 0
    decreases m
  {
    if m > 0 {
      OffsetNotPositive(setup, m - 1);
    }
  }

  /** A profile with a positive weight writes at least the first index of its range. */
  lemma PositiveWeightFills<A>(setup: seq<Profile<A>>, j: int)
    requires 0 <= j < |setup| && setup[j].prob > 0
    ensures Offset(setup, j) in Choices(setup)
  {
    var k := Offset(setup, j);
    assert Covers(setup, j, k);
    LastCoverIsLast(setup, |setup|, k);
    ChoicesAt(setup, |setup|, k);
  }

  /** An index in the map lies in the range of a profile with a positive weight. */
  lemma FilledByPositiveWeight<A>(setup: seq<Profile<A>>, k: int)
    requires k in Choices(setup)
    ensures 0 <= LastCover(setup, k) && setup[LastCover(setup, k)].prob > 0
  {
    ChoicesAt(setup, |setup|, k);
    LastCoverIsLast(setup, |setup|, k);
  }

  /** The map stays empty exactly when no weight is positive. */
  lemma ChoicesEmpty<A>(setup: seq<Profile<A>>)
    ensures Choices(setup) == map[] <==> NoPositiveWeight(setup)
  {
    if Choices(setup) == map[] {
      forall j | 0 <= j < |setup|
        ensures setup[j].prob <= 0
      {
        if setup[j].prob > 0 {
          PositiveWeightFills(setup, j);
        }
      }
    } else {
      assert exists k :: k in Choices(setup);
      var k :| k in Choices(setup);
      FilledByPositiveWeight(setup, k);
    }
  }

  /** With no negative weight the ranges follow the list order: profile `i`'s range ends
      where the weights before `j` end, for every later `j`. */
  lemma {:induction false} RangesInOrder<A>(setup: seq<Profile<A>>, i: int, j: int)
    requires NonNegative(setup)
    requires 0 <= i < j <= |setup|
    ensures Offset(setup, i) + setup[i].prob <= Offset(setup, j)
    decreases j
  {
    if j > i + 1 {
      RangesInOrder(setup, i, j - 1);
    }
  }

  /** With no negative weight no two profiles cover the same index. */
  lemma RangesDisjoint<A>(setup: seq<Profile<A>>, i: int, j: int, k: int)
    requires NonNegative(setup)
    requires 0 <= i < |setup| && 0 <= j < |setup|
    requires Covers(setup, i, k) && Covers(setup, j, k)
    ensures i == j
  {
    if i < j {
      RangesInOrder(setup, i, j);
    } else if j < i {
      RangesInOrder(setup, j, i);
    }
  }

  /** With no negative weight the ranges partition `[0, n)`: every index below the total is
      in the map, and profile `j` covers it exactly when `j` is its owner, whose action is
      the entry. */
  lemma Partition<A>(setup: seq<Profile<A>>, k: int, j: int)
    requires NonNegative(setup)
    requires 0 <= k < Total(setup)
    requires 0 <= j < |setup|
    ensures k in Choices(setup)
    ensures Covers(setup, j, k) <==> LastCover(setup, k) == j
    ensures Covers(setup, j, k) ==> Choices(setup)[k] == setup[j].action
  {
    ChoicesNoGaps(setup, |setup|, k);
    ChoicesAt(setup, |setup|, k);
    LastCoverIsLast(setup, |setup|, k);
    if Covers(setup, j, k) {
      RangesDisjoint(setup, j, LastCover(setup, k), k);
    }
  }

  /** One more iteration of the inner loop writes the next index of the range. */
  lemma SpanGrows<A>(m: map<int, A>, lo: int, i: int, a: A)
    requires i >= 0
    ensures (m + Span(lo, i, a))[lo + i := a] == m + Span(lo, i + 1, a)
  {
  }

  /** When the inner loop stops, it has written the whole range (nothing for a weight that
      is not positive). */
  lemma SpanComplete<A>(lo: int, i: int, len: int, a: A)
    requires 0 <= i && (i <= len || i == 0) && !(i < len)
    ensures Span(lo, i, a) == Span(lo, len, a)
  {
  }

  /** Everything the draw at the end of `weightedCall` depends on: when the map is empty,
      and what a draw in range finds in it. */
  lemma DrawOutcome<A>(setup: seq<Profile<A>>, r: int)
    requires Total(setup) > 0 ==> 0 <= r < Total(setup)
    ensures |Choices(setup)| == 0 <==> NoPositiveWeight(setup)
    ensures |Choices(setup)| == 0 ==> Total(setup) <= 0
    ensures Total(setup) > 0 ==> r in Choices(setup) && LastOwner(setup, r, Choices(setup)[r])
    ensures Total(setup) > 0 && NonNegative(setup) ==> OwnedBy(setup, r, Choices(setup)[r])
  {
    ChoicesEmpty(setup);
    assert |Choices(setup)| == 0 <==> Choices(setup) == map[];
    if |Choices(setup)| == 0 {
      OffsetNotPositive(setup, |setup|);
    }
    if Total(setup) > 0 {
      ChoicesNoGaps(setup, |setup|, r);
      ChoicesAt(setup, |setup|, r);
      LastCoverIsLast(setup, |setup|, r);
      if NonNegative(setup) {
        forall j | 0 <= j < |setup| && Covers(setup, j, r)
          ensures setup[j].action == Choices(setup)[r]
        {
          Partition(setup, r, j);
        }
      }
    }
  }

  /** `weightedCall(setup)` with the draw `rand.Intn(n)` supplied as `r`. */
  method WeightedCall<A>(setup: seq<Profile<A>>, r: int) returns (pick: Pick<A>)
    requires Total(setup) > 0 ==> 0 <= r < Total(setup)
    ensures pick.NoAction? <==> NoPositiveWeight(setup)
    ensures pick.Panic? <==> !NoPositiveWeight(setup) && Total(setup) <= 0
    ensures pick.Picked? ==> LastOwner(setup, r, pick.action)
    ensures NonNegative(setup) && Total(setup) > 0 ==> pick.Picked? && OwnedBy(setup, r, pick.action)
  {
    var choices: map<int, A> := map[];
    var n := 0;
    for idx := 0 to |setup|
      invariant n == Offset(setup, idx)
      invariant choices == ChoicesAfter(setup, idx)
    {
      var pp := setup[idx];
      var i := 0;
      while i < pp.prob
        invariant 0 <= i && (i <= pp.prob || i == 0)
        invariant choices == ChoicesAfter(setup, idx) + Span(n, i, pp.action)
      {
        SpanGrows(ChoicesAfter(setup, idx), n, i, pp.action);
        choices := choices[n + i := pp.action];
        i := i + 1;
      }
      SpanComplete(n, i, pp.prob, pp.action);
      n := n + pp.prob;
    }
    DrawOutcome(setup, r);
    if |choices| == 0 {
      return NoAction;
    }
    if n <= 0 {
      return Panic;
    }
    pick := Picked(choices[r]);
  }
}
