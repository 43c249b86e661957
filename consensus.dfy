/**
 * Stake-weighted choice of the next block's proposer (blockchain/consensus.go).
 *
 * The registry is a Go map, and `range` visits its entries in an order the
 * program does not control; every statement here holds for each such order,
 * which is passed in as `order`. The random draw `rand.Intn(totalStake)` is
 * passed in as `r`.
 */
module Consensus {
  import opened Bytes

  /** `POSValidaor`: a validator known by its public key, with its stake. */
  datatype POSValidator = POSValidator(publicKey: Bytes, stake: int)

  /** The two panics in `ProofOfStake`. */
  datatype Panic =
    | IntnInvalidArgument  // `rand.Intn` with an argument that is not positive
    | NoValidatorFound     // "Unable to find a validator"

  datatype Selection = Chosen(publicKey: Bytes) | Panicked(reason: Panic)

  predicate KeysIn(validators: map<string, POSValidator>, order: seq<string>)
  {
    forall i :: 0 <= i < |order| ==> order[i] in validators
  }

  predicate Distinct(order: seq<string>)
  {
    forall i, j :: 0 <= i < j < |order| ==> order[i] != order[j]
  }

  /** An order in which `range` may visit the map: every key exactly once. */
  predicate IsRangeOrder(validators: map<string, POSValidator>, order: seq<string>)
  {
    KeysIn(validators, order) && Distinct(order) && forall k :: k in validators ==> k in order
  }

  /** The validators, in visiting order. */
  function Visit(validators: map<string, POSValidator>, order: seq<string>): seq<POSValidator>
    requires KeysIn(validators, order)
  {
    seq(|order|, i requires 0 <= i < |order| => validators[order[i]])
  }

  function Sum(vs: seq<POSValidator>): int
  {
    if vs == [] then 0 else Sum(vs[..|vs| - 1]) + vs[|vs| - 1].stake
  }

  /** The running stake total after the first `k` validators. */
  function Prefix(vs: seq<POSValidator>, k: nat): int
    requires k <= |vs|
  {
    Sum(vs[..k])
  }

  /** `totalStake` after the first loop. */
  function Total(validators: map<string, POSValidator>, order: seq<string>): int
    requires KeysIn(validators, order)
  {
    Sum(Visit(validators, order))
  }

  lemma PrefixStep(vs: seq<POSValidator>, k: nat)
    requires k < |vs|
    ensures Prefix(vs, k + 1) == Prefix(vs, k) + vs[k].stake
  {
    assert vs[..k + 1][..k] == vs[..k];
  }

  /**
   * With the test `random <= 0`: validator `i` is the first whose running
   * stake total reaches `r`.
   */
  predicate IsWinner(vs: seq<POSValidator>, r: int, i: int)
  {
    && 0 <= i < |vs|
    && r <= Prefix(vs, i + 1)
    && forall k :: 0 < k <= i ==> Prefix(vs, k) < r
  }

  /**
   * `ProofOfStake`. It panics in `rand.Intn` exactly when the total stake is
   * not positive; otherwise it returns the public key of the winner of draw
   * `r`, and never reaches its final panic. The map is only read.
   */
  method ProofOfStake(validators: map<string, POSValidator>, order: seq<string>, r: int)
    returns (selection: Selection)
    requires IsRangeOrder(validators, order)
    requires Total(validators, order) > 0 ==> 0 <= r < Total(validators, order)
    ensures selection == Panicked(IntnInvalidArgument) <==> Total(validators, order) <= 0
    ensures selection != Panicked(NoValidatorFound)
    ensures selection.Chosen? ==>
              exists i :: IsWinner(Visit(validators, order), r, i)
                          && selection.publicKey == validators[order[i]].publicKey
    ensures selection.Chosen? ==>
              exists k :: k in validators && selection.publicKey == validators[k].publicKey
  {
    ghost var vs := Visit(validators, order);
    var totalStake := 0;
    var i := 0;
    while i < |order|
      invariant 0 <= i <= |order|
      invariant totalStake == Prefix(vs, i)
    {
      PrefixStep(vs, i);
      totalStake := totalStake + validators[order[i]].stake;
      i := i + 1;
    }
    assert vs[..i] == vs;
    if totalStake <= 0 {
      return Panicked(IntnInvalidArgument);
    }
    var random := r;
    i := 0;
    while i < |order|
      invariant 0 <= i <= |order|
      invariant random == r - Prefix(vs, i)
      invariant forall k :: 0 < k <= i ==> Prefix(vs, k) < r
    {
      PrefixStep(vs, i);
      var validator := validators[order[i]];
      random := random - validator.stake;
      if random <= 0 {
        assert IsWinner(vs, r, i);
        return Chosen(validator.publicKey);
      }
      i := i + 1;
    }
    assert false;
    selection := Panicked(NoValidatorFound);
  }

  /**
   * `ProofOfStake` with the test `random < 0`: each validator wins exactly as
   * many draws as it has stake (see FairDrawCount).
   */
  method ProofOfStakeFair(validators: map<string, POSValidator>, order: seq<string>, r: int)
    returns (selection: Selection)
    requires IsRangeOrder(validators, order)
    requires Total(validators, order) > 0 ==> 0 <= r < Total(validators, order)
    ensures selection == Panicked(IntnInvalidArgument) <==> Total(validators, order) <= 0
    ensures selection != Panicked(NoValidatorFound)
    ensures selection.Chosen? ==>
              exists i :: IsFairWinner(Visit(validators, order), r, i)
                          && selection.publicKey == validators[order[i]].publicKey
  {
    ghost var vs := Visit(validators, order);
    var totalStake := 0;
    var i := 0;
    while i < |order|
      invariant 0 <= i <= |order|
      invariant totalStake == Prefix(vs, i)
    {
      PrefixStep(vs, i);
      totalStake := totalStake + validators[order[i]].stake;
      i := i + 1;
    }
    assert vs[..i] == vs;
    if totalStake <= 0 {
      return Panicked(IntnInvalidArgument);
    }
    var random := r;
    i := 0;
    while i < |order|
      invariant 0 <= i <= |order|
      invariant random == r - Prefix(vs, i)
      invariant forall k :: 0 < k <= i ==> Prefix(vs, k) <= r
    {
      PrefixStep(vs, i);
      var validator := validators[order[i]];
      random := random - validator.stake;
      if random < 0 {
        assert IsFairWinner(vs, r, i);
        return Chosen(validator.publicKey);
      }
      i := i + 1;
    }
    assert false;
    selection := Panicked(NoValidatorFound);
  }

  /** With the test `random < 0`: validator `i` is the first whose running total exceeds `r`. */
  predicate IsFairWinner(vs: seq<POSValidator>, r: int, i: int)
  {
    && 0 <= i < |vs|
    && r < Prefix(vs, i + 1)
    && forall k :: 0 < k <= i ==> Prefix(vs, k) <= r
  }

  predicate NonNegative(vs: seq<POSValidator>)
  {
    forall i :: 0 <= i < |vs| ==> vs[i].stake >= 0
  }

  lemma {:induction false} PrefixMonotone(vs: seq<POSValidator>, j: nat, k: nat)
    requires NonNegative(vs) && j <= k <= |vs|
    ensures Prefix(vs, j) <= Prefix(vs, k)
    decreases k - j
  {
    if j < k {
      PrefixStep(vs, k - 1);
      PrefixMonotone(vs, j, k - 1);
    }
  }

  function Min(a: int, b: int): int
  {
    if a <= b then a else b
  }

  /** Every draw below `Cut(vs, k)`, and no other, selects one of the first `k` validators. */
  function Cut(vs: seq<POSValidator>, k: nat): int
    requires k <= |vs|
  {
    if k == 0 then 0 else Min(Prefix(vs, k), Prefix(vs, |vs|) - 1) + 1
  }

  /** The draws in `[0, total)` that select validator `i`. */
  function Draws(vs: seq<POSValidator>, i: int): set<int>
  {
    set r | 0 <= r < Prefix(vs, |vs|) && IsWinner(vs, r, i)
  }

  function FairDraws(vs: seq<POSValidator>, i: int): set<int>
  {
    set r | 0 <= r < Prefix(vs, |vs|) && IsFairWinner(vs, r, i)
  }

  /** With non-negative stakes, the draws selecting validator `i` form one interval. */
  lemma WinnerInterval(vs: seq<POSValidator>, r: int, i: int)
    requires NonNegative(vs) && 0 <= r < Prefix(vs, |vs|) && 0 <= i < |vs|
    ensures IsWinner(vs, r, i) <==> Cut(vs, i) <= r < Cut(vs, i + 1)
  {
    forall k | 0 < k <= i
      ensures Prefix(vs, k) <= Prefix(vs, i)
    {
      PrefixMonotone(vs, k, i);
    }
  }

  /** The integers `lo <= r < hi`. */
  function Interval(lo: int, hi: int): (s: set<int>)
    ensures forall r :: r in s <==> lo <= r < hi
    ensures lo <= hi ==> |s| == hi - lo
    decreases hi - lo
  {
    if hi <= lo then {} else Interval(lo, hi - 1) + {hi - 1}
  }

  /** With non-negative stakes, validator `i` is selected by `Cut(vs, i + 1) - Cut(vs, i)` draws. */
  lemma DrawCount(vs: seq<POSValidator>, i: int)
    requires NonNegative(vs) && Prefix(vs, |vs|) > 0 && 0 <= i < |vs|
    ensures |Draws(vs, i)| == Cut(vs, i + 1) - Cut(vs, i)
  {
    PrefixMonotone(vs, 0, i);
    PrefixMonotone(vs, i, i + 1);
    forall r | 0 <= r < Prefix(vs, |vs|)
      ensures IsWinner(vs, r, i) <==> Cut(vs, i) <= r < Cut(vs, i + 1)
    {
      WinnerInterval(vs, r, i);
    }
    assert Draws(vs, i) == Interval(Cut(vs, i), Cut(vs, i + 1));
  }

  /**
   * With positive stakes, the test `random <= 0` gives the first validator
   * one draw more than its stake and the last one draw fewer; the others
   * get exactly their stake.
   */
  lemma DrawCountPositive(vs: seq<POSValidator>, i: int)
    requires forall j :: 0 <= j < |vs| ==> vs[j].stake > 0
    requires 0 <= i < |vs|
    ensures |Draws(vs, i)|
         == vs[i].stake + (if i == 0 then 1 else 0) - (if i == |vs| - 1 then 1 else 0)
  {
    var n := |vs|;
    PrefixStep(vs, i);
    PrefixStep(vs, n - 1);
    if i < n - 1 {
      PrefixMonotone(vs, i + 1, n - 1);
    }
    PrefixMonotone(vs, i, n - 1);
    PrefixMonotone(vs, 0, i);
    DrawCount(vs, i);
  }

  /** With `random < 0` and non-negative stakes, validator `i` wins exactly `stake` draws. */
  lemma FairDrawCount(vs: seq<POSValidator>, i: int)
    requires NonNegative(vs) && 0 <= i < |vs|
    ensures |FairDraws(vs, i)| == vs[i].stake
  {
    PrefixStep(vs, i);
    PrefixMonotone(vs, 0, i);
    PrefixMonotone(vs, i + 1, |vs|);
    forall r | 0 <= r < Prefix(vs, |vs|)
      ensures IsFairWinner(vs, r, i) <==> Prefix(vs, i) <= r < Prefix(vs, i + 1)
    {
      forall k | 0 < k <= i
        ensures Prefix(vs, k) <= Prefix(vs, i)
      {
        PrefixMonotone(vs, k, i);
      }
    }
    assert FairDraws(vs, i) == Interval(Prefix(vs, i), Prefix(vs, i + 1));
  }

  /**
   * Two validators with one unit of stake each: as written, every draw
   * selects the first one and the second is never chosen; with `random < 0`
   * each wins one of the two draws.
   */
  lemma EqualStakesNeverChooseSecond(a: Bytes, b: Bytes)
    ensures Draws([POSValidator(a, 1), POSValidator(b, 1)], 1) == {}
    ensures |FairDraws([POSValidator(a, 1), POSValidator(b, 1)], 1)| == 1
  {
    DrawCountPositive([POSValidator(a, 1), POSValidator(b, 1)], 1);
    FairDrawCount([POSValidator(a, 1), POSValidator(b, 1)], 1);
  }

  lemma {:induction false} SumConcat(a: seq<POSValidator>, b: seq<POSValidator>)
    ensures Sum(a + b) == Sum(a) + Sum(b)
    decreases |b|
  {
    if b == [] {
      assert a + b == a;
    } else {
      SumConcat(a, b[..|b| - 1]);
      assert (a + b)[..|a + b| - 1] == a + b[..|b| - 1];
    }
  }

  /** Dropping position `j` from a list of distinct keys drops exactly the key there. */
  lemma RemoveAt(o: seq<string>, j: int)
    requires Distinct(o) && 0 <= j < |o|
    ensures Distinct(o[..j] + o[j + 1..])
    ensures forall k :: k in o[..j] + o[j + 1..] <==> k in o && k != o[j]
  {
    var o' := o[..j] + o[j + 1..];
    forall m | 0 <= m < |o'|
      ensures o'[m] == o[if m < j then m else m + 1]
    {
    }
    forall k | k in o && k != o[j]
      ensures k in o'
    {
      var m :| 0 <= m < |o| && o[m] == k;
      assert o'[if m < j then m else m - 1] == k;
    }
  }

  lemma VisitConcat(validators: map<string, POSValidator>, a: seq<string>, b: seq<string>)
    requires KeysIn(validators, a) && KeysIn(validators, b)
    ensures KeysIn(validators, a + b)
    ensures Visit(validators, a + b) == Visit(validators, a) + Visit(validators, b)
  {
  }

  /** Any two visiting orders of the same keys give the same stake total. */
  lemma {:induction false} SumIndependentOfOrder(validators: map<string, POSValidator>,
                                                 o1: seq<string>, o2: seq<string>)
    requires KeysIn(validators, o1) && KeysIn(validators, o2)
    requires Distinct(o1) && Distinct(o2)
    requires forall k :: k in o1 <==> k in o2
    ensures Sum(Visit(validators, o1)) == Sum(Visit(validators, o2))
    decreases |o1|
  {
    if o1 == [] {
      // o1 holds no key, and every key of o2 is one of o1's, so o2 is empty
      assert forall m :: 0 <= m < |o2| ==> o2[m] in o1;
    } else {
      var n := |o1|;
      var key := o1[n - 1];
      assert key in o2;
      var j :| 0 <= j < |o2| && o2[j] == key;
      var left, right := o2[..j], o2[j + 1..];
      RemoveAt(o1, n - 1);
      RemoveAt(o2, j);
      assert o1[..n - 1] + o1[n..] == o1[..n - 1];
      forall k
        ensures k in o1[..n - 1] <==> k in left + right
      {
        assert k in o1[..n - 1] <==> k in o1 && k != key;
        assert k in left + right <==> k in o2 && k != key;
      }
      SumIndependentOfOrder(validators, o1[..n - 1], left + right);
      assert o1 == o1[..n - 1] + [key];
      assert o2 == left + [key] + right;
      VisitConcat(validators, o1[..n - 1], [key]);
      VisitConcat(validators, left, [key]);
      VisitConcat(validators, left + [key], right);
      VisitConcat(validators, left, right);
      var v := Visit(validators, [key]);
      SumConcat(Visit(validators, o1[..n - 1]), v);
      SumConcat(Visit(validators, left), v);
      SumConcat(Visit(validators, left) + v, Visit(validators, right));
      SumConcat(Visit(validators, left), Visit(validators, right));
    }
  }

  /**
   * `totalStake`, and with it whether `rand.Intn` panics and which draws are
   * allowed, does not depend on the order in which `range` visits the map.
   */
  lemma TotalStakeIndependentOfOrder(validators: map<string, POSValidator>, o1: seq<string>, o2: seq<string>)
    requires IsRangeOrder(validators, o1) && IsRangeOrder(validators, o2)
    ensures Total(validators, o1) == Total(validators, o2)
  {
    SumIndependentOfOrder(validators, o1, o2);
  }
}
