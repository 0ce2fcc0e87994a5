/** Unbiased weighted selection by rejection (template_pool.rs). */
module WeightedChoice {
  import opened Wrappers

  const U128_MAX: nat := 0xffff_ffff_ffff_ffff_ffff_ffff_ffff_ffff

  /** Sum of the first n weights. */
  function Offset(weights: seq<nat>, n: nat): nat
    requires n <= |weights|
  {
    if n == 0 then 0 else Offset(weights, n - 1) + weights[n - 1]
  }

  function Total(weights: seq<nat>): nat {
    Offset(weights, |weights|)
  }

  lemma {:induction false} OffsetGrows(weights: seq<nat>, m: nat, n: nat)
    requires m <= n <= |weights|
    ensures Offset(weights, m) <= Offset(weights, n)
    decreases n - m
  {
    if m < n {
      OffsetGrows(weights, m, n - 1);
    }
  }

  /** Entropy from here on is rejected: the last whole multiple of the total. */
  function Limit(total: nat): nat
    requires total > 0
  {
    U128_MAX - U128_MAX % total
  }

  /** Member i owns the draws of its interval. */
  predicate Owns(weights: seq<nat>, i: nat, draw: nat) {
    i < |weights| && Offset(weights, i) <= draw < Offset(weights, i + 1)
  }

  predicate Accepted(weights: seq<nat>, entropy: nat) {
    Total(weights) > 0 && entropy < Limit(Total(weights))
  }

  predicate Selects(weights: seq<nat>, entropy: nat, i: nat) {
    Accepted(weights, entropy) && Owns(weights, i, entropy % Total(weights))
  }

  lemma OwnerIsUnique(weights: seq<nat>, i: nat, j: nat, draw: nat)
    requires Owns(weights, i, draw) && Owns(weights, j, draw)
    ensures i == j
  {
    if i < j {
      OffsetGrows(weights, i + 1, j);
    } else if j < i {
      OffsetGrows(weights, j + 1, i);
    }
  }

  /** Every accepted value selects exactly one member, with positive weight;
      a rejected one selects none. */
  method WeightedMemberIndex(weights: seq<nat>, entropy: nat) returns (index: Option<nat>)
    requires Total(weights) <= U128_MAX
    ensures index.Some? <==> Accepted(weights, entropy)
    ensures index.Some? ==> index.value < |weights| && weights[index.value] > 0 && Selects(weights, entropy, index.value)
    ensures forall i: nat :: Selects(weights, entropy, i) ==> index == Some(i)
  {
    var total := Total(weights);
    if total == 0 || entropy >= U128_MAX - U128_MAX % total {
      return None;
    }
    var draw := entropy % total;
    var offset := 0;
    for i := 0 to |weights|
      invariant offset == Offset(weights, i) <= draw
    {
      offset := offset + weights[i];
      if draw < offset {
        forall j: nat | Selects(weights, entropy, j) ensures j == i {
          OwnerIsUnique(weights, i, j, draw);
        }
        return Some(i);
      }
    }
    return None;
  }

  /** How many of the first n entropy values select member i. */
  ghost function Hits(weights: seq<nat>, i: nat, n: nat): nat {
    if n == 0 then 0 else Hits(weights, i, n - 1) + if Selects(weights, n - 1, i) then 1 else 0
  }

  /** How many of the first r draws member i owns. */
  function Share(weights: seq<nat>, i: nat, r: nat): nat
    requires i < |weights|
  {
    var lo, hi := Offset(weights, i), Offset(weights, i + 1);
    if r <= lo then 0 else if r <= hi then r - lo else hi - lo
  }

  lemma RemainderOf(k: nat, total: nat, r: nat)
    requires r < total
    ensures (k * total + r) % total == r
  {
    assert (k * total + r) / total == k && (k * total + r) % total == r by {
      QuotientUnique(k * total + r, total, k, r);
    }
  }

  lemma QuotientUnique(n: nat, d: nat, q: nat, r: nat)
    requires d > 0 && r < d && n == q * d + r
    ensures n / d == q && n % d == r
  {
    var q', r' := n / d, n % d;
    assert n == q' * d + r';
    assert (q - q') * d == q * d - q' * d;
    MultipleIsFar(q - q', d);
  }

  lemma MultipleIsFar(x: int, d: int)
    requires d > 0
    ensures x == 0 || x * d >= d || x * d <= -d
  {
    if x >= 1 {
      assert x * d == (x - 1) * d + d && (x - 1) * d >= 0;
    } else if x <= -1 {
      assert x * d == (x + 1) * d - d && (x + 1) * d <= 0;
    }
  }

  /** After k whole rounds and r further draws, member i was selected in each
      round as often as its weight says. */
  lemma {:induction false} HitsAreProportional(weights: seq<nat>, i: nat, k: nat, r: nat)
    requires i < |weights| && Total(weights) > 0 && r <= Total(weights)
    requires k * Total(weights) + r <= Limit(Total(weights))
    ensures Hits(weights, i, k * Total(weights) + r) == k * weights[i] + Share(weights, i, r)
    decreases k, r
  {
    var total := Total(weights);
    OffsetGrows(weights, i + 1, |weights|);
    if r > 0 {
      HitsAreProportional(weights, i, k, r - 1);
      RemainderOf(k, total, r - 1);
      assert Selects(weights, k * total + (r - 1), i) <==> Owns(weights, i, r - 1);
    } else if k > 0 {
      assert k * total == (k - 1) * total + total;
      HitsAreProportional(weights, i, k - 1, total);
      assert k * weights[i] == (k - 1) * weights[i] + weights[i];
    } else {
      assert 0 * total == 0 && 0 * weights[i] == 0;
    }
  }

  lemma {:induction false} NothingBeyondLimit(weights: seq<nat>, i: nat, n: nat)
    requires Total(weights) > 0 && Limit(Total(weights)) <= n
    ensures Hits(weights, i, n) == Hits(weights, i, Limit(Total(weights)))
    decreases n
  {
    if n > Limit(Total(weights)) {
      NothingBeyondLimit(weights, i, n - 1);
    }
  }

  lemma LimitIsMultiple(total: nat)
    requires 0 < total <= U128_MAX
    ensures Limit(total) == (Limit(total) / total) * total
    ensures 0 < U128_MAX + 1 - Limit(total) <= total
  {
    var q, r := U128_MAX / total, U128_MAX % total;
    assert U128_MAX == q * total + r;
    assert q * total == q * total + 0;
    QuotientUnique(q * total, total, q, 0);
  }

  /** Over all 128-bit values: each member is selected by exactly its weight
      times the number of whole rounds, and fewer values than the total, at
      most, are rejected. */
  lemma ExactlyUnbiased(weights: seq<nat>, i: nat)
    requires i < |weights| && 0 < Total(weights) <= U128_MAX
    ensures Hits(weights, i, U128_MAX + 1) == weights[i] * (Limit(Total(weights)) / Total(weights))
    ensures 0 < U128_MAX + 1 - Limit(Total(weights)) <= Total(weights)
  {
    var total := Total(weights);
    var rounds := Limit(total) / total;
    LimitIsMultiple(total);
    NothingBeyondLimit(weights, i, U128_MAX + 1);
    HitsAreProportional(weights, i, rounds, 0);
    assert rounds * total + 0 == Limit(total);
  }
}
