/** Template pools: what a validated pool promises the weighted draw
    (template_pool.rs). */
module TemplatePool {
  import opened Wrappers
  import opened WeightedChoice

  datatype Member = Member(key: string, profileRef: string, weight: nat, maxRunners: Option<int>)

  /** The longest pool and the heaviest member. */
  const MAX_MEMBERS: nat := 32
  const MAX_WEIGHT: nat := 10_000

  predicate IdentifierChar(c: char) {
    'a' <= c <= 'z' || 'A' <= c <= 'Z' || '0' <= c <= '9' || c in {'-', '_', '.'}
  }

  /** All of it ASCII, so its bytes are its characters. */
  predicate StableIdentifier(s: string) {
    0 < |s| <= 128 && forall i :: 0 <= i < |s| ==> IdentifierChar(s[i])
  }

  predicate ValidMember(m: Member) {
    && StableIdentifier(m.key) && |m.key| <= 100
    && 1 <= m.weight <= MAX_WEIGHT
    && (m.maxRunners.Some? ==> m.maxRunners.value >= 0)
    && m.profileRef != ""
  }

  predicate ValidPool(members: seq<Member>) {
    && 1 <= |members| <= MAX_MEMBERS
    && (forall i :: 0 <= i < |members| ==> ValidMember(members[i]))
    && (forall i, j :: 0 <= i < j < |members| ==> members[i].key != members[j].key)
  }

  method Validate(members: seq<Member>) returns (ok: bool)
    ensures ok <==> ValidPool(members)
  {
    if members == [] || |members| > MAX_MEMBERS {
      return false;
    }
    var keys: set<string> := {};
    for n := 0 to |members|
      invariant forall i :: 0 <= i < n ==> ValidMember(members[i]) && members[i].key in keys
      invariant forall i, j :: 0 <= i < j < n ==> members[i].key != members[j].key
      invariant forall k :: k in keys ==> exists i :: 0 <= i < n && members[i].key == k
    {
      var m := members[n];
      if !StableIdentifier(m.key) || |m.key| > 100 || m.key in keys {
        return false;
      }
      keys := keys + {m.key};
      if m.weight == 0 || m.weight > MAX_WEIGHT || (m.maxRunners.Some? && m.maxRunners.value < 0) || m.profileRef == "" {
        return false;
      }
    }
    return true;
  }

  function Weights(members: seq<Member>): (weights: seq<nat>)
    ensures |weights| == |members| && forall i :: 0 <= i < |members| ==> weights[i] == members[i].weight
  {
    seq(|members|, i requires 0 <= i < |members| => members[i].weight)
  }

  lemma {:induction false} OffsetIsBounded(weights: seq<nat>, n: nat)
    requires n <= |weights| && forall i :: 0 <= i < |weights| ==> 1 <= weights[i] <= MAX_WEIGHT
    ensures n <= Offset(weights, n) <= n * MAX_WEIGHT
  {
    if n > 0 {
      OffsetIsBounded(weights, n - 1);
    }
  }

  /** A validated pool's weights never overflow the draw. */
  lemma ValidTotal(members: seq<Member>)
    requires ValidPool(members)
    ensures 1 <= Total(Weights(members)) <= MAX_MEMBERS * MAX_WEIGHT <= U128_MAX
  {
    OffsetIsBounded(Weights(members), |members|);
  }

  /** How many of all 128-bit values draw member i. */
  ghost function Drawn(members: seq<Member>, i: nat): nat {
    Hits(Weights(members), i, U128_MAX + 1)
  }

  /** Over all 128-bit values every member of a validated pool is drawn, any
      two of them exactly in proportion to their weights, and at most 320000
      values have to be drawn again. */
  lemma ValidPoolDrawsFairly(members: seq<Member>, i: nat, j: nat)
    requires ValidPool(members) && i < |members| && j < |members|
    ensures Drawn(members, i) > 0 && Drawn(members, i) * members[j].weight == Drawn(members, j) * members[i].weight
    ensures U128_MAX + 1 - Limit(Total(Weights(members))) <= MAX_MEMBERS * MAX_WEIGHT
  {
    var weights := Weights(members);
    var total := Total(weights);
    ValidTotal(members);
    ExactlyUnbiased(weights, i);
    ExactlyUnbiased(weights, j);
    LimitIsMultiple(total);
    var rounds := Limit(total) / total;
    assert rounds * total > 0;
    assert rounds > 0;
    Proportional(weights[i], weights[j], rounds);
  }

  lemma Proportional(a: nat, b: nat, rounds: nat)
    requires a > 0 && rounds > 0
    ensures a * rounds > 0 && (a * rounds) * b == (b * rounds) * a
  {
    assert (a * rounds) * b == a * (rounds * b) == a * (b * rounds) == (b * rounds) * a;
  }
}
