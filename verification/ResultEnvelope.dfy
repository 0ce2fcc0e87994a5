/** The manifest's shape validation (template.rs) and the result envelope's
    validation against it (template_envelope.rs). Lengths are in bytes. */
module ResultEnvelope {
  import opened Wrappers
  import opened Ordering
  import opened Plan
  import opened PlanAdmit

  const RESULT_CONTRACT_VERSION: nat := 1
  const MAX_OPAQUE_ID_LEN: nat := 512

  datatype Resource = Resource(role: string, id: string, incarnation: Option<string>)

  datatype Envelope = Envelope(
    contractVersion: nat, generationId: string, bindingsDigest: string, resources: seq<Resource>)

  function RolesOf(shape: seq<Role>): (roles: seq<string>)
    ensures |roles| == |shape| && forall i :: 0 <= i < |shape| ==> roles[i] == shape[i].role
  {
    seq(|shape|, i requires 0 <= i < |shape| => shape[i].role)
  }

  function EchoedRoles(resources: seq<Resource>): (roles: seq<string>)
    ensures |roles| == |resources| && forall i :: 0 <= i < |resources| ==> roles[i] == resources[i].role
  {
    seq(|resources|, i requires 0 <= i < |resources| => resources[i].role)
  }

  /** Uniqueness of roles is decided by sorting a copy and dropping repeats. */
  method ValidateShape(shape: seq<Role>) returns (ok: bool)
    ensures ok <==> ValidShape(shape)
  {
    if !(1 <= |shape| <= 8) {
      return false;
    }
    var roles := Sort(RolesOf(shape));
    RolesAreDistinct(shape);
    if |Dedup(roles)| != |roles| {
      return false;
    }
    for i := 0 to |shape|
      invariant forall k :: 0 <= k < i ==> shape[k].role != "" && shape[k].terraformType != "" && shape[k].exactCount > 0
    {
      if shape[i].role == "" || shape[i].terraformType == "" || shape[i].exactCount == 0 {
        return false;
      }
    }
    return true;
  }

  lemma RolesAreDistinct(shape: seq<Role>)
    ensures var roles := Sort(RolesOf(shape));
            |Dedup(roles)| == |roles| <==> forall i, j :: 0 <= i < j < |shape| ==> shape[i].role != shape[j].role
  {
    var listed := RolesOf(shape);
    SortDecidesDistinct(listed);
    assert Distinct(listed) <==> forall i, j :: 0 <= i < j < |shape| ==> shape[i].role != shape[j].role by {
      if !Distinct(listed) {
        var i, j :| 0 <= i < j < |listed| && listed[i] == listed[j];
        assert shape[i].role == shape[j].role;
      }
      if i, j :| 0 <= i < j < |shape| && shape[i].role == shape[j].role {
        assert listed[i] == listed[j];
      }
    }
  }

  predicate Bounded(r: Resource) {
    r.id != "" && |r.id| <= MAX_OPAQUE_ID_LEN && (r.incarnation.Some? ==> |r.incarnation.value| <= MAX_OPAQUE_ID_LEN)
  }

  function CountRole(resources: seq<Resource>, role: string): nat {
    if resources == [] then 0
    else CountRole(resources[..|resources| - 1], role) + if resources[|resources| - 1].role == role then 1 else 0
  }

  predicate HeaderMatches(e: Envelope, generationId: string, bindings: string) {
    e.contractVersion == RESULT_CONTRACT_VERSION && e.generationId == generationId && e.bindingsDigest == bindings
  }

  predicate ResourceAdmitted(r: Resource, shape: seq<Role>) {
    Bounded(r) && r.role in RolesOf(shape)
  }

  /** validate_against, check by check. */
  predicate Validates(e: Envelope, generationId: string, bindings: string, shape: seq<Role>) {
    && HeaderMatches(e, generationId, bindings)
    && |e.resources| == |shape|
    && (forall r <- e.resources :: ResourceAdmitted(r, shape))
    && (forall s <- shape :: CountRole(e.resources, s.role) == s.exactCount)
  }

  lemma {:induction false} CountIsMultiplicity(resources: seq<Resource>, role: string)
    ensures CountRole(resources, role) == multiset(EchoedRoles(resources))[role]
  {
    if resources != [] {
      var n := |resources| - 1;
      CountIsMultiplicity(resources[..n], role);
      assert EchoedRoles(resources) == EchoedRoles(resources[..n]) + [resources[n].role];
    } else {
      assert EchoedRoles(resources) == [];
    }
  }

  /** Total multiplicity of the first n roles. */
  function Total(shape: seq<Role>, m: multiset<string>, n: nat): nat
    requires n <= |shape|
  {
    if n == 0 then 0 else Total(shape, m, n - 1) + m[shape[n - 1].role]
  }

  /** Distinct roles carry disjoint parts of a multiset. */
  lemma {:induction false} TotalWithin(shape: seq<Role>, m: multiset<string>, n: nat)
    requires n <= |shape| && Distinct(RolesOf(shape))
    ensures Total(shape, m, n) <= |m|
  {
    if n > 0 {
      var role := shape[n - 1].role;
      var rest := m[role := 0];
      assert |rest| == |m| - m[role];
      TotalWithin(shape, rest, n - 1);
      TotalIgnores(shape, m, rest, n - 1, role);
    }
  }

  lemma {:induction false} TotalIgnores(shape: seq<Role>, m: multiset<string>, rest: multiset<string>, n: nat, role: string)
    requires n <= |shape| && rest == m[role := 0] && forall i :: 0 <= i < n ==> shape[i].role != role
    ensures Total(shape, m, n) == Total(shape, rest, n)
  {
    if n > 0 {
      TotalIgnores(shape, m, rest, n - 1, role);
    }
  }

  /** If every role occurs at least once and there are as many occurrences as
      roles, each occurs exactly once. */
  lemma {:induction false} AllOnce(shape: seq<Role>, m: multiset<string>, n: nat)
    requires n <= |shape| && forall i :: 0 <= i < |shape| ==> m[shape[i].role] >= 1
    ensures Total(shape, m, n) >= n
    ensures Total(shape, m, n) == n ==> forall i :: 0 <= i < n ==> m[shape[i].role] == 1
  {
    if n > 0 {
      AllOnce(shape, m, n - 1);
    }
  }

  /** Over a validated shape, an accepted result echoes each role exactly once
      and nothing else, so it exists only if every declared count is one. */
  lemma ResultIsBijective(e: Envelope, generationId: string, bindings: string, shape: seq<Role>)
    requires ValidShape(shape)
    ensures Validates(e, generationId, bindings, shape) <==>
              && HeaderMatches(e, generationId, bindings)
              && (forall r <- e.resources :: Bounded(r))
              && multiset(EchoedRoles(e.resources)) == multiset(RolesOf(shape))
              && (forall s <- shape :: s.exactCount == 1)
  {
    var roles, echoed := RolesOf(shape), EchoedRoles(e.resources);
    assert Distinct(roles);
    DistinctByMultiset(roles);
    if Validates(e, generationId, bindings, shape) {
      AcceptedCountsAreOne(e, generationId, bindings, shape);
    }
    if multiset(echoed) == multiset(roles) && forall s <- shape :: s.exactCount == 1 {
      MatchingRolesAreCounted(e, shape);
    }
  }

  lemma AcceptedCountsAreOne(e: Envelope, generationId: string, bindings: string, shape: seq<Role>)
    requires ValidShape(shape) && Validates(e, generationId, bindings, shape)
    ensures forall s <- shape :: s.exactCount == 1
    ensures multiset(EchoedRoles(e.resources)) == multiset(RolesOf(shape))
  {
    var roles, echoed := RolesOf(shape), EchoedRoles(e.resources);
    var m := multiset(echoed);
    assert Distinct(roles);
    forall i | 0 <= i < |shape| ensures m[shape[i].role] == shape[i].exactCount {
      assert shape[i] in shape;
      CountIsMultiplicity(e.resources, shape[i].role);
    }
    TotalWithin(shape, m, |shape|);
    AllOnce(shape, m, |shape|);
    DistinctByMultiset(roles);
    forall x ensures m[x] == multiset(roles)[x] {
      if x in m {
        var i :| 0 <= i < |echoed| && echoed[i] == x;
        assert e.resources[i] in e.resources;
        assert x in roles;
      }
      if x in multiset(roles) {
        var i :| 0 <= i < |roles| && roles[i] == x;
        assert multiset(roles)[x] == 1;
      }
    }
  }

  lemma MatchingRolesAreCounted(e: Envelope, shape: seq<Role>)
    requires ValidShape(shape) && (forall s <- shape :: s.exactCount == 1)
    requires multiset(EchoedRoles(e.resources)) == multiset(RolesOf(shape))
    ensures |e.resources| == |shape|
    ensures forall r <- e.resources :: r.role in RolesOf(shape)
    ensures forall s <- shape :: CountRole(e.resources, s.role) == s.exactCount
  {
    var roles, echoed := RolesOf(shape), EchoedRoles(e.resources);
    assert Distinct(roles);
    SameElements(echoed, roles);
    DistinctByMultiset(roles);
    forall r | r in e.resources ensures r.role in roles {
      var i :| 0 <= i < |e.resources| && e.resources[i] == r;
      assert echoed[i] in echoed;
    }
    forall s | s in shape ensures CountRole(e.resources, s.role) == 1 {
      var i :| 0 <= i < |shape| && shape[i] == s;
      assert roles[i] in roles;
      CountIsMultiplicity(e.resources, s.role);
    }
  }

  /** A validated shape can complete a generation, with an admitted create
      plan and an accepted result, exactly if its types are distinct and every
      count is one: anything else passes validation but never finishes. */
  lemma ShapeCompletes(shape: seq<Role>, plan: PlanShape, e: Envelope, generationId: string, bindings: string)
    requires ValidShape(shape)
    requires CreateAdmissible(plan, true, shape) && Validates(e, generationId, bindings, shape)
    ensures DistinctTypes(shape) && forall s <- shape :: s.exactCount == 1
    ensures forall k :: 0 <= k < |shape| ==> CountType(plan.instances, shape[k].terraformType) == 1
  {
    CreateIsExact(plan, true, shape);
    ResultIsBijective(e, generationId, bindings, shape);
    assert forall k :: 0 <= k < |shape| ==> shape[k] in shape;
  }

  /** The other direction: such a shape has an admitted plan and an accepted result. */
  lemma CompletingWitness(shape: seq<Role>, generationId: string, bindings: string) returns (plan: PlanShape, e: Envelope)
    requires ValidShape(shape) && DistinctTypes(shape) && forall s <- shape :: s.exactCount == 1
    ensures CreateAdmissible(plan, true, shape) && Validates(e, generationId, bindings, shape)
  {
    plan := PlanShape(OneOfEach(shape), None);
    e := Envelope(RESULT_CONTRACT_VERSION, generationId, bindings,
      seq(|shape|, i requires 0 <= i < |shape| => Resource(shape[i].role, "id", None)));
    assert EchoedRoles(e.resources) == RolesOf(shape);
    ResultIsBijective(e, generationId, bindings, shape);
    forall k | 0 <= k < |shape| ensures CountType(plan.instances, shape[k].terraformType) == shape[k].exactCount {
      OneOfEachCounts(shape, |shape|, k);
      assert shape[..|shape|] == shape && shape[k] in shape;
    }
    assert forall k :: 0 <= k < |shape| ==> shape[k] in shape;
    CreateIsExact(plan, true, shape);
  }

  function OneOfEach(shape: seq<Role>): (instances: seq<Instance>)
    ensures |instances| == |shape|
    ensures forall i :: 0 <= i < |shape| ==> instances[i] == OneOf(shape[i])
  {
    seq(|shape|, i requires 0 <= i < |shape| => OneOf(shape[i]))
  }

  function OneOf(role: Role): Instance {
    Instance(None, "managed", role.role, role.terraformType, ["create"], false, None)
  }

  lemma {:induction false} OneOfEachCounts(shape: seq<Role>, n: nat, k: nat)
    requires n <= |shape| && k < |shape| && DistinctTypes(shape)
    ensures CountType(OneOfEach(shape[..n]), shape[k].terraformType) == if k < n then 1 else 0
  {
    if n > 0 {
      OneOfEachCounts(shape, n - 1, k);
      assert OneOfEach(shape[..n])[..n - 1] == OneOfEach(shape[..n - 1]);
    }
  }
}
