/** Admission of create and destroy plans (plan_admit.rs). */
module PlanAdmit {
  import opened Wrappers
  import opened Ordering
  import opened Plan

  /** One role of a manifest's managed resource shape. */
  datatype Role = Role(role: string, terraformType: string, exactCount: nat)

  /** Exactly one plain action on a resource that is neither deposed nor moved. */
  predicate Plain(i: Instance, action: string) {
    !i.deposed && i.previousAddress.None? && i.actions == [action]
  }

  predicate ReadsOnly(i: Instance) {
    i.actions == ["read"] || i.actions == ["no-op"]
  }

  predicate Declared(shape: seq<Role>, resourceType: string) {
    exists r <- shape :: r.terraformType == resourceType
  }

  // ---- Data resources ----

  ghost predicate DataReadsOnly(plan: PlanShape) {
    forall i :: 0 <= i < |plan.instances| && plan.instances[i].mode == "data" ==> ReadsOnly(plan.instances[i])
  }

  method AdmitDataResources(plan: PlanShape) returns (ok: bool)
    ensures ok <==> DataReadsOnly(plan)
  {
    for i := 0 to |plan.instances|
      invariant forall k :: 0 <= k < i && plan.instances[k].mode == "data" ==> ReadsOnly(plan.instances[k])
    {
      if plan.instances[i].mode == "data" && !ReadsOnly(plan.instances[i]) {
        return false;
      }
    }
    return true;
  }

  // ---- Destroy ----

  /** The planned managed addresses, in plan order. */
  function ManagedAddressesOf(instances: seq<Instance>): (addresses: seq<string>)
    ensures forall a :: a in addresses ==> exists i :: 0 <= i < |instances| && instances[i].Managed() && instances[i].address == a
  {
    if instances == [] then []
    else
      ManagedAddressesOf(instances[..|instances| - 1]) +
      if instances[|instances| - 1].Managed() then [instances[|instances| - 1].address] else []
  }

  lemma {:induction false} ManagedAddressListed(instances: seq<Instance>, i: nat)
    requires i < |instances| && instances[i].Managed()
    ensures instances[i].address in ManagedAddressesOf(instances)
  {
    if i < |instances| - 1 {
      ManagedAddressListed(instances[..|instances| - 1], i);
    }
  }

  /** The refresh dropped this address, which only the plan's own prior state
      can prove. */
  predicate RefreshedAway(plan: PlanShape, address: string) {
    plan.priorManaged.Some? && address !in plan.priorManaged.value
  }

  ghost predicate DeletesPlainly(plan: PlanShape, shape: seq<Role>) {
    forall i :: 0 <= i < |plan.instances| && plan.instances[i].Managed() ==>
      Plain(plan.instances[i], "delete") && Declared(shape, plan.instances[i].resourceType)
  }

  /** Exactly the plans destroy admits: plain deletes of declared types at
      distinct addresses of the bound state, leaving out only what the refresh
      dropped. */
  ghost predicate DestroyAdmissible(plan: PlanShape, state: seq<string>, shape: seq<Role>) {
    var planned := ManagedAddressesOf(plan.instances);
    && DeletesPlainly(plan, shape)
    && DataReadsOnly(plan)
    && Distinct(planned)
    && (forall a :: a in planned ==> a in state)
    && (forall a :: a in state ==> a in planned || RefreshedAway(plan, a))
  }

  method CheckDeletes(plan: PlanShape, shape: seq<Role>) returns (ok: bool)
    ensures ok <==> DeletesPlainly(plan, shape)
  {
    for i := 0 to |plan.instances|
      invariant forall k :: 0 <= k < i && plan.instances[k].Managed() ==>
                  Plain(plan.instances[k], "delete") && Declared(shape, plan.instances[k].resourceType)
    {
      var x := plan.instances[i];
      if x.Managed() {
        if x.deposed || x.previousAddress.Some? || |x.actions| != 1 || x.actions[0] != "delete" {
          return false;
        }
        if !Declared(shape, x.resourceType) {
          return false;
        }
        assert x.actions == ["delete"];
      }
    }
    return true;
  }

  method HasAdjacentRepeat(s: seq<string>) returns (found: bool)
    ensures found <==> AdjacentRepeat(s)
  {
    var i := 0;
    while i + 1 < |s|
      invariant forall k :: 0 <= k < i && k + 1 < |s| ==> s[k] != s[k + 1]
    {
      if s[i] == s[i + 1] {
        return true;
      }
      i := i + 1;
    }
    return false;
  }

  /** Sorts the planned addresses to see repeats, then compares the two
      address sets both ways. */
  method AdmitDestroyPlan(plan: PlanShape, state: seq<string>, shape: seq<Role>) returns (ok: bool)
    ensures ok <==> DestroyAdmissible(plan, state, shape)
  {
    var deletes := CheckDeletes(plan, shape);
    if !deletes {
      return false;
    }
    var readOnly := AdmitDataResources(plan);
    if !readOnly {
      return false;
    }
    var addresses := ManagedAddressesOf(plan.instances);
    var planned := Sort(addresses);
    SortDecidesDistinct(addresses);
    SameElements(addresses, planned);
    var repeats := HasAdjacentRepeat(planned);
    if repeats {
      return false;
    }
    var bound := AllBound(planned, state);
    if !bound {
      return false;
    }
    ok := NothingOrphaned(plan, planned, state);
  }

  method AllBound(planned: seq<string>, state: seq<string>) returns (ok: bool)
    ensures ok <==> forall a :: a in planned ==> a in state
  {
    for i := 0 to |planned|
      invariant forall k :: 0 <= k < i ==> planned[k] in state
    {
      if planned[i] !in state {
        return false;
      }
    }
    return true;
  }

  method NothingOrphaned(plan: PlanShape, planned: seq<string>, state: seq<string>) returns (ok: bool)
    ensures ok <==> forall a :: a in state ==> a in planned || RefreshedAway(plan, a)
  {
    for i := 0 to |state|
      invariant forall k :: 0 <= k < i ==> state[k] in planned || RefreshedAway(plan, state[k])
    {
      if state[i] !in planned && !RefreshedAway(plan, state[i]) {
        return false;
      }
    }
    return true;
  }

  // ---- Create ----

  /** The role an instance is counted for: the first of its type. */
  function FirstRole(shape: seq<Role>, resourceType: string): (i: Option<nat>)
    ensures i.None? <==> !Declared(shape, resourceType)
    ensures i.Some? ==> i.value < |shape| && shape[i.value].terraformType == resourceType
    ensures i.Some? ==> forall k :: 0 <= k < i.value ==> shape[k].terraformType != resourceType
  {
    if shape == [] then None
    else if shape[0].terraformType == resourceType then
      assert shape[0] in shape;
      Some(0)
    else
      var rest := FirstRole(shape[1..], resourceType);
      if rest.None? then
        assert forall r :: r in shape ==> r == shape[0] || r in shape[1..];
        None
      else Some(rest.value + 1)
  }

  /** Managed instances counted for role k. */
  function CountFor(instances: seq<Instance>, shape: seq<Role>, k: nat): nat {
    if instances == [] then 0
    else
      var last := instances[|instances| - 1];
      CountFor(instances[..|instances| - 1], shape, k) +
      if last.Managed() && FirstRole(shape, last.resourceType) == Some(k) then 1 else 0
  }

  function CountType(instances: seq<Instance>, resourceType: string): nat {
    if instances == [] then 0
    else
      var last := instances[|instances| - 1];
      CountType(instances[..|instances| - 1], resourceType) +
      if last.Managed() && last.resourceType == resourceType then 1 else 0
  }

  ghost predicate CreatesPlainly(instances: seq<Instance>, shape: seq<Role>) {
    forall i :: 0 <= i < |instances| && instances[i].Managed() ==>
      Plain(instances[i], "create") && Declared(shape, instances[i].resourceType)
  }

  ghost predicate CountsMatch(instances: seq<Instance>, shape: seq<Role>) {
    forall k :: 0 <= k < |shape| ==> CountFor(instances, shape, k) == shape[k].exactCount
  }

  /** Counts instances per role while checking each of them. */
  method AdmitManaged(instances: seq<Instance>, shape: seq<Role>) returns (ok: bool)
    ensures ok <==> CreatesPlainly(instances, shape) && CountsMatch(instances, shape)
  {
    var counts := seq(|shape|, _ => 0);
    for i := 0 to |instances|
      invariant |counts| == |shape|
      invariant CreatesPlainly(instances[..i], shape)
      invariant forall k :: 0 <= k < |shape| ==> counts[k] == CountFor(instances[..i], shape, k)
    {
      var x := instances[i];
      assert instances[..i + 1][..i] == instances[..i];
      if x.Managed() {
        if x.deposed || x.previousAddress.Some? || exists a <- x.actions :: a in {"import", "move", "forget"} {
          return false;
        }
        if |x.actions| != 1 || x.actions[0] != "create" {
          return false;
        }
        var role := FirstRole(shape, x.resourceType);
        if role.None? {
          return false;
        }
        assert x.actions == ["create"];
        counts := counts[role.value := counts[role.value] + 1];
      }
    }
    assert instances[..|instances|] == instances;
    for k := 0 to |shape|
      invariant forall j :: 0 <= j < k ==> CountFor(instances, shape, j) == shape[j].exactCount
    {
      if counts[k] != shape[k].exactCount {
        return false;
      }
    }
    return true;
  }

  /** Exactly the plans create admits over the probed prior state. */
  ghost predicate CreateAdmissible(plan: PlanShape, priorStateEmpty: bool, shape: seq<Role>) {
    && priorStateEmpty && (plan.priorManaged.Some? ==> plan.priorManaged.value == [])
    && CreatesPlainly(plan.instances, shape) && CountsMatch(plan.instances, shape)
    && DataReadsOnly(plan)
  }

  method AdmitCreatePlan(plan: PlanShape, priorStateEmpty: bool, shape: seq<Role>) returns (ok: bool)
    ensures ok <==> CreateAdmissible(plan, priorStateEmpty, shape)
  {
    if !priorStateEmpty || (plan.priorManaged.Some? && plan.priorManaged.value != []) {
      return false;
    }
    var managed := AdmitManaged(plan.instances, shape);
    if !managed {
      return false;
    }
    ok := AdmitDataResources(plan);
  }

  /** A manifest's shape as validation leaves it. */
  ghost predicate ValidShape(shape: seq<Role>) {
    && 1 <= |shape| <= 8
    && (forall i, j :: 0 <= i < j < |shape| ==> shape[i].role != shape[j].role)
    && (forall i :: 0 <= i < |shape| ==> shape[i].role != "" && shape[i].terraformType != "" && shape[i].exactCount > 0)
  }

  ghost predicate DistinctTypes(shape: seq<Role>) {
    forall i, j :: 0 <= i < j < |shape| ==> shape[i].terraformType != shape[j].terraformType
  }

  /** Every instance of a type is counted for the type's first role. */
  lemma {:induction false} CountedForFirst(instances: seq<Instance>, shape: seq<Role>, k: nat)
    requires k < |shape|
    ensures CountFor(instances, shape, k) ==
            if FirstRole(shape, shape[k].terraformType) == Some(k) then CountType(instances, shape[k].terraformType) else 0
  {
    if instances != [] {
      CountedForFirst(instances[..|instances| - 1], shape, k);
    }
  }

  /** Two roles of one type can never both be filled: with such a shape every
      create plan is refused. */
  lemma SharedTypeAdmitsNothing(plan: PlanShape, priorStateEmpty: bool, shape: seq<Role>)
    requires ValidShape(shape) && !DistinctTypes(shape)
    ensures !CreateAdmissible(plan, priorStateEmpty, shape)
  {
    var i, j :| 0 <= i < j < |shape| && shape[i].terraformType == shape[j].terraformType;
    CountedForFirst(plan.instances, shape, j);
  }

  /** Over a validated shape, the admitted plans are those that create, on
      empty prior state and by plain creates only, exactly the declared number
      of each declared type. */
  lemma CreateIsExact(plan: PlanShape, priorStateEmpty: bool, shape: seq<Role>)
    requires ValidShape(shape)
    ensures CreateAdmissible(plan, priorStateEmpty, shape) <==>
              && DistinctTypes(shape)
              && priorStateEmpty && (plan.priorManaged.Some? ==> plan.priorManaged.value == [])
              && CreatesPlainly(plan.instances, shape) && DataReadsOnly(plan)
              && forall k :: 0 <= k < |shape| ==> CountType(plan.instances, shape[k].terraformType) == shape[k].exactCount
  {
    if !DistinctTypes(shape) {
      SharedTypeAdmitsNothing(plan, priorStateEmpty, shape);
    } else {
      forall k | 0 <= k < |shape|
        ensures CountFor(plan.instances, shape, k) == CountType(plan.instances, shape[k].terraformType)
      {
        CountedForFirst(plan.instances, shape, k);
        assert shape[k] in shape;
      }
    }
  }
}
