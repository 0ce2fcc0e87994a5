/** Fail-closed reading of a Terraform plan document (plan.rs). */
module Plan {
  import opened Int64
  import opened Wrappers
  import opened Json

  /** One resource change as the admission policy sees it. */
  datatype Instance = Instance(
    moduleAddress: Option<string>,
    mode: string,
    address: string,
    resourceType: string,
    actions: seq<string>,
    deposed: bool,
    previousAddress: Option<string>)
  {
    predicate Managed() { mode == "managed" }
  }

  /** `priorManaged` is the plan's own refreshed prior state: the managed
      addresses in it, or nothing when the plan carries none. */
  datatype PlanShape = PlanShape(instances: seq<Instance>, priorManaged: Option<seq<string>>)

  // ---- The format version ----

  function BeforeDot(s: string): string {
    if s == [] || s[0] == '.' then [] else [s[0]] + BeforeDot(s[1..])
  }

  predicate Digits(s: string) {
    forall i :: 0 <= i < |s| ==> '0' <= s[i] <= '9'
  }

  function DecimalValue(s: string): nat
    requires Digits(s)
  {
    if s == [] then 0 else DecimalValue(s[..|s| - 1]) * 10 + (s[|s| - 1] as int - '0' as int)
  }

  /** str::parse::<u64>: an optional plus sign, then at least one digit. */
  function ParseU64(s: string): Option<nat> {
    var digits := if |s| > 1 && s[0] == '+' then s[1..] else s;
    if digits != [] && Digits(digits) && DecimalValue(digits) <= U64_MAX then Some(DecimalValue(digits)) else None
  }

  function FormatMajor(doc: Value): Option<nat> {
    var version := GetStr(doc, "format_version");
    if version.None? then None else ParseU64(BeforeDot(version.value))
  }

  // ---- Resource changes ----

  function Strings(items: seq<Value>): (r: Option<seq<string>>)
    ensures r.Some? ==> |r.value| == |items| && forall i :: 0 <= i < |items| ==> items[i] == Str(r.value[i])
    ensures r.None? ==> exists i :: 0 <= i < |items| && !items[i].Str?
  {
    if items == [] then Some([])
    else
      var rest := Strings(items[1..]);
      if !items[0].Str? then None
      else if rest.None? then
        var i :| 0 <= i < |items[1..]| && !items[1..][i].Str?;
        assert !items[i + 1].Str?;
        None
      else Some([items[0].s] + rest.value)
  }

  /** Terraform reports these at either level; any non-null form counts. */
  predicate Flagged(entry: Value, change: Value, key: string) {
    Present(entry, key) || Present(change, key)
  }

  function ParseChange(entry: Value): Result<Instance> {
    var address, mode, resourceType := GetStr(entry, "address"), GetStr(entry, "mode"), GetStr(entry, "type");
    var change := Get(entry, "change");
    if !entry.Obj? || address.None? || mode.None? || resourceType.None? || change.None? || !change.value.Obj? then Refused
    else if mode.value != "managed" && mode.value != "data" then Refused
    else
      var items := GetArray(change.value, "actions");
      var actions := if items.None? then None else Strings(items.value);
      if actions.None? then Refused
      else if Flagged(entry, change.value, "importing") then Refused
      else if GetStr(change.value, "action_reason") == Some("import") then Refused
      else Success(Instance(
        GetStr(entry, "module_address"), mode.value, address.value, resourceType.value, actions.value,
        Flagged(entry, change.value, "deposed"), GetStr(entry, "previous_address")))
  }

  /** Entry by entry, in order, nothing left out. */
  ghost predicate ReadAs(changes: seq<Value>, instances: seq<Instance>) {
    |instances| == |changes| && forall i :: 0 <= i < |changes| ==> ParseChange(changes[i]) == Success(instances[i])
  }

  /** Reads every entry or refuses the plan. */
  method ParseChanges(changes: seq<Value>) returns (r: Result<seq<Instance>>)
    ensures r.Success? <==> forall i :: 0 <= i < |changes| ==> ParseChange(changes[i]).Success?
    ensures r.Success? ==> ReadAs(changes, r.value)
  {
    var instances: seq<Instance> := [];
    for i := 0 to |changes|
      invariant |instances| == i
      invariant forall k :: 0 <= k < i ==> ParseChange(changes[k]) == Success(instances[k])
    {
      var instance := ParseChange(changes[i]);
      if instance.Refused? {
        return Refused;
      }
      instances := instances + [instance.value];
    }
    return Success(instances);
  }

  // ---- The prior state ----

  /** Addresses of a module's own managed resources; one without an address
      still counts, as the empty string. */
  function OwnManaged(resources: seq<Value>): seq<string> {
    if resources == [] then []
    else
      var last := resources[|resources| - 1];
      OwnManaged(resources[..|resources| - 1]) +
      if GetStr(last, "mode") == Some("managed") then [AddressOrEmpty(last)] else []
  }

  lemma {:induction false} OwnMember(resources: seq<Value>, address: string)
    ensures address in OwnManaged(resources) <==>
              exists i :: 0 <= i < |resources| && ManagedAs(resources[i], address)
  {
    if resources != [] {
      var n := |resources| - 1;
      var front := resources[..n];
      OwnMember(front, address);
      assert forall i :: 0 <= i < n ==> front[i] == resources[i];
    }
  }

  function AddressOrEmpty(resource: Value): string {
    var address := GetStr(resource, "address");
    if address.None? then "" else address.value
  }

  predicate ManagedAs(resource: Value, address: string) {
    GetStr(resource, "mode") == Some("managed") && AddressOrEmpty(resource) == address
  }

  function Items(m: Value, key: string): (items: seq<Value>)
    ensures forall i :: 0 <= i < |items| ==> items[i] < m
  {
    var a := GetArray(m, key);
    if a.None? then [] else a.value
  }

  /** The managed addresses of a module and of everything below it. */
  function ManagedAddresses(m: Value): seq<string>
    decreases m, 1, 0
  {
    OwnManaged(Items(m, "resources")) + BelowManaged(m, Items(m, "child_modules"))
  }

  function BelowManaged(m: Value, children: seq<Value>): seq<string>
    requires forall i :: 0 <= i < |children| ==> children[i] < m
    decreases m, 0, |children|
  {
    if children == [] then []
    else BelowManaged(m, children[..|children| - 1]) + ManagedAddresses(children[|children| - 1])
  }

  /** Appends to a caller's vector, depth first. */
  method CollectManagedAddresses(m: Value, into: seq<string>) returns (r: seq<string>)
    ensures r == into + ManagedAddresses(m)
    decreases m, 1
  {
    var own := CollectOwn(Items(m, "resources"), into);
    r := CollectBelow(m, own);
  }

  method CollectOwn(resources: seq<Value>, into: seq<string>) returns (r: seq<string>)
    ensures r == into + OwnManaged(resources)
  {
    r := into;
    for i := 0 to |resources|
      invariant r == into + OwnManaged(resources[..i])
    {
      assert resources[..i + 1][..i] == resources[..i];
      if GetStr(resources[i], "mode") == Some("managed") {
        r := r + [AddressOrEmpty(resources[i])];
      }
    }
    assert resources[..|resources|] == resources;
  }

  method CollectBelow(m: Value, into: seq<string>) returns (r: seq<string>)
    ensures r == into + BelowManaged(m, Items(m, "child_modules"))
    decreases m, 0
  {
    r := into;
    var children := Items(m, "child_modules");
    for i := 0 to |children|
      invariant r == into + BelowManaged(m, children[..i])
    {
      ghost var before := r;
      r := CollectManagedAddresses(children[i], r);
      BelowGrows(m, children, i, into, before, r);
    }
    assert children[..|children|] == children;
  }

  lemma BelowGrows(m: Value, children: seq<Value>, i: nat, into: seq<string>, before: seq<string>, r: seq<string>)
    requires i < |children| && forall k :: 0 <= k < |children| ==> children[k] < m
    requires before == into + BelowManaged(m, children[..i]) && r == before + ManagedAddresses(children[i])
    ensures r == into + BelowManaged(m, children[..i + 1])
  {
    assert children[..i + 1][..i] == children[..i];
  }

  /** A managed resource of this address stands at the end of a path of child
      modules. */
  ghost predicate ManagedAt(m: Value, path: seq<nat>, address: string)
    decreases |path|
  {
    if path == [] then
      exists i :: 0 <= i < |Items(m, "resources")| && ManagedAs(Items(m, "resources")[i], address)
    else path[0] < |Items(m, "child_modules")| && ManagedAt(Items(m, "child_modules")[path[0]], path[1..], address)
  }

  /** The witness is complete and exact at every depth. */
  lemma WitnessIsExact(m: Value, address: string)
    ensures address in ManagedAddresses(m) <==> exists path :: ManagedAt(m, path, address)
  {
    if address in ManagedAddresses(m) {
      var path := PathTo(m, address);
      assert ManagedAt(m, path, address);
    }
    forall path: seq<nat> | ManagedAt(m, path, address) ensures address in ManagedAddresses(m) {
      PathIsWitnessed(m, path, address);
    }
  }

  lemma {:induction false} PathTo(m: Value, address: string) returns (path: seq<nat>)
    requires address in ManagedAddresses(m)
    ensures ManagedAt(m, path, address)
    decreases m
  {
    var children := Items(m, "child_modules");
    OwnMember(Items(m, "resources"), address);
    if address in OwnManaged(Items(m, "resources")) {
      return [];
    }
    BelowMember(m, children, address);
    var i :| 0 <= i < |children| && address in ManagedAddresses(children[i]);
    var below := PathTo(children[i], address);
    path := [i] + below;
    assert path[1..] == below;
  }

  lemma {:induction false} PathIsWitnessed(m: Value, path: seq<nat>, address: string)
    requires ManagedAt(m, path, address)
    ensures address in ManagedAddresses(m)
    decreases |path|
  {
    if path == [] {
      OwnMember(Items(m, "resources"), address);
    } else {
      var children := Items(m, "child_modules");
      PathIsWitnessed(children[path[0]], path[1..], address);
      BelowMember(m, children, address);
    }
  }

  lemma {:induction false} BelowMember(m: Value, children: seq<Value>, address: string)
    requires forall i :: 0 <= i < |children| ==> children[i] < m
    ensures address in BelowManaged(m, children) <==>
              exists i :: 0 <= i < |children| && address in ManagedAddresses(children[i])
    decreases |children|
  {
    if children != [] {
      var n := |children| - 1;
      var front := children[..n];
      BelowMember(m, front, address);
      assert forall i :: 0 <= i < n ==> front[i] == children[i];
    }
  }

  function PriorManaged(doc: Value): Option<seq<string>> {
    var root := RootModule(doc);
    if root.None? then None else Some(ManagedAddresses(root.value))
  }

  function RootModule(doc: Value): Option<Value> {
    var state := Get(doc, "prior_state");
    var values := if state.None? then None else Get(state.value, "values");
    if values.None? then None else Get(values.value, "root_module")
  }

  // ---- The whole document ----

  function Changes(doc: Value): seq<Value> {
    Items(doc, "resource_changes")
  }

  /** Exactly the documents that are read at all. */
  ghost predicate Readable(doc: Value) {
    && doc.Obj?
    && FormatMajor(doc) == Some(1)
    && Get(doc, "applyable") == Some(Bool(true))
    && Get(doc, "complete") == Some(Bool(true))
    && Get(doc, "errored") == Some(Bool(false))
    && Items(doc, "deferred_changes") == []
    && forall i :: 0 <= i < |Changes(doc)| ==> ParseChange(Changes(doc)[i]).Success?
  }

  /** What a readable document says, change by change. */
  ghost function ShapeOf(doc: Value): (shape: PlanShape)
    requires Readable(doc)
    ensures ReadAs(Changes(doc), shape.instances)
  {
    var changes := Changes(doc);
    PlanShape(seq(|changes|, i requires 0 <= i < |changes| => ParseChange(changes[i]).value), PriorManaged(doc))
  }

  method ParsePlanShape(doc: Value) returns (r: Result<PlanShape>)
    ensures r == if Readable(doc) then Success(ShapeOf(doc)) else Refused
  {
    if !doc.Obj? || FormatMajor(doc) != Some(1) {
      return Refused;
    }
    if !AsBool(Get(doc, "applyable"), false) || !AsBool(Get(doc, "complete"), false) ||
       AsBool(Get(doc, "errored"), true)
    {
      return Refused;
    }
    var instances :- ParseChanges(Changes(doc));
    if Items(doc, "deferred_changes") != [] {
      return Refused;
    }
    var root := RootModule(doc);
    var prior := None;
    if root.Some? {
      var addresses := CollectManagedAddresses(root.value, []);
      assert [] + ManagedAddresses(root.value) == ManagedAddresses(root.value);
      prior := Some(addresses);
    }
    assert instances == ShapeOf(doc).instances;
    return Success(PlanShape(instances, prior));
  }
}
