/** Check results of a plan, and the whole admission of a destroy document
    (plan_checks.rs). */
module PlanChecks {
  import opened Wrappers
  import opened Json
  import opened Plan
  import opened PlanAdmit

  predicate EmptyOrAbsent(v: Value, member: string) {
    var m := Get(v, member);
    m.None? || m == Some(Arr([]))
  }

  function Address(check: Value): Value {
    var a := Get(check, "address");
    if a.None? then Null else a.value
  }

  /** The display address, whatever its form; absent is allowed. */
  function Display(check: Value): Option<Value> {
    Get(Address(check), "to_display")
  }

  predicate DisplayWellFormed(check: Value) {
    Display(check).None? || (Display(check).value.Str? && Display(check).value.s != "")
  }

  predicate Status(check: Value, status: string) {
    GetStr(check, "status") == Some(status)
  }

  predicate PassedInstances(check: Value) {
    Get(check, "instances").None? ||
    (Get(check, "instances").value.Arr? &&
     forall x <- Get(check, "instances").value.items :: Status(x, "pass") && EmptyOrAbsent(x, "problems"))
  }

  /** The first planned delete at this address. */
  function FindDeleted(deleted: seq<Instance>, address: string): (r: Option<Instance>)
    ensures r.Some? ==> r.value in deleted && r.value.address == address && r.value.Managed() && r.value.actions == ["delete"]
    ensures r.None? ==> forall x :: x in deleted ==> !(x.address == address && x.Managed() && x.actions == ["delete"])
  {
    if deleted == [] then None
    else if deleted[0].address == address && deleted[0].Managed() && deleted[0].actions == ["delete"] then Some(deleted[0])
    else FindDeleted(deleted[1..], address)
  }

  predicate NamedChange(doc: Value, address: string, name: string) {
    exists c <- Changes(doc) :: GetStr(c, "address") == Some(address) && GetStr(c, "name") == Some(name)
  }

  /** An unresolved aggregate of a managed resource that this plan deletes,
      identified by type and name as well as by address. */
  predicate SkippedDeletedResource(check: Value, doc: Value, deleted: seq<Instance>) {
    var address := Address(check);
    var display, name := GetStr(address, "to_display"), GetStr(address, "name");
    && EmptyOrAbsent(check, "instances")
    && GetStr(address, "kind") == Some("resource") && GetStr(address, "mode") == Some("managed")
    && display.Some? && FindDeleted(deleted, display.value).Some?
    && GetStr(address, "type") == Some(FindDeleted(deleted, display.value).value.resourceType)
    && name.Some? && name.value != ""
    && NamedChange(doc, display.value, name.value)
  }

  predicate CheckAdmissible(check: Value, doc: Value, deleted: seq<Instance>) {
    && DisplayWellFormed(check)
    && EmptyOrAbsent(check, "problems")
    && ((Status(check, "pass") && PassedInstances(check)) ||
        (Status(check, "unknown") && SkippedDeletedResource(check, doc, deleted)))
  }

  predicate DifferentDisplays(a: Value, b: Value) {
    Display(a).None? || Display(b).None? || Display(a) != Display(b)
  }

  ghost predicate ChecksAdmissible(doc: Value, deleted: seq<Instance>) {
    var checks := Get(doc, "checks");
    checks.None? || (checks.value.Arr? && AllAdmissible(checks.value.items, doc, deleted))
  }

  ghost predicate AllAdmissible(checks: seq<Value>, doc: Value, deleted: seq<Instance>) {
    && (forall i :: 0 <= i < |checks| ==> CheckAdmissible(checks[i], doc, deleted))
    && (forall i, j :: 0 <= i < j < |checks| ==> DifferentDisplays(checks[i], checks[j]))
  }

  /** `seen` holds the display addresses of the first n checks. */
  ghost predicate SeenSoFar(checks: seq<Value>, n: nat, seen: set<string>) {
    && n <= |checks|
    && (forall k :: 0 <= k < n && Display(checks[k]).Some? ==> Display(checks[k]).value.Str? && Display(checks[k]).value.s in seen)
    && (forall a: string :: a in seen ==> exists k :: 0 <= k < n && Display(checks[k]) == Some(Str(a)))
  }

  method SeeDisplay(checks: seq<Value>, n: nat, seen: set<string>) returns (isNew: bool, more: set<string>)
    requires n < |checks| && SeenSoFar(checks, n, seen) && DisplayWellFormed(checks[n])
    ensures isNew <==> forall k :: 0 <= k < n ==> DifferentDisplays(checks[k], checks[n])
    ensures isNew ==> SeenSoFar(checks, n + 1, more)
  {
    var display := Display(checks[n]);
    if display.None? {
      return true, seen;
    }
    if display.value.s in seen {
      ghost var k :| 0 <= k < n && Display(checks[k]) == Some(Str(display.value.s));
      assert !DifferentDisplays(checks[k], checks[n]);
      return false, seen;
    }
    return true, seen + {display.value.s};
  }

  method AdmitChecks(doc: Value, deleted: seq<Instance>) returns (ok: bool)
    ensures ok <==> ChecksAdmissible(doc, deleted)
  {
    if Get(doc, "checks").None? {
      return true;
    }
    if !Get(doc, "checks").value.Arr? {
      return false;
    }
    ok := AdmitAll(Get(doc, "checks").value.items, doc, deleted);
  }

  method AdmitAll(checks: seq<Value>, doc: Value, deleted: seq<Instance>) returns (ok: bool)
    ensures ok <==> AllAdmissible(checks, doc, deleted)
  {
    var seen: set<string> := {};
    for i := 0 to |checks|
      invariant SeenSoFar(checks, i, seen) && AllAdmissible(checks[..i], doc, deleted)
    {
      if !DisplayWellFormed(checks[i]) {
        assert !CheckAdmissible(checks[i], doc, deleted);
        return false;
      }
      var isNew, more := SeeDisplay(checks, i, seen);
      if !isNew {
        return false;
      }
      seen := more;
      if !CheckAdmissible(checks[i], doc, deleted) {
        return false;
      }
      ExtendAdmissible(checks, i, doc, deleted);
    }
    assert checks[..|checks|] == checks;
    return true;
  }

  lemma ExtendAdmissible(checks: seq<Value>, i: nat, doc: Value, deleted: seq<Instance>)
    requires i < |checks| && AllAdmissible(checks[..i], doc, deleted) && CheckAdmissible(checks[i], doc, deleted)
    requires forall k :: 0 <= k < i ==> DifferentDisplays(checks[k], checks[i])
    ensures AllAdmissible(checks[..i + 1], doc, deleted)
  {
  }

  /** The lenient policy exists only behind destroy: with nothing deleted no
      check may stay unknown. */
  lemma CreateResolvesEveryCheck(doc: Value, i: nat)
    requires ChecksAdmissible(doc, []) && Get(doc, "checks").Some? && i < |Get(doc, "checks").value.items|
    ensures Status(Get(doc, "checks").value.items[i], "pass")
  {
  }

  // ---- The whole destroy document ----

  ghost predicate DestroyDocumentAdmissible(doc: Value, state: seq<string>, shape: seq<Role>) {
    && Readable(doc)
    && DestroyAdmissible(ShapeOf(doc), state, shape)
    && ChecksAdmissible(doc, ShapeOf(doc).instances)
  }

  method AdmitDestroyPlanJson(doc: Value, state: seq<string>, shape: seq<Role>) returns (ok: bool)
    ensures ok <==> DestroyDocumentAdmissible(doc, state, shape)
  {
    var plan := ParsePlanShape(doc);
    if plan.Refused? {
      return false;
    }
    var destroys := AdmitDestroyPlan(plan.value, state, shape);
    if !destroys {
      return false;
    }
    ok := AdmitChecks(doc, plan.value.instances);
  }

  /** The i-th check of a document is left unknown. */
  predicate UnknownAt(doc: Value, i: nat) {
    && Get(doc, "checks").Some? && Get(doc, "checks").value.Arr? && i < |Get(doc, "checks").value.items|
    && Status(Get(doc, "checks").value.items[i], "unknown")
  }

  /** Each check an admitted destroy leaves unknown names, by an address no
      other check has, a bound resource that the plan deletes. */
  lemma UnknownNamesDeleted(doc: Value, state: seq<string>, shape: seq<Role>, i: nat)
    requires DestroyDocumentAdmissible(doc, state, shape) && UnknownAt(doc, i)
    ensures var checks := Get(doc, "checks").value.items;
            && Display(checks[i]).Some? && Display(checks[i]).value.Str?
            && Display(checks[i]).value.s in ManagedAddressesOf(ShapeOf(doc).instances)
            && Display(checks[i]).value.s in state
            && forall j :: 0 <= j < |checks| && j != i ==> Display(checks[j]) != Display(checks[i])
  {
    var checks, deleted := Get(doc, "checks").value.items, ShapeOf(doc).instances;
    assert CheckAdmissible(checks[i], doc, deleted);
    var found := FindDeleted(deleted, Display(checks[i]).value.s).value;
    var k :| 0 <= k < |deleted| && deleted[k] == found;
    ManagedAddressListed(deleted, k);
    forall j | 0 <= j < |checks| && j != i ensures Display(checks[j]) != Display(checks[i]) {
      assert if i < j then DifferentDisplays(checks[i], checks[j]) else DifferentDisplays(checks[j], checks[i]);
    }
  }
}
