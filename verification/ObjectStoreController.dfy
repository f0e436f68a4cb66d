/** One reconcile of an object store, undisturbed, and sequences of such reconciles. */
module ObjectStoreController {
  import opened TextOrder
  import opened RoleSpecs
  import opened RbacSystem
  import opened RbacConvergence

  /** The API calls that fail: reading some object stores, reading or patching some Roles. */
  datatype Faults = Faults(list: bool, storeReads: set<string>, roleCalls: set<string>)

  /** The Roles and the object stores of one namespace. */
  class ApiServer {
    var roles: map<string, Role>
    var stores: Stores

    constructor (roles: map<string, Role>, stores: Stores)
      ensures this.roles == roles && this.stores == stores
    {
      this.roles, this.stores := roles, stores;
    }

    /** The names of all labelled Roles. */
    method ListRoles() returns (names: seq<string>)
      ensures forall n :: n in names <==> n in roles && CLUSTER_LABEL in roles[n].labels
      ensures forall i, j :: 0 <= i < j < |names| ==> names[i] != names[j]
    {
      var labelled := set n | n in roles && CLUSTER_LABEL in roles[n].labels;
      names := ToSortedList(labelled);
      assert forall n :: n in names <==> n in Elements(names);
      forall i, j | 0 <= i < j < |names| ensures names[i] != names[j] { LessTotal(names[i], names[j]); }
    }

    /** patchRole without labels, when no one else writes. */
    method PatchRules(name: string, rules: seq<PolicyRule>)
      requires name in roles
      modifies this`roles
      ensures roles == old(roles)[name := old(roles)[name].(rules := rules)]
    {
      if roles[name].rules != rules {
        roles := roles[name := roles[name].(rules := rules)];
      }
    }
  }

  /** Whether the Role's own calls go through. */
  predicate Reachable(name: string, role: Role, faults: Faults) {
    name !in faults.roleCalls && forall n :: n in ObjectStoreNames(role.rules) ==> n !in faults.storeReads
  }

  ghost function ReconciledRole(name: string, role: Role, store: string, stores: Stores, faults: Faults): Role {
    if Listed(role, store) && Reachable(name, role, faults)
    then role.(rules := RoleRules(Existing(ObjectStoreNames(role.rules), stores)))
    else role
  }

  ghost function Reconciled(roles: map<string, Role>, store: string, stores: Stores, faults: Faults)
    : map<string, Role>
  {
    if faults.list then roles
    else map n | n in roles :: ReconciledRole(n, roles[n], store, stores, faults)
  }

  lemma {:induction false} ExistingAppend(names: seq<string>, name: string, stores: Stores)
    ensures Existing(names + [name], stores) ==
            Existing(names, stores) + if name in stores then [stores[name]] else []
  {
    if names == [] {
      assert [name][1..] == [];
    } else {
      ExistingAppend(names[1..], name, stores);
      assert (names + [name])[1..] == names[1..] + [name];
    }
  }

  /** Reads the listed object stores, skipping missing ones, and writes the rules they ask for. */
  method ReconcileRoleRules(server: ApiServer, name: string, objectStoreNames: seq<string>, faults: Faults)
    returns (ok: bool)
    requires name in server.roles
    modifies server`roles
    ensures ok <==> name !in faults.roleCalls && forall n :: n in objectStoreNames ==> n !in faults.storeReads
    ensures server.roles ==
            if ok then old(server.roles)[name := old(server.roles)[name].(
                         rules := RoleRules(Existing(objectStoreNames, server.stores)))]
            else old(server.roles)
  {
    var barmanObjects: seq<ObjectStore> := [];
    for i := 0 to |objectStoreNames|
      invariant server.roles == old(server.roles)
      invariant barmanObjects == Existing(objectStoreNames[..i], server.stores)
      invariant forall j :: 0 <= j < i ==> objectStoreNames[j] !in faults.storeReads
    {
      var n := objectStoreNames[i];
      if n in faults.storeReads { return false; }
      ExistingAppend(objectStoreNames[..i], n, server.stores);
      assert objectStoreNames[..i + 1] == objectStoreNames[..i] + [n];
      if n in server.stores { barmanObjects := barmanObjects + [server.stores[n]]; }
    }
    assert objectStoreNames[..|objectStoreNames|] == objectStoreNames;
    if name in faults.roleCalls { return false; }
    var rules := BuildRoleRules(barmanObjects);
    server.PatchRules(name, rules);
    ok := true;
  }

  method Reconcile(server: ApiServer, store: string, faults: Faults) returns (ok: bool, failed: seq<string>)
    modifies server`roles
    ensures server.roles == Reconciled(old(server.roles), store, server.stores, faults)
    ensures ok <==> !faults.list && failed == []
    ensures !faults.list ==>
              forall n :: n in failed <==> n in old(server.roles) && Listed(old(server.roles)[n], store) &&
                                           !Reachable(n, old(server.roles)[n], faults)
  {
    failed := [];
    if faults.list { return false, []; }
    var roleList := server.ListRoles();
    ghost var start := server.roles;
    for i := 0 to |roleList|
      invariant server.roles.Keys == start.Keys
      invariant forall n :: n in start && n !in roleList[..i] ==> server.roles[n] == start[n]
      invariant forall n :: n in roleList[..i] ==>
                  server.roles[n] == ReconciledRole(n, start[n], store, server.stores, faults)
      invariant forall n :: n in failed <==>
                n in roleList[..i] && Listed(start[n], store) && !Reachable(n, start[n], faults)
    {
      var name := roleList[i];
      assert roleList[..i + 1] == roleList[..i] + [name];
      assert name in roleList && name !in roleList[..i];
      var objectStoreNames := ObjectStoreNames(server.roles[name].rules);
      if store in objectStoreNames {
        var done := ReconcileRoleRules(server, name, objectStoreNames, faults);
        if !done { failed := failed + [name]; }
      }
    }
    assert roleList[..|roleList|] == roleList;
    assert server.roles == Reconciled(start, store, server.stores, faults);
    ok := failed == [];
  }

  /**
   * After an error-free reconcile of `store`, each labelled Role that listed it lists exactly its stores
   * that exist.
   */
  lemma ReconciledNames(roles: map<string, Role>, store: string, stores: Stores, n: string)
    requires WellNamed(stores) && n in roles && Listed(roles[n], store)
    ensures var after := Reconciled(roles, store, stores, Faults(false, {}, {}))[n];
            && after.labels == roles[n].labels
            && StrictlySorted(ObjectStoreNames(after.rules))
            && forall x :: x in ObjectStoreNames(after.rules) <==> x in ObjectStoreNames(roles[n].rules) && x in stores
  {
    var names := ObjectStoreNames(roles[n].rules);
    var existing := Existing(names, stores);
    NamesOfBuiltRules(existing);
    forall x ensures x in SortedList(StoreNames(existing)) <==> x in names && x in stores {
      assert x in SortedList(StoreNames(existing)) <==> x in Elements(SortedList(StoreNames(existing)));
      if x in names && x in stores { ExistingExactly(names, stores, stores[x]); }
      if x in StoreNames(existing) {
        var s :| s in existing && s.name == x;
        ExistingExactly(names, stores, s);
      }
    }
  }

  /** Reconciling again changes nothing. */
  lemma ReconcileIsIdempotent(roles: map<string, Role>, store: string, stores: Stores)
    requires WellNamed(stores)
    ensures var none := Faults(false, {}, {});
            Reconciled(Reconciled(roles, store, stores, none), store, stores, none) ==
            Reconciled(roles, store, stores, none)
  {
    hide RoleRules;
    var none := Faults(false, {}, {});
    var once := Reconciled(roles, store, stores, none);
    forall n | n in roles ensures ReconciledRole(n, once[n], store, stores, none) == once[n] {
      TargetIsFixed(ObjectStoreNames(roles[n].rules), stores);
    }
  }

  // ---------------------------------------------------------------- sequences

  datatype Event = Event(store: string, stores: Stores, faults: Faults)

  ghost function AfterEvents(roles: map<string, Role>, events: seq<Event>, k: nat): (r: map<string, Role>)
    requires k <= |events|
    ensures r.Keys == roles.Keys
  {
    if k == 0 then roles
    else Reconciled(AfterEvents(roles, events, k - 1), events[k - 1].store, events[k - 1].stores, events[k - 1].faults)
  }

  lemma ReconcileNarrows(name: string, role: Role, e: Event)
    requires WellNamed(e.stores)
    ensures Elements(ObjectStoreNames(ReconciledRole(name, role, e.store, e.stores, e.faults).rules)) <=
            Elements(ObjectStoreNames(role.rules))
  {
    var names := ObjectStoreNames(role.rules);
    NamesOfBuiltRules(Existing(names, e.stores));
    forall s | s in Existing(names, e.stores) ensures s.name in names { ExistingExactly(names, e.stores, s); }
  }

  /** Over every sequence of reconciles, faulty or not, no Role lists a name it did not list before. */
  lemma {:induction false} NamesNeverGrow(roles: map<string, Role>, events: seq<Event>, j: nat, k: nat, name: string)
    requires j <= k <= |events| && name in roles
    requires forall i :: 0 <= i < |events| ==> WellNamed(events[i].stores)
    ensures Elements(ObjectStoreNames(AfterEvents(roles, events, k)[name].rules)) <=
            Elements(ObjectStoreNames(AfterEvents(roles, events, j)[name].rules))
    decreases k
  {
    hide ReconciledRole;
    hide ObjectStoreNames;
    if j < k {
      NamesNeverGrow(roles, events, j, k - 1, name);
      ReconcileNarrows(name, AfterEvents(roles, events, k - 1)[name], events[k - 1]);
    }
  }
}
