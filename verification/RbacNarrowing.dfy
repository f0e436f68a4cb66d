/**
 * The ObjectStore controller on its own: it works from the names the Role lists and so can only
 * take names away; a name that was lost comes back with the next Pre hook call only.
 */
module RbacNarrowing {
  import opened Prelude
  import opened TextOrder
  import opened RoleSpecs
  import opened RbacMerge
  import opened Versioned
  import opened RbacSystem
  import opened RbacConvergence

  function ListedNames(role: Option<Role>): set<string> {
    if role.Some? then Elements(ObjectStoreNames(role.value.rules)) else {}
  }

  /**
   * What may happen without a Pre hook call: reconciles, whose reads go back to version `since` of
   * the Role at most, and any change of object stores and of the RoleBinding.
   */
  ghost predicate ControllerAction(a: Action, since: nat) {
    match a
    case StartReconcile(_) => true
    case Step(_, at, view, _, _, _) => at >= since && WellNamed(view)
    case WriteStores(_) => true
    case WriteBinding(_) => true
    case _ => false
  }

  /** A reconcile that knows no names beyond `names`. */
  ghost predicate WithinNames(c: Call, names: set<string>) {
    match c
    case ListRoles(_) => true
    case ControllerStores(todo, got) => Elements(todo) <= names && StoreNames(got) <= names
    case RoleGet(caller, rules) => caller.Controller? && Elements(ObjectStoreNames(rules)) <= names
    case RoleSend(caller, rules, _) => caller.Controller? && Elements(ObjectStoreNames(rules)) <= names
    case Done(_) => true
    case _ => false
  }

  ghost predicate Narrow(s: System, since: nat, names: set<string>) {
    && WellFormed(s)
    && since < |s.role|
    && (forall i :: since <= i < |s.role| ==> ListedNames(s.role[i]) <= names)
    && (forall i :: 0 <= i < |s.calls| ==> WithinNames(s.calls[i], names))
  }

  lemma StoreStepWithin(c: Call, view: Stores, names: set<string>)
    requires c.ControllerStores? && WithinNames(c, names) && WellNamed(view)
    ensures WithinNames(StoreStep(c, view), names)
  {
    hide RoleRules;
    NamesOfBuiltRules(c.got);
    if c.todo != [] {
      var got := if c.todo[0] in view then c.got + [view[c.todo[0]]] else c.got;
      assert c.todo[0] in Elements(c.todo);
      assert forall x :: x in Elements(c.todo[1..]) ==> x in Elements(c.todo);
      assert forall t :: t in got ==> t in c.got || (c.todo[0] in view && t == view[c.todo[0]]);
      assert forall x :: x in StoreNames(got) ==> x in StoreNames(c.got) || x == c.todo[0];
    }
  }

  lemma RoleStepWithin(cluster: Cluster, s: System, since: nat, names: set<string>, c: Call, a: Action)
    requires Narrow(s, since, names) && a.Step? && a.at >= since && WithinNames(c, names)
    requires !c.ControllerStores?
    ensures WithinNames(RoleStep(cluster, s.role, c, a).0, names)
    ensures var written := RoleStep(cluster, s.role, c, a).1;
            written == [] || (|written| == 1 && ListedNames(written[0]) <= names)
  {
    hide ObjectStoreNames;
    hide RoleDiff;
    hide PatchRole;
    RoleStepKeepsLabels(cluster, s.role, c, a);
    assert since <= Served(s.role, a.at) < |s.role|;
    assert StoreNames([]) == {};
  }

  lemma NarrowStays(cluster: Cluster, s: System, since: nat, names: set<string>, a: Action)
    requires Narrow(s, since, names) && ControllerAction(a, since)
    ensures Narrow(Next(cluster, s, a), since, names)
  {
    hide RoleStep;
    hide BindStep;
    hide StoreStep;
    hide ListedNames;
    NextIsWellFormed(cluster, s, a);
    if a.Step? && a.call < |s.calls| && !s.calls[a.call].Done? {
      var c := s.calls[a.call];
      assert WithinNames(c, names);
      if c.ControllerStores? {
        StoreStepWithin(c, a.view, names);
      } else {
        RoleStepWithin(cluster, s, since, names, c, a);
      }
    }
  }

  /**
   * Over every interleaving of reconciles with no Pre hook call, whatever happens to the object
   * stores meanwhile, the Role never lists a name it did not list when they began.
   */
  lemma {:induction false} ReconcilesOnlyNarrow(cluster: Cluster, s: System, actions: seq<Action>, k: nat)
    requires WellFormed(s) && k <= |actions|
    requires forall i :: 0 <= i < |s.calls| ==> s.calls[i].Done?
    requires forall i :: 0 <= i < |actions| ==> ControllerAction(actions[i], |s.role| - 1)
    ensures Narrow(After(cluster, s, actions, k), |s.role| - 1, ListedNames(Latest(s.role)))
    ensures ListedNames(Latest(After(cluster, s, actions, k).role)) <= ListedNames(Latest(s.role))
  {
    hide Next;
    hide ListedNames;
    if k > 0 {
      ReconcilesOnlyNarrow(cluster, s, actions, k - 1);
      NarrowStays(cluster, After(cluster, s, actions, k - 1), |s.role| - 1, ListedNames(Latest(s.role)),
                  actions[k - 1]);
    }
  }
}
