/**
 * Stale Pre hook calls and the reconciles that heal what they wrote. Here every read may be stale,
 * of object stores too, and any other client may write.
 */
module RbacHealing {
  import opened Prelude
  import opened TextOrder
  import opened RoleSpecs
  import opened RbacMerge
  import opened Versioned
  import opened RbacSystem
  import opened RbacConvergence
  import opened RbacOverlap

  // ---------------------------------------------------------------- what a stale Pre hook call writes

  /** Reads of object stores may be of any time, but a store is found under its own name. */
  ghost predicate NamedViews(actions: seq<Action>) {
    forall k :: 0 <= k < |actions| && actions[k].Step? ==> WellNamed(actions[k].view)
  }

  predicate ListsExactly(rules: seq<PolicyRule>, referred: seq<string>) {
    Elements(ObjectStoreNames(rules)) == Elements(referred)
  }

  /** A Pre hook call whose rules list the referred names, however old the stores it read. */
  ghost predicate NamesReferred(referred: seq<string>, c: Call) {
    && OfPre(c)
    && match c
       case PreStores(todo, got) => StoreNames(got) + Elements(todo) == Elements(referred)
       case RoleProbe(rules) => ListsExactly(rules, referred)
       case RoleCreate(rules) => ListsExactly(rules, referred)
       case RoleGet(_, rules) => ListsExactly(rules, referred)
       case RoleSend(_, rules, _) => ListsExactly(rules, referred)
       case _ => true
  }

  lemma NamesMove(todo: seq<string>, got: seq<ObjectStore>, store: ObjectStore)
    requires todo != [] && store.name == todo[0]
    ensures StoreNames(got + [store]) + Elements(todo[1..]) == StoreNames(got) + Elements(todo)
  {
    assert StoreNames(got + [store]) == StoreNames(got) + {store.name};
    assert todo == [todo[0]] + todo[1..];
    assert Elements(todo) == {todo[0]} + Elements(todo[1..]);
  }

  /** A missing store stops the call before it writes, so no name is ever left out. */
  lemma StoreStepNamesReferred(referred: seq<string>, c: Call, view: Stores)
    requires NamesReferred(referred, c) && c.PreStores? && WellNamed(view)
    ensures NamesReferred(referred, StoreStep(c, view))
  {
    hide RoleRules;
    NamesOfBuiltRules(c.got);
    if c.todo == [] {
      assert StoreNames(c.got) + {} == StoreNames(c.got);
    } else if c.todo[0] in view {
      NamesMove(c.todo, c.got, view[c.todo[0]]);
    }
  }

  lemma CallStepNamesReferred(cluster: Cluster, s: System, referred: seq<string>, i: nat, a: Action)
    requires WellFormed(s) && i < |s.calls| && NamesReferred(referred, s.calls[i])
    requires a.Step? ==> WellNamed(a.view)
    ensures |s.calls| <= |Next(cluster, s, a).calls| && NamesReferred(referred, Next(cluster, s, a).calls[i])
    ensures a.Step? && a.call == i && Next(cluster, s, a).role != s.role ==>
              var after := Next(cluster, s, a).role;
              && after != [] && Latest(after).Some?
              && CLUSTER_LABEL in Latest(after).value.labels && ListsExactly(Latest(after).value.rules, referred)
  {
    hide RoleRules;
    hide StoreStep;
    hide ListsExactly;
    hide LabelsNeedUpdate;
    hide BindingNeedsUpdate;
    hide RoleDiff;
    hide PatchRole;
    hide MergedBinding;
    hide BindingDiff;
    hide PatchBinding;
    hide BuildLabels;
    NextIsWellFormed(cluster, s, a);
    if a.Step? && a.call == i && !s.calls[i].Done? {
      var c := s.calls[i];
      if c.PreStores? {
        StoreStepNamesReferred(referred, c, a.view);
      } else if !OnBinding(c) {
        RoleStepKeepsLabels(cluster, s.role, c, a);
        PreWritesLabel(cluster, s.role, c, a);
      }
    }
  }

  lemma PreWritesLabel(cluster: Cluster, role: seq<Option<Role>>, c: Call, a: Action)
    requires role != [] && a.Step? && OfPre(c)
    ensures var written := RoleStep(cluster, role, c, a).1;
            written != [] ==> Latest(written).Some? && CLUSTER_LABEL in Latest(written).value.labels
  {
    if c.RoleSend? && IsCurrent(role, c.base) {
      var current := Latest(role).value;
      RolePatchReproduces(current, UpdatedRole(cluster, c.caller, c.rules, current));
    }
  }

  /**
   * In every run, with stale reads and any other writers, a Pre hook call for the Cluster's stores is
   * either requeued or goes on with rules that list exactly the referred names.
   */
  lemma {:induction false} StalePreNamesReferred(cluster: Cluster, s: System, actions: seq<Action>, p: nat, k: nat)
    requires WellFormed(s) && NamedViews(actions) && p < k <= |actions| && actions[p].StartPre?
    ensures var i := |After(cluster, s, actions, p).calls|;
            && i < |After(cluster, s, actions, k).calls|
            && NamesReferred(actions[p].referred, After(cluster, s, actions, k).calls[i])
    decreases k
  {
    hide Next;
    hide NamesReferred;
    var before, a := After(cluster, s, actions, k - 1), actions[k - 1];
    if k - 1 == p {
      StartNamesReferred(cluster, before, a.referred);
    } else {
      StalePreNamesReferred(cluster, s, actions, p, k - 1);
      CallStepNamesReferred(cluster, before, actions[p].referred, |After(cluster, s, actions, p).calls|, a);
    }
  }

  lemma StartNamesReferred(cluster: Cluster, s: System, referred: seq<string>)
    requires WellFormed(s)
    ensures var s' := Next(cluster, s, StartPre(referred));
            |s'.calls| == |s.calls| + 1 && NamesReferred(referred, s'.calls[|s.calls|])
  {
    assert StoreNames([]) == {};
  }

  // ---------------------------------------------------------------- the next reconcile

  /** A fresh run of one reconcile of `store`, with no one else acting; its calls may fail. */
  ghost predicate ReconcileAlone(cluster: Cluster, s: System, referred: seq<string>, store: string,
                                 actions: seq<Action>)
    requires WellFormed(s)
  {
    && FreshRun(cluster, s, referred, actions)
    && actions != [] && actions[0] == StartReconcile(store)
    && forall k :: 0 < k < |actions| ==> actions[k].Step? && actions[k].call == |s.calls|
  }

  /** After every such run in which the reconcile succeeds, the Role has the target rules. */
  ghost predicate HealedBy(cluster: Cluster, s: System, referred: seq<string>, store: string)
    requires WellFormed(s)
  {
    forall actions | ReconcileAlone(cluster, s, referred, store, actions) ::
      var end := After(cluster, s, actions, |actions|);
      |s.calls| < |end.calls| && end.calls[|s.calls|] == Done(Succeeded) ==>
        RulesAre(end.role, Target(referred, s.stores))
  }

  /** How far call `i`, the reconcile, is on its way to the target. */
  ghost predicate Healing(s: System, now: System, referred: seq<string>, store: string, i: nat) {
    var target := Target(referred, s.stores);
    && WellFormed(now) && i < |now.calls| && now.stores == s.stores && Latest(now.role).Some?
    && match now.calls[i]
       case ListRoles(name) => name == store && now.role == s.role
       case ControllerStores(todo, got) => RoleRules(got + Existing(todo, s.stores)) == target
       case RoleGet(caller, rules) => caller.Controller? && rules == target
       case RoleSend(caller, rules, base) => caller.Controller? && rules == target && base == |now.role| - 1
       case Done(result) => result == Succeeded ==> RulesAre(now.role, target)
       case _ => false
  }

  lemma HealingStep(cluster: Cluster, s: System, now: System, referred: seq<string>, store: string, i: nat, a: Action)
    requires Healing(s, now, referred, store, i) && Fresh(now, referred, a) && a.Step? && a.call == i
    requires WellFormed(s) && Latest(s.role).Some? && Listed(Latest(s.role).value, store)
    requires RoleRules(Existing(ObjectStoreNames(Latest(s.role).value.rules), s.stores)) == Target(referred, s.stores)
    ensures Healing(s, Next(cluster, now, a), referred, store, i)
  {
    hide RoleRules;
    NextIsWellFormed(cluster, now, a);
    var c := now.calls[i];
    if c.ListRoles? {
      var names := ObjectStoreNames(Latest(s.role).value.rules);
      assert [] + Existing(names, s.stores) == Existing(names, s.stores);
    } else if c.ControllerStores? && c.todo == [] {
      assert c.got + Existing(c.todo, s.stores) == c.got;
    } else if c.ControllerStores? {
      ExistingStep(c.todo, c.got, s.stores);
    } else if c.RoleSend? {
      RoleStepKeepsLabels(cluster, now.role, c, a);
    }
  }

  lemma {:induction false} HealingRun(cluster: Cluster, s: System, referred: seq<string>, store: string,
                                      actions: seq<Action>, k: nat)
    requires WellFormed(s) && Latest(s.role).Some? && Listed(Latest(s.role).value, store)
    requires RoleRules(Existing(ObjectStoreNames(Latest(s.role).value.rules), s.stores)) == Target(referred, s.stores)
    requires ReconcileAlone(cluster, s, referred, store, actions) && 0 < k <= |actions|
    ensures Healing(s, After(cluster, s, actions, k), referred, store, |s.calls|)
  {
    hide RoleRules;
    hide Fresh;
    if k == 1 {
      assert After(cluster, s, actions, 0) == s;
    } else {
      hide Next;
      HealingRun(cluster, s, referred, store, actions, k - 1);
      HealingStep(cluster, s, After(cluster, s, actions, k - 1), referred, store, |s.calls|, actions[k - 1]);
    }
  }

  /**
   * The next reconcile, of any store the Role lists, heals the Role exactly when the Role lists, of
   * the object stores that exist, those the Cluster refers to: wrong secrets are healed, lost names
   * are not.
   */
  lemma NextReconcileHealsExactly(cluster: Cluster, s: System, referred: seq<string>, store: string)
    requires WellFormed(s) && WellNamed(s.stores)
    requires Latest(s.role).Some? && Listed(Latest(s.role).value, store)
    ensures HealedBy(cluster, s, referred, store) <==>
            forall n :: n in s.stores ==> (n in ObjectStoreNames(Latest(s.role).value.rules) <==> n in referred)
  {
    hide RoleRules;
    hide After;
    hide FreshRun;
    var names := ObjectStoreNames(Latest(s.role).value.rules);
    HealsExactly(names, referred, s.stores);
    if RoleRules(Existing(names, s.stores)) == Target(referred, s.stores) {
      forall actions | ReconcileAlone(cluster, s, referred, store, actions)
        ensures var end := After(cluster, s, actions, |actions|);
                |s.calls| < |end.calls| && end.calls[|s.calls|] == Done(Succeeded) ==>
                  RulesAre(end.role, Target(referred, s.stores))
      {
        HealingRun(cluster, s, referred, store, actions, |actions|);
      }
    } else {
      var actions := WholeReconcile(cluster, s, referred, store);
    }
  }

  /** A reconcile left alone succeeds. */
  lemma WholeReconcile(cluster: Cluster, s: System, referred: seq<string>, store: string) returns (actions: seq<Action>)
    requires WellFormed(s) && Latest(s.role).Some? && Listed(Latest(s.role).value, store)
    ensures ReconcileAlone(cluster, s, referred, store, actions)
    ensures var end := After(cluster, s, actions, |actions|);
            && |s.calls| < |end.calls| && end.calls[|s.calls|] == Done(Succeeded) && end.stores == s.stores
            && Latest(end.role).Some? && CLUSTER_LABEL in Latest(end.role).value.labels
            && RulesAre(end.role, RoleRules(Existing(ObjectStoreNames(Latest(s.role).value.rules), s.stores)))
  {
    hide RoleRules;
    hide Next;
    hide FreshRun;
    hide ObjectStoreNames;
    var older := RoleRules(Existing(ObjectStoreNames(Latest(s.role).value.rules), s.stores));
    var first := ReconcileReads(cluster, s, referred, store);
    var middle := After(cluster, s, first, |first|);
    var last := ReconcileWrites(cluster, middle, referred, |s.calls|, older);
    JoinedFresh(cluster, s, referred, first, last);
    actions := first + last;
  }

  /**
   * The rules a Pre hook call wrote from stale object stores, in whatever run, are healed by the next
   * reconcile of any referred store that runs undisturbed.
   */
  lemma StalePreIsHealed(cluster: Cluster, s: System, actions: seq<Action>, p: nat, k: nat, store: string)
    requires WellFormed(s) && NamedViews(actions) && p < k < |actions| && actions[p].StartPre?
    requires actions[k].Step? && actions[k].call == |After(cluster, s, actions, p).calls|
    requires var written := After(cluster, s, actions, k + 1);
             written.role != After(cluster, s, actions, k).role && WellNamed(written.stores)
    requires store in actions[p].referred
    ensures HealedBy(cluster, After(cluster, s, actions, k + 1), actions[p].referred, store)
  {
    hide Next;
    hide NamesReferred;
    hide HealedBy;
    var i, referred := |After(cluster, s, actions, p).calls|, actions[p].referred;
    var written := After(cluster, s, actions, k + 1);
    StalePreNamesReferred(cluster, s, actions, p, k);
    CallStepNamesReferred(cluster, After(cluster, s, actions, k), referred, i, actions[k]);
    var names := ObjectStoreNames(Latest(written.role).value.rules);
    assert forall n :: n in names <==> n in Elements(names);
    assert forall n :: n in referred <==> n in Elements(referred);
    NextReconcileHealsExactly(cluster, written, referred, store);
  }

  /**
   * How a name gets lost: a referred store is deleted, a reconcile of another store drops its name,
   * and creating the store again does not bring it back.
   */
  lemma RecreatedStoreStaysLost(cluster: Cluster, s: System, referred: seq<string>, kept: string, lost: ObjectStore)
    returns (actions: seq<Action>)
    requires WellFormed(s) && WellNamed(s.stores) && kept in s.stores && lost.name !in s.stores && lost.name in referred
    requires Latest(s.role).Some? && Listed(Latest(s.role).value, kept)
    ensures ReconcileAlone(cluster, s, referred, kept, actions)
    ensures var after := After(cluster, s, actions, |actions|);
            var created := after.(stores := after.stores[lost.name := lost]);
            && |s.calls| < |after.calls| && after.calls[|s.calls|] == Done(Succeeded) && after.stores == s.stores
            && Latest(after.role).Some?
            && Listed(Latest(after.role).value, kept)
            && !HealedBy(cluster, created, referred, kept)
  {
    hide Next;
    hide HealedBy;
    hide RoleRules;
    hide ObjectStoreNames;
    actions := WholeReconcile(cluster, s, referred, kept);
    var after := After(cluster, s, actions, |actions|);
    var created := after.(stores := after.stores[lost.name := lost]);
    var names := ObjectStoreNames(Latest(s.role).value.rules);
    NamesOfBuiltRules(Existing(names, s.stores));
    ExistingNames(names, s.stores, lost.name);
    var left := ObjectStoreNames(Latest(after.role).value.rules);
    assert lost.name in left <==> lost.name in Elements(left);
    ExistingNames(names, s.stores, kept);
    assert kept in left <==> kept in Elements(left);
    NextReconcileHealsExactly(cluster, created, referred, kept);
  }
}
