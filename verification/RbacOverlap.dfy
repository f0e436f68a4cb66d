/**
 * Runs of single calls left alone, and what they show: a Pre hook call can always succeed, and a
 * reconcile that overlaps it imposes older rules exactly when the Role it started from does not list
 * the existing object stores the Cluster refers to.
 */
module RbacOverlap {
  import opened Prelude
  import opened RoleSpecs
  import opened RbacMerge
  import opened Versioned
  import opened RbacSystem
  import opened RbacConvergence

  // ---------------------------------------------------------------- runs one after the other

  lemma {:induction false} Joined(cluster: Cluster, s: System, a: seq<Action>, b: seq<Action>, k: nat)
    requires WellFormed(s) && k <= |a + b|
    ensures After(cluster, s, a + b, k) ==
            if k <= |a| then After(cluster, s, a, k) else After(cluster, After(cluster, s, a, |a|), b, k - |a|)
  {
    hide Next;
    if k > 0 { Joined(cluster, s, a, b, k - 1); }
  }

  /** A fresh run after a fresh run is a fresh run. */
  lemma JoinedFresh(cluster: Cluster, s: System, referred: seq<string>, a: seq<Action>, b: seq<Action>)
    requires WellFormed(s) && FreshRun(cluster, s, referred, a)
    requires FreshRun(cluster, After(cluster, s, a, |a|), referred, b)
    ensures FreshRun(cluster, s, referred, a + b)
    ensures After(cluster, s, a + b, |a + b|) == After(cluster, After(cluster, s, a, |a|), b, |b|)
  {
    hide Next;
    hide Fresh;
    forall k | 0 <= k < |a + b| ensures Fresh(After(cluster, s, a + b, k), referred, (a + b)[k]) {
      Joined(cluster, s, a, b, k);
    }
    Joined(cluster, s, a, b, |a + b|);
  }

  /** A run of one action. */
  lemma Single(cluster: Cluster, s: System, referred: seq<string>, a: Action)
    requires WellFormed(s) && Fresh(s, referred, a)
    ensures FreshRun(cluster, s, referred, [a])
    ensures After(cluster, s, [a], 1) == Next(cluster, s, a)
  {
    hide Next;
    hide Fresh;
    assert After(cluster, s, [a], 0) == s;
  }

  /** The next step of call `i`, with a fresh read and no failure. */
  ghost function Solo(s: System, i: nat): Action {
    Step(i, |s.role| + |s.binding|, s.stores, false, false, false)
  }

  lemma SoloIsFresh(s: System, referred: seq<string>, i: nat)
    requires WellFormed(s)
    ensures Fresh(s, referred, Solo(s, i))
  {
  }

  /** Nothing but call `i` and the two objects differ. */
  ghost predicate OthersStay(s: System, s': System, i: nat) {
    && s'.stores == s.stores
    && |s'.calls| == |s.calls|
    && forall j :: 0 <= j < |s.calls| && j != i ==> s'.calls[j] == s.calls[j]
  }

  // ---------------------------------------------------------------- a Pre hook call left alone

  /** How many steps a Pre hook call has left at most. */
  function Rank(c: Call): nat {
    match c
    case PreStores(todo, _) => |todo| + 8
    case RoleProbe(_) => 7
    case RoleCreate(_) => 6
    case RoleGet(_, _) => 5
    case RoleSend(_, _, _) => 4
    case BindProbe => 3
    case BindCreate => 2
    case BindReconcile(_) => 1
    case _ => 0
  }

  /** A call that, left alone from here on, succeeds and leaves the Role right. */
  ghost predicate OnCourse(cluster: Cluster, s: System, referred: seq<string>, c: Call) {
    var target := Target(referred, s.stores);
    && s.role != [] && s.binding != []
    && (Latest(s.binding).Some? ==> Latest(s.binding).value.roleRef == BuildBinding(cluster).roleRef)
    && (PastTheRole(c) ==> RoleRight(cluster, Latest(s.role), target))
    && match c
       case PreStores(todo, got) =>
         (forall n :: n in todo ==> n in s.stores) && RoleRules(got + Existing(todo, s.stores)) == target
       case RoleProbe(rules) => rules == target
       case RoleCreate(rules) => rules == target
       case RoleGet(caller, rules) => caller.PreHook? && rules == target && Latest(s.role).Some?
       case RoleSend(caller, rules, base) => caller.PreHook? && rules == target && IsCurrent(s.role, base)
       case BindProbe => true
       case BindCreate => Latest(s.binding).None?
       case BindReconcile(base) => IsCurrent(s.binding, base)
       case Done(result) => result == Succeeded
       case _ => false
  }

  lemma SoloRoleStep(cluster: Cluster, s: System, referred: seq<string>, i: nat)
    requires WellFormed(s) && i < |s.calls| && OnCourse(cluster, s, referred, s.calls[i])
    requires !s.calls[i].Done? && !OnBinding(s.calls[i])
    ensures var s' := Next(cluster, s, Solo(s, i));
            OthersStay(s, s', i) && OnCourse(cluster, s', referred, s'.calls[i]) && Rank(s'.calls[i]) < Rank(s.calls[i])
  {
    hide RoleRules;
    hide BuildLabels;
    hide LabelsNeedUpdate;
    var c := s.calls[i];
    if c.PreStores? {
      if c.todo == [] {
        assert c.got + Existing(c.todo, s.stores) == c.got;
      } else {
        ExistingStep(c.todo, c.got, s.stores);
      }
    } else if c.RoleSend? {
      var read := s.role[c.base].value;
      UpdatedIsRight(cluster, read, c.rules);
      RolePatchReproduces(read, UpdatedRole(cluster, PreHook, c.rules, read));
    } else if c.RoleCreate? {
      UpdatedIsRight(cluster, Role(map[], []), c.rules);
    }
  }

  lemma SoloBindStep(cluster: Cluster, s: System, referred: seq<string>, i: nat)
    requires WellFormed(s) && i < |s.calls| && OnCourse(cluster, s, referred, s.calls[i]) && OnBinding(s.calls[i])
    ensures var s' := Next(cluster, s, Solo(s, i));
            OthersStay(s, s', i) && OnCourse(cluster, s', referred, s'.calls[i]) && Rank(s'.calls[i]) < Rank(s.calls[i])
  {
    hide RoleRules;
    hide RoleRight;
    hide BindingNeedsUpdate;
    hide MergedBinding;
    hide BindingDiff;
    hide BuildLabels;
    hide LabelsNeedUpdate;
    hide BuildBinding;
    assert WellFormedCall(s, s.calls[i]);
  }

  lemma {:induction false} SoloPre(cluster: Cluster, s: System, referred: seq<string>, i: nat)
    returns (actions: seq<Action>)
    requires WellFormed(s) && i < |s.calls| && OnCourse(cluster, s, referred, s.calls[i])
    ensures FreshRun(cluster, s, referred, actions)
    ensures var end := After(cluster, s, actions, |actions|);
            && OthersStay(s, end, i) && end.calls[i] == Done(Succeeded)
            && RoleRight(cluster, Latest(end.role), Target(referred, s.stores))
    decreases Rank(s.calls[i])
  {
    hide Next;
    hide Fresh;
    hide RoleRules;
    hide RoleRight;
    hide BuildBinding;
    actions := [];
    if !s.calls[i].Done? {
      var a := Solo(s, i);
      SoloIsFresh(s, referred, i);
      Single(cluster, s, referred, a);
      if OnBinding(s.calls[i]) {
        SoloBindStep(cluster, s, referred, i);
      } else {
        SoloRoleStep(cluster, s, referred, i);
      }
      NextIsWellFormed(cluster, s, a);
      var rest := SoloPre(cluster, Next(cluster, s, a), referred, i);
      JoinedFresh(cluster, s, referred, [a], rest);
      actions := [a] + rest;
    }
  }

  /**
   * From any state in which the referred object stores exist and the RoleBinding, if any, refers to
   * the Cluster's Role, a Pre hook call left alone succeeds, whatever other calls are in flight.
   */
  lemma PreAloneSucceeds(cluster: Cluster, s: System, referred: seq<string>) returns (actions: seq<Action>)
    requires WellFormed(s) && forall n :: n in referred ==> n in s.stores
    requires Latest(s.binding).Some? ==> Latest(s.binding).value.roleRef == BuildBinding(cluster).roleRef
    ensures PreSucceeds(cluster, s, referred, actions, 0, |actions|)
    ensures var end := After(cluster, s, actions, |actions|);
            && end.stores == s.stores && |end.calls| == |s.calls| + 1 && end.calls[..|s.calls|] == s.calls
            && RoleRight(cluster, Latest(end.role), Target(referred, s.stores))
  {
    hide RoleRules;
    hide RoleRight;
    var start := StartPre(referred);
    Single(cluster, s, referred, start);
    var begun := Next(cluster, s, start);
    assert [] + Existing(referred, s.stores) == Existing(referred, s.stores);
    var rest := SoloPre(cluster, begun, referred, |s.calls|);
    JoinedFresh(cluster, s, referred, [start], rest);
    actions := [start] + rest;
    assert After(cluster, s, actions, 0) == s;
  }

  // ---------------------------------------------------------------- a reconcile left alone

  /** How many steps a reconcile has left before it turns to the Role it writes. */
  function ReadsLeft(s: System, c: Call): nat
    requires s.role != []
  {
    match c
    case ListRoles(_) => (if Latest(s.role).Some? then |ObjectStoreNames(Latest(s.role).value.rules)| else 0) + 2
    case ControllerStores(todo, _) => |todo| + 1
    case _ => 0
  }

  /** A reconcile that is about to compute these rules. */
  ghost predicate Reading(s: System, rules: seq<PolicyRule>, c: Call) {
    && s.role != []
    && match c
       case ListRoles(store) =>
         Latest(s.role).Some? && Listed(Latest(s.role).value, store) &&
         RoleRules(Existing(ObjectStoreNames(Latest(s.role).value.rules), s.stores)) == rules
       case ControllerStores(todo, got) => RoleRules(got + Existing(todo, s.stores)) == rules
       case _ => c == RoleGet(Controller, rules)
  }

  lemma ReadingStep(cluster: Cluster, s: System, rules: seq<PolicyRule>, i: nat)
    requires WellFormed(s) && i < |s.calls| && Reading(s, rules, s.calls[i]) && !s.calls[i].RoleGet?
    ensures var s' := Next(cluster, s, Solo(s, i));
            && OthersStay(s, s', i) && s'.role == s.role && s'.binding == s.binding
            && Reading(s', rules, s'.calls[i]) && ReadsLeft(s', s'.calls[i]) < ReadsLeft(s, s.calls[i])
  {
    hide RoleRules;
    var c := s.calls[i];
    if c.ListRoles? {
      var names := ObjectStoreNames(Latest(s.role).value.rules);
      assert [] + Existing(names, s.stores) == Existing(names, s.stores);
    } else if c.todo == [] {
      assert c.got + Existing(c.todo, s.stores) == c.got;
    } else {
      ExistingStep(c.todo, c.got, s.stores);
    }
  }

  lemma {:induction false} SoloReads(cluster: Cluster, s: System, referred: seq<string>, rules: seq<PolicyRule>, i: nat)
    returns (actions: seq<Action>)
    requires WellFormed(s) && i < |s.calls| && Reading(s, rules, s.calls[i])
    ensures FreshRun(cluster, s, referred, actions)
    ensures forall k :: 0 <= k < |actions| ==> actions[k].Step? && actions[k].call == i
    ensures var end := After(cluster, s, actions, |actions|);
            && OthersStay(s, end, i) && end.role == s.role && end.binding == s.binding
            && end.calls[i] == RoleGet(Controller, rules)
    decreases ReadsLeft(s, s.calls[i])
  {
    hide Next;
    hide Fresh;
    hide RoleRules;
    actions := [];
    if !s.calls[i].RoleGet? {
      var a := Solo(s, i);
      SoloIsFresh(s, referred, i);
      Single(cluster, s, referred, a);
      ReadingStep(cluster, s, rules, i);
      NextIsWellFormed(cluster, s, a);
      var rest := SoloReads(cluster, Next(cluster, s, a), referred, rules, i);
      JoinedFresh(cluster, s, referred, [a], rest);
      actions := [a] + rest;
    }
  }

  /** A reconcile of a store the Role lists, up to the point where it turns to the Role. */
  lemma ReconcileReads(cluster: Cluster, s: System, referred: seq<string>, store: string)
    returns (actions: seq<Action>)
    requires WellFormed(s) && Latest(s.role).Some? && Listed(Latest(s.role).value, store)
    ensures FreshRun(cluster, s, referred, actions)
    ensures actions != [] && actions[0] == StartReconcile(store)
    ensures forall k :: 0 < k < |actions| ==> actions[k].Step? && actions[k].call == |s.calls|
    ensures var end := After(cluster, s, actions, |actions|);
            && end.stores == s.stores && end.role == s.role && end.binding == s.binding
            && end.calls == s.calls +
              [RoleGet(Controller, RoleRules(Existing(ObjectStoreNames(Latest(s.role).value.rules), s.stores)))]
  {
    hide RoleRules;
    var rules := RoleRules(Existing(ObjectStoreNames(Latest(s.role).value.rules), s.stores));
    var start := StartReconcile(store);
    Single(cluster, s, referred, start);
    var rest := SoloReads(cluster, Next(cluster, s, start), referred, rules, |s.calls|);
    JoinedFresh(cluster, s, referred, [start], rest);
    actions := [start] + rest;
  }

  /** The last two steps of a reconcile left alone leave the Role with its rules. */
  lemma ReconcileWrites(cluster: Cluster, s: System, referred: seq<string>, i: nat, rules: seq<PolicyRule>)
    returns (actions: seq<Action>)
    requires WellFormed(s) && i < |s.calls| && s.calls[i] == RoleGet(Controller, rules) && Latest(s.role).Some?
    ensures FreshRun(cluster, s, referred, actions)
    ensures forall k :: 0 <= k < |actions| ==> actions[k].Step? && actions[k].call == i
    ensures var end := After(cluster, s, actions, |actions|);
            && OthersStay(s, end, i) && end.calls[i] == Done(Succeeded)
            && Latest(end.role).Some? && Latest(end.role).value.rules == rules
            && forall l :: l in Latest(s.role).value.labels ==> l in Latest(end.role).value.labels
  {
    hide RoleRules;
    hide BuildLabels;
    hide LabelsNeedUpdate;
    var first := Solo(s, i);
    SoloIsFresh(s, referred, i);
    Single(cluster, s, referred, first);
    var middle := Next(cluster, s, first);
    actions := [first];
    if middle.calls[i].RoleSend? {
      var second := Solo(middle, i);
      SoloIsFresh(middle, referred, i);
      Single(cluster, middle, referred, second);
      RoleStepKeepsLabels(cluster, middle.role, middle.calls[i], second);
      JoinedFresh(cluster, s, referred, [first], [second]);
      actions := [first] + [second];
    }
  }

  // ---------------------------------------------------------------- overlapping

  ghost predicate RulesAre(role: seq<Option<Role>>, rules: seq<PolicyRule>) {
    role != [] && Latest(role).Some? && Latest(role).value.rules == rules
  }

  /** In every fresh run, the target rules are in place for good once a Pre hook call has succeeded. */
  ghost predicate PreIsFinal(cluster: Cluster, s: System, referred: seq<string>)
    requires WellFormed(s)
  {
    forall actions, p: nat, m: nat, k: nat | PreSucceeds(cluster, s, referred, actions, p, m) && m <= k <= |actions| ::
      RulesAre(After(cluster, s, actions, k).role, Target(referred, s.stores))
  }

  /**
   * A reconcile that has read its object stores before the Pre hook call starts, and writes after it
   * has succeeded, imposes the rules of the names the Role used to list.
   */
  lemma OverlapImposesOlderRules(cluster: Cluster, s: System, referred: seq<string>, store: string)
    returns (actions: seq<Action>, p: nat, m: nat)
    requires WellFormed(s) && forall n :: n in referred ==> n in s.stores
    requires Latest(s.binding).Some? ==> Latest(s.binding).value.roleRef == BuildBinding(cluster).roleRef
    requires Latest(s.role).Some? && Listed(Latest(s.role).value, store)
    ensures PreSucceeds(cluster, s, referred, actions, p, m) && m <= |actions|
    ensures RulesAre(After(cluster, s, actions, m).role, Target(referred, s.stores))
    ensures RulesAre(After(cluster, s, actions, |actions|).role,
                     RoleRules(Existing(ObjectStoreNames(Latest(s.role).value.rules), s.stores)))
  {
    hide RoleRules;
    hide FreshRun;
    hide Next;
    hide BuildBinding;
    hide ObjectStoreNames;
    var older := RoleRules(Existing(ObjectStoreNames(Latest(s.role).value.rules), s.stores));
    var reading := ReconcileReads(cluster, s, referred, store);
    var s1 := After(cluster, s, reading, |reading|);
    var pre := PreAloneSucceeds(cluster, s1, referred);
    var s2 := After(cluster, s1, pre, |pre|);
    assert s2.calls[|s.calls|] == s1.calls[|s.calls|];
    var writes := ReconcileWrites(cluster, s2, referred, |s.calls|, older);
    JoinedFresh(cluster, s1, referred, pre, writes);
    JoinedFresh(cluster, s, referred, reading, pre + writes);
    actions, p, m := reading + (pre + writes), |reading|, |reading| + |pre|;
    Joined(cluster, s, reading, pre + writes, p);
    Joined(cluster, s, reading, pre + writes, m);
    Joined(cluster, s1, pre, writes, |pre|);
    assert actions[p] == pre[0];
  }

  /**
   * A successful Pre hook call settles the Role for good, under every interleaving with reconciles,
   * exactly when no reconcile could find the Role by the object stores it lists at the start, or of
   * those that exist it lists the ones the Cluster refers to.
   */
  lemma OnePreConvergesExactly(cluster: Cluster, s: System, referred: seq<string>)
    requires WellFormed(s) && WellNamed(s.stores) && forall j :: 0 <= j < |s.calls| ==> s.calls[j].Done?
    requires forall n :: n in referred ==> n in s.stores
    requires Latest(s.binding).Some? ==> Latest(s.binding).value.roleRef == BuildBinding(cluster).roleRef
    ensures PreIsFinal(cluster, s, referred) <==> Undisturbing(Latest(s.role), referred, s.stores)
  {
    hide RoleRules;
    hide ObjectStoreNames;
    hide PreSucceeds;
    hide After;
    if Undisturbing(Latest(s.role), referred, s.stores) {
      forall actions, p: nat, m: nat, k: nat | PreSucceeds(cluster, s, referred, actions, p, m) && m <= k <= |actions|
        ensures RulesAre(After(cluster, s, actions, k).role, Target(referred, s.stores))
      {
        OnePreConverges(cluster, s, referred, actions, p, m, k);
      }
    } else {
      var names := ObjectStoreNames(Latest(s.role).value.rules);
      var actions, p, m := OverlapImposesOlderRules(cluster, s, referred, names[0]);
      HealsExactly(names, referred, s.stores);
      assert !RulesAre(After(cluster, s, actions, |actions|).role, Target(referred, s.stores));
    }
  }
}
