/**
 * Convergence of the two writers of the Role. From here on object stores have stopped changing,
 * no other client writes, and reads are fresh; API calls may still fail at any point.
 */
module RbacConvergence {
  import opened Prelude
  import opened TextOrder
  import opened RoleSpecs
  import opened RbacMerge
  import opened Versioned
  import opened RbacSystem

  /** The object stores of these names that exist, in this order. */
  ghost function Existing(names: seq<string>, stores: Stores): seq<ObjectStore> {
    if names == [] then []
    else (if names[0] in stores then [stores[names[0]]] else []) + Existing(names[1..], stores)
  }

  ghost predicate WellNamed(stores: Stores) {
    forall n :: n in stores ==> stores[n].name == n
  }

  lemma {:induction false} ExistingExactly(names: seq<string>, stores: Stores, s: ObjectStore)
    requires WellNamed(stores)
    ensures s in Existing(names, stores) <==> s.name in names && s.name in stores && stores[s.name] == s
  {
    if names != [] { ExistingExactly(names[1..], stores, s); }
  }

  /** The rules the Pre hook wants for the object stores its Cluster refers to. */
  ghost function Target(referred: seq<string>, stores: Stores): seq<PolicyRule> {
    RoleRules(Existing(referred, stores))
  }

  lemma {:induction false} ExistingNames(names: seq<string>, stores: Stores, n: string)
    requires WellNamed(stores)
    ensures n in StoreNames(Existing(names, stores)) <==> n in names && n in stores
  {
    if n in names && n in stores { ExistingExactly(names, stores, stores[n]); }
    if n in StoreNames(Existing(names, stores)) {
      var s :| s in Existing(names, stores) && s.name == n;
      ExistingExactly(names, stores, s);
    }
  }

  /**
   * A reconcile of a Role that lists `listed` computes the rules the Pre hook wants exactly when, of
   * the object stores that exist, the Role lists those the Cluster refers to.
   */
  lemma HealsExactly(listed: seq<string>, referred: seq<string>, stores: Stores)
    requires WellNamed(stores)
    ensures RoleRules(Existing(listed, stores)) == Target(referred, stores) <==>
            forall n :: n in stores ==> (n in listed <==> n in referred)
  {
    var a, b := Existing(listed, stores), Existing(referred, stores);
    forall n ensures n in StoreNames(a) <==> n in listed && n in stores
             ensures n in StoreNames(b) <==> n in referred && n in stores
    {
      ExistingNames(listed, stores, n);
      ExistingNames(referred, stores, n);
    }
    if forall n :: n in stores ==> (n in listed <==> n in referred) {
      forall s ensures s in a <==> s in b {
        ExistingExactly(listed, stores, s);
        ExistingExactly(referred, stores, s);
      }
      RulesIgnoreOrder(a, b);
    } else {
      NamesOfBuiltRules(a);
      NamesOfBuiltRules(b);
    }
  }

  /** A reconcile that starts from the target rules arrives at the target rules. */
  lemma TargetIsFixed(referred: seq<string>, stores: Stores)
    requires WellNamed(stores)
    ensures RoleRules(Existing(ObjectStoreNames(Target(referred, stores)), stores)) == Target(referred, stores)
  {
    var names := ObjectStoreNames(Target(referred, stores));
    NamesOfBuiltRules(Existing(referred, stores));
    forall n | n in stores ensures n in names <==> n in referred {
      assert n in names <==> n in Elements(names);
      ExistingNames(referred, stores, n);
    }
    HealsExactly(names, referred, stores);
  }

  ghost predicate Fresh(s: System, referred: seq<string>, a: Action)
    requires WellFormed(s)
  {
    match a
    case StartPre(names) => names == referred
    case StartReconcile(_) => true
    case Step(_, at, view, _, _, _) => at >= |s.role| && at >= |s.binding| && view == s.stores
    case _ => false
  }

  ghost predicate RoleRight(cluster: Cluster, role: Option<Role>, target: seq<PolicyRule>) {
    role.Some? && RoleMatches(cluster, PreHook, target, role.value)
  }

  ghost predicate BindingRight(cluster: Cluster, binding: Option<Binding>) {
    && binding.Some?
    && binding.value.roleRef == BuildBinding(cluster).roleRef
    && !BindingNeedsUpdate(binding.value, BuildBinding(cluster))
  }

  /** A call that will not write any more: all it read leads it to the target. */
  ghost predicate Settled(s: System, referred: seq<string>, c: Call) {
    var target := Target(referred, s.stores);
    match c
    case PreStores(todo, got) => RoleRules(got + Existing(todo, s.stores)) == target
    case ControllerStores(todo, got) => RoleRules(got + Existing(todo, s.stores)) == target
    case RoleProbe(rules) => rules == target
    case RoleCreate(rules) => rules == target
    case RoleGet(_, rules) => rules == target
    case RoleSend(_, rules, base) => rules == target && base < |s.role| - 1
    case _ => true
  }

  ghost predicate Converged(cluster: Cluster, s: System, referred: seq<string>) {
    && WellFormed(s)
    && WellNamed(s.stores)
    && RoleRight(cluster, Latest(s.role), Target(referred, s.stores))
    && BindingRight(cluster, Latest(s.binding))
    && forall i :: 0 <= i < |s.calls| ==> Settled(s, referred, s.calls[i])
  }

  lemma ExistingStep(todo: seq<string>, got: seq<ObjectStore>, stores: Stores)
    requires todo != []
    ensures todo[0] in stores ==>
              got + Existing(todo, stores) == got + [stores[todo[0]]] + Existing(todo[1..], stores)
    ensures todo[0] !in stores ==> Existing(todo, stores) == Existing(todo[1..], stores)
  {
  }

  lemma SettledStoreStep(s: System, referred: seq<string>, c: Call)
    requires c.PreStores? || c.ControllerStores?
    requires Settled(s, referred, c)
    ensures Settled(s, referred, StoreStep(c, s.stores)) && !StoreStep(c, s.stores).RoleSend?
  {
    hide RoleRules;
    if c.todo == [] {
      assert c.got + Existing(c.todo, s.stores) == c.got;
    } else {
      ExistingStep(c.todo, c.got, s.stores);
    }
  }

  lemma SettledRoleStep(cluster: Cluster, s: System, referred: seq<string>, c: Call, a: Action)
    requires Converged(cluster, s, referred) && Settled(s, referred, c) && a.Step? && Fresh(s, referred, a)
    ensures var (next, written) := RoleStep(cluster, s.role, c, a);
            written == [] && Settled(s, referred, next) && (next.RoleSend? ==> next == c)
  {
    hide RoleRules;
    hide LabelsNeedUpdate;
    hide BindingRight;
    if c.ListRoles? {
      TargetIsFixed(referred, s.stores);
      var names := ObjectStoreNames(Target(referred, s.stores));
      assert [] + Existing(names, s.stores) == Existing(names, s.stores);
    }
  }

  lemma SettledBindStep(cluster: Cluster, s: System, c: Call, a: Action)
    requires s.binding != [] && BindingRight(cluster, Latest(s.binding)) && a.Step? && OnBinding(c)
    requires WellFormedCall(s, c)
    ensures var (next, written) := BindStep(cluster, s.binding, c, a);
            written == [] && (OnBinding(next) || next.Done?)
  {
    hide BindingNeedsUpdate;
  }

  /** Every call about to send a patch of the Role later was already about to send it. */
  ghost predicate NoNewSender(s: System, s': System) {
    |s.calls| <= |s'.calls| &&
    forall i :: 0 <= i < |s'.calls| && s'.calls[i].RoleSend? ==> i < |s.calls| && s'.calls[i] == s.calls[i]
  }

  /**
   * Once converged, every fresh action of any mix of Pre hook calls and reconciles leaves both
   * objects as they are, and no call gets to the point of sending a patch of the Role.
   */
  lemma ConvergedStays(cluster: Cluster, s: System, referred: seq<string>, a: Action)
    requires Converged(cluster, s, referred) && Fresh(s, referred, a)
    ensures var s' := Next(cluster, s, a);
            && Converged(cluster, s', referred)
            && s'.role == s.role && s'.binding == s.binding && s'.stores == s.stores
            && NoNewSender(s, s')
  {
    hide RoleRules;
    hide RoleStep;
    hide BindStep;
    hide StoreStep;
    hide RoleRight;
    hide BindingRight;
    NextIsWellFormed(cluster, s, a);
    if a.StartPre? {
      assert [] + Existing(referred, s.stores) == Existing(referred, s.stores);
    } else if a.Step? && a.call < |s.calls| {
      var c := s.calls[a.call];
      assert Settled(s, referred, c) && WellFormedCall(s, c);
      if c.PreStores? || c.ControllerStores? {
        SettledStoreStep(s, referred, c);
      } else if OnBinding(c) {
        SettledBindStep(cluster, s, c, a);
      } else {
        SettledRoleStep(cluster, s, referred, c, a);
      }
    }
  }

  // ---------------------------------------------------------------- getting there

  /** The rules a reconcile would give the Role, if it lists any object store at all, are the target. */
  ghost predicate Heals(role: Option<Role>, referred: seq<string>, stores: Stores) {
    role.Some? && CLUSTER_LABEL in role.value.labels && ObjectStoreNames(role.value.rules) != [] ==>
      RoleRules(Existing(ObjectStoreNames(role.value.rules), stores)) == Target(referred, stores)
  }

  /** A call of either kind that can write nothing but the target, and only where something else is. */
  ghost predicate Aims(cluster: Cluster, s: System, referred: seq<string>, c: Call) {
    var target := Target(referred, s.stores);
    match c
    case PreStores(todo, got) => RoleRules(got + Existing(todo, s.stores)) == target
    case ControllerStores(todo, got) => RoleRules(got + Existing(todo, s.stores)) == target
    case RoleProbe(rules) => rules == target
    case RoleCreate(rules) => rules == target
    case RoleGet(_, rules) => rules == target
    case RoleSend(caller, rules, base) =>
      rules == target && base < |s.role| && s.role[base].Some? &&
        !RoleMatches(cluster, caller, target, s.role[base].value)
    case BindReconcile(base) =>
      s.binding != [] && base < |s.binding| &&
      (BindingRight(cluster, s.binding[base]) ==> BindingRight(cluster, Latest(s.binding)))
    case _ => true
  }

  predicate PastTheRole(c: Call) {
    OnBinding(c) || c == Done(Succeeded)
  }

  /** A call that a Pre hook call can be at. */
  predicate OfPre(c: Call) {
    !c.ListRoles? && !c.ControllerStores? && (c.RoleGet? || c.RoleSend? ==> c.caller.PreHook?)
  }

  /** All calls aim at the target, and so would every reconcile to come. */
  ghost predicate Aiming(cluster: Cluster, s: System, referred: seq<string>) {
    && WellFormed(s)
    && WellNamed(s.stores)
    && Heals(Latest(s.role), referred, s.stores)
    && forall i :: 0 <= i < |s.calls| ==> Aims(cluster, s, referred, s.calls[i])
  }

  /** Call `i` is one of the Pre hook, which leaves right what it has dealt with. */
  ghost predicate PreAt(cluster: Cluster, s: System, referred: seq<string>, i: nat) {
    && s.role != [] && s.binding != []
    && i < |s.calls|
    && OfPre(s.calls[i])
    && (PastTheRole(s.calls[i]) ==> RoleRight(cluster, Latest(s.role), Target(referred, s.stores)))
    && (s.calls[i] == Done(Succeeded) ==> BindingRight(cluster, Latest(s.binding)))
  }

  lemma UpdatedIsRight(cluster: Cluster, role: Role, target: seq<PolicyRule>)
    ensures RoleRight(cluster, Some(UpdatedRole(cluster, PreHook, target, role)), target)
    ensures RoleRight(cluster, Some(Role(BuildLabels(cluster), target)), target)
  {
  }

  /** A step on the Role writes the target or nothing, and what is right stays right. */
  lemma RoleStepAims(cluster: Cluster, s: System, referred: seq<string>, c: Call, a: Action)
    requires Aiming(cluster, s, referred) && a.Step? && Fresh(s, referred, a) && WellFormedCall(s, c)
    requires Aims(cluster, s, referred, c) && !OnBinding(c) && !c.PreStores? && !c.ControllerStores?
    ensures var (next, written) := RoleStep(cluster, s.role, c, a);
            && Aims(cluster, s.(role := s.role + written), referred, next)
            && (written != [] ==> Latest(written).Some? && Latest(written).value.rules == Target(referred, s.stores))
            && (RoleRight(cluster, Latest(s.role), Target(referred, s.stores)) ==> written == [])
            && (OfPre(c) ==> OfPre(next))
            && (OfPre(c) && PastTheRole(next) && !PastTheRole(c) ==>
                  RoleRight(cluster, Latest(s.role + written), Target(referred, s.stores)))
            && (OfPre(c) && next == Done(Succeeded) ==> c == next)
  {
    hide RoleRules;
    hide LabelsNeedUpdate;
    hide BuildLabels;
    hide BindingRight;
    hide ObjectStoreNames;
    if c.RoleSend? && IsCurrent(s.role, c.base) {
      var read := s.role[c.base].value;
      UpdatedIsRight(cluster, read, c.rules);
      RolePatchReproduces(read, UpdatedRole(cluster, c.caller, c.rules, read));
    } else if c.RoleCreate? {
      UpdatedIsRight(cluster, Role(map[], []), c.rules);
    } else if c.ListRoles? && Latest(s.role).Some? {
      var names := ObjectStoreNames(Latest(s.role).value.rules);
      assert [] + Existing(names, s.stores) == Existing(names, s.stores);
    }
  }

  lemma BindStepAims(cluster: Cluster, s: System, referred: seq<string>, c: Call, a: Action)
    requires WellFormed(s) && a.Step? && Fresh(s, referred, a) && WellFormedCall(s, c)
    requires Aims(cluster, s, referred, c) && OnBinding(c)
    ensures var (next, written) := BindStep(cluster, s.binding, c, a);
            && Aims(cluster, s.(binding := s.binding + written), referred, next)
            && (written != [] ==> BindingRight(cluster, Latest(written)))
            && (next == Done(Succeeded) ==> BindingRight(cluster, Latest(s.binding + written)))
            && (OnBinding(next) || next.Done?)
  {
    hide BuildBinding;
    hide RoleRight;
    hide BindingNeedsUpdate;
    hide BindingDiff;
    hide PatchBinding;
    hide RoleRules;
    var desired := BuildBinding(cluster);
    if c.BindReconcile? {
      var read := s.binding[c.base].value;
      MergedBindingNeedsNothing(read, desired);
      BindingPatchReproduces(read, MergedBinding(read, desired));
    } else if c.BindCreate? {
      FreshBindingIsRight(desired);
    }
  }

  lemma FreshBindingIsRight(desired: Binding)
    ensures !BindingNeedsUpdate(desired, desired)
  {
  }

  lemma StoreStepAims(cluster: Cluster, s: System, referred: seq<string>, c: Call)
    requires (c.PreStores? || c.ControllerStores?) && Aims(cluster, s, referred, c)
    ensures var next := StoreStep(c, s.stores);
            Aims(cluster, s, referred, next) && !PastTheRole(next) && (OfPre(c) ==> OfPre(next))
  {
    hide RoleRules;
    hide RoleRight;
    hide BindingRight;
    if c.todo == [] {
      assert c.got + Existing(c.todo, s.stores) == c.got;
    } else {
      ExistingStep(c.todo, c.got, s.stores);
    }
  }

  /** The system after call `i` moved on to `next` and wrote these versions. */
  function Moved(s: System, i: nat, next: Call, newRole: seq<Option<Role>>, newBinding: seq<Option<Binding>>): System
    requires i < |s.calls|
  {
    s.(role := s.role + newRole, binding := s.binding + newBinding, calls := s.calls[i := next])
  }

  /** What one step of any call may do. */
  ghost predicate GoodMove(cluster: Cluster, s: System, referred: seq<string>, i: nat, next: Call,
                           newRole: seq<Option<Role>>, newBinding: seq<Option<Binding>>)
    requires i < |s.calls| && s.role != [] && s.binding != []
  {
    var s' := Moved(s, i, next, newRole, newBinding);
    var target := Target(referred, s.stores);
    && WellFormed(s')
    && Aims(cluster, s', referred, next)
    && (newRole != [] ==> Latest(newRole).Some? && Latest(newRole).value.rules == target)
    && (RoleRight(cluster, Latest(s.role), target) ==> newRole == [])
    && (newBinding != [] ==> BindingRight(cluster, Latest(newBinding)))
    && (OfPre(s.calls[i]) ==> OfPre(next))
    && (OfPre(s.calls[i]) && PastTheRole(next) && !PastTheRole(s.calls[i]) ==>
        RoleRight(cluster, Latest(s'.role), target))
    && (OfPre(s.calls[i]) && next == Done(Succeeded) ==> BindingRight(cluster, Latest(s'.binding)))
  }

  lemma GoodMoveKeepsAiming(cluster: Cluster, s: System, referred: seq<string>, i: nat, next: Call,
                            newRole: seq<Option<Role>>, newBinding: seq<Option<Binding>>)
    requires Aiming(cluster, s, referred) && i < |s.calls|
    requires GoodMove(cluster, s, referred, i, next, newRole, newBinding)
    ensures Aiming(cluster, Moved(s, i, next, newRole, newBinding), referred)
  {
    hide RoleRules;
    hide RoleRight;
    hide BindingRight;
    hide RoleMatches;
    hide ObjectStoreNames;
    TargetIsFixed(referred, s.stores);
  }

  lemma GoodMoveWrites(cluster: Cluster, s: System, referred: seq<string>, i: nat, next: Call,
                       newRole: seq<Option<Role>>, newBinding: seq<Option<Binding>>)
    requires i < |s.calls| && s.role != [] && s.binding != []
    requires GoodMove(cluster, s, referred, i, next, newRole, newBinding)
    ensures var role := Moved(s, i, next, newRole, newBinding).role;
            role != s.role ==>
              && !RoleRight(cluster, Latest(s.role), Target(referred, s.stores))
              && Latest(role).Some? && Latest(role).value.rules == Target(referred, s.stores)
  {
    hide RoleRight;
    hide BindingRight;
    hide Aims;
    assert s.role + [] == s.role;
  }

  lemma GoodMoveKeepsPre(cluster: Cluster, s: System, referred: seq<string>, i: nat, next: Call,
                         newRole: seq<Option<Role>>, newBinding: seq<Option<Binding>>, p: nat)
    requires Aiming(cluster, s, referred) && i < |s.calls|
    requires GoodMove(cluster, s, referred, i, next, newRole, newBinding)
    requires PreAt(cluster, s, referred, p)
    ensures PreAt(cluster, Moved(s, i, next, newRole, newBinding), referred, p)
  {
    hide RoleRules;
    hide RoleRight;
    hide BindingRight;
    hide Aims;
  }

  /** What a step of a call does, as a move. */
  lemma StepIsGood(cluster: Cluster, s: System, referred: seq<string>, a: Action)
    returns (next: Call, newRole: seq<Option<Role>>, newBinding: seq<Option<Binding>>)
    requires Aiming(cluster, s, referred) && Fresh(s, referred, a)
    requires a.Step? && a.call < |s.calls| && !s.calls[a.call].Done?
    ensures GoodMove(cluster, s, referred, a.call, next, newRole, newBinding)
    ensures Next(cluster, s, a) == Moved(s, a.call, next, newRole, newBinding)
  {
    hide RoleRules;
    hide RoleStep;
    hide BindStep;
    hide StoreStep;
    hide RoleRight;
    hide BindingRight;
    NextIsWellFormed(cluster, s, a);
    var c := s.calls[a.call];
    assert WellFormedCall(s, c) && Aims(cluster, s, referred, c);
    newRole, newBinding := [], [];
    assert s.role + [] == s.role && s.binding + [] == s.binding;
    if a.fails {
      next := Done(Errored);
    } else if c.PreStores? || c.ControllerStores? {
      StoreStepAims(cluster, s, referred, c);
      next := Seen(a, StoreStep(c, s.stores));
    } else if OnBinding(c) {
      BindStepAims(cluster, s, referred, c, a);
      next, newBinding := Seen(a, BindStep(cluster, s.binding, c, a).0), BindStep(cluster, s.binding, c, a).1;
    } else {
      RoleStepAims(cluster, s, referred, c, a);
      next, newRole := Seen(a, RoleStep(cluster, s.role, c, a).0), RoleStep(cluster, s.role, c, a).1;
    }
  }

  lemma AimingStays(cluster: Cluster, s: System, referred: seq<string>, a: Action)
    requires Aiming(cluster, s, referred) && Fresh(s, referred, a)
    ensures Aiming(cluster, Next(cluster, s, a), referred) && Next(cluster, s, a).stores == s.stores
    ensures forall p :: PreAt(cluster, s, referred, p) ==> PreAt(cluster, Next(cluster, s, a), referred, p)
    ensures a.StartPre? ==> PreAt(cluster, Next(cluster, s, a), referred, |s.calls|)
    ensures Next(cluster, s, a).role != s.role ==>
              && !RoleRight(cluster, Latest(s.role), Target(referred, s.stores))
              && Latest(Next(cluster, s, a).role).Some?
              && Latest(Next(cluster, s, a).role).value.rules == Target(referred, s.stores)
  {
    hide RoleRules;
    hide RoleStep;
    hide BindStep;
    hide StoreStep;
    hide RoleRight;
    hide BindingRight;
    hide Heals;
    hide GoodMove;
    NextIsWellFormed(cluster, s, a);
    if a.StartPre? {
      assert [] + Existing(referred, s.stores) == Existing(referred, s.stores);
    } else if a.Step? && a.call < |s.calls| && !s.calls[a.call].Done? {
      var next, newRole, newBinding := StepIsGood(cluster, s, referred, a);
      GoodMoveKeepsAiming(cluster, s, referred, a.call, next, newRole, newBinding);
      GoodMoveWrites(cluster, s, referred, a.call, next, newRole, newBinding);
      forall p | PreAt(cluster, s, referred, p) ensures PreAt(cluster, Next(cluster, s, a), referred, p) {
        GoodMoveKeepsPre(cluster, s, referred, a.call, next, newRole, newBinding, p);
      }
    }
  }

  /** Where all calls aim at the target, a Pre hook call that succeeded leaves the system converged. */
  lemma AimingConverges(cluster: Cluster, s: System, referred: seq<string>, i: nat)
    requires Aiming(cluster, s, referred) && PreAt(cluster, s, referred, i) && s.calls[i] == Done(Succeeded)
    ensures Converged(cluster, s, referred)
  {
    hide RoleRules;
    hide LabelsNeedUpdate;
    forall j | 0 <= j < |s.calls| ensures Settled(s, referred, s.calls[j]) {
      assert Aims(cluster, s, referred, s.calls[j]);
    }
  }

  ghost predicate FreshRun(cluster: Cluster, s: System, referred: seq<string>, actions: seq<Action>)
    requires WellFormed(s)
  {
    forall k :: 0 <= k < |actions| ==> Fresh(After(cluster, s, actions, k), referred, actions[k])
  }

  lemma {:induction false} AimingRun(cluster: Cluster, s: System, referred: seq<string>, actions: seq<Action>, k: nat)
    requires Aiming(cluster, s, referred) && FreshRun(cluster, s, referred, actions) && k <= |actions|
    ensures Aiming(cluster, After(cluster, s, actions, k), referred)
    ensures After(cluster, s, actions, k).stores == s.stores
  {
    hide Next;
    hide Aims;
    hide Heals;
    hide Fresh;
    if k > 0 {
      AimingRun(cluster, s, referred, actions, k - 1);
      AimingStays(cluster, After(cluster, s, actions, k - 1), referred, actions[k - 1]);
    }
  }

  /** The Pre hook call that action `p` starts, at any later time. */
  lemma {:induction false} PreRun(cluster: Cluster, s: System, referred: seq<string>, actions: seq<Action>,
                                  p: nat, k: nat)
    requires Aiming(cluster, s, referred) && FreshRun(cluster, s, referred, actions) && p < k <= |actions|
    requires actions[p].StartPre?
    ensures PreAt(cluster, After(cluster, s, actions, k), referred, |After(cluster, s, actions, p).calls|)
    decreases k
  {
    hide Next;
    hide Aims;
    hide Heals;
    hide PreAt;
    hide Fresh;
    AimingRun(cluster, s, referred, actions, k - 1);
    AimingStays(cluster, After(cluster, s, actions, k - 1), referred, actions[k - 1]);
    if p < k - 1 { PreRun(cluster, s, referred, actions, p, k - 1); }
  }

  lemma {:induction false} ConvergedRun(cluster: Cluster, s: System, referred: seq<string>, actions: seq<Action>,
                                        m: nat, k: nat)
    requires WellFormed(s) && FreshRun(cluster, s, referred, actions) && m <= k <= |actions|
    requires Converged(cluster, After(cluster, s, actions, m), referred)
    ensures Converged(cluster, After(cluster, s, actions, k), referred)
    ensures After(cluster, s, actions, k).role == After(cluster, s, actions, m).role
    ensures After(cluster, s, actions, k).binding == After(cluster, s, actions, m).binding
    ensures After(cluster, s, actions, k).stores == After(cluster, s, actions, m).stores
    ensures NoNewSender(After(cluster, s, actions, m), After(cluster, s, actions, k))
    decreases k
  {
    hide Next;
    hide Fresh;
    hide Converged;
    if k > m {
      ConvergedRun(cluster, s, referred, actions, m, k - 1);
      ConvergedStays(cluster, After(cluster, s, actions, k - 1), referred, actions[k - 1]);
    }
  }

  /** In this fresh run, the Pre hook call that action `p` starts has succeeded after `m` actions. */
  ghost predicate PreSucceeds(cluster: Cluster, s: System, referred: seq<string>, actions: seq<Action>, p: nat, m: nat)
    requires WellFormed(s)
  {
    && FreshRun(cluster, s, referred, actions)
    && p < m <= |actions|
    && actions[p].StartPre?
    && |After(cluster, s, actions, p).calls| < |After(cluster, s, actions, m).calls|
    && After(cluster, s, actions, m).calls[|After(cluster, s, actions, p).calls|] == Done(Succeeded)
  }

  /**
   * The Role lists no object store a reconcile could find it by, or, of those that exist, exactly
   * those the Cluster refers to.
   */
  ghost predicate Undisturbing(role: Option<Role>, referred: seq<string>, stores: Stores) {
    role.Some? && CLUSTER_LABEL in role.value.labels && ObjectStoreNames(role.value.rules) != [] ==>
      forall n :: n in stores ==> (n in ObjectStoreNames(role.value.rules) <==> n in referred)
  }

  /**
   * Once older calls are over, and with Pre hook calls and reconciles running concurrently in any
   * way: from the first success of a Pre hook call on, the Role's rules are exactly those of the
   * referred object stores, Role and RoleBinding do not change any more, and no new patch of the
   * Role is sent.
   */
  lemma OnePreConverges(cluster: Cluster, s: System, referred: seq<string>, actions: seq<Action>, p: nat,
                        m: nat, k: nat)
    requires WellFormed(s) && WellNamed(s.stores) && Undisturbing(Latest(s.role), referred, s.stores)
    requires forall j :: 0 <= j < |s.calls| ==> s.calls[j].Done?
    requires PreSucceeds(cluster, s, referred, actions, p, m) && m <= k <= |actions|
    ensures var then', now := After(cluster, s, actions, m), After(cluster, s, actions, k);
            && now.role == then'.role && now.binding == then'.binding
            && Latest(now.role).Some? && Latest(now.role).value.rules == Target(referred, s.stores)
            && NoNewSender(then', now)
  {
    hide Next;
    hide Fresh;
    hide Aims;
    hide RoleRules;
    StartsAiming(cluster, s, referred);
    AimingRun(cluster, s, referred, actions, m);
    PreRun(cluster, s, referred, actions, p, m);
    AimingConverges(cluster, After(cluster, s, actions, m), referred, |After(cluster, s, actions, p).calls|);
    ConvergedRun(cluster, s, referred, actions, m, k);
  }

  lemma StartsAiming(cluster: Cluster, s: System, referred: seq<string>)
    requires WellFormed(s) && WellNamed(s.stores) && Undisturbing(Latest(s.role), referred, s.stores)
    requires forall j :: 0 <= j < |s.calls| ==> s.calls[j].Done?
    ensures Aiming(cluster, s, referred)
  {
    if Latest(s.role).Some? { HealsExactly(ObjectStoreNames(Latest(s.role).value.rules), referred, s.stores); }
  }
}
