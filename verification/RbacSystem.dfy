/**
 * The Role and the RoleBinding of one Cluster on an API server, changed by any number of Pre hook
 * calls and ObjectStore reconciles, running concurrently, and by arbitrary other clients. Every
 * API call of a plugin call is one atomic step; reads may be stale.
 */
module RbacSystem {
  import opened Prelude
  import opened RoleSpecs
  import opened RbacMerge
  import opened Versioned

  type Stores = map<string, ObjectStore>

  datatype CallResult = Succeeded | Requeued | Errored

  /** Who runs patchRole: the Pre hook also wants the labels. */
  datatype Caller = PreHook | Controller

  /**
   * Where a plugin call is. `base` is the version an update was computed from; `todo` holds the
   * object stores still to be read and `got` those read so far.
   */
  datatype Call =
    | PreStores(todo: seq<string>, got: seq<ObjectStore>)
    | RoleProbe(rules: seq<PolicyRule>)
    | RoleCreate(rules: seq<PolicyRule>)
    | RoleGet(caller: Caller, rules: seq<PolicyRule>)
    | RoleSend(caller: Caller, rules: seq<PolicyRule>, base: nat)
    | BindProbe
    | BindCreate
    | BindRefetch
    | BindGet
    | BindReconcile(base: nat)
    | ListRoles(store: string)
    | ControllerStores(todo: seq<string>, got: seq<ObjectStore>)
    | Done(result: CallResult)

  datatype System = System(
    role: seq<Option<Role>>,
    binding: seq<Option<Binding>>,
    stores: Stores,
    calls: seq<Call>)

  datatype Action =
    | StartPre(referred: seq<string>)
    | StartReconcile(store: string)
      /**
       * One API call: `at` picks the version read, `view` the object stores seen. A call that fails has
       * no effect; one whose response is lost has its effect, but its caller sees an error.
       */
    | Step(call: nat, at: nat, view: Stores, fails: bool, lost: bool, givesUp: bool)
    | WriteRole(role: Option<Role>)
    | WriteBinding(binding: Option<Binding>)
    | WriteStores(stores: Stores)

  predicate RoleMatches(cluster: Cluster, caller: Caller, rules: seq<PolicyRule>, role: Role) {
    rules == role.rules && (caller.Controller? || !LabelsNeedUpdate(role.labels, BuildLabels(cluster)))
  }

  /** What patchRole makes of the Role it read. */
  function UpdatedRole(cluster: Cluster, caller: Caller, rules: seq<PolicyRule>, role: Role): Role {
    Role(if caller.Controller? then role.labels else role.labels + BuildLabels(cluster), rules)
  }

  /**
   * The Role is right for the controller if it has the rules; for the Pre hook its labels must be set
   * too, where a missing label passes for an empty one.
   */
  lemma RightRoleExactly(cluster: Cluster, caller: Caller, rules: seq<PolicyRule>, role: Role)
    ensures RoleMatches(cluster, caller, rules, role) <==>
            && role.rules == rules
            && (caller.PreHook? ==>
                  forall key :: IsPluginLabel(key) ==>
                    (if key in role.labels then role.labels[key] else "") == PluginLabel(cluster, key))
  {
    hide BuildLabels;
    hide IsPluginLabel;
    hide PluginLabel;
    forall key ensures (key in BuildLabels(cluster) <==> IsPluginLabel(key)) &&
                       (IsPluginLabel(key) ==> BuildLabels(cluster)[key] == PluginLabel(cluster, key))
    {
      LabelsAre(cluster, key);
    }
    if caller.PreHook? && LabelsNeedUpdate(role.labels, BuildLabels(cluster)) {
      var key :| key in BuildLabels(cluster) && ValueOf(role.labels, key) != BuildLabels(cluster)[key];
      assert IsPluginLabel(key);
    }
  }

  /** The controller changes nothing but the rules; the Pre hook also sets its labels, and no others. */
  lemma UpdatedExactly(cluster: Cluster, caller: Caller, rules: seq<PolicyRule>, role: Role, key: string)
    ensures var updated := UpdatedRole(cluster, caller, rules, role);
            && updated.rules == rules
            && (caller.Controller? ==> updated.labels == role.labels)
            && (caller.PreHook? && IsPluginLabel(key) ==>
                  key in updated.labels && updated.labels[key] == PluginLabel(cluster, key))
            && (!IsPluginLabel(key) ==>
                  (key in updated.labels <==> key in role.labels) &&
                  (key in role.labels ==> updated.labels[key] == role.labels[key]))
  {
    LabelsAre(cluster, key);
    hide BuildLabels;
    hide IsPluginLabel;
    hide PluginLabel;
  }

  /** Where a call goes once the Role is right. */
  function RoleDone(caller: Caller): Call {
    if caller.PreHook? then BindProbe else Done(Succeeded)
  }

  /** A Role that is gone is an error for the Pre hook and nothing to do for the controller. */
  function RoleGone(caller: Caller): Call {
    Done(if caller.PreHook? then Errored else Succeeded)
  }

  ghost predicate Listed(role: Role, store: string) {
    CLUSTER_LABEL in role.labels && store in ObjectStoreNames(role.rules)
  }

  /** The steps of a call on the Role; the second part is the version it writes, if any. */
  ghost function RoleStep(cluster: Cluster, role: seq<Option<Role>>, c: Call, a: Action): (Call, seq<Option<Role>>)
    requires role != [] && a.Step?
  {
    var seen := role[Served(role, a.at)];
    match c
    case RoleProbe(rules) =>
      (if seen.Some? then RoleGet(PreHook, rules) else RoleCreate(rules), [])
    case RoleCreate(rules) =>
      (RoleGet(PreHook, rules), if Latest(role).Some? then [] else [Some(Role(BuildLabels(cluster), rules))])
    case RoleGet(caller, rules) =>
      if seen.None? then (RoleGone(caller), [])
      else if RoleMatches(cluster, caller, rules, seen.value) then (RoleDone(caller), [])
      else (RoleSend(caller, rules, Served(role, a.at)), [])
    case RoleSend(caller, rules, base) =>
      if IsCurrent(role, base) then
        var read := role[base].value;
        var patch := RoleDiff(read, UpdatedRole(cluster, caller, rules, read));
        (RoleDone(caller), [Some(PatchRole(Latest(role).value, patch))])
      else if Latest(role).None? then (RoleGone(caller), [])
      else if a.givesUp then (Done(Errored), [])
      else (RoleGet(caller, rules), [])
    case ListRoles(store) =>
      if seen.Some? && Listed(seen.value, store)
      then (ControllerStores(ObjectStoreNames(seen.value.rules), []), [])
      else (Done(Succeeded), [])
    case _ => (c, [])
  }

  /** The steps of a call on the RoleBinding. */
  function BindStep(cluster: Cluster, binding: seq<Option<Binding>>, c: Call, a: Action): (Call, seq<Option<Binding>>)
    requires binding != [] && a.Step?
    requires c.BindReconcile? ==> c.base < |binding| && binding[c.base].Some?
  {
    var desired := BuildBinding(cluster);
    var version := Served(binding, a.at);
    match c
    case BindProbe =>
      (if binding[version].Some? then BindReconcile(version) else BindCreate, [])
    case BindCreate =>
      if Latest(binding).None? then (Done(Succeeded), [Some(desired)]) else (BindRefetch, [])
    case BindRefetch =>
      (if binding[version].Some? then BindReconcile(version) else Done(Errored), [])
    case BindGet =>
      (if binding[version].Some? then BindReconcile(version) else Done(Errored), [])
    case BindReconcile(base) =>
      var read := binding[base].value;
      if read.roleRef != desired.roleRef then (Done(Errored), [])
      else if !BindingNeedsUpdate(read, desired) then (Done(Succeeded), [])
      else if IsCurrent(binding, base) then
        var patch := BindingDiff(read, MergedBinding(read, desired));
        (Done(Succeeded), [Some(PatchBinding(Latest(binding).value, patch))])
      else if Latest(binding).None? || a.givesUp then (Done(Errored), [])
      else (BindGet, [])
    case _ => (c, [])
  }

  predicate OnBinding(c: Call) {
    c.BindProbe? || c.BindCreate? || c.BindRefetch? || c.BindGet? || c.BindReconcile?
  }

  /** Reading the object stores one by one: the Pre hook stops at a missing one, the controller skips it. */
  ghost function StoreStep(c: Call, view: Stores): Call
    requires c.PreStores? || c.ControllerStores?
  {
    if c.todo == [] then
      if c.PreStores? then RoleProbe(RoleRules(c.got)) else RoleGet(Controller, RoleRules(c.got))
    else if c.todo[0] in view then
      var got := c.got + [view[c.todo[0]]];
      if c.PreStores? then PreStores(c.todo[1..], got) else ControllerStores(c.todo[1..], got)
    else if c.PreStores? then Done(Requeued)
    else ControllerStores(c.todo[1..], c.got)
  }

  /** Histories never empty, and updates computed from versions that existed. */
  ghost predicate WellFormed(s: System) {
    && s.role != []
    && s.binding != []
    && forall i :: 0 <= i < |s.calls| ==> WellFormedCall(s, s.calls[i])
  }

  ghost predicate WellFormedCall(s: System, c: Call) {
    && (c.RoleSend? ==> c.base < |s.role| && s.role[c.base].Some?)
    && (c.BindReconcile? ==> c.base < |s.binding| && s.binding[c.base].Some?)
  }

  /** Where the caller is after an API call that leads it to `next`. */
  function Seen(a: Action, next: Call): Call
    requires a.Step?
  {
    if a.lost then Done(Errored) else next
  }

  ghost function CallStep(cluster: Cluster, s: System, a: Action): System
    requires WellFormed(s) && a.Step? && a.call < |s.calls|
  {
    var c := s.calls[a.call];
    if c.Done? then s
    else if a.fails then s.(calls := s.calls[a.call := Done(Errored)])
    else if c.PreStores? || c.ControllerStores? then s.(calls := s.calls[a.call := Seen(a, StoreStep(c, a.view))])
    else if OnBinding(c) then
      var (next, written) := BindStep(cluster, s.binding, c, a);
      s.(binding := s.binding + written, calls := s.calls[a.call := Seen(a, next)])
    else
      var (next, written) := RoleStep(cluster, s.role, c, a);
      s.(role := s.role + written, calls := s.calls[a.call := Seen(a, next)])
  }

  ghost function Next(cluster: Cluster, s: System, a: Action): System
    requires WellFormed(s)
  {
    match a
    case StartPre(referred) => s.(calls := s.calls + [PreStores(referred, [])])
    case StartReconcile(store) => s.(calls := s.calls + [ListRoles(store)])
    case Step(call, _, _, _, _, _) => if call < |s.calls| then CallStep(cluster, s, a) else s
    case WriteRole(role) => s.(role := s.role + [role])
    case WriteBinding(binding) => s.(binding := s.binding + [binding])
    case WriteStores(stores) => s.(stores := stores)
  }

  lemma NextIsWellFormed(cluster: Cluster, s: System, a: Action)
    requires WellFormed(s)
    ensures WellFormed(Next(cluster, s, a))
    ensures s.role <= Next(cluster, s, a).role && s.binding <= Next(cluster, s, a).binding
  {
    hide RoleDiff;
    hide PatchRole;
    hide BindingDiff;
    hide PatchBinding;
    hide MergedBinding;
    hide BindingNeedsUpdate;
    hide RoleMatches;
    hide BuildBinding;
    hide BuildLabels;
    hide RoleRules;
    hide ObjectStoreNames;
  }

  /** The system after the first `k` actions. */
  ghost function After(cluster: Cluster, s: System, actions: seq<Action>, k: nat): (r: System)
    requires WellFormed(s) && k <= |actions|
    ensures WellFormed(r)
  {
    if k == 0 then s
    else
      var before := After(cluster, s, actions, k - 1);
      NextIsWellFormed(cluster, before, actions[k - 1]);
      Next(cluster, before, actions[k - 1])
  }

  // ---------------------------------------------------------------- no lost grants

  /** What one accepted write of the plugin does to the RoleBinding the server holds. */
  ghost predicate GrantsKept(cluster: Cluster, before: Option<Binding>, after: Binding) {
    var desired := BuildBinding(cluster);
    match before
    case None => after == desired
    case Some(b) =>
      && b.subjects <= after.subjects
      && (forall d :: d in desired.subjects ==> d in after.subjects)
      && (forall i :: |b.subjects| <= i < |after.subjects| ==> after.subjects[i] in desired.subjects)
      && after.roleRef == b.roleRef == desired.roleRef
      && after.labels == b.labels + desired.labels
  }

  /** What one accepted write of the plugin does to the labels of the Role the server holds. */
  ghost predicate RoleLabelsKept(cluster: Cluster, before: Option<Role>, after: Role) {
    match before
    case None => after.labels == BuildLabels(cluster)
    case Some(r) => after.labels == r.labels || after.labels == r.labels + BuildLabels(cluster)
  }

  predicate IsPluginAction(a: Action) {
    a.StartPre? || a.StartReconcile? || a.Step?
  }

  lemma BindStepKeepsGrants(cluster: Cluster, binding: seq<Option<Binding>>, c: Call, a: Action)
    requires binding != [] && a.Step?
    requires c.BindReconcile? ==> c.base < |binding| && binding[c.base].Some?
    ensures var written := BindStep(cluster, binding, c, a).1;
            written == [] || (|written| == 1 && written[0].Some? &&
                              GrantsKept(cluster, Latest(binding), written[0].value))
  {
    if c.BindReconcile? {
      var read, desired := binding[c.base].value, BuildBinding(cluster);
      MergedSubjectsShape(read.subjects, desired.subjects);
      BindingPatchReproduces(read, MergedBinding(read, desired));
    }
  }

  lemma RoleStepKeepsLabels(cluster: Cluster, role: seq<Option<Role>>, c: Call, a: Action)
    requires role != [] && a.Step?
    ensures var written := RoleStep(cluster, role, c, a).1;
            written == [] ||
            (|written| == 1 && written[0].Some? && RoleLabelsKept(cluster, Latest(role), written[0].value) &&
             (c.RoleCreate? || c.RoleSend?) && written[0].value.rules == c.rules)
  {
    if c.RoleSend? && IsCurrent(role, c.base) {
      var current := Latest(role).value;
      RolePatchReproduces(current, UpdatedRole(cluster, c.caller, c.rules, current));
    }
  }

  /**
   * Under every interleaving with other writers and every stale read, each write the plugin
   * commits keeps the Subjects, the RoleRef and the unrelated labels the server held at that
   * moment.
   */
  lemma NoLostGrants(cluster: Cluster, s: System, actions: seq<Action>, k: nat)
    requires WellFormed(s) && k < |actions| && IsPluginAction(actions[k])
    ensures var before, after := After(cluster, s, actions, k), After(cluster, s, actions, k + 1);
            && (after.binding == before.binding ||
                (|after.binding| == |before.binding| + 1 && Latest(after.binding).Some? &&
                 GrantsKept(cluster, Latest(before.binding), Latest(after.binding).value)))
            && (after.role == before.role ||
                (|after.role| == |before.role| + 1 && Latest(after.role).Some? &&
                 RoleLabelsKept(cluster, Latest(before.role), Latest(after.role).value)))
  {
    hide RoleStep;
    hide BindStep;
    hide RoleLabelsKept;
    hide GrantsKept;
    var before, a := After(cluster, s, actions, k), actions[k];
    if a.Step? && a.call < |before.calls| {
      RoleStepKeepsLabels(cluster, before.role, before.calls[a.call], a);
      if before.calls[a.call].BindReconcile? { assert WellFormedCall(before, before.calls[a.call]); }
      BindStepKeepsGrants(cluster, before.binding, before.calls[a.call], a);
    }
  }
}
