/**
 * Paths of one plugin call through `RbacSystem`: its API calls one by one, with whatever other
 * clients wrote in between. Every path is part of a run of the system.
 */
module RbacPaths {
  import opened Prelude
  import opened RoleSpecs
  import opened RbacMerge
  import opened RbacSystem
  import opened RbacOverlap

  /** One step of a call: where it is, the history it meets, and what the environment chooses. */
  datatype Leg<T> = Leg(history: seq<Option<T>>, call: Call, at: nat, fails: bool, givesUp: bool) {
    function Action(i: nat, view: Stores): Action { Step(i, at, view, fails, false, givesUp) }
  }

  // ---------------------------------------------------------------- on the Role

  /** A call that works on the Role. */
  predicate OnRole(c: Call) {
    c.RoleProbe? || c.RoleCreate? || c.RoleGet? || c.RoleSend?
  }

  ghost function RoleActed(cluster: Cluster, l: Leg<Role>): (Call, seq<Option<Role>>)
    requires l.history != []
  {
    if l.fails then (Done(Errored), []) else RoleStep(cluster, l.history, l.call, l.Action(0, map[]))
  }

  /** Where the call is, and what the history is, after the legs. */
  ghost function RoleEnd(cluster: Cluster, first: Call, start: seq<Option<Role>>, legs: seq<Leg<Role>>)
    : (Call, seq<Option<Role>>)
  {
    if legs == [] || legs[|legs| - 1].history == [] then (first, start)
    else
      var l := legs[|legs| - 1];
      (RoleActed(cluster, l).0, l.history + RoleActed(cluster, l).1)
  }

  ghost predicate RolePath(cluster: Cluster, first: Call, start: seq<Option<Role>>, legs: seq<Leg<Role>>) {
    legs == [] ||
    var l, before := legs[|legs| - 1], RoleEnd(cluster, first, start, legs[..|legs| - 1]);
    && RolePath(cluster, first, start, legs[..|legs| - 1])
    && l.call == before.0 && OnRole(l.call)
    && before.1 <= l.history && l.history != []
  }

  lemma RoleLeg(cluster: Cluster, first: Call, start: seq<Option<Role>>, legs: seq<Leg<Role>>, l: Leg<Role>)
    requires RolePath(cluster, first, start, legs)
    requires l.call == RoleEnd(cluster, first, start, legs).0 && OnRole(l.call)
    requires RoleEnd(cluster, first, start, legs).1 <= l.history && l.history != []
    ensures RolePath(cluster, first, start, legs + [l])
    ensures RoleEnd(cluster, first, start, legs + [l]) == (RoleActed(cluster, l).0, l.history + RoleActed(cluster, l).1)
  {
    assert (legs + [l])[..|legs|] == legs;
  }

  lemma {:induction false} RoleJoin(cluster: Cluster, first: Call, start: seq<Option<Role>>, a: seq<Leg<Role>>,
                                    b: seq<Leg<Role>>)
    requires RolePath(cluster, first, start, a)
    requires RolePath(cluster, RoleEnd(cluster, first, start, a).0, RoleEnd(cluster, first, start, a).1, b)
    ensures RolePath(cluster, first, start, a + b)
    ensures RoleEnd(cluster, first, start, a + b) ==
            RoleEnd(cluster, RoleEnd(cluster, first, start, a).0, RoleEnd(cluster, first, start, a).1, b)
    decreases |b|
  {
    hide RoleActed;
    if b == [] {
      assert a + b == a;
    } else {
      RoleJoin(cluster, first, start, a, b[..|b| - 1]);
      assert (a + b)[..|a + b| - 1] == a + b[..|b| - 1];
    }
  }

  // ---------------------------------------------------------------- on the RoleBinding

  function BindActed(cluster: Cluster, l: Leg<Binding>): (Call, seq<Option<Binding>>)
    requires l.history != []
    requires l.call.BindReconcile? ==> l.call.base < |l.history| && l.history[l.call.base].Some?
  {
    if l.fails then (Done(Errored), []) else BindStep(cluster, l.history, l.call, l.Action(0, map[]))
  }

  predicate Grounded(l: Leg<Binding>) {
    l.history != [] && (l.call.BindReconcile? ==> l.call.base < |l.history| && l.history[l.call.base].Some?)
  }

  function BindEnd(cluster: Cluster, first: Call, start: seq<Option<Binding>>, legs: seq<Leg<Binding>>)
    : (Call, seq<Option<Binding>>)
  {
    if legs == [] || !Grounded(legs[|legs| - 1]) then (first, start)
    else
      var l := legs[|legs| - 1];
      (BindActed(cluster, l).0, l.history + BindActed(cluster, l).1)
  }

  predicate BindPath(cluster: Cluster, first: Call, start: seq<Option<Binding>>, legs: seq<Leg<Binding>>) {
    legs == [] ||
    var l, before := legs[|legs| - 1], BindEnd(cluster, first, start, legs[..|legs| - 1]);
    && BindPath(cluster, first, start, legs[..|legs| - 1])
    && l.call == before.0 && OnBinding(l.call)
    && before.1 <= l.history && Grounded(l)
  }

  lemma BindLeg(cluster: Cluster, first: Call, start: seq<Option<Binding>>, legs: seq<Leg<Binding>>, l: Leg<Binding>)
    requires BindPath(cluster, first, start, legs)
    requires l.call == BindEnd(cluster, first, start, legs).0 && OnBinding(l.call)
    requires BindEnd(cluster, first, start, legs).1 <= l.history && Grounded(l)
    ensures BindPath(cluster, first, start, legs + [l])
    ensures BindEnd(cluster, first, start, legs + [l]) == (BindActed(cluster, l).0, l.history + BindActed(cluster, l).1)
  {
    assert (legs + [l])[..|legs|] == legs;
  }

  lemma {:induction false} BindJoin(cluster: Cluster, first: Call, start: seq<Option<Binding>>,
                                    a: seq<Leg<Binding>>, b: seq<Leg<Binding>>)
    requires BindPath(cluster, first, start, a)
    requires BindPath(cluster, BindEnd(cluster, first, start, a).0, BindEnd(cluster, first, start, a).1, b)
    ensures BindPath(cluster, first, start, a + b)
    ensures BindEnd(cluster, first, start, a + b) ==
            BindEnd(cluster, BindEnd(cluster, first, start, a).0, BindEnd(cluster, first, start, a).1, b)
    decreases |b|
  {
    hide BindActed;
    if b == [] {
      assert a + b == a;
    } else {
      BindJoin(cluster, first, start, a, b[..|b| - 1]);
      assert (a + b)[..|a + b| - 1] == a + b[..|b| - 1];
    }
  }

  // ---------------------------------------------------------------- paths are runs

  /** Other clients write these versions of the Role. */
  lemma {:induction false} OthersWriteRole(cluster: Cluster, s: System, written: seq<Option<Role>>)
    returns (actions: seq<Action>)
    requires WellFormed(s)
    ensures After(cluster, s, actions, |actions|) == s.(role := s.role + written)
  {
    if written == [] {
      actions := [];
      assert s.role + [] == s.role;
    } else {
      var n := |written| - 1;
      actions := OthersWriteRole(cluster, s, written[..n]);
      assert s.role + written[..n] + [written[n]] == s.role + written;
      Joined(cluster, s, actions, [WriteRole(written[n])], |actions| + 1);
      var middle := After(cluster, s, actions, |actions|);
      assert After(cluster, middle, [WriteRole(written[n])], 0) == middle;
      actions := actions + [WriteRole(written[n])];
    }
  }

  lemma {:induction false} OthersWriteBinding(cluster: Cluster, s: System, written: seq<Option<Binding>>)
    returns (actions: seq<Action>)
    requires WellFormed(s)
    ensures After(cluster, s, actions, |actions|) == s.(binding := s.binding + written)
  {
    if written == [] {
      actions := [];
      assert s.binding + [] == s.binding;
    } else {
      var n := |written| - 1;
      actions := OthersWriteBinding(cluster, s, written[..n]);
      assert s.binding + written[..n] + [written[n]] == s.binding + written;
      Joined(cluster, s, actions, [WriteBinding(written[n])], |actions| + 1);
      var middle := After(cluster, s, actions, |actions|);
      assert After(cluster, middle, [WriteBinding(written[n])], 0) == middle;
      actions := actions + [WriteBinding(written[n])];
    }
  }

  lemma RoleLegIsStep(cluster: Cluster, s: System, i: nat, l: Leg<Role>)
    requires WellFormed(s) && i < |s.calls| && s.calls[i] == l.call && OnRole(l.call) && s.role == l.history
    ensures Next(cluster, s, l.Action(i, map[])) ==
            s.(role := s.role + RoleActed(cluster, l).1, calls := s.calls[i := RoleActed(cluster, l).0])
  {
    hide RoleDiff;
    hide PatchRole;
    hide RoleMatches;
    assert s.role + [] == s.role;
  }

  lemma BindLegIsStep(cluster: Cluster, s: System, i: nat, l: Leg<Binding>)
    requires WellFormed(s) && i < |s.calls| && s.calls[i] == l.call && OnBinding(l.call) && s.binding == l.history
    ensures Grounded(l)
    ensures Next(cluster, s, l.Action(i, map[])) ==
            s.(binding := s.binding + BindActed(cluster, l).1, calls := s.calls[i := BindActed(cluster, l).0])
  {
    hide BindingDiff;
    hide PatchBinding;
    hide BindingNeedsUpdate;
    hide MergedBinding;
    assert WellFormedCall(s, s.calls[i]);
    assert s.binding + [] == s.binding;
  }

  /** Any path of call `i` on the Role is taken by some run of the system from any state it starts in. */
  lemma {:induction false} RolePathIsRun(cluster: Cluster, s: System, i: nat, legs: seq<Leg<Role>>)
    returns (actions: seq<Action>)
    requires WellFormed(s) && i < |s.calls| && RolePath(cluster, s.calls[i], s.role, legs)
    ensures var end := RoleEnd(cluster, s.calls[i], s.role, legs);
            After(cluster, s, actions, |actions|) == s.(role := end.1, calls := s.calls[i := end.0])
  {
    hide Next;
    hide RoleActed;
    if legs == [] {
      actions := [];
    } else {
      var l := legs[|legs| - 1];
      var earlier := RolePathIsRun(cluster, s, i, legs[..|legs| - 1]);
      var s1 := After(cluster, s, earlier, |earlier|);
      var others := OthersWriteRole(cluster, s1, l.history[|s1.role|..]);
      var s2 := After(cluster, s1, others, |others|);
      assert s1.role + l.history[|s1.role|..] == l.history;
      RoleLegIsStep(cluster, s2, i, l);
      var step := l.Action(i, map[]);
      assert After(cluster, s2, [step], 0) == s2;
      assert After(cluster, s2, [step], 1) == Next(cluster, s2, step);
      Joined(cluster, s1, others, [step], |others| + 1);
      Joined(cluster, s, earlier, others + [step], |earlier| + |others| + 1);
      actions := earlier + (others + [step]);
    }
  }

  lemma {:induction false} BindPathIsRun(cluster: Cluster, s: System, i: nat, legs: seq<Leg<Binding>>)
    returns (actions: seq<Action>)
    requires WellFormed(s) && i < |s.calls| && BindPath(cluster, s.calls[i], s.binding, legs)
    ensures var end := BindEnd(cluster, s.calls[i], s.binding, legs);
            After(cluster, s, actions, |actions|) == s.(binding := end.1, calls := s.calls[i := end.0])
  {
    hide Next;
    hide BindActed;
    if legs == [] {
      actions := [];
    } else {
      var l := legs[|legs| - 1];
      var earlier := BindPathIsRun(cluster, s, i, legs[..|legs| - 1]);
      var s1 := After(cluster, s, earlier, |earlier|);
      var others := OthersWriteBinding(cluster, s1, l.history[|s1.binding|..]);
      var s2 := After(cluster, s1, others, |others|);
      assert s1.binding + l.history[|s1.binding|..] == l.history;
      BindLegIsStep(cluster, s2, i, l);
      var step := l.Action(i, map[]);
      assert After(cluster, s2, [step], 0) == s2;
      assert After(cluster, s2, [step], 1) == Next(cluster, s2, step);
      Joined(cluster, s1, others, [step], |others| + 1);
      Joined(cluster, s, earlier, others + [step], |earlier| + |others| + 1);
      actions := earlier + (others + [step]);
    }
  }

  /** So is the way of a Pre hook call that goes on from the Role to the RoleBinding. */
  lemma PreWayIsRun(cluster: Cluster, s: System, i: nat, roleLegs: seq<Leg<Role>>, bindLegs: seq<Leg<Binding>>)
    returns (actions: seq<Action>)
    requires WellFormed(s) && i < |s.calls|
    requires RolePath(cluster, s.calls[i], s.role, roleLegs)
    requires BindPath(cluster, RoleEnd(cluster, s.calls[i], s.role, roleLegs).0, s.binding, bindLegs)
    ensures var role := RoleEnd(cluster, s.calls[i], s.role, roleLegs);
            var binding := BindEnd(cluster, role.0, s.binding, bindLegs);
            After(cluster, s, actions, |actions|) ==
            s.(role := role.1, binding := binding.1, calls := s.calls[i := binding.0])
  {
    hide Next;
    hide RoleEnd;
    hide BindEnd;
    hide RolePath;
    hide BindPath;
    var first := RolePathIsRun(cluster, s, i, roleLegs);
    var middle := After(cluster, s, first, |first|);
    var second := BindPathIsRun(cluster, middle, i, bindLegs);
    Joined(cluster, s, first, second, |first| + |second|);
    actions := first + second;
  }
}
