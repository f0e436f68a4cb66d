/**
 * The plugin's writers of Role and RoleBinding as the plugin runs them: one call at a time, with
 * everything other clients do between its API calls chosen by the environment.
 */
module RbacCalls {
  import opened Prelude
  import opened RoleSpecs
  import opened RbacMerge
  import opened Versioned
  import opened RbacSystem
  import opened RbacPaths

  datatype ApiError = NotFound | AlreadyExists | Conflict | DivergentRoleRef | Unreachable

  /** What happens around one API call: writes of other clients before it, the version a read sees, a failure. */
  datatype Turn<T> = Turn(others: seq<Option<T>>, at: nat, fails: bool)

  /** The turn `j` calls from now; a run that has used up its turns meets failures only. */
  function TurnAt<T>(turns: seq<Turn<T>>, j: nat): Turn<T> {
    if j < |turns| then turns[j] else Turn([], 0, true)
  }

  /** The turns left after `n` calls. */
  function TurnsAfter<T>(turns: seq<Turn<T>>, n: nat): seq<Turn<T>> {
    if n <= |turns| then turns[n..] else []
  }

  lemma TurnsAdd<T>(turns: seq<Turn<T>>, m: nat, n: nat)
    ensures TurnsAfter(TurnsAfter(turns, m), n) == TurnsAfter(turns, m + n)
    ensures TurnAt(TurnsAfter(turns, m), n) == TurnAt(turns, m + n)
  {
  }

  lemma NoTurns<T>(turns: seq<Turn<T>>)
    ensures TurnsAfter(turns, 0) == turns
  {
  }

  /** One object on the API server; `own` collects the versions written by this plugin. */
  class Server<T(==)> {
    var history: seq<Option<T>>
    var turns: seq<Turn<T>>
    ghost var own: set<nat>

    constructor (history: seq<Option<T>>, turns: seq<Turn<T>>)
      requires history != []
      ensures Valid() && this.history == history && this.turns == turns && own == {}
    {
      this.history, this.turns, own := history, turns, {};
    }

    ghost predicate Valid()
      reads this
    {
      history != [] && forall j :: j in own ==> 0 < j < |history|
    }

    /** Lets the other clients act. */
    method Arrive() returns (turn: Turn<T>)
      requires Valid()
      modifies this`history, this`turns
      ensures Valid() && turn == TurnAt(old(turns), 0) && turns == TurnsAfter(old(turns), 1)
      ensures history == old(history) + turn.others
    {
      turn := TurnAt(turns, 0);
      turns := TurnsAfter(turns, 1);
      history := history + turn.others;
    }

    /** A read may be served any version; the result is its index. */
    method Get() returns (r: Result<nat, ApiError>)
      requires Valid()
      modifies this`history, this`turns
      ensures Valid() && turns == TurnsAfter(old(turns), 1)
      ensures var turn := TurnAt(old(turns), 0);
              && history == old(history) + turn.others
              && r == if turn.fails then Err(Unreachable)
                      else if history[Served(history, turn.at)].Some? then Ok(Served(history, turn.at))
                      else Err(NotFound)
    {
      var turn := Arrive();
      if turn.fails { return Err(Unreachable); }
      var version := Served(history, turn.at);
      r := if history[version].Some? then Ok(version) else Err(NotFound);
    }

    method Create(x: T) returns (r: Result<(), ApiError>)
      requires Valid()
      modifies this
      ensures Valid() && turns == TurnsAfter(old(turns), 1)
      ensures var turn := TurnAt(old(turns), 0);
              var found := old(history) + turn.others;
              && r == (if turn.fails then Err(Unreachable)
                       else if Latest(found).Some? then Err(AlreadyExists) else Ok(()))
              && history == (if r.Ok? then found + [Some(x)] else found)
              && own == (if r.Ok? then old(own) + {|found|} else old(own))
    {
      var turn := Arrive();
      if turn.fails { return Err(Unreachable); }
      if Latest(history).Some? { return Err(AlreadyExists); }
      own := own + {|history|};
      history := history + [Some(x)];
      r := Ok(());
    }

    /** A patch that carries the version it was computed from; `x` is what it makes of that version. */
    method Patch(base: nat, x: T) returns (r: Result<(), ApiError>)
      requires Valid() && base < |history| && history[base].Some?
      modifies this
      ensures Valid() && turns == TurnsAfter(old(turns), 1)
      ensures var turn := TurnAt(old(turns), 0);
              var found := old(history) + turn.others;
              && r == (if turn.fails then Err(Unreachable) else Sent(found, base))
              && history == (if r.Ok? then found + [Some(x)] else found)
              && own == (if r.Ok? then old(own) + {|found|} else old(own))
    {
      ghost var start := history;
      var turn := Arrive();
      assert history[base] == start[base];
      if turn.fails { return Err(Unreachable); }
      if Latest(history).None? { return Err(NotFound); }
      if base != |history| - 1 { return Err(Conflict); }
      own := own + {|history|};
      history := history + [Some(x)];
      r := Ok(());
    }
  }

  /** What the server answers to a patch of version `base`. */
  function Sent<T>(found: seq<Option<T>>, base: nat): Result<(), ApiError>
    requires found != []
  {
    if IsCurrent(found, base) then Ok(()) else if Latest(found).None? then Err(NotFound) else Err(Conflict)
  }

  /** The read of turn `j` is old, or someone writes between it and the next turn's call. */
  predicate Contended<T>(turns: seq<Turn<T>>, j: nat, versions: nat) {
    TurnAt(turns, j).at < versions || TurnAt(turns, j + 1).others != []
  }

  /** So are `steps` attempts of a read and a write, from turn `from` on. */
  ghost predicate AllContended<T>(turns: seq<Turn<T>>, from: nat, steps: nat, versions: nat) {
    forall i: nat :: i < steps ==> Contended(turns, from + 2 * i, versions)
  }

  /** None of the first `n` calls fails. */
  predicate NoneFails<T>(turns: seq<Turn<T>>, n: nat) {
    forall j :: 0 <= j < n ==> !TurnAt(turns, j).fails
  }

  lemma OnlyUnit(r: Result<(), ApiError>)
    ensures r.Ok? ==> r == Ok(())
  {
    if r.Ok? {
      match r.value
      case () =>
    }
  }

  lemma FirstContended<T>(turns: seq<Turn<T>>, from: nat, steps: nat, versions: nat)
    requires AllContended(turns, from, steps, versions) && steps > 0
    ensures Contended(turns, from, versions)
  {
    assert Contended(turns, from + 2 * 0, versions);
  }

  /** All reads of the first `n` turns see the latest of so many versions. */
  predicate FreshTurns<T>(turns: seq<Turn<T>>, n: nat, versions: nat) {
    forall j :: 0 <= j < n ==> TurnAt(turns, j).at >= versions
  }

  /** Another client removes the object during the first `n` turns. */
  predicate Deleted<T>(turns: seq<Turn<T>>, n: nat) {
    exists j :: 0 <= j < n && exists v :: 0 <= v < |TurnAt(turns, j).others| && TurnAt(turns, j).others[v].None?
  }

  /** No failure, no other client, and fresh reads during the first `n` turns. */
  predicate Calm<T>(turns: seq<Turn<T>>, n: nat, versions: nat) {
    forall j :: 0 <= j < n ==>
      !TurnAt(turns, j).fails && TurnAt(turns, j).others == [] && TurnAt(turns, j).at >= versions
  }

  lemma TurnsShift<T>(turns: seq<Turn<T>>, m: nat)
    ensures forall j: nat :: TurnAt(TurnsAfter(turns, m), j) == TurnAt(turns, m + j)
  {
  }

  lemma DeletedLater<T>(turns: seq<Turn<T>>, m: nat, n: nat)
    ensures Deleted(TurnsAfter(turns, m), n) ==> Deleted(turns, m + n)
    ensures forall k: nat :: k <= n && Deleted(turns, k) ==> Deleted(turns, n)
  {
    if Deleted(TurnsAfter(turns, m), n) {
      TurnsShift(turns, m);
      var j :| 0 <= j < n && exists v :: 0 <= v < |TurnAt(TurnsAfter(turns, m), j).others| &&
                                         TurnAt(TurnsAfter(turns, m), j).others[v].None?;
      assert TurnAt(TurnsAfter(turns, m), j) == TurnAt(turns, m + j);
    }
  }

  /** Absent after a turn means absent before it or removed during it. */
  lemma AbsentAfter<T>(history: seq<Option<T>>, turns: seq<Turn<T>>, j: nat, n: nat)
    requires history != [] && j < n && Latest(history + TurnAt(turns, j).others).None?
    ensures Latest(history).None? || Deleted(turns, n)
  {
    var others := TurnAt(turns, j).others;
    if others == [] {
      assert history + others == history;
    } else {
      assert others[|others| - 1].None?;
    }
  }

  // ---------------------------------------------------------------- the Role

  /** Some version of the Role is as the caller wants it. */
  ghost predicate SeenRight(cluster: Cluster, caller: Caller, rules: seq<PolicyRule>, history: seq<Option<Role>>) {
    exists v :: 0 <= v < |history| && history[v].Some? && RoleMatches(cluster, caller, rules, history[v].value)
  }

  /** These versions are what patchRole makes of the version right before them. */
  ghost predicate RolePatches(cluster: Cluster, caller: Caller, rules: seq<PolicyRule>, history: seq<Option<Role>>,
                              own: set<nat>)
  {
    forall j :: j in own ==>
      && 0 < j < |history|
      && history[j - 1].Some?
      && history[j] == Some(UpdatedRole(cluster, caller, rules, history[j - 1].value))
  }

  lemma UpdatedMatches(cluster: Cluster, caller: Caller, rules: seq<PolicyRule>, role: Role)
    ensures RoleMatches(cluster, caller, rules, UpdatedRole(cluster, caller, rules, role))
  {
  }

  /** At some time there was no Role. */
  ghost predicate SeenAbsent(history: seq<Option<Role>>) {
    exists v :: 0 <= v < |history| && history[v].None?
  }

  /** Where a call in `RbacSystem` is when patchRole returns this. */
  function PatchedTo(caller: Caller, r: Result<(), ApiError>): Call {
    if r.Ok? then RoleDone(caller) else if r.error == NotFound then RoleGone(caller) else Done(Errored)
  }

  /** Where it is after one attempt; a conflict is retried unless the attempts are used up. */
  function TriedTo(caller: Caller, rules: seq<PolicyRule>, r: Result<(), ApiError>, last: bool): Call {
    if r == Err(Conflict) && !last then RoleGet(caller, rules) else PatchedTo(caller, r)
  }

  /** The legs are the way of a call from `first` to `end`, from one history to the other. */
  ghost predicate RoleWay(cluster: Cluster, first: Call, end: Call, start: seq<Option<Role>>,
                          history: seq<Option<Role>>, legs: seq<Leg<Role>>)
  {
    RolePath(cluster, first, start, legs) && RoleEnd(cluster, first, start, legs) == (end, history)
  }

  /** Each leg is the call of one turn: it fails if that does, and meets what the others wrote in it. */
  ghost predicate RoleTurns(cluster: Cluster, first: Call, start: seq<Option<Role>>, legs: seq<Leg<Role>>,
                            turns: seq<Turn<Role>>)
  {
    legs == [] ||
    var n := |legs| - 1;
    && RoleTurns(cluster, first, start, legs[..n], turns)
    && legs[n].fails == TurnAt(turns, n).fails
    && legs[n].history == RoleEnd(cluster, first, start, legs[..n]).1 + TurnAt(turns, n).others
    && (legs[n].call.RoleProbe? || legs[n].call.RoleGet? ==> legs[n].at == TurnAt(turns, n).at)
  }

  lemma {:induction false} RoleTurnsJoin(cluster: Cluster, first: Call, start: seq<Option<Role>>, a: seq<Leg<Role>>,
                                         b: seq<Leg<Role>>, turns: seq<Turn<Role>>)
    requires RolePath(cluster, first, start, a) && RoleTurns(cluster, first, start, a, turns)
    requires var (middle, found) := RoleEnd(cluster, first, start, a);
             RolePath(cluster, middle, found, b) && RoleTurns(cluster, middle, found, b, TurnsAfter(turns, |a|))
    ensures RoleTurns(cluster, first, start, a + b, turns)
    decreases |b|
  {
    hide RoleEnd;
    if b == [] {
      assert a + b == a;
    } else {
      var n := |b| - 1;
      RoleTurnsJoin(cluster, first, start, a, b[..n], turns);
      RoleJoin(cluster, first, start, a, b[..n]);
      TurnsAdd(turns, |a|, n);
      assert (a + b)[..|a + b| - 1] == a + b[..n];
    }
  }

  lemma OneRoleTurn(cluster: Cluster, start: seq<Option<Role>>, l: Leg<Role>, turns: seq<Turn<Role>>)
    requires l.fails == TurnAt(turns, 0).fails && l.history == start + TurnAt(turns, 0).others
    requires l.call.RoleProbe? || l.call.RoleGet? ==> l.at == TurnAt(turns, 0).at
    ensures RoleTurns(cluster, l.call, start, [l], turns)
  {
    assert [l][..0] == [];
    assert RoleEnd(cluster, l.call, start, []) == (l.call, start);
  }

  lemma OneRoleLeg(cluster: Cluster, start: seq<Option<Role>>, l: Leg<Role>)
    requires start <= l.history && l.history != [] && OnRole(l.call)
    ensures RoleWay(cluster, l.call, RoleActed(cluster, l).0, start, l.history + RoleActed(cluster, l).1, [l])
  {
    RoleLeg(cluster, l.call, start, [], l);
    assert [] + [l] == [l];
  }

  lemma NextRoleLegs(cluster: Cluster, first: Call, start: seq<Option<Role>>, a: seq<Leg<Role>>, b: seq<Leg<Role>>,
                     middle: Call, found: seq<Option<Role>>, end: Call, history: seq<Option<Role>>,
                     turns: seq<Turn<Role>>)
    requires RoleWay(cluster, first, middle, start, found, a) && RoleWay(cluster, middle, end, found, history, b)
    requires RoleTurns(cluster, first, start, a, turns)
    requires RoleTurns(cluster, middle, found, b, TurnsAfter(turns, |a|))
    ensures RoleWay(cluster, first, end, start, history, a + b)
    ensures RoleTurns(cluster, first, start, a + b, turns)
  {
    RoleJoin(cluster, first, start, a, b);
    RoleTurnsJoin(cluster, first, start, a, b, turns);
  }

  /** What a read at this turn returns. */
  ghost predicate ReadAt<T>(history: seq<Option<T>>, turn: Turn<T>, got: Result<nat, ApiError>)
    requires history != []
  {
    got == if turn.fails then Err(Unreachable)
           else if history[Served(history, turn.at)].Some? then Ok(Served(history, turn.at)) else Err(NotFound)
  }

  /** The read of one attempt as a step. */
  lemma GetLegs(cluster: Cluster, caller: Caller, rules: seq<PolicyRule>, start: seq<Option<Role>>,
                turns: seq<Turn<Role>>, got: Result<nat, ApiError>)
    requires start != [] && ReadAt(start + TurnAt(turns, 0).others, TurnAt(turns, 0), got)
    ensures var turn := TurnAt(turns, 0);
            var history := start + turn.others;
            var legs := [Leg(history, RoleGet(caller, rules), turn.at, turn.fails, false)];
            && RoleTurns(cluster, RoleGet(caller, rules), start, legs, turns)
            && RoleWay(cluster, RoleGet(caller, rules),
                       if got.Err? then PatchedTo(caller, Err(got.error))
                       else if RoleMatches(cluster, caller, rules, history[got.value].value) then RoleDone(caller)
                       else RoleSend(caller, rules, got.value),
                       start, history, legs)
  {
    hide RoleWay;
    hide RoleTurns;
    hide RoleEnd;
    hide RoleMatches;
    hide TurnAt;
    var turn := TurnAt(turns, 0);
    var history := start + turn.others;
    var leg := Leg(history, RoleGet(caller, rules), turn.at, turn.fails, false);
    OneRoleLeg(cluster, start, leg);
    OneRoleTurn(cluster, start, leg, turns);
    assert history + [] == history;
  }

  /** The patch of one attempt as a step. */
  lemma SendLegs(cluster: Cluster, caller: Caller, rules: seq<PolicyRule>, start: seq<Option<Role>>, base: nat,
                 last: bool, sent: Result<(), ApiError>, turns: seq<Turn<Role>>)
    requires base < |start| && start[base].Some?
    requires sent == if TurnAt(turns, 0).fails then Err(Unreachable) else Sent(start + TurnAt(turns, 0).others, base)
    ensures var found := start + TurnAt(turns, 0).others;
            var legs := [Leg(found, RoleSend(caller, rules, base), 0, TurnAt(turns, 0).fails, last)];
            && RoleTurns(cluster, RoleSend(caller, rules, base), start, legs, turns)
            && RoleWay(cluster, RoleSend(caller, rules, base), TriedTo(caller, rules, sent, last), start,
                       if sent.Ok? then found + [Some(UpdatedRole(cluster, caller, rules, start[base].value))]
                       else found, legs)
  {
    hide RoleWay;
    hide RoleTurns;
    hide RoleEnd;
    hide TurnAt;
    hide UpdatedRole;
    hide RoleDiff;
    hide RbacMerge.PatchRole;
    var read, turn := start[base].value, TurnAt(turns, 0);
    var found := start + turn.others;
    assert found[base] == start[base];
    var leg := Leg(found, RoleSend(caller, rules, base), 0, turn.fails, last);
    OneRoleLeg(cluster, start, leg);
    OneRoleTurn(cluster, start, leg, turns);
    RolePatchReproduces(read, UpdatedRole(cluster, caller, rules, read));
    assert found + [] == found;
  }

  /** The latest version is as the caller wants it. */
  ghost predicate RightNow(cluster: Cluster, caller: Caller, rules: seq<PolicyRule>, history: seq<Option<Role>>) {
    history != [] && Latest(history).Some? && RoleMatches(cluster, caller, rules, Latest(history).value)
  }

  /** What leads one attempt of patchRole to its answer after so many calls. */
  ghost predicate RoleTried(cluster: Cluster, caller: Caller, rules: seq<PolicyRule>, r: Result<(), ApiError>,
                            turns: seq<Turn<Role>>, calls: nat, start: seq<Option<Role>>, history: seq<Option<Role>>)
    requires start != [] && history != []
  {
    && 1 <= calls <= 2
    && (r.Ok? || r == Err(Unreachable) || r == Err(Conflict) || r == Err(NotFound))
    && (r == Err(Unreachable) <==> TurnAt(turns, calls - 1).fails)
    && (r == Err(Conflict) ==> calls == 2 && Contended(turns, 0, |history|))
    && (r == Err(NotFound) ==> SeenAbsent(history))
    && (r.Ok? ==> SeenRight(cluster, caller, rules, history))
    && (TurnAt(turns, 0).at >= |history| ==>
          && (r.Ok? ==> RightNow(cluster, caller, rules, history))
          && (r == Err(NotFound) ==> Latest(start).None? || Deleted(turns, calls)))
    && (Latest(history).Some? || Latest(start).None? || Deleted(turns, calls))
  }

  lemma ReadTried(cluster: Cluster, caller: Caller, rules: seq<PolicyRule>, start: seq<Option<Role>>,
                  turns: seq<Turn<Role>>, got: Result<nat, ApiError>)
    requires start != [] && ReadAt(start + TurnAt(turns, 0).others, TurnAt(turns, 0), got)
    ensures var history := start + TurnAt(turns, 0).others;
            if got.Err? then RoleTried(cluster, caller, rules, Err(got.error), turns, 1, start, history)
            else RoleMatches(cluster, caller, rules, history[got.value].value) ==>
                   RoleTried(cluster, caller, rules, Ok(()), turns, 1, start, history)
  {
    hide RoleMatches;
    hide Deleted;
    hide TurnAt;
    var history := start + TurnAt(turns, 0).others;
    if Latest(history).None? { AbsentAfter(start, turns, 0, 1); }
  }

  lemma SendTried(cluster: Cluster, caller: Caller, rules: seq<PolicyRule>, start: seq<Option<Role>>,
                  turns: seq<Turn<Role>>, base: nat, r: Result<(), ApiError>)
    requires start != [] && ReadAt(start + TurnAt(turns, 0).others, TurnAt(turns, 0), Ok(base))
    requires r == if TurnAt(turns, 1).fails then Err(Unreachable)
                  else Sent(start + TurnAt(turns, 0).others + TurnAt(turns, 1).others, base)
    ensures var seen := start + TurnAt(turns, 0).others;
            var found := seen + TurnAt(turns, 1).others;
            RoleTried(cluster, caller, rules, r, turns, 2, start,
                      if r.Ok? then found + [Some(UpdatedRole(cluster, caller, rules, seen[base].value))] else found)
  {
    hide Deleted;
    hide TurnAt;
    hide RoleMatches;
    hide UpdatedRole;
    var seen := start + TurnAt(turns, 0).others;
    var found := seen + TurnAt(turns, 1).others;
    if Latest(seen).None? { AbsentAfter(start, turns, 0, 2); }
    if Latest(found).None? { AbsentAfter(seen, turns, 1, 2); }
    UpdatedMatches(cluster, caller, rules, seen[base].value);
    if r.Ok? {
      var updated := UpdatedRole(cluster, caller, rules, seen[base].value);
      assert (found + [Some(updated)])[|found|] == Some(updated);
    }
    assert TurnAt(turns, 1).others == [] ==> found == seen;
  }

  lemma NoRolePatches(cluster: Cluster, caller: Caller, rules: seq<PolicyRule>, history: seq<Option<Role>>)
    ensures RolePatches(cluster, caller, rules, history, {})
  {
  }

  lemma OneRolePatch(cluster: Cluster, caller: Caller, rules: seq<PolicyRule>, found: seq<Option<Role>>)
    requires found != [] && Latest(found).Some?
    ensures RolePatches(cluster, caller, rules,
                        found + [Some(UpdatedRole(cluster, caller, rules, Latest(found).value))], {|found|})
  {
  }

  /** One attempt of patchRole. */
  method TryPatchRole(server: Server<Role>, cluster: Cluster, caller: Caller, rules: seq<PolicyRule>, last: bool)
    returns (r: Result<(), ApiError>, ghost legs: seq<Leg<Role>>)
    requires server.Valid()
    modifies server
    ensures server.Valid() && old(server.history) <= server.history && old(server.own) <= server.own
    ensures RolePatches(cluster, caller, rules, server.history, server.own - old(server.own))
    ensures |server.own - old(server.own)| <= 1 && (r.Err? ==> server.own == old(server.own))
    ensures RoleWay(cluster, RoleGet(caller, rules), TriedTo(caller, rules, r, last), old(server.history),
                    server.history, legs)
    ensures RoleTurns(cluster, RoleGet(caller, rules), old(server.history), legs, old(server.turns))
    ensures server.turns == TurnsAfter(old(server.turns), |legs|)
    ensures RoleTried(cluster, caller, rules, r, old(server.turns), |legs|, old(server.history), server.history)
  {
    hide RoleMatches;
    hide RoleWay;
    hide RoleTurns;
    hide RoleEnd;
    hide RoleTried;
    hide RolePatches;
    hide RoleDiff;
    hide RbacMerge.PatchRole;
    hide UpdatedRole;
    hide TurnAt;
    hide TurnsAfter;
    ghost var start, turns := server.history, server.turns;
    var got := server.Get();
    ghost var turn := TurnAt(turns, 0);
    GetLegs(cluster, caller, rules, start, turns, got);
    ReadTried(cluster, caller, rules, start, turns, got);
    legs := [Leg(server.history, RoleGet(caller, rules), turn.at, turn.fails, false)];
    NoRolePatches(cluster, caller, rules, server.history);
    assert server.own - old(server.own) == {};
    if got.Err? { return Err(got.error), legs; }
    var role := server.history[got.value].value;
    var matches := CheckRole(cluster, caller, rules, role);
    if matches { return Ok(()), legs; }
    var updated := Update(cluster, caller, rules, role);
    RolePatchReproduces(role, updated);
    ghost var seen := server.history;
    TurnsAdd(turns, 1, 0);
    TurnsAdd(turns, 1, 1);
    r := server.Patch(got.value, RbacMerge.PatchRole(role, RoleDiff(role, updated)));
    ghost var found := seen + TurnAt(turns, 1).others;
    SendLegs(cluster, caller, rules, seen, got.value, last, r, TurnsAfter(turns, 1));
    SendTried(cluster, caller, rules, start, turns, got.value, r);
    if r.Ok? {
      OneRolePatch(cluster, caller, rules, found);
      assert found[got.value] == seen[got.value];
      assert server.own - old(server.own) == {|found|};
    } else {
      NoRolePatches(cluster, caller, rules, server.history);
    }
    ghost var sent := [Leg(found, RoleSend(caller, rules, got.value), 0, TurnAt(turns, 1).fails, last)];
    NextRoleLegs(cluster, RoleGet(caller, rules), start, legs, sent, RoleSend(caller, rules, got.value), seen,
                 TriedTo(caller, rules, r, last), server.history, turns);
    legs := legs + sent;
  }

  method CheckRole(cluster: Cluster, caller: Caller, rules: seq<PolicyRule>, role: Role) returns (matches: bool)
    ensures matches == RoleMatches(cluster, caller, rules, role)
  {
    var labelUpdate := false;
    if caller.PreHook? { labelUpdate := CheckLabels(role.labels, BuildLabels(cluster)); }
    matches := rules == role.rules && !labelUpdate;
  }

  method Update(cluster: Cluster, caller: Caller, rules: seq<PolicyRule>, role: Role) returns (updated: Role)
    ensures updated == UpdatedRole(cluster, caller, rules, role)
  {
    var labels := role.labels;
    if caller.PreHook? { labels := MergeLabels(role.labels, BuildLabels(cluster)); }
    updated := Role(labels, rules);
  }

  /**
   * What leads patchRole, whose attempts start at turn `from`, to an error, and what its answer means
   * if all reads are fresh; `present` says whether there was a Role at that turn.
   */
  ghost predicate RoleExplained(cluster: Cluster, caller: Caller, rules: seq<PolicyRule>, r: Result<(), ApiError>,
                                turns: seq<Turn<Role>>, from: nat, calls: nat, steps: nat, present: bool,
                                history: seq<Option<Role>>)
  {
    && from <= calls <= from + 2 * steps
    && (r == Err(Unreachable) ==> calls > 0 && TurnAt(turns, calls - 1).fails)
    && (r == Err(Conflict) ==> calls == from + 2 * steps && AllContended(turns, from, steps, |history|))
    && (r == Err(NotFound) ==> SeenAbsent(history))
    && (r.Ok? || r == Err(Unreachable) || r == Err(Conflict) || r == Err(NotFound))
    && (FreshTurns(turns, calls, |history|) ==>
          && (r.Ok? ==> RightNow(cluster, caller, rules, history))
          && (r == Err(NotFound) ==> !present || Deleted(turns, calls)))
  }

  /**
   * The retry loop of patchRole. It writes at most once, on top of the very version it read, and
   * succeeds only if it saw or wrote a version that is right. It fails only if a call does, if the Role
   * is gone, or if each attempt read an old version or was disturbed. Its API calls are steps of
   * `RbacSystem`.
   */
  method PatchRole(server: Server<Role>, cluster: Cluster, caller: Caller, rules: seq<PolicyRule>, steps: nat)
    returns (r: Result<(), ApiError>, ghost legs: seq<Leg<Role>>)
    requires server.Valid()
    modifies server
    ensures server.Valid() && old(server.history) <= server.history && old(server.own) <= server.own
    ensures RolePatches(cluster, caller, rules, server.history, server.own - old(server.own))
    ensures |server.own - old(server.own)| <= 1 && (r.Err? ==> server.own == old(server.own))
    ensures r.Ok? ==> SeenRight(cluster, caller, rules, server.history)
    ensures r == Err(NotFound) ==> SeenAbsent(server.history)
    ensures steps > 0 ==>
              RoleWay(cluster, RoleGet(caller, rules), PatchedTo(caller, r), old(server.history), server.history, legs)
    ensures RoleTurns(cluster, RoleGet(caller, rules), old(server.history), legs, old(server.turns))
    ensures server.turns == TurnsAfter(old(server.turns), |legs|) && |legs| <= 2 * steps
    ensures RoleExplained(cluster, caller, rules, r, old(server.turns), 0, |legs|, steps,
                          Latest(old(server.history)).Some?, server.history)
    ensures NoneFails(old(server.turns), |legs|) && !SeenAbsent(server.history) &&
            !AllContended(old(server.turns), 0, steps, |server.history|)
            ==> r.Ok?
  {
    hide RolePatches;
    hide SeenRight;
    hide SeenAbsent;
    hide RightNow;
    hide RoleWay;
    hide RoleTurns;
    hide RoleEnd;
    hide Deleted;
    hide RolePath;
    hide TurnAt;
    legs := [];
    r := Err(Conflict);
    NoRolePatches(cluster, caller, rules, server.history);
    ghost var start, turns := server.history, server.turns;
    NoRoleLegs(cluster, RoleGet(caller, rules), start, turns);
    for attempt := 0 to steps
      invariant server.Valid() && old(server.history) <= server.history && server.own == old(server.own)
      invariant r == Err(Conflict)
      invariant |legs| == 2 * attempt && server.turns == TurnsAfter(turns, |legs|)
      invariant AllContended(turns, 0, attempt, |server.history|)
      invariant Latest(server.history).Some? || Latest(start).None? || Deleted(turns, |legs|)
      invariant RoleTurns(cluster, RoleGet(caller, rules), start, legs, turns)
      invariant RoleWay(cluster, RoleGet(caller, rules),
                        TriedTo(caller, rules, r, attempt == steps && steps > 0), start, server.history, legs)
    {
      ghost var before := server.history;
      var tried, more := TryPatchRole(server, cluster, caller, rules, attempt + 1 == steps);
      NextRoleLegs(cluster, RoleGet(caller, rules), start, legs, more, RoleGet(caller, rules), before,
                   TriedTo(caller, rules, tried, attempt + 1 == steps), server.history, turns);
      TurnsAdd(turns, |legs|, |more|);
      TurnsShift(turns, |legs|);
      DeletedLater(turns, |legs|, |more|);
      DeletedLater(turns, 0, |legs| + |more|);
      legs := legs + more;
      if tried != Err(Conflict) { return tried, legs; }
    }
    NoRolePatches(cluster, caller, rules, server.history);
    assert server.own - old(server.own) == {};
  }

  lemma NoRoleLegs(cluster: Cluster, first: Call, start: seq<Option<Role>>, turns: seq<Turn<Role>>)
    ensures RoleTurns(cluster, first, start, [], turns) && RoleWay(cluster, first, first, start, start, [])
  {
  }

  /** These versions carry the rules, and keep the labels the server held right before. */
  ghost predicate RoleWritesKeep(cluster: Cluster, rules: seq<PolicyRule>, history: seq<Option<Role>>, own: set<nat>) {
    forall j :: j in own ==>
      && 0 < j < |history|
      && history[j].Some?
      && history[j].value.rules == rules
      && RoleLabelsKept(cluster, history[j - 1], history[j].value)
  }

  lemma RoleWritesJoin(cluster: Cluster, rules: seq<PolicyRule>, before: seq<Option<Role>>, after: seq<Option<Role>>,
                       created: set<nat>, patched: set<nat>)
    requires before <= after && RoleWritesKeep(cluster, rules, before, created)
    requires RolePatches(cluster, PreHook, rules, after, patched)
    ensures RoleWritesKeep(cluster, rules, after, created + patched)
  {
    hide BuildLabels;
    forall j | j in created + patched
      ensures 0 < j < |after| && after[j].Some? && after[j].value.rules == rules
      ensures RoleLabelsKept(cluster, after[j - 1], after[j].value)
    {
      if j in created {
        assert 0 < j < |before|;
        assert after[j] == before[j] && after[j - 1] == before[j - 1];
      } else {
        assert 0 < j < |after| && after[j - 1].Some?;
      }
    }
  }

  /** The first read as a step. */
  lemma ProbeLegs(cluster: Cluster, rules: seq<PolicyRule>, start: seq<Option<Role>>, turns: seq<Turn<Role>>,
                  got: Result<nat, ApiError>)
    requires start != [] && ReadAt(start + TurnAt(turns, 0).others, TurnAt(turns, 0), got)
    ensures var turn := TurnAt(turns, 0);
            var history := start + turn.others;
            var legs := [Leg(history, RoleProbe(rules), turn.at, turn.fails, false)];
            && RoleTurns(cluster, RoleProbe(rules), start, legs, turns)
            && RoleWay(cluster, RoleProbe(rules),
                       if turn.fails then Done(Errored)
                       else if got.Ok? then RoleGet(PreHook, rules) else RoleCreate(rules),
                       start, history, legs)
  {
    hide RoleWay;
    hide RoleTurns;
    hide TurnAt;
    var turn := TurnAt(turns, 0);
    var history := start + turn.others;
    var leg := Leg(history, RoleProbe(rules), turn.at, turn.fails, false);
    OneRoleLeg(cluster, start, leg);
    OneRoleTurn(cluster, start, leg, turns);
    assert history + [] == history;
  }

  /** The creation as a step. */
  lemma CreateLegs(cluster: Cluster, rules: seq<PolicyRule>, start: seq<Option<Role>>, turns: seq<Turn<Role>>)
    requires start != []
    ensures var turn := TurnAt(turns, 0);
            var found := start + turn.others;
            var legs := [Leg(found, RoleCreate(rules), 0, turn.fails, false)];
            && RoleTurns(cluster, RoleCreate(rules), start, legs, turns)
            && RoleWay(cluster, RoleCreate(rules), if turn.fails then Done(Errored) else RoleGet(PreHook, rules),
                       start, if turn.fails || Latest(found).Some? then found
                              else found + [Some(Role(BuildLabels(cluster), rules))], legs)
  {
    hide RoleWay;
    hide RoleTurns;
    hide TurnAt;
    hide BuildLabels;
    var turn := TurnAt(turns, 0);
    var found := start + turn.others;
    var leg := Leg(found, RoleCreate(rules), 0, turn.fails, false);
    OneRoleLeg(cluster, start, leg);
    OneRoleTurn(cluster, start, leg, turns);
    assert found + [] == found;
  }

  lemma NoRoleWrites(cluster: Cluster, rules: seq<PolicyRule>, history: seq<Option<Role>>)
    ensures RoleWritesKeep(cluster, rules, history, {})
  {
  }

  lemma CreatedKeeps(cluster: Cluster, rules: seq<PolicyRule>, found: seq<Option<Role>>)
    requires found != [] && Latest(found).None?
    ensures RoleWritesKeep(cluster, rules, found + [Some(Role(BuildLabels(cluster), rules))], {|found|})
  {
  }

  /** Creates the Role if there is none; another writer may have done so meanwhile. It fails only if a call does. */
  method EnsureRoleExists(server: Server<Role>, cluster: Cluster, rules: seq<PolicyRule>)
    returns (failed: bool, ghost legs: seq<Leg<Role>>)
    requires server.Valid()
    modifies server
    ensures server.Valid() && old(server.history) <= server.history && old(server.own) <= server.own
    ensures RoleWritesKeep(cluster, rules, server.history, server.own - old(server.own))
    ensures RoleWay(cluster, RoleProbe(rules), if failed then Done(Errored) else RoleGet(PreHook, rules),
                    old(server.history), server.history, legs)
    ensures RoleTurns(cluster, RoleProbe(rules), old(server.history), legs, old(server.turns))
    ensures server.turns == TurnsAfter(old(server.turns), |legs|) && 1 <= |legs| <= 2
    ensures failed <==> TurnAt(old(server.turns), |legs| - 1).fails
    ensures !failed && TurnAt(old(server.turns), 0).at >= |server.history| ==> Latest(server.history).Some?
  {
    hide RoleWay;
    hide RoleTurns;
    hide RoleEnd;
    hide BuildLabels;
    hide TurnAt;
    hide TurnsAfter;
    hide RolePath;
    hide RoleWritesKeep;
    ghost var start, turns := server.history, server.turns;
    var got := server.Get();
    ghost var turn := TurnAt(turns, 0);
    ProbeLegs(cluster, rules, start, turns, got);
    legs := [Leg(server.history, RoleProbe(rules), turn.at, turn.fails, false)];
    NoRoleWrites(cluster, rules, server.history);
    assert server.own - old(server.own) == {};
    if got == Err(Unreachable) { return true, legs; }
    if got.Ok? { return false, legs; }
    ghost var seen := server.history;
    TurnsAdd(turns, 1, 0);
    TurnsAdd(turns, 1, 1);
    var made := server.Create(Role(BuildLabels(cluster), rules));
    ghost var found := seen + TurnAt(turns, 1).others;
    CreateLegs(cluster, rules, seen, TurnsAfter(turns, 1));
    if made.Ok? {
      CreatedKeeps(cluster, rules, found);
      assert server.own - old(server.own) == {|found|};
    } else {
      NoRoleWrites(cluster, rules, server.history);
    }
    failed := made == Err(Unreachable);
    ghost var second := [Leg(found, RoleCreate(rules), 0, TurnAt(turns, 1).fails, false)];
    NextRoleLegs(cluster, RoleProbe(rules), start, legs, second, RoleCreate(rules), seen,
                 if failed then Done(Errored) else RoleGet(PreHook, rules), server.history, turns);
    legs := legs + second;
  }

  /** As `RoleExplained`, after one or two calls that leave a Role behind. */
  ghost predicate RoleEnsured(cluster: Cluster, rules: seq<PolicyRule>, r: Result<(), ApiError>,
                              turns: seq<Turn<Role>>, calls: nat, steps: nat, history: seq<Option<Role>>)
  {
    || RoleExplained(cluster, PreHook, rules, r, turns, 1, calls, steps, true, history)
    || RoleExplained(cluster, PreHook, rules, r, turns, 2, calls, steps, true, history)
  }

  lemma RoleExplainedLater(cluster: Cluster, rules: seq<PolicyRule>, r: Result<(), ApiError>, turns: seq<Turn<Role>>,
                           from: nat, calls: nat, steps: nat, present: bool, history: seq<Option<Role>>)
    requires RoleExplained(cluster, PreHook, rules, r, TurnsAfter(turns, from), 0, calls, steps, present, history)
    requires FreshTurns(turns, from, |history|) ==> present
    ensures RoleExplained(cluster, PreHook, rules, r, turns, from, from + calls, steps, true, history)
  {
    hide RightNow;
    hide SeenAbsent;
    hide Deleted;
    TurnsShift(turns, from);
    DeletedLater(turns, from, calls);
  }

  /** Undisturbed, the Role is right afterwards. */
  lemma CalmRoleIsRight(cluster: Cluster, rules: seq<PolicyRule>, r: Result<(), ApiError>, turns: seq<Turn<Role>>,
                        calls: nat, steps: nat, history: seq<Option<Role>>)
    requires RoleEnsured(cluster, rules, r, turns, calls, steps, history)
    requires Calm(turns, calls, |history|) && steps > 0
    ensures r.Ok? && RightNow(cluster, PreHook, rules, history)
  {
    hide RightNow;
    hide SeenAbsent;
    if r == Err(Conflict) { FirstContended(turns, calls - 2 * steps, steps, |history|); }
  }

  method EnsureRole(server: Server<Role>, cluster: Cluster, stores: seq<ObjectStore>, steps: nat)
    returns (r: Result<(), ApiError>, ghost legs: seq<Leg<Role>>)
    requires server.Valid()
    modifies server
    ensures server.Valid() && old(server.history) <= server.history && old(server.own) <= server.own
    ensures RoleWritesKeep(cluster, RoleRules(stores), server.history, server.own - old(server.own))
    ensures r.Ok? ==> SeenRight(cluster, PreHook, RoleRules(stores), server.history)
    ensures steps > 0 ==>
              RoleWay(cluster, RoleProbe(RoleRules(stores)), PatchedTo(PreHook, r), old(server.history),
                      server.history, legs)
    ensures RoleTurns(cluster, RoleProbe(RoleRules(stores)), old(server.history), legs, old(server.turns))
    ensures server.turns == TurnsAfter(old(server.turns), |legs|)
    ensures RoleEnsured(cluster, RoleRules(stores), r, old(server.turns), |legs|, steps, server.history)
    ensures Calm(old(server.turns), |legs|, |server.history|) && steps > 0 ==>
              r.Ok? && RightNow(cluster, PreHook, RoleRules(stores), server.history)
  {
    hide RoleRules;
    hide RoleWay;
    hide RoleTurns;
    hide RoleEnd;
    hide RoleWritesKeep;
    hide RolePatches;
    hide RoleExplained;
    hide RightNow;
    hide SeenRight;
    hide SeenAbsent;
    hide RolePath;
    hide TurnAt;
    ghost var start, turns := server.history, server.turns;
    var rules := BuildRoleRules(stores);
    var failed, first := EnsureRoleExists(server, cluster, rules);
    legs := first;
    if failed {
      RoleCallFailed(cluster, rules, turns, |legs|, steps, server.history);
      if Calm(turns, |legs|, |server.history|) { assert false; }
      return Err(Unreachable), legs;
    }
    ghost var before, created := server.history, server.own;
    ghost var more: seq<Leg<Role>>;
    r, more := PatchRole(server, cluster, PreHook, rules, steps);
    if steps > 0 {
      NextRoleLegs(cluster, RoleProbe(rules), start, first, more, RoleGet(PreHook, rules), before,
                   PatchedTo(PreHook, r), server.history, turns);
    } else {
      assert first + more == first;
    }
    legs := legs + more;
    TurnsAdd(turns, |first|, |more|);
    RoleExplainedLater(cluster, rules, r, turns, |first|, |more|, steps, Latest(before).Some?, server.history);
    if Calm(turns, |legs|, |server.history|) && steps > 0 {
      CalmRoleIsRight(cluster, rules, r, turns, |legs|, steps, server.history);
    }
    RoleWritesJoin(cluster, rules, before, server.history, created - old(server.own), server.own - created);
    assert server.own - old(server.own) == (created - old(server.own)) + (server.own - created);
  }

  lemma RoleCallFailed(cluster: Cluster, rules: seq<PolicyRule>, turns: seq<Turn<Role>>, calls: nat, steps: nat,
                       history: seq<Option<Role>>)
    requires 1 <= calls <= 2 && TurnAt(turns, calls - 1).fails
    ensures RoleEnsured(cluster, rules, Err(Unreachable), turns, calls, steps, history)
  {
    assert RoleExplained(cluster, PreHook, rules, Err(Unreachable), turns, calls, calls, steps, true, history);
  }

  /** A Role that is gone is nothing to do. */
  method EnsureRoleRules(server: Server<Role>, cluster: Cluster, stores: seq<ObjectStore>, steps: nat)
    returns (r: Result<(), ApiError>, ghost legs: seq<Leg<Role>>)
    requires server.Valid()
    modifies server
    ensures server.Valid() && old(server.history) <= server.history && old(server.own) <= server.own
    ensures RolePatches(cluster, Controller, RoleRules(stores), server.history, server.own - old(server.own))
    ensures r.Ok? ==> SeenRight(cluster, Controller, RoleRules(stores), server.history) || SeenAbsent(server.history)
    ensures r != Err(NotFound)
    ensures steps > 0 ==>
              RoleWay(cluster, RoleGet(Controller, RoleRules(stores)), Done(if r.Ok? then Succeeded else Errored),
                      old(server.history), server.history, legs)
    ensures RoleTurns(cluster, RoleGet(Controller, RoleRules(stores)), old(server.history), legs, old(server.turns))
    ensures server.turns == TurnsAfter(old(server.turns), |legs|)
    ensures exists answer ::
              && r == (if answer == Err(NotFound) then Ok(()) else answer)
              && RoleExplained(cluster, Controller, RoleRules(stores), answer, old(server.turns), 0, |legs|, steps,
                               Latest(old(server.history)).Some?, server.history)
  {
    hide RoleRules;
    hide RoleWay;
    hide RoleTurns;
    hide RoleEnd;
    hide RolePatches;
    hide SeenRight;
    hide SeenAbsent;
    hide RoleExplained;
    var rules := BuildRoleRules(stores);
    var answer;
    answer, legs := PatchRole(server, cluster, Controller, rules, steps);
    r := if answer == Err(NotFound) then Ok(()) else answer;
  }

  // ---------------------------------------------------------------- the RoleBinding

  ghost predicate BindingSeenRight(cluster: Cluster, history: seq<Option<Binding>>) {
    exists v :: 0 <= v < |history| && history[v].Some? &&
                history[v].value.roleRef == BuildBinding(cluster).roleRef &&
                !BindingNeedsUpdate(history[v].value, BuildBinding(cluster))
  }

  /** These versions keep the Subjects, the RoleRef and the labels the server held right before. */
  ghost predicate BindingWritesKeep(cluster: Cluster, history: seq<Option<Binding>>, own: set<nat>) {
    forall j :: j in own ==>
      0 < j < |history| && history[j].Some? && GrantsKept(cluster, history[j - 1], history[j].value)
  }

  /** As `RoleWay`, on the RoleBinding. */
  predicate BindWay(cluster: Cluster, first: Call, end: Call, start: seq<Option<Binding>>,
                    history: seq<Option<Binding>>,
                    legs: seq<Leg<Binding>>) {
    BindPath(cluster, first, start, legs) && BindEnd(cluster, first, start, legs) == (end, history)
  }

  /** As `RoleTurns`; only the first `calls` legs call the API, the others need no call. */
  ghost predicate BindTurns(cluster: Cluster, first: Call, start: seq<Option<Binding>>, legs: seq<Leg<Binding>>,
                            turns: seq<Turn<Binding>>, calls: nat)
  {
    legs == [] ||
    var n := |legs| - 1;
    var before := BindEnd(cluster, first, start, legs[..n]).1;
    && BindTurns(cluster, first, start, legs[..n], turns, calls)
    && if n < calls then
         && legs[n].fails == TurnAt(turns, n).fails
         && legs[n].history == before + TurnAt(turns, n).others
         && (legs[n].call.BindCreate? || legs[n].call.BindReconcile? || legs[n].at == TurnAt(turns, n).at)
       else !legs[n].fails && legs[n].history == before
  }

  lemma {:induction false} BindTurnsAgree(cluster: Cluster, first: Call, start: seq<Option<Binding>>,
                                          legs: seq<Leg<Binding>>, turns: seq<Turn<Binding>>, m: nat, n: nat)
    requires BindTurns(cluster, first, start, legs, turns, m) && |legs| <= m && |legs| <= n
    ensures BindTurns(cluster, first, start, legs, turns, n)
    decreases |legs|
  {
    hide BindEnd;
    if legs == [] {
    } else {
      BindTurnsAgree(cluster, first, start, legs[..|legs| - 1], turns, m, n);
    }
  }

  lemma {:induction false} BindTurnsJoin(cluster: Cluster, first: Call, start: seq<Option<Binding>>,
                                         a: seq<Leg<Binding>>, b: seq<Leg<Binding>>, turns: seq<Turn<Binding>>,
                                         calls: nat)
    requires BindPath(cluster, first, start, a) && BindTurns(cluster, first, start, a, turns, |a|)
    requires var (middle, found) := BindEnd(cluster, first, start, a);
             && BindPath(cluster, middle, found, b)
             && BindTurns(cluster, middle, found, b, TurnsAfter(turns, |a|), calls)
    ensures BindTurns(cluster, first, start, a + b, turns, |a| + calls)
    decreases |b|
  {
    hide BindEnd;
    if b == [] {
      assert a + b == a;
      BindTurnsAgree(cluster, first, start, a, turns, |a|, |a| + calls);
    } else {
      var n := |b| - 1;
      BindTurnsJoin(cluster, first, start, a, b[..n], turns, calls);
      BindJoin(cluster, first, start, a, b[..n]);
      TurnsAdd(turns, |a|, n);
      assert (a + b)[..|a + b| - 1] == a + b[..n];
    }
  }

  lemma OneBindTurn(cluster: Cluster, start: seq<Option<Binding>>, l: Leg<Binding>, turns: seq<Turn<Binding>>)
    requires l.fails == TurnAt(turns, 0).fails && l.history == start + TurnAt(turns, 0).others
    requires l.call.BindCreate? || l.call.BindReconcile? || l.at == TurnAt(turns, 0).at
    ensures BindTurns(cluster, l.call, start, [l], turns, 1)
  {
    assert [l][..0] == [];
  }

  lemma NoBindTurn(cluster: Cluster, start: seq<Option<Binding>>, l: Leg<Binding>, turns: seq<Turn<Binding>>)
    requires !l.fails && l.history == start
    ensures BindTurns(cluster, l.call, start, [l], turns, 0)
  {
    assert [l][..0] == [];
  }

  lemma OneBindLeg(cluster: Cluster, start: seq<Option<Binding>>, l: Leg<Binding>)
    requires start <= l.history && Grounded(l) && OnBinding(l.call)
    ensures BindWay(cluster, l.call, BindActed(cluster, l).0, start, l.history + BindActed(cluster, l).1, [l])
  {
    BindLeg(cluster, l.call, start, [], l);
    assert [] + [l] == [l];
  }

  lemma NextBindLegs(cluster: Cluster, first: Call, start: seq<Option<Binding>>, a: seq<Leg<Binding>>,
                     b: seq<Leg<Binding>>, middle: Call, found: seq<Option<Binding>>, end: Call,
                     history: seq<Option<Binding>>, turns: seq<Turn<Binding>>, calls: nat)
    requires BindWay(cluster, first, middle, start, found, a) && BindWay(cluster, middle, end, found, history, b)
    requires BindTurns(cluster, first, start, a, turns, |a|)
    requires BindTurns(cluster, middle, found, b, TurnsAfter(turns, |a|), calls)
    ensures BindWay(cluster, first, end, start, history, a + b)
    ensures BindTurns(cluster, first, start, a + b, turns, |a| + calls)
  {
    BindJoin(cluster, first, start, a, b);
    BindTurnsJoin(cluster, first, start, a, b, turns, calls);
  }

  /** The latest version grants what it should. */
  ghost predicate BindingRightNow(cluster: Cluster, history: seq<Option<Binding>>) {
    && history != [] && Latest(history).Some?
    && Latest(history).value.roleRef == BuildBinding(cluster).roleRef
    && !BindingNeedsUpdate(Latest(history).value, BuildBinding(cluster))
  }

  /** Some version refers to another Role. */
  ghost predicate SeenForeign(cluster: Cluster, history: seq<Option<Binding>>) {
    exists v :: 0 <= v < |history| && history[v].Some? && history[v].value.roleRef != BuildBinding(cluster).roleRef
  }

  /** A read of the RoleBinding, from any of the three places where the plugin reads it. */
  method GetRoleBinding(server: Server<Binding>, cluster: Cluster, ghost from: Call)
    returns (r: Result<nat, ApiError>, ghost leg: Leg<Binding>)
    requires server.Valid() && (from.BindProbe? || from.BindRefetch? || from.BindGet?)
    modifies server`history, server`turns
    ensures server.Valid() && server.turns == TurnsAfter(old(server.turns), 1)
    ensures var turn := TurnAt(old(server.turns), 0);
            && server.history == old(server.history) + turn.others
            && r == if turn.fails then Err(Unreachable)
                    else if server.history[Served(server.history, turn.at)].Some?
                    then Ok(Served(server.history, turn.at)) else Err(NotFound)
    ensures BindWay(cluster, from,
                    if r.Ok? then BindReconcile(r.value)
                    else if r.error == NotFound && from.BindProbe? then BindCreate else Done(Errored),
                    old(server.history), server.history, [leg])
    ensures BindTurns(cluster, from, old(server.history), [leg], old(server.turns), 1)
  {
    hide BindWay;
    hide BindTurns;
    hide BindEnd;
    hide BuildBinding;
    ghost var start, turns := server.history, server.turns;
    r := server.Get();
    leg := Leg(server.history, from, TurnAt(turns, 0).at, TurnAt(turns, 0).fails, false);
    OneBindLeg(cluster, start, leg);
    OneBindTurn(cluster, start, leg, turns);
    assert server.history + [] == server.history;
  }

  /** The creation of the RoleBinding, and where it leads. */
  method CreateRoleBinding(server: Server<Binding>, cluster: Cluster)
    returns (r: Result<(), ApiError>, ghost leg: Leg<Binding>)
    requires server.Valid()
    modifies server
    ensures server.Valid() && old(server.own) <= server.own && (r.Err? ==> server.own == old(server.own))
    ensures BindingWritesKeep(cluster, server.history, server.own - old(server.own))
    ensures server.turns == TurnsAfter(old(server.turns), 1)
    ensures leg.history == old(server.history) + TurnAt(old(server.turns), 0).others
    ensures r == if TurnAt(old(server.turns), 0).fails then Err(Unreachable)
                 else if Latest(leg.history).Some? then Err(AlreadyExists) else Ok(())
    ensures server.history == if r.Ok? then leg.history + [Some(BuildBinding(cluster))] else leg.history
    ensures BindWay(cluster, BindCreate,
                    if r.Ok? then Done(Succeeded) else if r.error == AlreadyExists then BindRefetch else Done(Errored),
                    old(server.history), server.history, [leg])
    ensures BindTurns(cluster, BindCreate, old(server.history), [leg], old(server.turns), 1)
  {
    hide BindWay;
    hide BindTurns;
    hide BindingWritesKeep;
    hide BindingSeenRight;
    hide BindingRightNow;
    hide BuildBinding;
    hide TurnAt;
    hide TurnsAfter;
    ghost var start, turns := server.history, server.turns;
    r := server.Create(BuildBinding(cluster));
    ghost var found := start + TurnAt(turns, 0).others;
    leg := Leg(found, BindCreate, 0, TurnAt(turns, 0).fails, false);
    OneBindLeg(cluster, start, leg);
    OneBindTurn(cluster, start, leg, turns);
    assert found + [] == found;
    if r.Ok? {
      CreatedIsRight(cluster, found);
      assert server.own - old(server.own) <= {|found|};
    } else {
      NoNewWrites(cluster, server.history, server.own);
    }
  }

  /** What leads to the version to reconcile, to the creation, or to an error. */
  ghost predicate BindGot(cluster: Cluster, r: Result<Option<nat>, ApiError>, turns: seq<Turn<Binding>>, calls: nat,
                          history: seq<Option<Binding>>)
    requires history != []
  {
    && 1 <= calls <= 3
    && (r.Ok? || r == Err(Unreachable) || r == Err(NotFound))
    && (r == Err(Unreachable) <==> TurnAt(turns, calls - 1).fails)
    && (r.Ok? && r.value.None? ==>
          && Latest(history) == Some(BuildBinding(cluster))
          && BindingSeenRight(cluster, history) && BindingRightNow(cluster, history))
    && (r.Ok? && r.value.Some? ==>
          && (calls == 1 || calls == 3)
          && r.value.value == Served(history, TurnAt(turns, calls - 1).at) && history[r.value.value].Some?)
    && (r == Err(NotFound) ==> calls == 3 && (TurnAt(turns, 2).at >= |history| ==> Deleted(turns, 3)))
  }

  lemma ReadGot(cluster: Cluster, turns: seq<Turn<Binding>>, history: seq<Option<Binding>>, got: Result<nat, ApiError>)
    requires history != [] && ReadAt(history, TurnAt(turns, 0), got) && got != Err(NotFound)
    ensures BindGot(cluster, if got.Ok? then Ok(Some(got.value)) else Err(got.error), turns, 1, history)
  {
    hide TurnAt;
  }

  lemma CreatedGot(cluster: Cluster, turns: seq<Turn<Binding>>, found: seq<Option<Binding>>)
    requires found != []
    ensures TurnAt(turns, 1).fails ==> BindGot(cluster, Err(Unreachable), turns, 2, found)
    ensures !TurnAt(turns, 1).fails && Latest(found).None? ==>
              BindGot(cluster, Ok(None), turns, 2, found + [Some(BuildBinding(cluster))])
  {
    hide TurnAt;
    hide BuildBinding;
    hide BindingSeenRight;
    hide BindingRightNow;
    if Latest(found).None? { CreatedIsRight(cluster, found); }
  }

  lemma RefetchGot(cluster: Cluster, turns: seq<Turn<Binding>>, found: seq<Option<Binding>>,
                   history: seq<Option<Binding>>, got: Result<nat, ApiError>)
    requires found != [] && Latest(found).Some?
    requires history == found + TurnAt(turns, 2).others && ReadAt(history, TurnAt(turns, 2), got)
    ensures BindGot(cluster, if got.Ok? then Ok(Some(got.value)) else Err(got.error), turns, 3, history)
  {
    hide TurnAt;
    hide Deleted;
    if Latest(history).None? { AbsentAfter(found, turns, 2, 3); }
  }

  /**
   * The version to reconcile, or None after creating the desired object. It fails only if a call does
   * or if the RoleBinding is not there for the second read.
   */
  method GetOrCreateRoleBinding(server: Server<Binding>, cluster: Cluster)
    returns (r: Result<Option<nat>, ApiError>, ghost legs: seq<Leg<Binding>>)
    requires server.Valid()
    modifies server
    ensures server.Valid() && old(server.history) <= server.history && old(server.own) <= server.own
    ensures BindingWritesKeep(cluster, server.history, server.own - old(server.own))
    ensures BindWay(cluster, BindProbe,
                    if r.Err? then Done(Errored)
                    else if r.value.None? then Done(Succeeded)
                    else BindReconcile(r.value.value),
                    old(server.history), server.history, legs)
    ensures BindTurns(cluster, BindProbe, old(server.history), legs, old(server.turns), |legs|)
    ensures server.turns == TurnsAfter(old(server.turns), |legs|)
    ensures BindGot(cluster, r, old(server.turns), |legs|, server.history)
  {
    hide BindWay;
    hide BindTurns;
    hide BindEnd;
    hide BuildBinding;
    hide BindingSeenRight;
    hide BindingRightNow;
    hide BindingWritesKeep;
    hide Deleted;
    hide TurnAt;
    hide TurnsAfter;
    hide BindPath;
    hide BindGot;
    hide Served;
    hide Latest;
    hide GrantsKept;
    ghost var start, turns := server.history, server.turns;
    var got, first := GetRoleBinding(server, cluster, BindProbe);
    NoNewWrites(cluster, server.history, server.own);
    legs := [first];
    if got != Err(NotFound) { ReadGot(cluster, turns, server.history, got); }
    if got.Ok? { return Ok(Some(got.value)), legs; }
    if got.error != NotFound { return Err(got.error), legs; }
    ghost var seen := server.history;
    TurnsAdd(turns, 1, 0);
    TurnsAdd(turns, 1, 1);
    var created, second := CreateRoleBinding(server, cluster);
    CreatedGot(cluster, turns, second.history);
    ghost var to := if created.Ok? then Done(Succeeded)
                    else if created.error == AlreadyExists then BindRefetch else Done(Errored);
    NextBindLegs(cluster, BindProbe, start, legs, [second], BindCreate, seen, to, server.history, turns, 1);
    legs := legs + [second];
    if created.Ok? { return Ok(None), legs; }
    NoNewWrites(cluster, server.history, server.own);
    if created.error != AlreadyExists { return Err(created.error), legs; }
    ghost var found := server.history;
    TurnsAdd(turns, 2, 0);
    TurnsAdd(turns, 2, 1);
    assert TurnAt(server.turns, 0) == TurnAt(turns, 2) && Latest(found).Some?;
    var fetched, third := GetRoleBinding(server, cluster, BindRefetch);
    RefetchGot(cluster, turns, found, server.history, fetched);
    r := if fetched.Ok? then Ok(Some(fetched.value)) else Err(fetched.error);
    to := if r.Err? then Done(Errored) else BindReconcile(fetched.value);
    NextBindLegs(cluster, BindProbe, start, legs, [third], BindRefetch, found, to, server.history, turns, 1);
    legs := legs + [third];
    NoNewWrites(cluster, server.history, server.own);
  }

  lemma NoBindingWrites(cluster: Cluster, history: seq<Option<Binding>>)
    ensures BindingWritesKeep(cluster, history, {})
  {
  }

  lemma NoNewWrites(cluster: Cluster, history: seq<Option<Binding>>, own: set<nat>)
    ensures BindingWritesKeep(cluster, history, own - own)
  {
    assert own - own == {};
  }

  lemma CreatedIsRight(cluster: Cluster, found: seq<Option<Binding>>)
    requires found != [] && Latest(found).None?
    ensures var history := found + [Some(BuildBinding(cluster))];
            BindingSeenRight(cluster, history) && BindingRightNow(cluster, history) &&
            forall own | own <= {|found|} :: BindingWritesKeep(cluster, history, own)
  {
    var history := found + [Some(BuildBinding(cluster))];
    assert history[|found|] == Some(BuildBinding(cluster));
  }

  lemma MergedIsRight(cluster: Cluster, read: Binding)
    requires read.roleRef == BuildBinding(cluster).roleRef
    ensures var merged := MergedBinding(read, BuildBinding(cluster));
            && GrantsKept(cluster, Some(read), merged)
            && merged.roleRef == BuildBinding(cluster).roleRef
            && !BindingNeedsUpdate(merged, BuildBinding(cluster))
            && PatchBinding(read, BindingDiff(read, merged)) == merged
  {
    var desired := BuildBinding(cluster);
    MergedSubjectsShape(read.subjects, desired.subjects);
    MergedBindingNeedsNothing(read, desired);
    BindingPatchReproduces(read, MergedBinding(read, desired));
  }

  /** Where a call is after one attempt to reconcile. */
  function ReconciledTo(r: Result<(), ApiError>, last: bool): Call {
    if r.Ok? then Done(Succeeded) else if r == Err(Conflict) && !last then BindGet else Done(Errored)
  }

  /** What reconciling the version `base` does as a step. */
  lemma ReconcileLeg(cluster: Cluster, found: seq<Option<Binding>>, base: nat, last: bool, r: Result<(), ApiError>)
    requires found != [] && base < |found| && found[base].Some?
    requires var read, desired := found[base].value, BuildBinding(cluster);
             if read.roleRef != desired.roleRef then r == Err(DivergentRoleRef)
             else if !BindingNeedsUpdate(read, desired) then r == Ok(())
             else r != Err(Unreachable) ==>
                    r == Sent(found, base)
    ensures var read, desired := found[base].value, BuildBinding(cluster);
            BindActed(cluster, Leg(found, BindReconcile(base), 0, r == Err(Unreachable), last)) ==
            (ReconciledTo(r, last),
             if r.Ok? && read.roleRef == desired.roleRef && BindingNeedsUpdate(read, desired)
             then [Some(MergedBinding(read, desired))] else [])
  {
    hide BuildBinding;
    hide BindingNeedsUpdate;
    hide MergedBinding;
    var read := found[base].value;
    if read.roleRef == BuildBinding(cluster).roleRef { MergedIsRight(cluster, read); }
  }

  /** What leads reconciling version `base` to its answer, when its call, if any, meets this turn. */
  ghost predicate BindTried(cluster: Cluster, r: Result<(), ApiError>, turn: Turn<Binding>, base: nat, calls: nat,
                            before: seq<Option<Binding>>, history: seq<Option<Binding>>)
    requires base < |before| && before[base].Some? && before <= history
  {
    && calls <= 1
    && (r.Ok? || r == Err(Unreachable) || r == Err(Conflict) || r == Err(NotFound) || r == Err(DivergentRoleRef))
    && (r == Err(Unreachable) <==> calls == 1 && turn.fails)
    && (r == Err(DivergentRoleRef) <==> before[base].value.roleRef != BuildBinding(cluster).roleRef)
    && (r == Err(Conflict) ==> calls == 1 && Latest(history).Some? && (base < |before| - 1 || turn.others != []))
    && (r == Err(NotFound) ==> calls == 1 && Latest(history).None? && history == before + turn.others)
    && (r.Ok? && base == |before| - 1 ==> BindingRightNow(cluster, history))
  }

  /** One attempt to reconcile, on version `base`. */
  method TryReconcile(server: Server<Binding>, cluster: Cluster, base: nat, last: bool)
    returns (r: Result<(), ApiError>, ghost leg: Leg<Binding>, ghost calls: nat)
    requires server.Valid() && base < |server.history| && server.history[base].Some?
    modifies server
    ensures server.Valid() && old(server.history) <= server.history && old(server.own) <= server.own
    ensures BindingWritesKeep(cluster, server.history, server.own - old(server.own))
    ensures r.Err? ==> server.own == old(server.own)
    ensures r.Ok? ==> BindingSeenRight(cluster, server.history)
    ensures BindWay(cluster, BindReconcile(base), ReconciledTo(r, last), old(server.history), server.history, [leg])
    ensures BindTurns(cluster, BindReconcile(base), old(server.history), [leg], old(server.turns), calls)
    ensures server.turns == TurnsAfter(old(server.turns), calls)
    ensures BindTried(cluster, r, TurnAt(old(server.turns), 0), base, calls, old(server.history), server.history)
  {
    hide BindWay;
    hide BindTurns;
    hide BindEnd;
    hide GrantsKept;
    hide BuildBinding;
    hide BindingNeedsUpdate;
    hide BindActed;
    var desired := BuildBinding(cluster);
    ghost var start, turns := server.history, server.turns;
    var binding := server.history[base].value;
    leg, calls := Leg(start, BindReconcile(base), 0, false, last), 0;
    assert start + [] == start;
    NoBindTurn(cluster, start, leg, turns);
    if binding.roleRef != desired.roleRef {
      ReconcileLeg(cluster, start, base, last, Err(DivergentRoleRef));
      OneBindLeg(cluster, start, leg);
      return Err(DivergentRoleRef), leg, calls;
    }
    var needed := CheckRoleBinding(binding, desired);
    if !needed {
      ReconcileLeg(cluster, start, base, last, Ok(()));
      OneBindLeg(cluster, start, leg);
      return Ok(()), leg, calls;
    }
    var merged := Merge(binding, desired);
    MergedIsRight(cluster, binding);
    var sent := server.Patch(base, PatchBinding(binding, BindingDiff(binding, merged)));
    ghost var found := start + TurnAt(turns, 0).others;
    assert found[base] == start[base];
    leg, calls := Leg(found, BindReconcile(base), 0, sent == Err(Unreachable), last), 1;
    ReconcileLeg(cluster, found, base, last, sent);
    OneBindLeg(cluster, start, leg);
    OneBindTurn(cluster, start, leg, turns);
    assert found + [] == found;
    assert sent.Ok? ==> server.history[|found|] == Some(merged);
    r := sent;
  }

  method Merge(binding: Binding, desired: Binding) returns (merged: Binding)
    ensures merged == MergedBinding(binding, desired)
  {
    var labels := MergeLabels(binding.labels, desired.labels);
    var subjects := MergeSubjects(binding.subjects, desired.subjects);
    merged := Binding(labels, subjects, binding.roleRef);
  }

  /**
   * What leads reconciling to an error when each attempt is a read, the first at turn `from`, and a
   * write at the turn after it, and what the answer means if all reads are fresh.
   */
  ghost predicate BindExplained(cluster: Cluster, r: Result<(), ApiError>, turns: seq<Turn<Binding>>, from: nat,
                                calls: nat, steps: nat, history: seq<Option<Binding>>)
  {
    && (r == Err(Unreachable) ==> calls > 0 && TurnAt(turns, calls - 1).fails)
    && (r == Err(Conflict) ==> calls >= from + 2 * steps && AllContended(turns, from, steps, |history|))
    && (r == Err(DivergentRoleRef) ==> SeenForeign(cluster, history))
    && (r == Err(NotFound) && FreshTurns(turns, calls, |history|) ==> Deleted(turns, calls))
    && (r.Ok? && FreshTurns(turns, calls, |history|) ==> BindingRightNow(cluster, history))
    && (r.Ok? || r == Err(Unreachable) || r == Err(Conflict) || r == Err(NotFound) || r == Err(DivergentRoleRef))
  }

  lemma TriedExplains(cluster: Cluster, r: Result<(), ApiError>, turns: seq<Turn<Binding>>, k: nat, from: nat,
                      calls: nat, steps: nat, before: seq<Option<Binding>>, history: seq<Option<Binding>>)
    requires before != [] && before <= history
    requires var base := Served(before, TurnAt(turns, k).at);
             before[base].Some? && BindTried(cluster, r, TurnAt(turns, k + 1), base, calls, before, history)
    ensures if r == Err(Conflict) then Contended(turns, k, |history|)
            else BindExplained(cluster, r, turns, from, k + 1 + calls, steps, history)
  {
    hide BindingRightNow;
    hide BuildBinding;
    hide Deleted;
    hide TurnAt;
    var base := Served(before, TurnAt(turns, k).at);
    assert history[base] == before[base];
    if r == Err(NotFound) { AbsentAfter(before, turns, k + 1, k + 2); }
  }

  lemma GetExplains(cluster: Cluster, turns: seq<Turn<Binding>>, k: nat, from: nat, steps: nat,
                    before: seq<Option<Binding>>, got: Result<nat, ApiError>)
    requires before != [] && Latest(before).Some?
    requires ReadAt(before + TurnAt(turns, k).others, TurnAt(turns, k), got) && got.Err?
    ensures BindExplained(cluster, Err(got.error), turns, from, k + 1, steps, before + TurnAt(turns, k).others)
  {
    hide Deleted;
    hide TurnAt;
    if Latest(before + TurnAt(turns, k).others).None? { AbsentAfter(before, turns, k, k + 1); }
  }

  lemma GivingUpExplains(cluster: Cluster, turns: seq<Turn<Binding>>, from: nat, calls: nat, steps: nat,
                         history: seq<Option<Binding>>)
    requires AllContended(turns, from, steps, |history|) && calls >= from + 2 * steps
    ensures BindExplained(cluster, Err(Conflict), turns, from, calls, steps, history)
  {
    hide AllContended;
  }

  lemma NoneContended<T>(turns: seq<Turn<T>>, from: nat, versions: nat)
    ensures AllContended(turns, from, 0, versions)
  {
  }

  lemma MoreContended<T>(turns: seq<Turn<T>>, from: nat, n: nat, versions: nat, more: nat)
    requires AllContended(turns, from, n, versions) && versions <= more && Contended(turns, from + 2 * n, more)
    ensures AllContended(turns, from, n + 1, more)
  {
    hide TurnAt;
    forall i: nat | i < n + 1
      ensures Contended(turns, from + 2 * i, more)
    {
      if i < n { assert Contended(turns, from + 2 * i, versions); }
    }
  }

  /** One attempt of the retry loop: only the first has its version, read at turn `k`, already. */
  method ReconcileOnce(server: Server<Binding>, cluster: Cluster, existing: nat, first: bool, last: bool,
                       ghost turns: seq<Turn<Binding>>, ghost k: nat)
    returns (r: Result<(), ApiError>, ghost legs: seq<Leg<Binding>>, ghost calls: nat)
    requires server.Valid() && server.turns == TurnsAfter(turns, if first then k + 1 else k)
    requires first ==> existing == Served(server.history, TurnAt(turns, k).at) && server.history[existing].Some?
    requires !first ==> Latest(server.history).Some?
    modifies server
    ensures server.Valid() && old(server.history) <= server.history && old(server.own) <= server.own
    ensures BindingWritesKeep(cluster, server.history, server.own - old(server.own))
    ensures r.Err? ==> server.own == old(server.own)
    ensures r.Ok? ==> BindingSeenRight(cluster, server.history)
    ensures BindWay(cluster, if first then BindReconcile(existing) else BindGet, ReconciledTo(r, last),
                    old(server.history), server.history, legs)
    ensures BindTurns(cluster, if first then BindReconcile(existing) else BindGet, old(server.history), legs,
                      old(server.turns), calls)
    ensures server.turns == TurnsAfter(old(server.turns), calls)
    ensures if r == Err(Conflict)
            then |legs| == calls == (if first then 1 else 2) && Latest(server.history).Some? &&
                 Contended(turns, k, |server.history|)
            else BindExplained(cluster, r, turns, k, calls + if first then k + 1 else k, 0, server.history)
  {
    hide BindingSeenRight;
    hide BindingWritesKeep;
    hide BindingRightNow;
    hide BindWay;
    hide BindTurns;
    hide BindEnd;
    hide BindPath;
    hide BindExplained;
    hide BuildBinding;
    hide Deleted;
    hide TurnAt;
    hide TurnsAfter;
    ghost var start, own := server.history, server.turns;
    var version: nat := existing;
    legs, calls := [], 0;
    if !first {
      var got, leg := GetRoleBinding(server, cluster, BindGet);
      legs, calls := [leg], 1;
      TurnsAdd(turns, k, 0);
      TurnsAdd(turns, k, 1);
      if got.Err? {
        GetExplains(cluster, turns, k, k, 0, start, got);
        NoNewWrites(cluster, server.history, server.own);
        return Err(got.error), legs, calls;
      }
      version := got.value;
    }
    ghost var before := server.history;
    TurnsAdd(turns, k + 1, 0);
    var tried, leg, asked := TryReconcile(server, cluster, version, last);
    TriedExplains(cluster, tried, turns, k, k, asked, 0, before, server.history);
    if first {
      legs, calls := [leg], asked;
    } else {
      NextBindLegs(cluster, BindGet, start, legs, [leg], BindReconcile(version), before, ReconciledTo(tried, last),
                   server.history, own, asked);
      TurnsAdd(own, 1, asked);
      legs, calls := legs + [leg], 1 + asked;
    }
    r := tried;
  }

  lemma OnceExplains(cluster: Cluster, r: Result<(), ApiError>, turns: seq<Turn<Binding>>, k: nat, from: nat,
                     calls: nat, steps: nat, history: seq<Option<Binding>>)
    requires BindExplained(cluster, r, turns, k, calls, 0, history) && r != Err(Conflict)
    ensures BindExplained(cluster, r, turns, from, calls, steps, history)
  {
  }

  /** The retry loop, whose first attempt works on the version it is given, read at turn `from` of `turns`. */
  method ReconcileRoleBinding(server: Server<Binding>, cluster: Cluster, existing: nat, steps: nat,
                              ghost turns: seq<Turn<Binding>>, ghost from: nat)
    returns (r: Result<(), ApiError>, ghost legs: seq<Leg<Binding>>, ghost calls: nat)
    requires server.Valid() && existing < |server.history| && server.history[existing].Some?
    requires server.turns == TurnsAfter(turns, from + 1)
    requires existing == Served(server.history, TurnAt(turns, from).at)
    modifies server
    ensures server.Valid() && old(server.history) <= server.history && old(server.own) <= server.own
    ensures BindingWritesKeep(cluster, server.history, server.own - old(server.own))
    ensures r.Err? ==> server.own == old(server.own)
    ensures r.Ok? ==> BindingSeenRight(cluster, server.history)
    ensures steps > 0 ==>
              BindWay(cluster, BindReconcile(existing), ReconciledTo(r, true), old(server.history),
                      server.history, legs)
    ensures steps == 0 ==> legs == []
    ensures BindTurns(cluster, BindReconcile(existing), old(server.history), legs, old(server.turns), calls)
    ensures server.turns == TurnsAfter(old(server.turns), calls)
    ensures BindExplained(cluster, r, turns, from, from + 1 + calls, steps, server.history)
  {
    hide BindingSeenRight;
    hide BindingWritesKeep;
    hide BindingRightNow;
    hide BindWay;
    hide BindTurns;
    hide BindEnd;
    hide BindPath;
    hide BindExplained;
    hide BuildBinding;
    hide Deleted;
    hide TurnAt;
    hide TurnsAfter;
    hide FreshTurns;
    hide AllContended;
    hide SeenForeign;
    hide Latest;
    hide Contended;
    hide Served;
    var first := true;
    ghost var start, own, here := server.history, server.turns, BindReconcile(existing);
    legs, calls := [], 0;
    r := Err(Conflict);
    NoBindLegs(cluster, here, start, own);
    NoTurns(own);
    NoneContended(turns, from, |start|);
    ghost var k := from;
    for attempt := 0 to steps
      invariant server.Valid() && old(server.history) <= server.history && server.own == old(server.own)
      invariant (first <==> attempt == 0) && k == from + 2 * attempt
      invariant first ==> k == from && server.history == start && here == BindReconcile(existing)
      invariant !first ==> Latest(server.history).Some? && here == ReconciledTo(r, attempt == steps)
      invariant r == Err(Conflict) && (steps == 0 ==> legs == [])
      invariant |legs| == calls && from + 1 + calls == if first then k + 1 else k
      invariant server.turns == TurnsAfter(own, calls)
      invariant AllContended(turns, from, attempt, |server.history|)
      invariant BindTurns(cluster, BindReconcile(existing), start, legs, own, calls)
      invariant BindWay(cluster, BindReconcile(existing), here, start, server.history, legs)
    {
      ghost var before := server.history;
      TurnsAdd(turns, from + 1, calls);
      assert server.turns == TurnsAfter(turns, if first then k + 1 else k);
      var tried, more, asked :=
        ReconcileOnce(server, cluster, existing, first, attempt + 1 == steps, turns, k);
      first := false;
      NextBindLegs(cluster, BindReconcile(existing), start, legs, more, here, before,
                   ReconciledTo(tried, attempt + 1 == steps), server.history, own, asked);
      here := ReconciledTo(tried, attempt + 1 == steps);
      TurnsAdd(own, calls, asked);
      legs, calls := legs + more, calls + asked;
      if tried != Err(Conflict) {
        OnceExplains(cluster, tried, turns, k, from, from + 1 + calls, steps, server.history);
        return tried, legs, calls;
      }
      MoreContended(turns, from, attempt, |before|, |server.history|);
      k := k + 2;
    }
    GivingUpExplains(cluster, turns, from, from + 1 + calls, steps, server.history);
    NoNewWrites(cluster, server.history, server.own);
  }

  lemma NoBindLegs(cluster: Cluster, first: Call, start: seq<Option<Binding>>, turns: seq<Turn<Binding>>)
    ensures BindTurns(cluster, first, start, [], turns, 0) && BindWay(cluster, first, first, start, start, [])
  {
  }

  lemma BindingWritesJoin(cluster: Cluster, before: seq<Option<Binding>>, after: seq<Option<Binding>>,
                          created: set<nat>, patched: set<nat>)
    requires before <= after && BindingWritesKeep(cluster, before, created) &&
             BindingWritesKeep(cluster, after, patched)
    ensures BindingWritesKeep(cluster, after, created + patched)
  {
    hide GrantsKept;
    forall j | j in created + patched
      ensures 0 < j < |after| && after[j].Some? && GrantsKept(cluster, after[j - 1], after[j].value)
    {
      if j in created {
        assert 0 < j < |before|;
        assert after[j] == before[j] && after[j - 1] == before[j - 1];
      }
    }
  }

  /** As `BindExplained`; the read that served the first attempt is the first or the third call. */
  ghost predicate BindEnsured(cluster: Cluster, r: Result<(), ApiError>, turns: seq<Turn<Binding>>, calls: nat,
                              steps: nat, history: seq<Option<Binding>>)
  {
    || BindExplained(cluster, r, turns, 0, calls, steps, history)
    || BindExplained(cluster, r, turns, 2, calls, steps, history)
  }

  /** Undisturbed, the RoleBinding is right afterwards, unless it refers to another Role. */
  lemma CalmBindingIsRight(cluster: Cluster, r: Result<(), ApiError>, turns: seq<Turn<Binding>>, calls: nat,
                           steps: nat, history: seq<Option<Binding>>)
    requires BindEnsured(cluster, r, turns, calls, steps, history)
    requires Calm(turns, calls, |history|) && steps > 0 && !SeenForeign(cluster, history)
    ensures r.Ok? && BindingRightNow(cluster, history)
  {
    hide BindingRightNow;
    hide SeenForeign;
    if r == Err(Conflict) {
      var from := if BindExplained(cluster, r, turns, 0, calls, steps, history) then 0 else 2;
      FirstContended(turns, from, steps, |history|);
    }
  }

  method EnsureRoleBinding(server: Server<Binding>, cluster: Cluster, steps: nat)
    returns (r: Result<(), ApiError>, ghost legs: seq<Leg<Binding>>, ghost calls: nat)
    requires server.Valid()
    modifies server
    ensures server.Valid() && old(server.history) <= server.history && old(server.own) <= server.own
    ensures BindingWritesKeep(cluster, server.history, server.own - old(server.own))
    ensures r.Ok? ==> BindingSeenRight(cluster, server.history)
    ensures steps > 0 ==> BindWay(cluster, BindProbe, ReconciledTo(r, true), old(server.history), server.history, legs)
    ensures BindTurns(cluster, BindProbe, old(server.history), legs, old(server.turns), calls)
    ensures server.turns == TurnsAfter(old(server.turns), calls)
    ensures BindEnsured(cluster, r, old(server.turns), calls, steps, server.history)
    ensures Calm(old(server.turns), calls, |server.history|) && steps > 0 && !SeenForeign(cluster, server.history) ==>
              r.Ok? && BindingRightNow(cluster, server.history)
  {
    hide BindingSeenRight;
    hide BindingRightNow;
    hide SeenForeign;
    hide BindingWritesKeep;
    hide BindWay;
    hide BindTurns;
    hide BindEnd;
    hide BuildBinding;
    hide Calm;
    ghost var start, turns := server.history, server.turns;
    var found;
    found, legs := GetOrCreateRoleBinding(server, cluster);
    calls := |legs|;
    if found.Err? || found.value.None? {
      r := if found.Err? then Err(found.error) else Ok(());
    } else {
      ghost var before, created, more, asked := server.history, server.own, [], 0;
      r, more, asked := ReconcileRoleBinding(server, cluster, found.value.value, steps, turns, |legs| - 1);
      BindingWritesJoin(cluster, before, server.history, created - old(server.own), server.own - created);
      assert server.own - old(server.own) == (created - old(server.own)) + (server.own - created);
      if steps > 0 {
        NextBindLegs(cluster, BindProbe, start, legs, more, BindReconcile(found.value.value), before,
                     ReconciledTo(r, true), server.history, turns, asked);
      } else {
        BindTurnsAgree(cluster, BindProbe, start, legs, turns, |legs|, |legs| + asked);
        assert legs + more == legs;
      }
      TurnsAdd(turns, |legs|, asked);
      legs, calls := legs + more, |legs| + asked;
    }
    if Calm(turns, calls, |server.history|) && steps > 0 && !SeenForeign(cluster, server.history) {
      CalmBindingIsRight(cluster, r, turns, calls, steps, server.history);
    }
  }

  // ---------------------------------------------------------------- the Pre hook

  datatype Hook = Continue | Requeue | Failed(error: ApiError)

  /** The outcome of reading the stores, in order, up to the first that cannot be read. */
  function ReadStores(referred: seq<string>, lookup: string -> Result<ObjectStore, ApiError>)
    : Result<seq<ObjectStore>, ApiError>
  {
    if referred == [] then Ok([])
    else
      match ReadStores(referred[..|referred| - 1], lookup)
      case Err(e) => Err(e)
      case Ok(earlier) =>
        match lookup(referred[|referred| - 1])
        case Err(e) => Err(e)
        case Ok(store) => Ok(earlier + [store])
  }

  /** All stores if each can be read, or else the error of the first that cannot. */
  lemma {:induction false} ReadStoresExactly(referred: seq<string>, lookup: string -> Result<ObjectStore, ApiError>)
    ensures var r := ReadStores(referred, lookup);
            if r.Ok? then
              |r.value| == |referred| && forall i :: 0 <= i < |referred| ==> lookup(referred[i]) == Ok(r.value[i])
            else
              exists i :: 0 <= i < |referred| && lookup(referred[i]) == Err(r.error) &&
                          forall j :: 0 <= j < i ==> lookup(referred[j]).Ok?
  {
    if referred != [] {
      var earlier := referred[..|referred| - 1];
      ReadStoresExactly(earlier, lookup);
      assert forall i :: 0 <= i < |earlier| ==> earlier[i] == referred[i];
      if ReadStores(earlier, lookup).Err? {
        var i :| 0 <= i < |earlier| && lookup(earlier[i]) == Err(ReadStores(earlier, lookup).error) &&
                 forall j :: 0 <= j < i ==> lookup(earlier[j]).Ok?;
        assert lookup(referred[i]) == Err(ReadStores(referred, lookup).error);
      }
    }
  }

  lemma {:induction false} FirstErrorStays(referred: seq<string>,
                                           lookup: string -> Result<ObjectStore, ApiError>, n: nat)
    requires n <= |referred| && ReadStores(referred[..n], lookup).Err?
    ensures ReadStores(referred, lookup) == ReadStores(referred[..n], lookup)
  {
    if n == |referred| {
      assert referred[..n] == referred;
    } else {
      assert referred[..|referred| - 1][..n] == referred[..n];
      FirstErrorStays(referred[..|referred| - 1], lookup, n);
    }
  }

  /**
   * Stops before any write when a store cannot be read: to be called again if it does not exist,
   * with an error otherwise. A call that continues has seen or written a right Role and then a
   * right RoleBinding. From the Role on, its API calls are steps of one call of `RbacSystem`.
   */
  method Pre(roles: Server<Role>, bindings: Server<Binding>, cluster: Cluster, referred: seq<string>,
             lookup: string -> Result<ObjectStore, ApiError>, steps: nat)
    returns (hook: Hook, ghost roleLegs: seq<Leg<Role>>, ghost bindLegs: seq<Leg<Binding>>, ghost bindCalls: nat)
    requires roles.Valid() && bindings.Valid()
    modifies roles, bindings
    ensures roles.Valid() && bindings.Valid()
    ensures ReadStores(referred, lookup).Err? ==>
              roles.history == old(roles.history) && bindings.history == old(bindings.history) &&
              hook == if ReadStores(referred, lookup).error == NotFound then Requeue
                      else Failed(ReadStores(referred, lookup).error)
    ensures ReadStores(referred, lookup).Ok? ==>
              && hook != Requeue
              && RoleWritesKeep(cluster, RoleRules(ReadStores(referred, lookup).value), roles.history,
                                roles.own - old(roles.own))
              && BindingWritesKeep(cluster, bindings.history, bindings.own - old(bindings.own))
    ensures hook.Continue? ==>
              && ReadStores(referred, lookup).Ok?
              && SeenRight(cluster, PreHook, RoleRules(ReadStores(referred, lookup).value), roles.history)
              && BindingSeenRight(cluster, bindings.history)
    ensures ReadStores(referred, lookup).Ok? && steps > 0 ==>
              (exists end :: RoleWay(cluster, RoleProbe(RoleRules(ReadStores(referred, lookup).value)), end,
                                     old(roles.history), roles.history, roleLegs) &&
                 if end == BindProbe
                 then BindWay(cluster, end, Done(if hook.Continue? then Succeeded else Errored),
                              old(bindings.history), bindings.history, bindLegs)
                 else end == Done(Errored) && !hook.Continue? && bindings.history == old(bindings.history))
    ensures roles.turns == TurnsAfter(old(roles.turns), |roleLegs|)
    ensures bindings.turns == TurnsAfter(old(bindings.turns), bindCalls)
    ensures ReadStores(referred, lookup).Ok? ==>
              var rules := RoleRules(ReadStores(referred, lookup).value);
              && RoleTurns(cluster, RoleProbe(rules), old(roles.history), roleLegs, old(roles.turns))
              && BindTurns(cluster, BindProbe, old(bindings.history), bindLegs, old(bindings.turns), bindCalls)
              && match hook {
                   case Requeue => false
                   case Continue =>
                     && RoleEnsured(cluster, rules, Ok(()), old(roles.turns), |roleLegs|, steps, roles.history)
                     && BindEnsured(cluster, Ok(()), old(bindings.turns), bindCalls, steps, bindings.history)
                   case Failed(e) =>
                     || RoleEnsured(cluster, rules, Err(e), old(roles.turns), |roleLegs|, steps, roles.history)
                     || BindEnsured(cluster, Err(e), old(bindings.turns), bindCalls, steps, bindings.history)
                 }
    ensures ReadStores(referred, lookup).Ok? && steps > 0 &&
            Calm(old(roles.turns), |roleLegs|, |roles.history|) &&
            Calm(old(bindings.turns), bindCalls, |bindings.history|) && !SeenForeign(cluster, bindings.history) ==>
              && hook.Continue?
              && RightNow(cluster, PreHook, RoleRules(ReadStores(referred, lookup).value), roles.history)
              && BindingRightNow(cluster, bindings.history)
  {
    hide RoleRules;
    hide RoleWay;
    hide RoleTurns;
    hide RoleEnd;
    hide BindWay;
    hide BindTurns;
    hide BindEnd;
    hide RoleWritesKeep;
    hide BindingWritesKeep;
    hide BindingSeenRight;
    hide SeenRight;
    hide RightNow;
    hide BindingRightNow;
    hide SeenForeign;
    hide RoleEnsured;
    hide BindEnsured;
    hide Calm;
    NoBindingWrites(cluster, bindings.history);
    NoBindLegs(cluster, BindProbe, bindings.history, bindings.turns);
    roleLegs, bindLegs, bindCalls := [], [], 0;
    var stores: seq<ObjectStore> := [];
    for i := 0 to |referred|
      modifies {}
      invariant ReadStores(referred[..i], lookup) == Ok(stores)
    {
      assert referred[..i + 1][..i] == referred[..i];
      var got := lookup(referred[i]);
      if got.Err? {
        FirstErrorStays(referred, lookup, i + 1);
        hook := if got.error == NotFound then Requeue else Failed(got.error);
        return;
      }
      stores := stores + [got.value];
    }
    assert referred[..|referred|] == referred;
    assert bindings.own - old(bindings.own) == {};
    var role;
    role, roleLegs := EnsureRole(roles, cluster, stores, steps);
    if role.Err? { return Failed(role.error), roleLegs, bindLegs, bindCalls; }
    OnlyUnit(role);
    var binding;
    binding, bindLegs, bindCalls := EnsureRoleBinding(bindings, cluster, steps);
    if binding.Err? { return Failed(binding.error), roleLegs, bindLegs, bindCalls; }
    OnlyUnit(binding);
    hook := Continue;
  }
}
