/**
 * The recovery windows in the status of one object store, written by the backups and the
 * maintenance of several servers. A status update carries the version it was computed from.
 */
module RecoveryWindow {
  import opened Prelude
  import opened Versioned

  type Time = int

  datatype Window = Window(
    firstRecoverabilityPoint: Option<Time>,
    lastSuccessfulBackup: Option<Time>,
    lastFailedBackup: Option<Time>)

  /** The window of each server; a server without entry has the zero window. */
  type Windows = map<string, Window>

  const ZERO := Window(None, None, None)

  function WindowOf(windows: Windows, server: string): Window {
    if server in windows then windows[server] else ZERO
  }

  /** The two kinds of writes. */
  datatype Change =
    | Backup(server: string, first: Option<Time>, last: Option<Time>)
    | Failure(server: string, time: Time)

  function Changed(windows: Windows, c: Change): Windows {
    match c
    case Backup(server, first, last) =>
      windows[server := WindowOf(windows, server).(firstRecoverabilityPoint := first, lastSuccessfulBackup := last)]
    case Failure(server, time) =>
      windows[server := WindowOf(windows, server).(lastFailedBackup := Some(time))]
  }

  // ---------------------------------------------------------------- the writers as the plugin runs them

  datatype UpdateResult = Accepted | Conflict | Missing | Failed

  /** The object store on the API server. */
  class StatusServer {
    var history: seq<Option<Windows>>

    constructor (first: Option<Windows>)
      ensures history == [first]
    {
      history := [first];
    }

    /** Other clients write meanwhile. */
    method OthersWrite(writes: seq<Option<Windows>>)
      modifies this`history
      ensures history == old(history) + writes
    {
      history := history + writes;
    }

    method StatusUpdate(base: nat, windows: Windows, fails: bool) returns (r: UpdateResult)
      requires history != []
      modifies this`history
      ensures r == if fails then Failed else if Latest(old(history)).None? then Missing
                   else if IsCurrent(old(history), base) then Accepted else Conflict
      ensures history == if r.Accepted? then old(history) + [Some(windows)] else old(history)
    {
      if fails { return Failed; }
      if Latest(history).None? { return Missing; }
      if base != |history| - 1 { return Conflict; }
      history := history + [Some(windows)];
      r := Accepted;
    }
  }

  /** The object store as a client read it. */
  class ObjectStore {
    var version: nat
    var windows: Windows

    constructor (version: nat, windows: Windows)
      ensures this.version == version && this.windows == windows
    {
      this.version, this.windows := version, windows;
    }
  }

  /** One update, without retry, from an object that may have been read long ago. */
  method UpdateRecoveryWindow(server: StatusServer, objectStore: ObjectStore, serverName: string,
                              first: Option<Time>, last: Option<Time>, fails: bool) returns (r: UpdateResult)
    requires server.history != []
    modifies server`history, objectStore`windows
    ensures objectStore.windows == Changed(old(objectStore.windows), Backup(serverName, first, last))
    ensures r == if fails then Failed else if Latest(old(server.history)).None? then Missing
                 else if objectStore.version == |old(server.history)| - 1 then Accepted else Conflict
    ensures server.history ==
            old(server.history) + if r.Accepted? then [Some(objectStore.windows)] else []
  {
    var recoveryWindow := WindowOf(objectStore.windows, serverName);
    recoveryWindow := recoveryWindow.(firstRecoverabilityPoint := first);
    recoveryWindow := recoveryWindow.(lastSuccessfulBackup := last);
    objectStore.windows := objectStore.windows[serverName := recoveryWindow];
    r := server.StatusUpdate(objectStore.version, objectStore.windows, fails);
  }

  /** What the environment does during one attempt: writes of others, a possibly stale read, failures. */
  datatype Attempt = Attempt(
    beforeRead: seq<Option<Windows>>,
    at: nat,
    readFails: bool,
    beforeUpdate: seq<Option<Windows>>,
    updateFails: bool)

  /** The attempt reads an old version, or someone writes between its read and its update. */
  predicate Contended(attempt: Attempt, versions: nat) {
    attempt.at < versions || attempt.beforeUpdate != []
  }

  /** The history after the first `n` attempts, if none of them succeeds. */
  function Before(start: seq<Option<Windows>>, attempts: seq<Attempt>, n: nat): (h: seq<Option<Windows>>)
    requires start != [] && n <= |attempts|
    ensures |h| >= |start|
  {
    if n == 0 then start
    else Before(start, attempts, n - 1) + attempts[n - 1].beforeRead + attempts[n - 1].beforeUpdate
  }

  lemma NoneBefore(start: seq<Option<Windows>>, attempts: seq<Attempt>)
    requires start != []
    ensures Before(start, attempts, 0) == start
  {
  }

  /**
   * The call returns in attempt `i`, after contended ones, when it has found this history: it fails when
   * a call of that attempt does or there is no object, and succeeds when the version it read is the latest.
   */
  ghost predicate ReturnsIn(attempts: seq<Attempt>, i: nat, ok: bool, start: seq<Option<Windows>>,
                            found: seq<Option<Windows>>)
    requires start != [] && i < |attempts| && found != []
  {
    var seen := Before(start, attempts, i) + attempts[i].beforeRead;
    var version := Served(seen, attempts[i].at);
    && (forall j :: 0 <= j < i ==> Contended(attempts[j], |found|))
    && if attempts[i].readFails || seen[version].None? then !ok && found == seen
       else
         && found == Before(start, attempts, i + 1)
         && (ok <==> !attempts[i].updateFails && IsCurrent(found, version))
         && (ok || attempts[i].updateFails || Latest(found).None?)
  }

  /** What one attempt answers, None standing for a conflict, and the history it finds at its last call. */
  ghost predicate Answers(attempt: Attempt, before: seq<Option<Windows>>, r: Option<bool>,
                          found: seq<Option<Windows>>)
    requires before != []
  {
    var seen := before + attempt.beforeRead;
    var version := Served(seen, attempt.at);
    if attempt.readFails || seen[version].None? then r == Some(false) && found == seen
    else
      && found == seen + attempt.beforeUpdate
      && r == (if attempt.updateFails || Latest(found).None? then Some(false)
               else if version == |found| - 1 then Some(true) else None)
  }

  /** How one attempt after contended ones ends the call, or goes on. */
  lemma Returns(attempts: seq<Attempt>, i: nat, r: Option<bool>, start: seq<Option<Windows>>,
                found: seq<Option<Windows>>)
    requires start != [] && i < |attempts| && Answers(attempts[i], Before(start, attempts, i), r, found)
    ensures Before(start, attempts, i) <= found
    ensures r.None? ==> found == Before(start, attempts, i + 1) && Contended(attempts[i], |found|)
    ensures r.Some? && (forall j :: 0 <= j < i ==> Contended(attempts[j], |found|)) ==>
              ReturnsIn(attempts, i, r.value, start, found)
  {
  }

  /** One attempt of the retry loop. */
  method TrySetLastFailedBackupTime(server: StatusServer, serverName: string, time: Time, attempt: Attempt)
    returns (r: Option<bool>, ghost found: seq<Option<Windows>>)
    requires server.history != []
    modifies server`history
    ensures Answers(attempt, old(server.history), r, found) && found != []
    ensures r == Some(true) ==> Latest(found).Some?
    ensures server.history ==
            if r == Some(true) then found + [Some(Changed(Latest(found).value, Failure(serverName, time)))] else found
  {
    server.OthersWrite(attempt.beforeRead);
    found := server.history;
    if attempt.readFails { return Some(false), found; }
    ghost var seen := server.history;
    var version := Served(server.history, attempt.at);
    if server.history[version].None? { return Some(false), found; }
    var windows := server.history[version].value;

    server.OthersWrite(attempt.beforeUpdate);
    found := server.history;
    assert found[version] == seen[version];
    var recoveryWindow := WindowOf(windows, serverName).(lastFailedBackup := Some(time));
    var updated := server.StatusUpdate(version, windows[serverName := recoveryWindow], attempt.updateFails);
    r := match updated case Accepted => Some(true) case Conflict => None case _ => Some(false);
  }

  /**
   * Retries on conflict, once per attempt, and gives up if all attempts were contended. `found` is what
   * the call and its retries found: a successful call adds exactly the failure time to its latest version.
   */
  method SetLastFailedBackupTime(server: StatusServer, serverName: string, time: Time, attempts: seq<Attempt>)
    returns (ok: bool, ghost found: seq<Option<Windows>>)
    requires server.history != []
    modifies server`history
    ensures old(server.history) <= found && (ok ==> Latest(found).Some?)
    ensures server.history ==
            if ok then found + [Some(Changed(Latest(found).value, Failure(serverName, time)))] else found
    ensures (exists i :: 0 <= i < |attempts| && ReturnsIn(attempts, i, ok, old(server.history), found)) ||
            (!ok && found == Before(old(server.history), attempts, |attempts|) &&
             forall i :: 0 <= i < |attempts| ==> Contended(attempts[i], |found|))
  {
    hide Before;
    hide ReturnsIn;
    hide Answers;
    ghost var start := server.history;
    found := start;
    NoneBefore(start, attempts);
    for i := 0 to |attempts|
      invariant start <= server.history == found == Before(start, attempts, i)
      invariant forall j :: 0 <= j < i ==> Contended(attempts[j], |found|)
    {
      var tried;
      tried, found := TrySetLastFailedBackupTime(server, serverName, time, attempts[i]);
      Returns(attempts, i, tried, start, found);
      if tried.Some? { return tried.value, found; }
    }
    ok := false;
  }

  // ---------------------------------------------------------------- any number of writers

  /** A write in flight: its change and, once it has read the object, the version it read. */
  datatype Call = Reading(change: Change) | Sending(change: Change, base: nat) | Over

  /** `log` records the accepted changes in order. */
  datatype System = System(history: seq<Option<Windows>>, calls: seq<Call>, log: seq<Change>)

  datatype Action =
    | Start(change: Change)
      /** Another client changes the object but not its status. */
    | Touch
      /** One API call of a writer; only a failure time is retried after a conflict. */
    | Step(call: nat, at: nat, fails: bool, givesUp: bool)

  ghost predicate Valid(s: System) {
    && s.history != []
    && (forall i :: 0 <= i < |s.calls| && s.calls[i].Sending? ==>
          s.calls[i].base < |s.history| && s.history[s.calls[i].base].Some?)
  }

  function Next(s: System, a: Action): System
    requires Valid(s)
  {
    match a
    case Start(change) => s.(calls := s.calls + [Reading(change)])
    case Touch => s.(history := s.history + [Latest(s.history)])
    case Step(call, at, fails, givesUp) =>
      if call >= |s.calls| || s.calls[call].Over? then s
      else if fails then s.(calls := s.calls[call := Over])
      else
        match s.calls[call]
        case Reading(change) =>
          var version := Served(s.history, at);
          s.(calls := s.calls[call := if s.history[version].Some? then Sending(change, version) else Over])
        case Sending(change, base) =>
          if IsCurrent(s.history, base) then
            System(s.history + [Some(Changed(s.history[base].value, change))], s.calls[call := Over], s.log + [change])
          else if change.Failure? && !givesUp && Latest(s.history).Some? then
            s.(calls := s.calls[call := Reading(change)])
          else s.(calls := s.calls[call := Over])
        case Over => s
  }

  function After(s: System, actions: seq<Action>, k: nat): (r: System)
    requires Valid(s) && k <= |actions|
    ensures Valid(r)
  {
    if k == 0 then s else Next(After(s, actions, k - 1), actions[k - 1])
  }

  function Replay(windows: Windows, log: seq<Change>): Windows {
    if log == [] then windows else Changed(Replay(windows, log[..|log| - 1]), log[|log| - 1])
  }

  /** What one server's own changes make of its own window. */
  function ReplayOwn(window: Window, log: seq<Change>, server: string): Window {
    if log == [] then window
    else
      var earlier := ReplayOwn(window, log[..|log| - 1], server);
      match log[|log| - 1]
      case Backup(name, first, last) =>
        if name == server then earlier.(firstRecoverabilityPoint := first, lastSuccessfulBackup := last) else earlier
      case Failure(name, time) =>
        if name == server then earlier.(lastFailedBackup := Some(time)) else earlier
  }

  lemma {:induction false} ReplayIsPerServer(windows: Windows, log: seq<Change>, server: string)
    ensures WindowOf(Replay(windows, log), server) == ReplayOwn(WindowOf(windows, server), log, server)
  {
    if log != [] { ReplayIsPerServer(windows, log[..|log| - 1], server); }
  }

  lemma ReplayNext(windows: Windows, log: seq<Change>, change: Change)
    ensures Replay(windows, log + [change]) == Changed(Replay(windows, log), change)
  {
    assert (log + [change])[..|log|] == log;
  }

  lemma StepIsReplayed(s: System, a: Action, windows: Windows)
    requires Valid(s) && Latest(s.history) == Some(Replay(windows, s.log))
    ensures Latest(Next(s, a).history) == Some(Replay(windows, Next(s, a).log))
  {
    hide Changed;
    if a.Step? && a.call < |s.calls| && s.calls[a.call].Sending? { ReplayNext(windows, s.log, s.calls[a.call].change); }
    hide Replay;
  }

  /** The object always is the starting object with the accepted changes applied one after the other. */
  lemma {:induction false} StatusIsReplay(s: System, actions: seq<Action>, k: nat)
    requires Valid(s) && Latest(s.history).Some? && s.log == [] && k <= |actions|
    ensures var now := After(s, actions, k);
            Latest(now.history) == Some(Replay(Latest(s.history).value, now.log))
  {
    hide Next;
    if k > 0 {
      StatusIsReplay(s, actions, k - 1);
      StepIsReplayed(After(s, actions, k - 1), actions[k - 1], Latest(s.history).value);
    }
  }

  /**
   * No update is lost: under any interleaving of servers sharing the object store, with stale
   * reads, conflicts and failures, a server's window is what its own accepted changes make of it.
   * In particular other servers never touch it, backups keep the time of the last failure, and
   * failures keep the other two times.
   */
  lemma {:induction false} WindowsAreIndependent(s: System, actions: seq<Action>, k: nat, server: string)
    requires Valid(s) && Latest(s.history).Some? && s.log == [] && k <= |actions|
    ensures var now := After(s, actions, k);
            && Latest(now.history).Some?
            && WindowOf(Latest(now.history).value, server) ==
               ReplayOwn(WindowOf(Latest(s.history).value, server), now.log, server)
  {
    StatusIsReplay(s, actions, k);
    ReplayIsPerServer(Latest(s.history).value, After(s, actions, k).log, server);
  }

  function LastBackup(log: seq<Change>, server: string): (r: Option<Change>)
    ensures r.Some? ==> r.value.Backup? && r.value.server == server && r.value in log
  {
    if log == [] then None
    else if log[|log| - 1].Backup? && log[|log| - 1].server == server then Some(log[|log| - 1])
    else LastBackup(log[..|log| - 1], server)
  }

  function LastFailure(log: seq<Change>, server: string): (r: Option<Change>)
    ensures r.Some? ==> r.value.Failure? && r.value.server == server && r.value in log
  {
    if log == [] then None
    else if log[|log| - 1].Failure? && log[|log| - 1].server == server then Some(log[|log| - 1])
    else LastFailure(log[..|log| - 1], server)
  }

  /** Each of the three times comes from the last accepted change of the server that sets it. */
  lemma {:induction false} WindowIsLastChange(window: Window, log: seq<Change>, server: string)
    ensures var now := ReplayOwn(window, log, server);
            && (match LastBackup(log, server)
                case None =>
                  now.firstRecoverabilityPoint == window.firstRecoverabilityPoint &&
                  now.lastSuccessfulBackup == window.lastSuccessfulBackup
                case Some(b) => now.firstRecoverabilityPoint == b.first && now.lastSuccessfulBackup == b.last)
            && (match LastFailure(log, server)
                case None => now.lastFailedBackup == window.lastFailedBackup
                case Some(f) => now.lastFailedBackup == Some(f.time))
  {
    if log != [] { WindowIsLastChange(window, log[..|log| - 1], server); }
  }
}
