/**
 * Runs of both status writers in one process with a cache, among other clients. A writer holds the
 * object it read, writes its window into the map of that object, encodes the request, and sends it;
 * between any two of these steps everyone else may act.
 */
module RecoveryCacheRuns {
  import opened Prelude
  import opened Versioned
  import opened RecoveryThroughCache
  import RecoveryWindow
  import TtlCache

  type Change = RecoveryWindow.Change

  /**
   * What a writer holds. `windows` are those of its own map, if that is not shared with the cache. A
   * request keeps the changes that went into it, in order, and which of them is the writer's.
   */
  datatype Held =
    | Got(version: nat, windows: Windows, shared: Option<TtlCache.Address>)
    | Wrote(version: nat, windows: Windows, shared: Option<TtlCache.Address>, change: Change, at: nat)
    | Requesting(version: nat, body: Windows, changes: seq<Change>, change: Change, at: nat)

  /** Where a map of the cache comes from: the version it was fetched at, and what was written since. */
  datatype Origin = Origin(base: nat, changes: seq<Change>)

  /** The object store on the server, the cache with the origins of its maps, and the writers at work. */
  datatype Process = Process(
    history: seq<Option<Windows>>,
    cache: TtlCache.State,
    origins: seq<Origin>,
    held: seq<Option<Held>>)

  datatype Action =
    | OthersWrite(written: seq<Option<Windows>>)
    | Forget
    | Read(now: int, at: nat, fails: bool)
    | Write(holder: nat, change: Change)
    | Encode(holder: nat)
    | Send(holder: nat, fails: bool)

  predicate Holds(p: Process, i: nat) {
    i < |p.held| && p.held[i].Some?
  }

  /** The holder has not encoded its request yet. */
  predicate UsesMap(p: Process, i: nat) {
    Holds(p, i) && !p.held[i].value.Requesting?
  }

  function WindowsNow(p: Process, h: Held): Windows
    requires !h.Requesting?
  {
    if h.shared.Some? && h.shared.value < |p.cache.maps| then p.cache.maps[h.shared.value] else h.windows
  }

  function ChangesNow(p: Process, h: Held): seq<Change>
    requires h.Wrote?
  {
    if h.shared.Some? && h.shared.value < |p.origins| then p.origins[h.shared.value].changes else [h.change]
  }

  function BaseReply(key: TtlCache.Key, history: seq<Option<Windows>>, at: nat, fails: bool): TtlCache.Reply
    requires history != []
  {
    var version := Served(history, at);
    if fails then Err(TtlCache.Unreachable)
    else if history[version].None? then Err(TtlCache.NotFound)
    else Ok(ObjectAt(key, version, history[version].value))
  }

  function HeldOf(answer: TtlCache.Answer): Option<Held> {
    if answer.reply.Err? then None
    else Some(Got(answer.reply.value.fields.version, WindowsOf(answer.reply.value), answer.shared))
  }

  function NextRead(key: TtlCache.Key, p: Process, a: Action): Process
    requires p.history != [] && a.Read?
  {
    var (cache, answer) := TtlCache.CachedGet(p.cache, key, a.now, BaseReply(key, p.history, a.at, a.fails), a.now);
    Process(p.history,
            cache,
            if |cache.maps| == |p.cache.maps| then p.origins else p.origins + [Origin(Served(p.history, a.at), [])],
            p.held + [HeldOf(answer)])
  }

  function NextWrite(p: Process, i: nat, change: Change): Process
    requires UsesMap(p, i) && p.held[i].value.Got?
  {
    var h := p.held[i].value;
    if h.shared.Some? && h.shared.value < |p.cache.maps| && h.shared.value < |p.origins| then
      var a := h.shared.value;
      var origin := p.origins[a];
      p.(cache := WrittenThrough(p.cache, WindowsNow(p, h), h.shared, change),
         origins := p.origins[a := origin.(changes := origin.changes + [change])],
         held := p.held[i := Some(Wrote(h.version, h.windows, h.shared, change, |origin.changes|))])
    else
      p.(held := p.held[i := Some(Wrote(h.version, RecoveryWindow.Changed(h.windows, change), None, change, 0))])
  }

  function Next(key: TtlCache.Key, p: Process, a: Action): Process
    requires p.history != []
  {
    match a
    case OthersWrite(written) => p.(history := p.history + written)
    case Forget => p.(cache := p.cache.(view := p.cache.view - {key}))
    case Read(_, _, _) => NextRead(key, p, a)
    case Write(i, change) => if UsesMap(p, i) && p.held[i].value.Got? then NextWrite(p, i, change) else p
    case Encode(i) =>
      if UsesMap(p, i) && p.held[i].value.Wrote? then
        var h := p.held[i].value;
        p.(held := p.held[i := Some(Requesting(h.version, WindowsNow(p, h), ChangesNow(p, h), h.change, h.at))])
      else p
    case Send(i, fails) =>
      if !Holds(p, i) || !p.held[i].value.Requesting? then p
      else p.(history := if Accepts(p, a) then p.history + [Some(p.held[i].value.body)] else p.history,
              held := p.held[i := None])
  }

  /** The server accepts this request. */
  predicate Accepts(p: Process, a: Action)
    requires p.history != []
  {
    && a.Send? && !a.fails && Holds(p, a.holder) && p.held[a.holder].value.Requesting?
    && IsCurrent(p.history, p.held[a.holder].value.version)
  }

  function After(key: TtlCache.Key, p: Process, actions: seq<Action>, k: nat): (r: Process)
    requires p.history != [] && k <= |actions|
    ensures r.history != []
  {
    if k == 0 then p else Next(key, After(key, p, actions, k - 1), actions[k - 1])
  }

  /** A process that starts: it has read nothing. */
  predicate Starts(p: Process) {
    p.history != [] && p.cache == TtlCache.State(map[], []) && p.origins == [] && p.held == []
  }

  // ---------------------------------------------------------------- where windows come from

  predicate VersionExists(history: seq<Option<Windows>>, version: nat) {
    version < |history| && history[version].Some?
  }

  /** Every map is the status it was fetched from with the changes written into it since. */
  ghost predicate MapsTracked(p: Process) {
    && |p.origins| == |p.cache.maps|
    && forall a :: 0 <= a < |p.origins| ==>
         && VersionExists(p.history, p.origins[a].base)
         && p.cache.maps[a] == RecoveryWindow.Replay(p.history[p.origins[a].base].value, p.origins[a].changes)
  }

  ghost predicate EntryTracked(key: TtlCache.Key, p: Process) {
    key in p.cache.view ==>
      var f := p.cache.view[key];
      && VersionExists(p.history, f.value.version)
      && (f.windows.None? ==> p.history[f.value.version].value == map[])
      && (f.windows.Some? ==> f.windows.value < |p.origins| && p.origins[f.windows.value].base == f.value.version)
  }

  ghost predicate HolderTracked(p: Process, h: Held) {
    && VersionExists(p.history, h.version)
    && match h
       case Got(version, windows, shared) =>
         if shared.Some? then shared.value < |p.origins| && p.origins[shared.value].base == version
         else windows == p.history[version].value
       case Wrote(version, windows, shared, change, at) =>
         if shared.Some? then
           && shared.value < |p.origins| && p.origins[shared.value].base == version
           && at < |p.origins[shared.value].changes| && p.origins[shared.value].changes[at] == change
         else at == 0 && windows == RecoveryWindow.Changed(p.history[version].value, change)
       case Requesting(version, body, changes, change, at) =>
         at < |changes| && changes[at] == change && body == RecoveryWindow.Replay(p.history[version].value, changes)
  }

  ghost predicate Tracked(key: TtlCache.Key, p: Process) {
    && p.history != [] && MapsTracked(p) && EntryTracked(key, p)
    && forall i :: 0 <= i < |p.held| && p.held[i].Some? ==> HolderTracked(p, p.held[i].value)
  }

  lemma OthersKeepTracked(key: TtlCache.Key, p: Process, a: Action)
    requires Tracked(key, p) && (a.OthersWrite? || a.Forget? || a.Send?)
    ensures Tracked(key, Next(key, p, a))
  {
    var next := Next(key, p, a);
    assert forall v :: 0 <= v < |p.history| ==> next.history[v] == p.history[v];
    assert forall i :: 0 <= i < |next.held| && next.held[i].Some? ==> next.held[i] == p.held[i];
  }

  lemma ReadKeepsMaps(key: TtlCache.Key, p: Process, a: Action)
    requires Tracked(key, p) && a.Read?
    ensures MapsTracked(Next(key, p, a)) && EntryTracked(key, Next(key, p, a))
    ensures p.origins <= Next(key, p, a).origins
  {
  }

  lemma ReadKeepsHolders(key: TtlCache.Key, p: Process, a: Action)
    requires Tracked(key, p) && a.Read?
    ensures var next := Next(key, p, a);
            forall i :: 0 <= i < |next.held| && next.held[i].Some? ==> HolderTracked(next, next.held[i].value)
  {
    ReadKeepsMaps(key, p, a);
    var next := Next(key, p, a);
    var (cache, answer) := TtlCache.CachedGet(p.cache, key, a.now, BaseReply(key, p.history, a.at, a.fails), a.now);
    forall i | 0 <= i < |next.held| && next.held[i].Some? ensures HolderTracked(next, next.held[i].value) {
      if i < |p.held| { assert next.held[i] == p.held[i]; } else { assert next.held[i] == HeldOf(answer); }
    }
  }

  lemma WriteKeepsTracked(key: TtlCache.Key, p: Process, a: Action)
    requires Tracked(key, p) && a.Write?
    ensures Tracked(key, Next(key, p, a))
  {
    var next := Next(key, p, a);
    if UsesMap(p, a.holder) && p.held[a.holder].value.Got? {
      var h := p.held[a.holder].value;
      if h.shared.Some? {
        WrittenMap(p, h, a.change);
        var changes := p.origins[h.shared.value].changes;
        assert (changes + [a.change])[..|changes|] == changes;
      }
      assert forall i :: 0 <= i < |next.held| && i != a.holder ==> next.held[i] == p.held[i];
    }
  }

  /** A write changes the map behind its address as its change says, and no other. */
  lemma WrittenMap(p: Process, h: Held, change: Change)
    requires h.Got? && h.shared.Some? && h.shared.value < |p.cache.maps|
    ensures var a := h.shared.value;
            WrittenThrough(p.cache, WindowsNow(p, h), h.shared, change) ==
            p.cache.(maps := p.cache.maps[a := RecoveryWindow.Changed(p.cache.maps[a], change)])
  {
    var changed := RecoveryWindow.Changed(WindowsNow(p, h), change);
    assert WindowsNow(p, h)[change.server := changed[change.server]] == changed;
  }

  lemma EncodeKeepsTracked(key: TtlCache.Key, p: Process, a: Action)
    requires Tracked(key, p) && a.Encode?
    ensures Tracked(key, Next(key, p, a))
  {
    var next := Next(key, p, a);
    assert forall i :: 0 <= i < |next.held| && i != a.holder ==> next.held[i] == p.held[i];
    if UsesMap(p, a.holder) && p.held[a.holder].value.Wrote? {
      var h := p.held[a.holder].value;
      if h.shared.None? { ReplayOne(p.history[h.version].value, h.change); }
    }
  }

  lemma ReplayOne(windows: Windows, change: Change)
    ensures RecoveryWindow.Replay(windows, [change]) == RecoveryWindow.Changed(windows, change)
  {
    assert [change][..0] == [];
  }

  lemma StepKeepsTracked(key: TtlCache.Key, p: Process, a: Action)
    requires Tracked(key, p)
    ensures Tracked(key, Next(key, p, a))
  {
    hide Tracked;
    match a
    case OthersWrite(_) => OthersKeepTracked(key, p, a);
    case Forget => OthersKeepTracked(key, p, a);
    case Send(_, _) => OthersKeepTracked(key, p, a);
    case Write(_, _) => WriteKeepsTracked(key, p, a);
    case Encode(_) => EncodeKeepsTracked(key, p, a);
    case Read(_, _, _) => ReadKeepsTracked(key, p, a);
  }

  lemma ReadKeepsTracked(key: TtlCache.Key, p: Process, a: Action)
    requires Tracked(key, p) && a.Read?
    ensures Tracked(key, Next(key, p, a))
  {
    ReadKeepsMaps(key, p, a);
    ReadKeepsHolders(key, p, a);
    hide MapsTracked;
    hide EntryTracked;
    hide HolderTracked;
  }

  lemma {:induction false} RunIsTracked(key: TtlCache.Key, p: Process, actions: seq<Action>, k: nat)
    requires Starts(p) && k <= |actions|
    ensures Tracked(key, After(key, p, actions, k))
  {
    hide Next;
    if k > 0 {
      RunIsTracked(key, p, actions, k - 1);
      StepKeepsTracked(key, After(key, p, actions, k - 1), actions[k - 1]);
    }
  }

  /**
   * In every run of both writers, each accepted status is the one the server held with the changes
   * that were written into the writer's map since it was fetched, in order, until the request was
   * encoded; the writer's own change is one of them.
   */
  lemma AcceptedStatusIsReplay(key: TtlCache.Key, p: Process, actions: seq<Action>, k: nat)
    requires Starts(p) && k < |actions|
    requires Accepts(After(key, p, actions, k), actions[k])
    ensures var before, after := After(key, p, actions, k), After(key, p, actions, k + 1);
            var h := before.held[actions[k].holder].value;
            && h.at < |h.changes| && h.changes[h.at] == h.change
            && after.history ==
               before.history + [Some(RecoveryWindow.Replay(Latest(before.history).value, h.changes))]
  {
    RunIsTracked(key, p, actions, k);
    var before := After(key, p, actions, k);
    assert HolderTracked(before, before.held[actions[k].holder].value);
  }

  /**
   * Such a status has the writer's own change alone exactly when, server by server, the other changes
   * make no difference.
   */
  lemma OwnAloneExactly(windows: Windows, changes: seq<Change>, change: Change)
    requires change in changes
    ensures RecoveryWindow.Replay(windows, changes) == RecoveryWindow.Changed(windows, change) <==>
            && (forall c :: c in changes ==> c.server in windows || c.server == change.server)
            && (forall server ::
                  RecoveryWindow.ReplayOwn(RecoveryWindow.WindowOf(windows, server), changes, server) ==
                  RecoveryWindow.ReplayOwn(RecoveryWindow.WindowOf(windows, server), [change], server))
  {
    var all, own := RecoveryWindow.Replay(windows, changes), RecoveryWindow.Changed(windows, change);
    ReplayOne(windows, change);
    forall server
      ensures RecoveryWindow.WindowOf(all, server) ==
              RecoveryWindow.ReplayOwn(RecoveryWindow.WindowOf(windows, server), changes, server)
      ensures RecoveryWindow.WindowOf(own, server) ==
              RecoveryWindow.ReplayOwn(RecoveryWindow.WindowOf(windows, server), [change], server)
      ensures server in all <==> server in windows || exists c :: c in changes && c.server == server
    {
      RecoveryWindow.ReplayIsPerServer(windows, changes, server);
      RecoveryWindow.ReplayIsPerServer(windows, [change], server);
      ReplayedServers(windows, changes, server);
    }
    hide RecoveryWindow.Replay;
    hide RecoveryWindow.ReplayOwn;
    if forall server :: RecoveryWindow.WindowOf(all, server) == RecoveryWindow.WindowOf(own, server) {
      forall server | server in all && server in own ensures all[server] == own[server] {
        assert RecoveryWindow.WindowOf(all, server) == RecoveryWindow.WindowOf(own, server);
      }
    }
  }

  lemma {:induction false} ReplayedServers(windows: Windows, changes: seq<Change>, server: string)
    ensures server in RecoveryWindow.Replay(windows, changes) <==>
            server in windows || exists c :: c in changes && c.server == server
  {
    if changes != [] {
      ReplayedServers(windows, changes[..|changes| - 1], server);
      assert changes == changes[..|changes| - 1] + [changes[|changes| - 1]];
    }
  }

  // ---------------------------------------------------------------- when only own changes are committed

  /** What the holder will send, or has, is the latest status with its own change at most. */
  ghost predicate HolderSound(p: Process, h: Held)
    requires p.history != []
  {
    IsCurrent(p.history, h.version) ==>
      var latest := Latest(p.history).value;
      match h
      case Got(_, _, _) => WindowsNow(p, h) == latest
      case Wrote(_, _, _, change, _) => WindowsNow(p, h) == RecoveryWindow.Changed(latest, change)
      case Requesting(_, body, _, change, _) => body == RecoveryWindow.Changed(latest, change)
  }

  ghost predicate AllSound(key: TtlCache.Key, p: Process)
    requires p.history != []
  {
    && Sound(p.cache, key, p.history)
    && forall i :: 0 <= i < |p.held| && p.held[i].Some? ==> HolderSound(p, p.held[i].value)
  }

  /** The cache, or another holder that has not encoded its request, uses the same map. */
  predicate AlsoUsed(key: TtlCache.Key, p: Process, i: nat)
    requires UsesMap(p, i)
  {
    || (key in p.cache.view && p.cache.view[key].windows == p.held[i].value.shared)
    || exists j :: 0 <= j < |p.held| && j != i && UsesMap(p, j) && p.held[j].value.shared == p.held[i].value.shared
  }

  /** A write, visible in the map of the latest version, while that map is used by others. */
  predicate Exposes(key: TtlCache.Key, p: Process, a: Action)
    requires p.history != []
  {
    && a.Write? && UsesMap(p, a.holder) && p.held[a.holder].value.Got?
    && var h := p.held[a.holder].value;
    && h.shared.Some? && IsCurrent(p.history, h.version)
    && RecoveryWindow.Changed(WindowsNow(p, h), a.change) != WindowsNow(p, h)
    && AlsoUsed(key, p, a.holder)
  }

  /** Once the server has a new version, nothing that was read before can be committed. */
  lemma NewVersionIsSound(key: TtlCache.Key, p: Process, a: Action)
    requires Tracked(key, p) && (Accepts(p, a) || (a.OthersWrite? && a.written != []))
    ensures AllSound(key, Next(key, p, a))
  {
    var next := Next(key, p, a);
    assert |next.history| > |p.history|;
    forall i | 0 <= i < |next.held| && next.held[i].Some? ensures HolderSound(next, next.held[i].value) {
      assert next.held[i] == p.held[i] && HolderTracked(p, p.held[i].value);
    }
  }

  /** Steps that leave history and maps as they are, and drop entries or holders at most. */
  lemma LeavingIsSound(key: TtlCache.Key, p: Process, a: Action)
    requires Tracked(key, p) && AllSound(key, p)
    requires a.Forget? || (a.Send? && !Accepts(p, a)) || (a.OthersWrite? && a.written == [])
    ensures AllSound(key, Next(key, p, a))
  {
    var next := Next(key, p, a);
    assert next.history == p.history && next.cache.maps == p.cache.maps;
    forall i | 0 <= i < |next.held| && next.held[i].Some? ensures HolderSound(next, next.held[i].value) {
      assert next.held[i] == p.held[i] && HolderSound(p, p.held[i].value);
    }
  }

  lemma EncodeIsSound(key: TtlCache.Key, p: Process, a: Action)
    requires Tracked(key, p) && AllSound(key, p) && a.Encode?
    ensures AllSound(key, Next(key, p, a))
  {
    var next := Next(key, p, a);
    assert next.history == p.history && next.cache == p.cache;
    forall i | 0 <= i < |next.held| && next.held[i].Some? ensures HolderSound(next, next.held[i].value) {
      assert HolderSound(p, p.held[i].value);
      if i != a.holder { assert next.held[i] == p.held[i]; }
    }
  }

  lemma ReadIsSoundHere(key: TtlCache.Key, p: Process, a: Action)
    requires Tracked(key, p) && AllSound(key, p) && a.Read?
    ensures AllSound(key, Next(key, p, a))
  {
    var next := Next(key, p, a);
    var base := BaseReply(key, p.history, a.at, a.fails);
    var (cache, answer) := TtlCache.CachedGet(p.cache, key, a.now, base, a.now);
    ReadCacheIsSound(key, p, a);
    forall i | 0 <= i < |next.held| && next.held[i].Some? ensures HolderSound(next, next.held[i].value) {
      if i < |p.held| {
        assert next.held[i] == p.held[i] && HolderSound(p, p.held[i].value) && HolderTracked(p, p.held[i].value);
      } else {
        assert next.held[i] == HeldOf(answer);
      }
    }
  }

  lemma ReadCacheIsSound(key: TtlCache.Key, p: Process, a: Action)
    requires Tracked(key, p) && AllSound(key, p) && a.Read?
    ensures Sound(Next(key, p, a).cache, key, p.history)
  {
  }

  /** From a sound state a write leads to a sound one exactly if it exposes nothing. */
  lemma WriteSoundExactly(key: TtlCache.Key, p: Process, a: Action)
    requires Tracked(key, p) && AllSound(key, p) && a.Write?
    ensures AllSound(key, Next(key, p, a)) <==> !Exposes(key, p, a)
  {
    if UsesMap(p, a.holder) && p.held[a.holder].value.Got? {
      var next, h := Next(key, p, a), p.held[a.holder].value;
      assert HolderTracked(p, h) && HolderSound(p, h);
      if h.shared.None? {
        OwnWriteIsSound(key, p, a);
      } else if Exposes(key, p, a) {
        ExposedIsUnsound(key, p, a);
      } else {
        UnexposedIsSound(key, p, a);
      }
    }
  }

  lemma OwnWriteIsSound(key: TtlCache.Key, p: Process, a: Action)
    requires Tracked(key, p) && AllSound(key, p) && a.Write? && UsesMap(p, a.holder) && p.held[a.holder].value.Got?
    requires p.held[a.holder].value.shared.None?
    ensures AllSound(key, Next(key, p, a))
  {
    var next := Next(key, p, a);
    assert HolderTracked(p, p.held[a.holder].value) && HolderSound(p, p.held[a.holder].value);
    forall i | 0 <= i < |next.held| && next.held[i].Some? ensures HolderSound(next, next.held[i].value) {
      if i != a.holder { assert next.held[i] == p.held[i] && HolderSound(p, p.held[i].value); }
    }
  }

  /** What a write through a shared map leaves. */
  lemma SharedWriteIs(key: TtlCache.Key, p: Process, a: Action)
    requires Tracked(key, p) && a.Write? && UsesMap(p, a.holder) && p.held[a.holder].value.Got?
    requires p.held[a.holder].value.shared.Some?
    ensures var next, h := Next(key, p, a), p.held[a.holder].value;
            && h.shared.value < |p.cache.maps|
            && next.history == p.history && next.cache.view == p.cache.view
            && next.cache.maps ==
               p.cache.maps[h.shared.value := RecoveryWindow.Changed(p.cache.maps[h.shared.value], a.change)]
            && |next.held| == |p.held|
            && (forall i :: 0 <= i < |p.held| && i != a.holder ==> next.held[i] == p.held[i])
            && next.held[a.holder].Some? && next.held[a.holder].value.Wrote?
            && next.held[a.holder].value.version == h.version && next.held[a.holder].value.shared == h.shared
            && next.held[a.holder].value.change == a.change
  {
    assert HolderTracked(p, p.held[a.holder].value);
    WrittenMap(p, p.held[a.holder].value, a.change);
  }

  lemma ExposedIsUnsound(key: TtlCache.Key, p: Process, a: Action)
    requires Tracked(key, p) && AllSound(key, p) && Exposes(key, p, a)
    ensures !AllSound(key, Next(key, p, a))
  {
    hide Next;
    hide RecoveryWindow.Changed;
    var next, h := Next(key, p, a), p.held[a.holder].value;
    SharedWriteIs(key, p, a);
    assert HolderSound(p, h) && HolderTracked(p, h);
    if !(key in p.cache.view && p.cache.view[key].windows == h.shared) {
      var j :| 0 <= j < |p.held| && j != a.holder && UsesMap(p, j) && p.held[j].value.shared == h.shared;
      assert HolderTracked(p, p.held[j].value) && HolderSound(p, p.held[j].value);
      assert !HolderSound(next, next.held[j].value);
    }
  }

  lemma UnexposedIsSound(key: TtlCache.Key, p: Process, a: Action)
    requires Tracked(key, p) && AllSound(key, p) && a.Write? && !Exposes(key, p, a)
    requires UsesMap(p, a.holder) && p.held[a.holder].value.Got? && p.held[a.holder].value.shared.Some?
    ensures AllSound(key, Next(key, p, a))
  {
    hide Next;
    hide RecoveryWindow.Changed;
    var next, h := Next(key, p, a), p.held[a.holder].value;
    SharedWriteIs(key, p, a);
    assert HolderSound(p, h) && HolderTracked(p, h);
    forall i | 0 <= i < |next.held| && next.held[i].Some? ensures HolderSound(next, next.held[i].value) {
      assert HolderSound(p, p.held[i].value) && HolderTracked(p, p.held[i].value);
      if i != a.holder && UsesMap(p, i) && p.held[i].value.shared == h.shared { assert AlsoUsed(key, p, a.holder); }
    }
  }

  /** From a sound state every step leads to a sound one, but a write that exposes its change. */
  lemma StepSoundExactly(key: TtlCache.Key, p: Process, a: Action)
    requires Tracked(key, p) && AllSound(key, p)
    ensures AllSound(key, Next(key, p, a)) <==> !Exposes(key, p, a)
  {
    if a.Write? {
      WriteSoundExactly(key, p, a);
    } else if a.Encode? {
      EncodeIsSound(key, p, a);
    } else if a.Read? {
      ReadIsSoundHere(key, p, a);
    } else if Accepts(p, a) || (a.OthersWrite? && a.written != []) {
      NewVersionIsSound(key, p, a);
    } else {
      LeavingIsSound(key, p, a);
    }
  }

  /** The remaining steps of a holder with nothing in between; `change` is what it writes if it has not yet. */
  function Finished(key: TtlCache.Key, p: Process, i: nat, change: Change): (r: Process)
    requires p.history != []
  {
    var written := Next(key, p, Write(i, change));
    Next(key, Next(key, written, Encode(i)), Send(i, false))
  }

  function OwnChange(h: Held, change: Change): Change {
    if h.Got? then change else h.change
  }

  /** Whenever the object is read next, every holder commits just its own change. */
  ghost predicate CommitsOwn(key: TtlCache.Key, p: Process)
    requires p.history != []
  {
    forall now: int, i: nat, change: Change ::
      var read := Next(key, p, Read(now, |p.history|, false));
      Holds(read, i) && IsCurrent(read.history, read.held[i].value.version) ==>
        Finished(key, read, i, change).history ==
        read.history + [Some(RecoveryWindow.Changed(Latest(read.history).value, OwnChange(read.held[i].value, change)))]
  }

  /** What a holder of the latest version commits if it is not interrupted. */
  function Committed(p: Process, h: Held, change: Change): Windows {
    match h
    case Got(_, _, _) => RecoveryWindow.Changed(WindowsNow(p, h), change)
    case Wrote(_, _, _, _, _) => WindowsNow(p, h)
    case Requesting(_, body, _, _, _) => body
  }

  lemma FinishedIs(key: TtlCache.Key, p: Process, i: nat, change: Change)
    requires Tracked(key, p) && Holds(p, i) && IsCurrent(p.history, p.held[i].value.version)
    ensures Finished(key, p, i, change).history == p.history + [Some(Committed(p, p.held[i].value, change))]
  {
    hide RecoveryWindow.Changed;
    var h := p.held[i].value;
    assert HolderTracked(p, h);
    if h.Got? && h.shared.Some? { SharedWriteIs(key, p, Write(i, change)); }
  }

  lemma SoundCommitsOwn(p: Process, h: Held, change: Change)
    requires p.history != [] && IsCurrent(p.history, h.version)
    ensures HolderSound(p, h) ==>
            Committed(p, h, change) == RecoveryWindow.Changed(Latest(p.history).value, OwnChange(h, change))
  {
  }

  lemma UnsoundCommitsOther(p: Process, h: Held) returns (change: Change)
    requires p.history != [] && IsCurrent(p.history, h.version) && !HolderSound(p, h)
    ensures Committed(p, h, change) != RecoveryWindow.Changed(Latest(p.history).value, OwnChange(h, change))
  {
    if h.Got? {
      var server := Distinguishes(WindowsNow(p, h), Latest(p.history).value);
      change := RecoveryWindow.Failure(server, 0);
    } else {
      change := h.change;
    }
  }

  /** In every reachable state, only own changes are committed exactly if the state is sound. */
  lemma CommitsOwnExactly(key: TtlCache.Key, p: Process)
    requires Tracked(key, p)
    ensures CommitsOwn(key, p) <==> AllSound(key, p)
  {
    hide Finished;
    if AllSound(key, p) {
      forall now: int, i: nat, change: Change
        ensures var read := Next(key, p, Read(now, |p.history|, false));
                Holds(read, i) && IsCurrent(read.history, read.held[i].value.version) ==>
                  Finished(key, read, i, change).history ==
                  read.history +
                  [Some(RecoveryWindow.Changed(Latest(read.history).value, OwnChange(read.held[i].value, change)))]
      {
        var a := Read(now, |p.history|, false);
        var read := Next(key, p, a);
        ReadIsHere(key, p, a);
        ReadIsSoundHere(key, p, a);
        ReadKeepsTracked(key, p, a);
        if Holds(read, i) && IsCurrent(read.history, read.held[i].value.version) {
          FinishedIs(key, read, i, change);
          SoundCommitsOwn(read, read.held[i].value, change);
        }
      }
    } else if Sound(p.cache, key, p.history) {
      var i :| 0 <= i < |p.held| && p.held[i].Some? && !HolderSound(p, p.held[i].value);
      var a := Read(0, |p.history|, false);
      ReadIsHere(key, p, a);
      ReadKeepsTracked(key, p, a);
      HeldStaysUnsound(key, p, a, i);
      OneCommitsOther(key, p, a, i);
    } else {
      var a := Read(p.cache.view[key].at, |p.history|, false);
      ReadIsHere(key, p, a);
      ReadKeepsTracked(key, p, a);
      EntryIsHandedOut(key, p, a);
      OneCommitsOther(key, p, a, |p.held|);
    }
  }

  lemma ReadIsHere(key: TtlCache.Key, p: Process, a: Action)
    requires p.history != [] && a.Read?
    ensures Next(key, p, a).history == p.history
    ensures p.held <= Next(key, p, a).held
  {
  }

  lemma HeldStaysUnsound(key: TtlCache.Key, p: Process, a: Action, i: nat)
    requires Tracked(key, p) && a.Read? && Holds(p, i) && !HolderSound(p, p.held[i].value)
    ensures Holds(Next(key, p, a), i) && !HolderSound(Next(key, p, a), Next(key, p, a).held[i].value)
  {
    var next := Next(key, p, a);
    assert next.held[i] == p.held[i] && HolderTracked(p, p.held[i].value);
  }

  lemma EntryIsHandedOut(key: TtlCache.Key, p: Process, a: Action)
    requires Tracked(key, p) && !Sound(p.cache, key, p.history) && a.Read? && a.now == p.cache.view[key].at
    ensures Holds(Next(key, p, a), |p.held|)
    ensures !HolderSound(Next(key, p, a), Next(key, p, a).held[|p.held|].value)
  {
  }

  lemma OneCommitsOther(key: TtlCache.Key, p: Process, a: Action, i: nat)
    requires Tracked(key, p) && a.Read? && a.at == |p.history| && !a.fails
    requires var read := Next(key, p, a); Tracked(key, read) && Holds(read, i) && !HolderSound(read, read.held[i].value)
    ensures !CommitsOwn(key, p)
  {
    hide Next;
    hide Finished;
    var read := Next(key, p, a);
    assert a == Read(a.now, |p.history|, false);
    var change := UnsoundCommitsOther(read, read.held[i].value);
    FinishedIs(key, read, i, change);
    var after := Finished(key, read, i, change).history;
    assert after[|read.history|] == Some(Committed(read, read.held[i].value, change));
  }

  lemma {:induction false} RunIsSound(key: TtlCache.Key, p: Process, actions: seq<Action>, k: nat)
    requires Starts(p) && k <= |actions|
    requires forall m :: 0 <= m < k ==> !Exposes(key, After(key, p, actions, m), actions[m])
    ensures AllSound(key, After(key, p, actions, k))
  {
    hide Next;
    hide Exposes;
    if k > 0 {
      RunIsSound(key, p, actions, k - 1);
      RunIsTracked(key, p, actions, k - 1);
      StepSoundExactly(key, After(key, p, actions, k - 1), actions[k - 1]);
    }
  }

  // ---------------------------------------------------------------- a window under way

  /** The process with one map, fetched at version 0, and these holders. */
  function OneMap(key: TtlCache.Key, history: seq<Option<Windows>>, windows: Windows, now: Windows,
                  changes: seq<Change>,
                  held: seq<Option<Held>>): Process
  {
    Process(history,
            TtlCache.State(map[key := TtlCache.Fetched(ObjectAt(key, 0, windows).fields, Some(0), 0)], [now]),
            [Origin(0, changes)],
            held)
  }

  lemma ReadOnce(key: TtlCache.Key, windows: Windows)
    requires windows != map[]
    ensures var p := Process([Some(windows)], TtlCache.State(map[], []), [], []);
            Next(key, p, Read(0, 0, false)) ==
            OneMap(key, p.history, windows, windows, [], [Some(Got(0, windows, None))])
  {
  }

  /** A hit and a write through it. */
  lemma ReadAndWrite(key: TtlCache.Key, history: seq<Option<Windows>>, windows: Windows, now: Windows,
                     changes: seq<Change>,
                     held: seq<Option<Held>>, change: Change)
    requires history != []
    ensures var p := OneMap(key, history, windows, now, changes, held);
            Next(key, Next(key, p, Read(0, 0, false)), Write(|held|, change)) ==
            OneMap(key, history, windows, RecoveryWindow.Changed(now, change), changes + [change],
                   held + [Some(Wrote(0, now, Some(0), change, |changes|))])
  {
    hide RecoveryWindow.Changed;
    var p := OneMap(key, history, windows, now, changes, held);
    var read := Next(key, p, Read(0, 0, false));
    assert read == p.(held := held + [Some(Got(0, now, Some(0)))]);
    WrittenMap(read, read.held[|held|].value, change);
    assert [now][0 := RecoveryWindow.Changed(now, change)] == [RecoveryWindow.Changed(now, change)];
  }

  lemma EncodeOne(key: TtlCache.Key, p: Process, i: nat)
    requires p.history != [] && UsesMap(p, i) && p.held[i].value.Wrote?
    ensures var h := p.held[i].value;
            Next(key, p, Encode(i)) ==
            p.(held := p.held[i := Some(Requesting(h.version, WindowsNow(p, h), ChangesNow(p, h), h.change, h.at))])
  {
  }

  /**
   * A window is committed by another writer while its own request is under way: two writers hold the
   * cached object, the first writes its window, the second writes, encodes and sends first. No update
   * has failed, and the request of the first then is in conflict.
   */
  lemma UnderWayIsCommitted(key: TtlCache.Key, windows: Windows, first: Change, second: Change)
    requires windows != map[]
    ensures var p := Process([Some(windows)], TtlCache.State(map[], []), [], []);
            var read := Read(0, 0, false);
            var actions := [read, read, Write(1, first), read, Write(2, second), Encode(1), Encode(2), Send(2, false)];
            var end := After(key, p, actions, 8);
            && Starts(p)
            && end.history ==
               [Some(windows), Some(RecoveryWindow.Changed(RecoveryWindow.Changed(windows, first), second))]
            && Holds(end, 1) && end.held[1].value.Requesting? && !IsCurrent(end.history, end.held[1].value.version)
  {
    hide Next;
    hide RecoveryWindow.Changed;
    var p := Process([Some(windows)], TtlCache.State(map[], []), [], []);
    var read := Read(0, 0, false);
    var actions := [read, read, Write(1, first), read, Write(2, second), Encode(1), Encode(2), Send(2, false)];
    ReadOnce(key, windows);
    assert After(key, p, actions, 0) == p;
    assert After(key, p, actions, 1) == Next(key, p, read);
    var a := [Some(Got(0, windows, None))];
    ReadAndWrite(key, p.history, windows, windows, [], a, first);
    assert After(key, p, actions, 2) == Next(key, After(key, p, actions, 1), read);
    assert After(key, p, actions, 3) == Next(key, After(key, p, actions, 2), Write(1, first));
    var one := RecoveryWindow.Changed(windows, first);
    var b := a + [Some(Wrote(0, windows, Some(0), first, 0))];
    ReadAndWrite(key, p.history, windows, one, [first], b, second);
    assert [] + [first] == [first];
    assert After(key, p, actions, 4) == Next(key, After(key, p, actions, 3), read);
    assert After(key, p, actions, 5) == Next(key, After(key, p, actions, 4), Write(2, second));
    EncodeAndSend(key, p, actions);
  }

  lemma EncodeAndSend(key: TtlCache.Key, p: Process, actions: seq<Action>)
    requires p.history != [] && |actions| == 8
    requires actions[5] == Encode(1) && actions[6] == Encode(2) && actions[7] == Send(2, false)
    requires var five := After(key, p, actions, 5);
             && UsesMap(five, 1) && five.held[1].value.Wrote? && UsesMap(five, 2) && five.held[2].value.Wrote?
             && five.held[1].value.version == five.held[2].value.version == |five.history| - 1
             && Latest(five.history).Some?
    ensures var five, end := After(key, p, actions, 5), After(key, p, actions, 8);
            && end.history == five.history + [Some(WindowsNow(five, five.held[2].value))]
            && Holds(end, 1) && end.held[1].value.Requesting? && end.held[1].value.version == |five.history| - 1
  {
    var five := After(key, p, actions, 5);
    EncodeOne(key, five, 1);
    var six := After(key, p, actions, 6);
    assert six == Next(key, five, Encode(1));
    assert six.held[2] == five.held[2];
    EncodeOne(key, six, 2);
    assert After(key, p, actions, 7) == Next(key, six, Encode(2));
  }
}
