/**
 * The two status writers in a process that reads object stores through the ten-second cache: they
 * write into the objects the cache serves, and a retry after a conflict may be served the very object
 * that conflicted.
 */
module RecoveryThroughCache {
  import opened Prelude
  import opened Versioned
  import RecoveryWindow
  import TtlCache

  type Windows = RecoveryWindow.Windows

  /** What the environment does during one attempt, which looks at the clock once. */
  datatype Attempt = Attempt(
    now: int,
    beforeRead: seq<Option<Windows>>,
    at: nat,
    readFails: bool,
    beforeUpdate: seq<Option<Windows>>,
    updateFails: bool)

  /** An object without windows is served with a nil map. */
  function ObjectAt(key: TtlCache.Key, version: nat, windows: Windows): TtlCache.Object {
    TtlCache.Object(TtlCache.Fields(key.kind, key.namespace, key.name, version, ""),
                    if windows == map[] then None else Some(windows))
  }

  function WindowsOf(o: TtlCache.Object): Windows {
    if o.windows.Some? then o.windows.value else map[]
  }

  /** The cached object is the one the server held at its version, or that version is over. */
  ghost predicate Sound(st: TtlCache.State, key: TtlCache.Key, history: seq<Option<Windows>>) {
    key in st.view ==>
      var f := st.view[key];
      && f.value.version < |history|
      && (f.value.version == |history| - 1 && history[f.value.version].Some? ==>
            WindowsOf(TtlCache.Load(st.maps, f.value, f.windows)) == history[f.value.version].value)
  }

  /** Every attempt is served this version from the cache. */
  ghost predicate StaysFresh(st: TtlCache.State, key: TtlCache.Key, attempts: seq<Attempt>, version: nat) {
    && key in st.view && st.view[key].value.version == version
    && forall i :: 0 <= i < |attempts| ==> TtlCache.Fresh(st.view, key, attempts[i].now)
  }

  /** No one else writes, nothing fails, and a read of the server sees the latest of `n` versions. */
  predicate Quiet(attempt: Attempt, n: nat) {
    attempt.beforeRead == [] && attempt.beforeUpdate == [] && !attempt.readFails && !attempt.updateFails &&
      attempt.at >= n
  }

  /** The attempt is served an old version from the cache. */
  predicate Outdated(view: TtlCache.View, key: TtlCache.Key, attempt: Attempt, n: nat) {
    TtlCache.Fresh(view, key, attempt.now) && view[key].value.version != n - 1
  }

  /** What a writer makes of the windows it was served. */
  function Updated(o: TtlCache.Object, change: RecoveryWindow.Change): Windows {
    RecoveryWindow.Changed(WindowsOf(o), change)
  }

  /**
   * A cache is sound exactly when an update based on its object, if it is of the latest version, adds
   * nothing but its own change to what the server holds, whichever failure it records.
   */
  lemma SoundExactly(st: TtlCache.State, key: TtlCache.Key, history: seq<Option<Windows>>)
    requires history != [] && Latest(history).Some?
    requires key in st.view && st.view[key].value.version < |history|
    ensures var o := TtlCache.Load(st.maps, st.view[key].value, st.view[key].windows);
            Sound(st, key, history) <==>
            (o.fields.version == |history| - 1 ==>
               forall server, time ::
                 Updated(o, RecoveryWindow.Failure(server, time)) ==
                 RecoveryWindow.Changed(Latest(history).value, RecoveryWindow.Failure(server, time)))
  {
    var o := TtlCache.Load(st.maps, st.view[key].value, st.view[key].windows);
    if WindowsOf(o) != Latest(history).value {
      var server := Distinguishes(WindowsOf(o), Latest(history).value);
    }
  }

  /** A failure of some server tells different windows apart. */
  lemma Distinguishes(a: Windows, b: Windows) returns (server: string)
    requires a != b
    ensures RecoveryWindow.Changed(a, RecoveryWindow.Failure(server, 0)) !=
            RecoveryWindow.Changed(b, RecoveryWindow.Failure(server, 0))
  {
    var k :| (k in a <==> k !in b) || (k in a && a[k] != b[k]);
    server := k + "-other";
    assert |server| != |k|;
    var a' := RecoveryWindow.Changed(a, RecoveryWindow.Failure(server, 0));
    var b' := RecoveryWindow.Changed(b, RecoveryWindow.Failure(server, 0));
    assert (k in a <==> k in a') && (k in b <==> k in b');
    assert k in a' ==> a'[k] == a[k];
    assert k in b' ==> b'[k] == b[k];
  }

  /** An object as the server held it at its version, or of a version that is over. */
  ghost predicate SoundObject(o: TtlCache.Object, history: seq<Option<Windows>>) {
    && o.fields.version < |history|
    && (o.fields.version == |history| - 1 && history[o.fields.version].Some? ==>
          WindowsOf(o) == history[o.fields.version].value)
  }

  /** What a read through a sound cache returns. */
  lemma ReadIsSound(st: TtlCache.State, key: TtlCache.Key, now: int, base: TtlCache.Reply,
                    history: seq<Option<Windows>>, version: nat)
    requires Sound(st, key, history) && version < |history|
    requires base.Ok? ==> history[version].Some? && base.value == ObjectAt(key, version, history[version].value)
    ensures var (after, answer) := TtlCache.CachedGet(st, key, now, base, now);
            answer.reply.Ok? ==> SoundObject(answer.reply.value, history)
  {
  }

  /** After a read the cache holds the version it returned, which a fresh entry determines. */
  lemma ReadIsHeld(st: TtlCache.State, key: TtlCache.Key, now: int, base: TtlCache.Reply)
    ensures var (after, answer) := TtlCache.CachedGet(st, key, now, base, now);
            && (answer.reply.Ok? ==> key in after.view && after.view[key].value == answer.reply.value.fields)
            && (TtlCache.Fresh(st.view, key, now) ==>
                  after.view == st.view && answer.reply.Ok? && answer.reply.value.fields == st.view[key].value)
            && (!TtlCache.Fresh(st.view, key, now) ==> answer.reply == base)
            && (!TtlCache.Fresh(st.view, key, now) && base.Ok? ==> after.view[key].at == now)
            && (answer.reply.Err? ==> after.view == st.view)
  {
  }

  /**
   * Without soundness that fails: a window that was written into a cached object, and whose update
   * was refused for another reason than a conflict, is committed by the next update that is accepted.
   */
  lemma RefusedWindowIsCommitted(key: TtlCache.Key, history: seq<Option<Windows>>, server: string,
                                 refused: RecoveryWindow.Window, time: RecoveryWindow.Time)
    requires history != [] && Latest(history).Some? && server in Latest(history).value
    requires refused.lastSuccessfulBackup != Latest(history).value[server].lastSuccessfulBackup
    ensures var base := Ok(ObjectAt(key, |history| - 1, Latest(history).value));
            var fetched := TtlCache.CachedGet(TtlCache.State(map[], []), key, 0, base, 0).0;
            var hit := TtlCache.CachedGet(fetched, key, 1, base, 1).1;
            hit.shared.Some? &&
            var written := TtlCache.Overwritten(fetched, hit.shared.value, server, refused);
            var again := TtlCache.CachedGet(written, key, 2, base, 2).1.reply;
            && again.Ok? && again.value.fields.version == |history| - 1
            && Updated(again.value, RecoveryWindow.Failure(server, time)) !=
               RecoveryWindow.Changed(Latest(history).value, RecoveryWindow.Failure(server, time))
  {
    var base := Ok(ObjectAt(key, |history| - 1, Latest(history).value));
    var fetched := TtlCache.CachedGet(TtlCache.State(map[], []), key, 0, base, 0).0;
    assert fetched.maps == [Latest(history).value];
    var written := TtlCache.Overwritten(fetched, 0, server, refused);
    assert written.maps == [Latest(history).value[server := refused]];
    var changed := RecoveryWindow.Changed(Latest(history).value, RecoveryWindow.Failure(server, time));
    assert changed[server].lastSuccessfulBackup == Latest(history).value[server].lastSuccessfulBackup;
  }

  /** The attempt is served an old version by the server, or someone writes between its read and its update. */
  predicate Contended(attempt: Attempt, versions: nat) {
    attempt.at < versions || attempt.beforeUpdate != []
  }

  /** The entry of the cache, there from the start or fetched by an earlier attempt, may still be fresh. */
  predicate FetchedRecently(view: TtlCache.View, key: TtlCache.Key, attempts: seq<Attempt>, i: nat)
    requires i < |attempts|
  {
    || (key in view && attempts[i].now - view[key].at <= 10)
    || exists j :: 0 <= j < i && attempts[i].now - attempts[j].now <= 10
  }

  ghost predicate SeenAbsent(history: seq<Option<Windows>>) {
    exists version :: 0 <= version < |history| && history[version].None?
  }

  /** The entry was there from the start, or one of the first `n` attempts fetched it. */
  ghost predicate EntryKnown(view: TtlCache.View, key: TtlCache.Key, attempts: seq<Attempt>, n: nat,
                             current: TtlCache.View)
    requires n <= |attempts|
  {
    key in current ==>
      || (key in view && current[key] == view[key])
      || exists j :: 0 <= j < n && attempts[j].now == current[key].at
  }

  /** The first `n` attempts were contended, or met an entry that may have been fresh. */
  ghost predicate AllHindered(view: TtlCache.View, key: TtlCache.Key, attempts: seq<Attempt>, n: nat, versions: nat)
    requires n <= |attempts|
  {
    forall i :: 0 <= i < n ==> Contended(attempts[i], versions) || FetchedRecently(view, key, attempts, i)
  }

  lemma NoneHindered(view: TtlCache.View, key: TtlCache.Key, attempts: seq<Attempt>, versions: nat)
    ensures EntryKnown(view, key, attempts, 0, view) && AllHindered(view, key, attempts, 0, versions)
  {
  }

  lemma NextHindered(view: TtlCache.View, key: TtlCache.Key, attempts: seq<Attempt>, n: nat, versions: nat, more: nat,
                     before: TtlCache.View, after: TtlCache.View)
    requires n < |attempts| && versions <= more
    requires AllHindered(view, key, attempts, n, versions) && EntryKnown(view, key, attempts, n, before)
    requires key in after ==> after[key].at == attempts[n].now || (key in before && after[key] == before[key])
    ensures EntryKnown(view, key, attempts, n + 1, after)
    ensures TtlCache.Fresh(before, key, attempts[n].now) || Contended(attempts[n], more) ==>
              AllHindered(view, key, attempts, n + 1, more)
  {
  }

  datatype Try = Recorded | Conflicted | GaveUp

  /** The read of one attempt. */
  method ReadThrough(server: RecoveryWindow.StatusServer, cache: TtlCache.ExtendedClient, key: TtlCache.Key,
                     attempt: Attempt)
    returns (answer: TtlCache.Answer)
    requires server.history != [] && cache.Valid() && key.kind.ObjectStore?
    modifies server`history, cache
    ensures cache.Valid() && server.history == old(server.history) + attempt.beforeRead
    ensures answer.reply.Ok? && old(Sound(cache.View(), key, server.history)) ==>
            SoundObject(answer.reply.value, server.history)
    ensures answer.reply.Ok? ==> key in cache.View().view && cache.View().view[key].value == answer.reply.value.fields
    ensures old(TtlCache.Fresh(cache.View().view, key, attempt.now)) ==>
              cache.View().view == old(cache.View().view) && answer.reply.Ok? &&
              answer.reply.value.fields == old(cache.View().view[key].value)
    ensures !old(TtlCache.Fresh(cache.View().view, key, attempt.now)) ==>
              if answer.reply.Ok?
              then answer.reply.value.fields.version == Served(server.history, attempt.at) &&
                   cache.View().view[key].at == attempt.now
              else attempt.readFails || server.history[Served(server.history, attempt.at)].None?
    ensures answer.reply.Err? ==> cache.View().view == old(cache.View().view)
  {
    hide TtlCache.CachedGet;
    hide TtlCache.Fresh;
    hide SoundObject;
    ghost var st := cache.View();
    ghost var start := server.history;
    server.OthersWrite(attempt.beforeRead);
    LaterIsSound(st, key, start, attempt.beforeRead);
    var version := Served(server.history, attempt.at);
    var base: TtlCache.Reply :=
      if attempt.readFails then Err(TtlCache.Unreachable)
      else if server.history[version].None? then Err(TtlCache.NotFound)
      else Ok(ObjectAt(key, version, server.history[version].value));
    answer := cache.Get(key, attempt.now, base, attempt.now);
    ReadIsHeld(st, key, attempt.now, base);
    if Sound(st, key, server.history) { ReadIsSound(st, key, attempt.now, base, server.history, version); }
  }

  lemma LaterIsSound(st: TtlCache.State, key: TtlCache.Key, history: seq<Option<Windows>>, more: seq<Option<Windows>>)
    ensures Sound(st, key, history) ==> Sound(st, key, history + more)
  {
  }

  lemma VersionExists(o: TtlCache.Object, history: seq<Option<Windows>>)
    requires SoundObject(o, history)
    ensures o.fields.version < |history|
  {
  }

  /** An update based on a sound object adds just its own change to the version it finds. */
  lemma AcceptedIsChanged(o: TtlCache.Object, history: seq<Option<Windows>>, more: seq<Option<Windows>>,
                          change: RecoveryWindow.Change)
    requires SoundObject(o, history) && IsCurrent(history + more, o.fields.version)
    ensures Updated(o, change) == RecoveryWindow.Changed(Latest(history + more).value, change)
  {
    assert more == [] ==> history + more == history;
  }

  /** The window of the changed server, as the two writers build it. */
  method NewWindow(windows: Windows, change: RecoveryWindow.Change) returns (window: RecoveryWindow.Window)
    ensures windows[change.server := window] == RecoveryWindow.Changed(windows, change)
  {
    window := RecoveryWindow.WindowOf(windows, change.server);
    match change
    case Backup(_, first, last) =>
      window := window.(firstRecoverabilityPoint := first);
      window := window.(lastSuccessfulBackup := last);
    case Failure(_, time) =>
      window := window.(lastFailedBackup := Some(time));
  }

  /** The rest of a call: the write into the served map and the update. */
  method SendThrough(server: RecoveryWindow.StatusServer, cache: TtlCache.ExtendedClient, objectStore: TtlCache.Object,
                     shared: Option<TtlCache.Address>, change: RecoveryWindow.Change,
                     beforeUpdate: seq<Option<Windows>>, updateFails: bool)
    returns (r: Try)
    requires server.history != [] && cache.Valid()
    modifies server`history, cache`maps
    ensures cache.Valid()
    ensures cache.View() == WrittenThrough(old(cache.View()), WindowsOf(objectStore), shared, change)
    ensures cache.View().view == old(cache.View().view)
    ensures var found := old(server.history) + beforeUpdate;
            && (r.Recorded? <==> !updateFails && IsCurrent(found, objectStore.fields.version))
            && (r.Conflicted? ==> objectStore.fields.version != |found| - 1)
            && (r.GaveUp? ==> updateFails || Latest(found).None?)
            && server.history == if r.Recorded? then found + [Some(Updated(objectStore, change))] else found
  {
    hide RecoveryWindow.Changed;
    var windows := WindowsOf(objectStore);
    var window := NewWindow(windows, change);
    cache.WriteWindow(shared, change.server, window);
    server.OthersWrite(beforeUpdate);
    var sent := server.StatusUpdate(objectStore.fields.version, windows[change.server := window], updateFails);
    r := match sent case Accepted => Recorded case Conflict => Conflicted case _ => GaveUp;
    assert windows[change.server := window][change.server] == window;
  }

  /** The cache after a write into a served map. */
  function WrittenThrough(st: TtlCache.State, windows: Windows, shared: Option<TtlCache.Address>,
                          change: RecoveryWindow.Change)
    : TtlCache.State
  {
    if shared.Some?
    then TtlCache.Overwritten(st, shared.value, change.server, RecoveryWindow.Changed(windows, change)[change.server])
    else st
  }

  /**
   * A backup or a maintenance cycle, with an object that was read through the cache, possibly long
   * ago. `windows` are those of the object by now: if its map is shared, others may have written too.
   * No other writer of the process uses that map while the update is under way.
   */
  method UpdateRecoveryWindow(server: RecoveryWindow.StatusServer, cache: TtlCache.ExtendedClient,
                              objectStore: TtlCache.Object,
                              shared: Option<TtlCache.Address>, serverName: string, first: Option<RecoveryWindow.Time>,
                              last: Option<RecoveryWindow.Time>, fails: bool)
    returns (r: Try)
    requires server.history != [] && cache.Valid()
    requires shared.Some? ==> shared.value < |cache.maps|
    modifies server`history, cache`maps
    ensures cache.Valid()
    ensures var change := RecoveryWindow.Backup(serverName, first, last);
            var windows := if shared.Some? then old(cache.maps)[shared.value] else WindowsOf(objectStore);
            && cache.View() == WrittenThrough(old(cache.View()), windows, shared, change)
            && (r.Recorded? <==> !fails && IsCurrent(old(server.history), objectStore.fields.version))
            && server.history ==
               old(server.history) + if r.Recorded? then [Some(RecoveryWindow.Changed(windows, change))] else []
  {
    var windows := if shared.Some? then cache.maps[shared.value] else WindowsOf(objectStore);
    var current := TtlCache.Object(objectStore.fields, Some(windows));
    r := SendThrough(server, cache, current, shared, RecoveryWindow.Backup(serverName, first, last), [], fails);
    assert old(server.history) + [] == old(server.history);
  }

  lemma QuietServed(attempt: Attempt, start: seq<Option<Windows>>)
    requires start != [] && Quiet(attempt, |start|)
    ensures start + attempt.beforeRead == start == start + attempt.beforeUpdate
    ensures Served(start, attempt.at) == |start| - 1 && !attempt.readFails && !attempt.updateFails
  {
  }

  /** A cache that holds an old version is sound. */
  lemma OldIsSound(st: TtlCache.State, key: TtlCache.Key, history: seq<Option<Windows>>)
    requires key in st.view && st.view[key].value.version < |history|
    ensures st.view[key].value.version != |history| - 1 ==> Sound(st, key, history)
  {
  }

  /** One attempt: read, write into the served map, update. */
  method Once(server: RecoveryWindow.StatusServer, cache: TtlCache.ExtendedClient, key: TtlCache.Key,
              serverName: string, time: RecoveryWindow.Time, attempt: Attempt)
    returns (r: Try, ghost others: seq<Option<Windows>>)
    requires server.history != [] && cache.Valid() && key.kind.ObjectStore?
    modifies server`history, cache
    ensures cache.Valid()
    ensures var found := old(server.history) + others;
            if r.Recorded?
            then Latest(found).Some? && server.history != [] && Latest(server.history).Some? &&
                 server.history == found + [Latest(server.history)]
            else server.history == found
    ensures r.Recorded? && old(Sound(cache.View(), key, server.history)) ==>
              Latest(server.history).value ==
              RecoveryWindow.Changed(Latest(old(server.history) + others).value,
                                     RecoveryWindow.Failure(serverName, time))
    ensures r.Conflicted? ==> key in cache.View().view && cache.View().view[key].value.version != |server.history| - 1
    ensures key in cache.View().view ==>
              || cache.View().view[key].at == attempt.now
              || (key in old(cache.View().view) && cache.View().view[key] == old(cache.View().view[key]))
    ensures r.GaveUp? ==> attempt.readFails || attempt.updateFails || SeenAbsent(server.history)
    ensures r.Conflicted? && !old(TtlCache.Fresh(cache.View().view, key, attempt.now)) ==>
              Contended(attempt, |server.history|)
    ensures r.Recorded? ==> Sound(cache.View(), key, server.history)
    ensures r.Conflicted? && old(Sound(cache.View(), key, server.history)) ==> Sound(cache.View(), key, server.history)
    ensures old(TtlCache.Fresh(cache.View().view, key, attempt.now)) ==>
              cache.View().view == old(cache.View().view) &&
              (old(cache.View().view[key].value.version < |server.history| - 1) ==> !r.Recorded?)
    ensures Quiet(attempt, |old(server.history)|) && Latest(old(server.history)).Some? ==>
              && others == []
              && (r.Recorded? <==> !Outdated(old(cache.View().view), key, attempt, |old(server.history)|))
              && (r.Conflicted? <==> Outdated(old(cache.View().view), key, attempt, |old(server.history)|))
  {
    hide Sound;
    hide SoundObject;
    hide Updated;
    hide Quiet;
    hide WrittenThrough;
    hide WindowsOf;
    hide TtlCache.Fresh;
    hide TtlCache.ViewOf;
    hide TtlCache.OnePerKey;
    hide RecoveryWindow.Changed;
    ghost var start := server.history;
    if Quiet(attempt, |start|) { QuietServed(attempt, start); }
    var answer := ReadThrough(server, cache, key, attempt);
    others := attempt.beforeRead;
    if answer.reply.Err? { return GaveUp, others; }
    var objectStore := answer.reply.value;
    ghost var seen := server.history;
    var change := RecoveryWindow.Failure(serverName, time);
    r := SendThrough(server, cache, objectStore, answer.shared, change, attempt.beforeUpdate, attempt.updateFails);
    others := others + attempt.beforeUpdate;
    assert start + others == seen + attempt.beforeUpdate;
    if SoundObject(objectStore, seen) {
      VersionExists(objectStore, seen);
      if r.Recorded? { AcceptedIsChanged(objectStore, seen, attempt.beforeUpdate, change); }
    }
    if objectStore.fields.version < |server.history| { OldIsSound(cache.View(), key, server.history); }
  }

  /**
   * The retry loop, with its reads through the cache and its write into the served map. From a sound
   * cache, a success adds exactly the failure time to the version it found, and it leaves the cache
   * sound. While a fresh entry of an old version is in the cache the time is not recorded; if nothing
   * else goes wrong, that is exactly when it is not. No other writer of the process uses the served map
   * between the read and the update of an attempt.
   */
  method SetLastFailedBackupTime(server: RecoveryWindow.StatusServer, cache: TtlCache.ExtendedClient, key: TtlCache.Key,
                                 serverName: string, time: RecoveryWindow.Time, attempts: seq<Attempt>)
    returns (ok: bool, ghost others: seq<Option<Windows>>)
    requires server.history != [] && cache.Valid() && key.kind.ObjectStore?
    modifies server`history, cache
    ensures cache.Valid()
    ensures ok <==> server.history != old(server.history) + others
    ensures ok ==> Latest(old(server.history) + others).Some? && server.history != [] && Latest(server.history).Some? &&
                   server.history[..|server.history| - 1] == old(server.history) + others
    ensures ok && old(Sound(cache.View(), key, server.history)) ==>
              Latest(server.history).value ==
              RecoveryWindow.Changed(Latest(old(server.history) + others).value,
                                     RecoveryWindow.Failure(serverName, time))
    ensures ok ==> Sound(cache.View(), key, server.history)
    ensures forall version: nat | version < |old(server.history)| - 1 ::
              old(StaysFresh(cache.View(), key, attempts, version)) ==> !ok
    ensures Latest(old(server.history)).Some? &&
            (forall i :: 0 <= i < |attempts| ==> Quiet(attempts[i], |old(server.history)|)) ==>
              (ok <==> !forall i :: 0 <= i < |attempts| ==>
                           Outdated(old(cache.View().view), key, attempts[i], |old(server.history)|))
    ensures !ok ==>
              || (exists i :: 0 <= i < |attempts| && (attempts[i].readFails || attempts[i].updateFails))
              || SeenAbsent(server.history)
              || AllHindered(old(cache.View().view), key, attempts, |attempts|, |server.history|)
  {
    hide Sound;
    hide Quiet;
    hide Outdated;
    hide Contended;
    hide FetchedRecently;
    hide EntryKnown;
    hide AllHindered;
    hide SeenAbsent;
    others := [];
    ok := false;
    ghost var view := cache.View().view;
    NoneHindered(view, key, attempts, |server.history|);
    for n := 0 to |attempts|
      invariant cache.Valid() && server.history == old(server.history) + others
      invariant old(Sound(cache.View(), key, server.history)) ==> Sound(cache.View(), key, server.history)
      invariant (forall i :: 0 <= i < |attempts| ==> TtlCache.Fresh(view, key, attempts[i].now)) ==>
                cache.View().view == view
      invariant EntryKnown(view, key, attempts, n, cache.View().view)
      invariant AllHindered(view, key, attempts, n, |server.history|)
      invariant Latest(old(server.history)).Some? &&
                (forall i :: 0 <= i < n ==> Quiet(attempts[i], |old(server.history)|)) ==>
                  others == [] && cache.View().view == view &&
                  forall i :: 0 <= i < n ==> Outdated(view, key, attempts[i], |old(server.history)|)
    {
      ghost var before, current, versions := others, cache.View().view, |server.history|;
      var r, more := Once(server, cache, key, serverName, time, attempts[n]);
      OutdatedIsFresh(view, key, attempts[n], |old(server.history)|);
      NextHindered(view, key, attempts, n, versions, |server.history|, current, cache.View().view);
      others := others + more;
      assert old(server.history) + others == old(server.history) + before + more;
      if r.Recorded? { return true, others; }
      if r.GaveUp? { return false, others; }
    }
  }

  lemma OutdatedIsFresh(view: TtlCache.View, key: TtlCache.Key, attempt: Attempt, n: nat)
    ensures Outdated(view, key, attempt, n) ==> TtlCache.Fresh(view, key, attempt.now)
  {
  }
}
