/**
 * The client that caches Secrets and ObjectStores for ten seconds. The cache is a list edited in
 * place. A hit copies the cached object shallowly, so its caller gets the very map of recovery
 * windows the cache holds, and the status writers do write into it.
 */
module TtlCache {
  import opened Prelude
  import RecoveryWindow

  const DEFAULT_TTL_SECONDS := 10

  datatype Kind = Secret | ObjectStore | Other

  /** The part of an object that a shallow copy copies. */
  datatype Fields = Fields(kind: Kind, namespace: string, name: string, version: nat, content: string)

  type Windows = RecoveryWindow.Windows

  /** An object; `windows` is None for an object whose map of recovery windows is nil. */
  datatype Object = Object(fields: Fields, windows: Option<Windows>)

  datatype Key = Key(kind: Kind, namespace: string, name: string)
  datatype ApiError = NotFound | Forbidden | Unreachable

  /** What the base client answers when asked. */
  type Reply = Result<Object, ApiError>

  /** Where a map that the cache refers to is found among all maps the cache ever held. */
  type Address = nat

  datatype CachedEntry = CachedEntry(entry: Fields, windows: Option<Address>, fetchUnixTime: int, ttlSeconds: int) {
    predicate IsExpired(now: int) { now - fetchUnixTime > ttlSeconds }
  }

  function KeyOf(o: Fields): Key {
    Key(o.kind, o.namespace, o.name)
  }

  predicate IsCachedKind(kind: Kind) {
    kind.Secret? || kind.ObjectStore?
  }

  // ---------------------------------------------------------------- the cache as a map

  datatype Fetched = Fetched(value: Fields, windows: Option<Address>, at: int)
  type View = map<Key, Fetched>

  datatype State = State(view: View, maps: seq<Windows>)

  /** What a caller gets; `shared` is the address of its map if the cache refers to the same map. */
  datatype Answer = Answer(reply: Reply, shared: Option<Address>)

  predicate Fresh(v: View, key: Key, now: int) {
    key in v && now - v[key].at <= DEFAULT_TTL_SECONDS
  }

  function Load(maps: seq<Windows>, value: Fields, windows: Option<Address>): Object {
    Object(value, if windows.Some? && windows.value < |maps| then Some(maps[windows.value]) else None)
  }

  /** A deep copy goes into the cache: its map is a new one. */
  function Remember(st: State, key: Key, o: Object, at: int): State {
    match o.windows
    case None => st.(view := st.view[key := Fetched(o.fields, None, at)])
    case Some(windows) => State(st.view[key := Fetched(o.fields, Some(|st.maps|), at)], st.maps + [windows])
  }

  /** A cached read: the fresh entry, or else what the base client says, remembered if it is an object. */
  function CachedGet(st: State, key: Key, now: int, base: Reply, fetchedAt: int): (State, Answer) {
    if Fresh(st.view, key, now) then
      var f := st.view[key];
      (st, Answer(Ok(Load(st.maps, f.value, f.windows)), f.windows))
    else if base.Err? then (st, Answer(base, None))
    else (Remember(st, key, base.value, fetchedAt), Answer(base, None))
  }

  /** A caller writes an entry into a map it shares with the cache. */
  function Overwritten(st: State, address: Address, server: string, window: RecoveryWindow.Window): State {
    if address < |st.maps| then st.(maps := st.maps[address := st.maps[address][server := window]]) else st
  }

  // ---------------------------------------------------------------- the cache as a list

  function FetchedOf(e: CachedEntry): Fetched {
    Fetched(e.entry, e.windows, e.fetchUnixTime)
  }

  function ViewOf(entries: seq<CachedEntry>): View {
    if entries == [] then map[]
    else
      var last := entries[|entries| - 1];
      ViewOf(entries[..|entries| - 1])[KeyOf(last.entry) := FetchedOf(last)]
  }

  ghost predicate OnePerKey(entries: seq<CachedEntry>) {
    && (forall i, j :: 0 <= i < j < |entries| ==> KeyOf(entries[i].entry) != KeyOf(entries[j].entry))
    && (forall i :: 0 <= i < |entries| ==> entries[i].ttlSeconds == DEFAULT_TTL_SECONDS)
  }

  /** With one entry per key, the map holds exactly the entries of the list. */
  lemma {:induction false} ViewExactly(entries: seq<CachedEntry>, key: Key)
    requires OnePerKey(entries)
    ensures key in ViewOf(entries) <==> exists i :: 0 <= i < |entries| && KeyOf(entries[i].entry) == key
    ensures forall i :: 0 <= i < |entries| && KeyOf(entries[i].entry) == key ==>
              key in ViewOf(entries) && ViewOf(entries)[key] == FetchedOf(entries[i])
  {
    if entries != [] {
      ViewExactly(entries[..|entries| - 1], key);
      if i :| 0 <= i < |entries| - 1 && KeyOf(entries[i].entry) == key {
        assert entries[..|entries| - 1][i] == entries[i];
      }
    }
  }

  lemma SameEntriesSameView(a: seq<CachedEntry>, v: View)
    requires OnePerKey(a)
    requires forall i :: 0 <= i < |a| ==>
               KeyOf(a[i].entry) in v && v[KeyOf(a[i].entry)] == FetchedOf(a[i])
    requires forall k :: k in v ==> exists i :: 0 <= i < |a| && KeyOf(a[i].entry) == k
    ensures ViewOf(a) == v
  {
    forall k ensures k in ViewOf(a) <==> k in v
             ensures k in v ==> ViewOf(a)[k] == v[k]
    {
      ViewExactly(a, k);
    }
  }

  /** Overwriting an entry in place updates the map at its key. */
  lemma ViewOfReplaced(entries: seq<CachedEntry>, i: nat, e: CachedEntry)
    requires OnePerKey(entries) && i < |entries| && KeyOf(entries[i].entry) == KeyOf(e.entry)
    requires e.ttlSeconds == DEFAULT_TTL_SECONDS
    ensures OnePerKey(entries[i := e])
    ensures ViewOf(entries[i := e]) == ViewOf(entries)[KeyOf(e.entry) := FetchedOf(e)]
  {
    var v := ViewOf(entries)[KeyOf(e.entry) := FetchedOf(e)];
    var after := entries[i := e];
    forall j | 0 <= j < |after|
      ensures KeyOf(after[j].entry) in v && v[KeyOf(after[j].entry)] == FetchedOf(after[j])
    {
      ViewExactly(entries, KeyOf(after[j].entry));
    }
    forall k | k in v ensures exists j :: 0 <= j < |after| && KeyOf(after[j].entry) == k {
      ViewExactly(entries, k);
      if k != KeyOf(e.entry) {
        var j :| 0 <= j < |entries| && KeyOf(entries[j].entry) == k;
        assert after[j] == entries[j];
      } else {
        assert after[i] == e;
      }
    }
    SameEntriesSameView(after, v);
  }

  function Cut(entries: seq<CachedEntry>, i: nat): (r: seq<CachedEntry>)
    requires i < |entries|
    ensures |r| == |entries| - 1
    ensures forall j :: 0 <= j < |r| ==> r[j] == entries[if j < i then j else j + 1]
  {
    entries[..i] + entries[i + 1..]
  }

  lemma CutHasOnePerKey(entries: seq<CachedEntry>, i: nat)
    requires OnePerKey(entries) && i < |entries|
    ensures OnePerKey(Cut(entries, i))
  {
    hide Cut;
  }

  lemma CutKeeps(entries: seq<CachedEntry>, i: nat, k: Key)
    requires OnePerKey(entries) && i < |entries|
    requires k in ViewOf(entries) && k != KeyOf(entries[i].entry)
    ensures exists j :: 0 <= j < |Cut(entries, i)| && KeyOf(Cut(entries, i)[j].entry) == k
  {
    hide ViewOf;
    ViewExactly(entries, k);
    var j :| 0 <= j < |entries| && KeyOf(entries[j].entry) == k;
    assert Cut(entries, i)[if j < i then j else j - 1] == entries[j];
  }

  /** Cutting an entry out removes its key from the map. */
  lemma ViewOfCut(entries: seq<CachedEntry>, i: nat)
    requires OnePerKey(entries) && i < |entries|
    ensures OnePerKey(Cut(entries, i))
    ensures ViewOf(Cut(entries, i)) == ViewOf(entries) - {KeyOf(entries[i].entry)}
  {
    hide Cut;
    hide ViewOf;
    CutHasOnePerKey(entries, i);
    var v, after := ViewOf(entries) - {KeyOf(entries[i].entry)}, Cut(entries, i);
    forall j | 0 <= j < |after|
      ensures KeyOf(after[j].entry) in v && v[KeyOf(after[j].entry)] == FetchedOf(after[j])
    {
      ViewExactly(entries, KeyOf(after[j].entry));
    }
    forall k | k in v ensures exists j :: 0 <= j < |after| && KeyOf(after[j].entry) == k {
      CutKeeps(entries, i, k);
    }
    SameEntriesSameView(after, v);
  }

  class ExtendedClient {
    var cachedObjects: seq<CachedEntry>
    var maps: seq<Windows>

    constructor ()
      ensures Valid() && View() == State(map[], [])
    {
      cachedObjects, maps := [], [];
    }

    ghost predicate Valid()
      reads this
    {
      OnePerKey(cachedObjects)
    }

    ghost function View(): State
      reads this
    {
      State(ViewOf(cachedObjects), maps)
    }

    /** `now` is the clock when the entry is looked at, `fetchedAt` when the base client has answered. */
    method GetCachedObject(key: Key, now: int, base: Reply, fetchedAt: int) returns (answer: Answer)
      requires Valid()
      requires base.Ok? ==> KeyOf(base.value.fields) == key
      modifies this
      ensures Valid()
      ensures (View(), answer) == CachedGet(old(View()), key, now, base, fetchedAt)
    {
      var expiredObjectIndex := -1;
      ViewExactly(cachedObjects, key);
      for idx := 0 to |cachedObjects|
        modifies {}
        invariant expiredObjectIndex == -1
        invariant forall j :: 0 <= j < idx ==> KeyOf(cachedObjects[j].entry) != key
      {
        var cached := cachedObjects[idx];
        if cached.entry.namespace != key.namespace || cached.entry.name != key.name { continue; }
        if cached.entry.kind != key.kind { continue; }
        if cached.IsExpired(now) {
          expiredObjectIndex := idx;
          break;
        }
        return Answer(Ok(Load(maps, cached.entry, cached.windows)), cached.windows);
      }

      if base.Err? { return Answer(base, None); }
      var copied := CopyWindows(base.value.windows);
      var fetched := CachedEntry(base.value.fields, copied, fetchedAt, DEFAULT_TTL_SECONDS);
      if expiredObjectIndex != -1 {
        ViewOfReplaced(cachedObjects, expiredObjectIndex, fetched);
        cachedObjects := cachedObjects[expiredObjectIndex := fetched];
      } else {
        assert (cachedObjects + [fetched])[..|cachedObjects|] == cachedObjects;
        cachedObjects := cachedObjects + [fetched];
      }
      answer := Answer(base, None);
    }

    /** The part of the deep copy that concerns the map. */
    method CopyWindows(windows: Option<Windows>) returns (copied: Option<Address>)
      modifies this`maps
      ensures copied == if windows.Some? then Some(|old(maps)|) else None
      ensures maps == if windows.Some? then old(maps) + [windows.value] else old(maps)
    {
      if windows.None? { return None; }
      copied := Some(|maps|);
      maps := maps + [windows.value];
    }

    method Get(key: Key, now: int, base: Reply, fetchedAt: int) returns (answer: Answer)
      requires Valid()
      requires base.Ok? ==> KeyOf(base.value.fields) == key
      modifies this
      ensures Valid()
      ensures (View(), answer) ==
              if key.kind.Secret? || key.kind.ObjectStore? then CachedGet(old(View()), key, now, base, fetchedAt)
              else (old(View()), Answer(base, None))
    {
      if IsCachedKind(key.kind) {
        answer := GetCachedObject(key, now, base, fetchedAt);
      } else {
        answer := Answer(base, None);
      }
    }

    /** Removes the first match, which is the only one. */
    method RemoveObject(key: Key)
      requires Valid()
      modifies this`cachedObjects
      ensures Valid() && View() == old(View()).(view := old(View()).view - {key})
    {
      ViewExactly(cachedObjects, key);
      for i := 0 to |cachedObjects|
        invariant cachedObjects == old(cachedObjects)
        invariant forall j :: 0 <= j < i ==> KeyOf(cachedObjects[j].entry) != key
      {
        if KeyOf(cachedObjects[i].entry) == key {
          ViewOfCut(cachedObjects, i);
          cachedObjects := Cut(cachedObjects, i);
          return;
        }
      }
    }

    /** Update, Delete and Patch: the cache forgets the object before the base client is called. */
    method Write(key: Key)
      requires Valid()
      modifies this`cachedObjects
      ensures Valid()
      ensures View() ==
              if key.kind.Secret? || key.kind.ObjectStore? then old(View()).(view := old(View()).view - {key})
              else old(View())
    {
      if IsCachedKind(key.kind) { RemoveObject(key); }
    }

    /** What a caller does who writes a window into the map of an object it was given. */
    method WriteWindow(shared: Option<Address>, server: string, window: RecoveryWindow.Window)
      requires Valid()
      modifies this`maps
      ensures Valid()
      ensures View() == if shared.Some? then Overwritten(old(View()), shared.value, server, window) else old(View())
    {
      if shared.Some? {
        if shared.value < |maps| { maps := maps[shared.value := maps[shared.value][server := window]]; }
      }
    }
  }

  // ---------------------------------------------------------------- runs

  /**
   * The mutex makes each read and each removal one step, in some order. A window is written into the
   * map of the object that an earlier read returned; if that map is the caller's own, the cache does
   * not notice.
   */
  datatype Event =
    | Read(key: Key, now: int, base: Reply, fetchedAt: int)
    | Forget(key: Key)
    | WriteWindow(read: nat, server: string, window: RecoveryWindow.Window)

  function AfterEvents(events: seq<Event>, k: nat): State
    requires k <= |events|
    decreases k, 0
  {
    if k == 0 then State(map[], [])
    else
      var st := AfterEvents(events, k - 1);
      match events[k - 1]
      case Read(key, now, base, fetchedAt) => CachedGet(st, key, now, base, fetchedAt).0
      case Forget(key) => st.(view := st.view - {key})
      case WriteWindow(read, server, window) =>
        if read < k - 1 && events[read].Read? && AnswerAt(events, read).shared.Some?
        then Overwritten(st, AnswerAt(events, read).shared.value, server, window)
        else st
  }

  function AnswerAt(events: seq<Event>, k: nat): Answer
    requires k < |events| && events[k].Read?
    decreases k, 1
  {
    CachedGet(AfterEvents(events, k), events[k].key, events[k].now, events[k].base, events[k].fetchedAt).1
  }

  function ReplyAt(events: seq<Event>, k: nat): Reply
    requires k < |events| && events[k].Read?
  {
    AnswerAt(events, k).reply
  }

  /** Event `m` writes into the map at this address. */
  predicate WritesTo(events: seq<Event>, m: nat, address: Address)
    requires m < |events|
  {
    && events[m].WriteWindow? && events[m].read < m && events[events[m].read].Read?
    && AnswerAt(events, events[m].read).shared == Some(address)
  }

  /** A map as event `j` left it, after the writes to its address in events `j + 1` to `k - 1`. */
  function Through(events: seq<Event>, j: nat, k: nat, address: Address, windows: Windows): Windows
    requires j < k <= |events|
    decreases k
  {
    if k == j + 1 then windows
    else
      var earlier := Through(events, j, k - 1, address, windows);
      if WritesTo(events, k - 1, address) then earlier[events[k - 1].server := events[k - 1].window] else earlier
  }

  /**
   * At step `j` the base client was asked for `key` and returned the object that `f` is the copy of;
   * since then nothing made the cache forget it.
   */
  ghost predicate FetchedAt(events: seq<Event>, j: nat, k: nat, key: Key, f: Fetched)
    requires k <= |events|
  {
    && j < k && events[j].Read? && events[j].key == key
    && !Fresh(AfterEvents(events, j).view, key, events[j].now)
    && events[j].base.Ok? && events[j].base.value.fields == f.value && events[j].fetchedAt == f.at
    && f.windows == (if events[j].base.value.windows.Some? then Some(|AfterEvents(events, j).maps|) else None)
    && forall m :: j < m < k ==> events[m] != Forget(key)
  }

  lemma {:induction false} EntryHasASource(events: seq<Event>, k: nat, key: Key) returns (j: nat)
    requires k <= |events| && key in AfterEvents(events, k).view
    ensures FetchedAt(events, j, k, key, AfterEvents(events, k).view[key])
  {
    var e, before := events[k - 1], AfterEvents(events, k - 1);
    if e.Read? && e.key == key && !Fresh(before.view, key, e.now) && e.base.Ok? {
      j := k - 1;
    } else {
      j := EntryHasASource(events, k - 1, key);
    }
  }

  /** Maps are never given up, and one changes only by the writes to its address. */
  lemma {:induction false} MapIsThrough(events: seq<Event>, j: nat, k: nat, address: Address)
    requires j < k <= |events| && address < |AfterEvents(events, j + 1).maps|
    ensures address < |AfterEvents(events, k).maps|
    ensures AfterEvents(events, k).maps[address] ==
            Through(events, j, k, address, AfterEvents(events, j + 1).maps[address])
    decreases k
  {
    if k > j + 1 {
      MapIsThrough(events, j, k - 1, address);
    }
  }

  lemma {:induction false} UnwrittenIsSame(events: seq<Event>, j: nat, k: nat, address: Address, windows: Windows)
    requires j < k <= |events| && forall m :: j < m < k ==> !WritesTo(events, m, address)
    ensures Through(events, j, k, address, windows) == windows
    decreases k
  {
    if k > j + 1 { UnwrittenIsSame(events, j, k - 1, address, windows); }
  }

  /**
   * Every object a cached read returns at clock t was returned by the base client for that key,
   * after the last time the cache forgot the key, and either by this very read or at a clock t0
   * with t - t0 <= 10; so an expired entry is not served even when the base client fails. Its
   * windows are those of then, with the windows written since through the objects of other hits of
   * the same fetch; without such writes it is exactly the object of the base client.
   */
  lemma ReadsAreRecent(events: seq<Event>, k: nat) returns (j: nat)
    requires k < |events| && events[k].Read? && ReplyAt(events, k).Ok?
    ensures j <= k && events[j].Read? && events[j].key == events[k].key && events[j].base.Ok?
    ensures j == k ==> AnswerAt(events, k) == Answer(events[k].base, None) &&
                       !Fresh(AfterEvents(events, k).view, events[k].key, events[k].now)
    ensures j < k ==>
              var got, base := ReplyAt(events, k).value, events[j].base.value;
              var address := |AfterEvents(events, j).maps|;
              && events[k].now - events[j].fetchedAt <= DEFAULT_TTL_SECONDS
              && !Fresh(AfterEvents(events, j).view, events[j].key, events[j].now)
              && (forall m :: j < m < k ==> events[m] != Forget(events[k].key))
              && got.fields == base.fields
              && got.windows == (if base.windows.Some? then Some(Through(events, j, k, address, base.windows.value))
                                 else None)
              && ((forall m :: j < m < k ==> !WritesTo(events, m, address)) ==> ReplyAt(events, k) == events[j].base)
  {
    var key, st := events[k].key, AfterEvents(events, k);
    if Fresh(st.view, key, events[k].now) {
      j := EntryHasASource(events, k, key);
      var windows, address := events[j].base.value.windows, |AfterEvents(events, j).maps|;
      if windows.Some? {
        MapIsThrough(events, j, k, address);
        if forall m :: j < m < k ==> !WritesTo(events, m, address) {
          UnwrittenIsSame(events, j, k, address, windows.value);
        }
      }
    } else {
      j := k;
    }
  }

  /** Between events `j` and `k`, nothing forgot `key` and no read of it fetched another object. */
  ghost predicate Undisturbed(events: seq<Event>, j: nat, k: nat, key: Key)
    requires k <= |events|
  {
    forall m :: j < m < k ==>
      && events[m] != Forget(key)
      && (events[m].Read? && events[m].key == key ==>
            Fresh(AfterEvents(events, m).view, key, events[m].now) || events[m].base.Err?)
  }

  /** What was fetched stays in the cache, whatever happens to other keys. */
  lemma {:induction false} EntryIsKept(events: seq<Event>, j: nat, k: nat)
    requires j < k <= |events| && events[j].Read? && events[j].base.Ok?
    requires !Fresh(AfterEvents(events, j).view, events[j].key, events[j].now)
    requires Undisturbed(events, j, k, events[j].key)
    ensures events[j].key in AfterEvents(events, k).view
    ensures FetchedAt(events, j, k, events[j].key, AfterEvents(events, k).view[events[j].key])
    decreases k
  {
    if j < k - 1 { EntryIsKept(events, j, k - 1); }
  }

  /**
   * For ten seconds, a key that was fetched and not forgotten since is served from the cache: the
   * object of that fetch, with the windows written since, whatever the base client would say now.
   */
  lemma FetchedIsServed(events: seq<Event>, j: nat, k: nat)
    requires j < k < |events| && events[j].Read? && events[k].Read? && events[j].key == events[k].key
    requires events[j].base.Ok? && !Fresh(AfterEvents(events, j).view, events[j].key, events[j].now)
    requires Undisturbed(events, j, k, events[j].key)
    requires events[k].now - events[j].fetchedAt <= 10
    ensures var base, address := events[j].base.value, |AfterEvents(events, j).maps|;
            ReplyAt(events, k) ==
            Ok(Object(base.fields,
                      if base.windows.Some? then Some(Through(events, j, k, address, base.windows.value)) else None))
  {
    EntryIsKept(events, j, k);
    if events[j].base.value.windows.Some? { MapIsThrough(events, j, k, |AfterEvents(events, j).maps|); }
  }

  // ---------------------------------------------------------------- writing into served objects

  /** The last read of the run is answered, its caller writes a window, and the key is read again. */
  function Again(events: seq<Event>, server: string, window: RecoveryWindow.Window, later: int): seq<Event>
    requires events != [] && events[|events| - 1].Read?
  {
    events + [WriteWindow(|events| - 1, server, window), Read(events[|events| - 1].key, later, Err(Unreachable), later)]
  }

  lemma {:induction false} PrefixAnswers(events: seq<Event>, more: seq<Event>, k: nat)
    requires k <= |events|
    ensures AfterEvents(events + more, k) == AfterEvents(events, k)
    ensures forall j :: 0 <= j < k && events[j].Read? ==> AnswerAt(events + more, j) == AnswerAt(events, j)
    decreases k
  {
    if k > 0 {
      PrefixAnswers(events, more, k - 1);
      assert (events + more)[k - 1] == events[k - 1];
      if events[k - 1].WriteWindow? && events[k - 1].read < k - 1 {
        assert (events + more)[events[k - 1].read] == events[events[k - 1].read];
      }
    }
  }

  /** The second read, while the entry is fresh. */
  lemma AgainIs(events: seq<Event>, server: string, window: RecoveryWindow.Window, later: int)
    requires events != [] && events[|events| - 1].Read?
    requires Fresh(AfterEvents(events, |events|).view, events[|events| - 1].key, later)
    ensures var n, key := |events|, events[|events| - 1].key;
            var st, shared := AfterEvents(events, n), AnswerAt(events, n - 1).shared;
            var written := if shared.Some? then Overwritten(st, shared.value, server, window) else st;
            ReplyAt(Again(events, server, window, later), n + 1) ==
            Ok(Load(written.maps, st.view[key].value, st.view[key].windows))
  {
    var n, all := |events|, Again(events, server, window, later);
    var more := [WriteWindow(n - 1, server, window), Read(events[n - 1].key, later, Err(Unreachable), later)];
    PrefixAnswers(events, more, n);
    assert all == events + more && all[n] == more[0] && all[n + 1] == more[1] && all[n - 1] == events[n - 1];
    assert AfterEvents(all, n + 1) ==
      var shared := AnswerAt(events, n - 1).shared;
      if shared.Some? then Overwritten(AfterEvents(events, n), shared.value, server, window)
      else AfterEvents(events, n);
  }

  /**
   * Whatever its caller writes into an object it was given, the next hit returns the object as
   * before, exactly when it was given by the base client in this read or has no windows.
   */
  lemma SharingExactly(events: seq<Event>, later: int)
    requires events != [] && events[|events| - 1].Read? && ReplyAt(events, |events| - 1).Ok?
    requires events[|events| - 1].base.Ok? ==> KeyOf(events[|events| - 1].base.value.fields) == events[|events| - 1].key
    requires Fresh(AfterEvents(events, |events|).view, events[|events| - 1].key, later)
    ensures var n, e := |events|, events[|events| - 1];
            (forall server, window ::
               ReplyAt(Again(events, server, window, later), n + 1) == ReplyAt(events, n - 1)) <==>
            !Fresh(AfterEvents(events, n - 1).view, e.key, e.now) || ReplyAt(events, n - 1).value.windows.None?
  {
    hide AfterEvents;
    hide AnswerAt;
    var n, e := |events|, events[|events| - 1];
    var before := AfterEvents(events, n - 1);
    LastRead(events);
    if !Fresh(before.view, e.key, e.now) || ReplyAt(events, n - 1).value.windows.None? {
      forall server, window ensures ReplyAt(Again(events, server, window, later), n + 1) == ReplyAt(events, n - 1) {
        AgainIs(events, server, window, later);
      }
    } else {
      var server, window := "pg-1", RecoveryWindow.ZERO;
      var had := ReplyAt(events, n - 1).value.windows.value;
      if server in had && had[server] == window { window := window.(lastFailedBackup := Some(later)); }
      AgainIs(events, server, window, later);
    }
  }

  lemma LastRead(events: seq<Event>)
    requires events != [] && events[|events| - 1].Read?
    ensures var n, e := |events|, events[|events| - 1];
            (AfterEvents(events, n), AnswerAt(events, n - 1)) ==
            CachedGet(AfterEvents(events, n - 1), e.key, e.now, e.base, e.fetchedAt)
  {
  }

  /**
   * A status writer whose update is refused: it reads the object store from the cache and writes a
   * window, and the next read serves a window the API server never held.
   */
  lemma RefusedWindowIsServed(o: Object, server: string, window: RecoveryWindow.Window)
    requires o.windows.Some?
    ensures var read := Read(KeyOf(o.fields), 0, Ok(o), 0);
            var events := [read, read, WriteWindow(1, server, window), read];
            ReplyAt(events, 3) == Ok(o.(windows := Some(o.windows.value[server := window])))
  {
    var key := KeyOf(o.fields);
    var read := Read(key, 0, Ok(o), 0);
    var events := [read, read, WriteWindow(1, server, window), read];
    assert AfterEvents(events, 1) == State(map[key := Fetched(o.fields, Some(0), 0)], [o.windows.value]);
    assert AfterEvents(events, 2) == AfterEvents(events, 1);
    assert AnswerAt(events, 1).shared == Some(0);
    assert AfterEvents(events, 3).maps == [o.windows.value[server := window]];
  }

  /** A forgotten object is never served: the next read of its key is answered by the base client. */
  lemma ForgottenIsNeverServed(events: seq<Event>, i: nat, k: nat)
    requires i < k < |events| && events[k].Read?
    requires events[i] == Forget(events[k].key)
    requires forall m :: i < m < k ==> !(events[m].Read? && events[m].key == events[k].key)
    ensures ReplyAt(events, k) == events[k].base
  {
    if Fresh(AfterEvents(events, k).view, events[k].key, events[k].now) {
      var j := EntryHasASource(events, k, events[k].key);
    }
  }
}
