/**
 * Archiving through the same spool directory: a file whose name is in the spool counts as already
 * archived. Runs here mix archive and restore calls on one store, and speak about names only.
 */
module WalArchive {
  import opened Prelude
  import opened WalPrefetch
  import opened WalRestore
  import opened WalRestoreRuns

  /** How archiving one file of a list ends; `MarkFailed` stored the file but could not mark it. */
  datatype Upload = Uploaded | UploadFailed | MarkFailed

  datatype ArchiveEnvironment = ArchiveEnvironment(
    setupFails: bool,
    deleteFails: bool,
    optionsFail: bool,
    ready: seq<string>,
    uploads: string -> Upload)

  datatype ArchiveAnswer = AlreadyArchived | Archived | ArchiveFailed

  /** Archived files other than the requested one are marked in the spool by an empty file. */
  function Marked(spool: map<string, Bytes>, names: seq<string>, uploads: string -> Upload): map<string, Bytes> {
    if names == [] then spool
    else
      var last := names[|names| - 1];
      var earlier := Marked(spool, names[..|names| - 1], uploads);
      if uploads(last).Uploaded? then earlier[last := []] else earlier
  }

  predicate AllUploaded(names: seq<string>, uploads: string -> Upload) {
    forall i :: 0 <= i < |names| ==> uploads(names[i]).Uploaded?
  }

  function Archive(st: State, walName: string, env: ArchiveEnvironment): (State, ArchiveAnswer) {
    if env.setupFails || env.deleteFails then (st, ArchiveFailed)
    else if walName in st.spool then (st.(spool := st.spool - {walName}), AlreadyArchived)
    else if env.optionsFail then (st, ArchiveFailed)
    else
      (st.(spool := Marked(st.spool, env.ready, env.uploads)),
       if env.uploads(walName).Uploaded? && AllUploaded(env.ready, env.uploads) then Archived else ArchiveFailed)
  }

  method DeleteFromSpool(directory: WalRestorer, walName: string, fails: bool)
    returns (r: Result<bool, LibraryError>)
    modifies directory`spool
    ensures r == if fails then Err(LibraryError) else Ok(walName in old(directory.spool))
    ensures directory.spool == if fails then old(directory.spool) else old(directory.spool) - {walName}
  {
    if fails { return Err(LibraryError); }
    r := Ok(walName in directory.spool);
    directory.spool := directory.spool - {walName};
  }

  /** Archives the requested file, then the ready ones, marking the latter in the spool. */
  method ArchiveList(directory: WalRestorer, names: seq<string>, uploads: string -> Upload)
    returns (results: seq<Upload>)
    requires names != []
    modifies directory`spool
    ensures |results| == |names| && forall i :: 0 <= i < |names| ==> results[i] == uploads(names[i])
    ensures directory.spool == Marked(old(directory.spool), names[1..], uploads)
  {
    results := [uploads(names[0])];
    ghost var rest := names[1..];
    for i := 1 to |names|
      invariant |results| == i
      invariant forall j :: 0 <= j < i ==> results[j] == uploads(names[j])
      invariant directory.spool == Marked(old(directory.spool), rest[..i - 1], uploads)
    {
      assert rest[..i][..i - 1] == rest[..i - 1] && rest[..i][i - 1] == names[i];
      var upload := uploads(names[i]);
      if upload.Uploaded? { directory.spool := directory.spool[names[i] := []]; }
      results := results + [upload];
    }
    assert rest[..|names| - 1] == rest;
  }

  method ArchiveWal(directory: WalRestorer, walName: string, env: ArchiveEnvironment) returns (answer: ArchiveAnswer)
    modifies directory`spool
    ensures (directory.View(), answer) == Archive(old(directory.View()), walName, env)
  {
    if env.setupFails { return ArchiveFailed; }

    // Step 3: this file may have been archived already
    var deleted := DeleteFromSpool(directory, walName, env.deleteFails);
    if deleted.Err? { return ArchiveFailed; }
    if deleted.value { return AlreadyArchived; }

    // Step 4: the requested file always comes first
    assert directory.spool == old(directory.spool);
    if env.optionsFail { return ArchiveFailed; }
    var names := [walName] + env.ready;
    assert names[1..] == env.ready;
    var results := ArchiveList(directory, names, env.uploads);
    for i := 0 to |results|
      invariant forall j :: 0 <= j < i ==> results[j].Uploaded?
    {
      if !results[i].Uploaded? {
        assert i > 0 ==> names[i] == env.ready[i - 1];
        return ArchiveFailed;
      }
    }
    assert names[0] == walName && results[0].Uploaded?;
    assert forall j :: 0 <= j < |env.ready| ==> names[j + 1] == env.ready[j] && results[j + 1].Uploaded?;
    answer := Archived;
  }

  // ---------------------------------------------------------------- mixed runs

  datatype Call =
    | RestoreCall(event: Event)
    | ArchiveCall(walName: string, env: ArchiveEnvironment, before: Store, after: Store)

  function Before(c: Call): Store { if c.RestoreCall? then c.event.before else c.before }

  function Later(c: Call): Store { if c.RestoreCall? then c.event.after else c.after }

  /** Whatever the archiver reports as stored is in the store when the call ends. */
  ghost predicate ValidCall(c: Call) {
    match c
    case RestoreCall(e) => ValidEvent(e)
    case ArchiveCall(walName, env, before, after) =>
      Extends(before, after) && forall n :: !env.uploads(n).UploadFailed? && n in [walName] + env.ready ==> n in after
  }

  ghost function StoreBefore(start: Store, calls: seq<Call>, k: nat): Store
    requires k <= |calls|
  {
    if k == 0 then start else Later(calls[k - 1])
  }

  ghost predicate ValidMix(start: Store, calls: seq<Call>) {
    forall k :: 0 <= k < |calls| ==> ValidCall(calls[k]) && Extends(StoreBefore(start, calls, k), Before(calls[k]))
  }

  function CallStep(st: State, c: Call): State {
    match c
    case RestoreCall(e) => Restore(st, e.req, e.env).state
    case ArchiveCall(walName, env, _, _) => Archive(st, walName, env).0
  }

  function AfterCalls(st: State, calls: seq<Call>, k: nat): State
    requires k <= |calls|
  {
    if k == 0 then st else CallStep(AfterCalls(st, calls, k - 1), calls[k - 1])
  }

  ghost predicate NamesStored(spool: map<string, Bytes>, store: Store) {
    spool.Keys <= store.Keys
  }

  lemma {:induction false} StagedNames(spool: map<string, Bytes>, names: seq<string>, e: Event)
    requires NamesStored(spool, e.before) && ValidEvent(e)
    ensures NamesStored(Staged(spool, names, e.env.downloads), e.after)
  {
    if names != [] {
      StagedNames(spool, names[..|names| - 1], e);
      assert ValidDownload(e.env.downloads(names[|names| - 1]), names[|names| - 1], e.before, e.after);
    }
  }

  lemma {:induction false} MarkedNames(spool: map<string, Bytes>, names: seq<string>, uploads: string -> Upload,
                                       store: Store)
    requires NamesStored(spool, store)
    requires forall n :: n in names && uploads(n).Uploaded? ==> n in store
    ensures NamesStored(Marked(spool, names, uploads), store)
  {
    if names != [] { MarkedNames(spool, names[..|names| - 1], uploads, store); }
  }

  /** A restore request takes its name out of the spool or stages its window, nothing else. */
  lemma RestoreSpool(st: State, req: Request, env: Environment)
    ensures var spool := Restore(st, req, env).state.spool;
            spool.Keys <= st.spool.Keys ||
              spool == Staged(st.spool, DownloadList(req.walName, MaxWalFiles(req))[1..], env.downloads)
  {
    hide DownloadList;
    assert FromTheSpool(st, req, env).state.spool.Keys <= st.spool.Keys ||
           FromTheSpool(st, req, env).state.spool == FromTheStore(st, req, env).state.spool;
    assert FromTheSpool(Cleared(st), req, env).state.spool.Keys <= st.spool.Keys ||
           FromTheSpool(Cleared(st), req, env).state.spool == FromTheStore(Cleared(st), req, env).state.spool;
  }

  lemma CallKeepsNames(st: State, c: Call)
    requires NamesStored(st.spool, Before(c)) && ValidCall(c)
    ensures NamesStored(CallStep(st, c).spool, Later(c))
  {
    hide Restore;
    match c
    case RestoreCall(e) =>
      RestoreSpool(st, e.req, e.env);
      StagedNames(st.spool, DownloadList(e.req.walName, MaxWalFiles(e.req))[1..], e);
    case ArchiveCall(walName, env, before, after) =>
      MarkedNames(st.spool, env.ready, env.uploads, after);
  }

  /** In every mixed run, each name in the spool is the name of a file in the store. */
  lemma {:induction false} SpoolNamesAreStored(st: State, start: Store, calls: seq<Call>, k: nat)
    requires NamesStored(st.spool, start) && ValidMix(start, calls) && k <= |calls|
    ensures NamesStored(AfterCalls(st, calls, k).spool, StoreBefore(start, calls, k))
  {
    if k > 0 {
      SpoolNamesAreStored(st, start, calls, k - 1);
      assert Extends(StoreBefore(start, calls, k - 1), Before(calls[k - 1]));
      CallKeepsNames(AfterCalls(st, calls, k - 1), calls[k - 1]);
    }
  }

  /**
   * In every mixed run, an archive call that ends without error, also by skipping a file found in
   * the spool, leaves the requested file in the store.
   */
  lemma ArchivedIsStored(st: State, start: Store, calls: seq<Call>, k: nat)
    requires NamesStored(st.spool, start) && ValidMix(start, calls)
    requires k < |calls| && calls[k].ArchiveCall?
    ensures Archive(AfterCalls(st, calls, k), calls[k].walName, calls[k].env).1 != ArchiveFailed ==>
              calls[k].walName in calls[k].after
  {
    SpoolNamesAreStored(st, start, calls, k);
    assert Extends(StoreBefore(start, calls, k), Before(calls[k]));
    assert calls[k].walName in [calls[k].walName] + calls[k].env.ready;
  }

  /** A call is skipped for a name in the spool, and else succeeds, exactly unless something fails. */
  lemma ArchiveAnswersExactly(st: State, walName: string, env: ArchiveEnvironment)
    ensures var answer := Archive(st, walName, env).1;
            && (answer == AlreadyArchived <==> !env.setupFails && !env.deleteFails && walName in st.spool)
            && (answer == Archived <==>
                 && !env.setupFails && !env.deleteFails && walName !in st.spool && !env.optionsFail
                 && forall n :: n in [walName] + env.ready ==> env.uploads(n).Uploaded?)
  {
    assert forall n :: n in [walName] + env.ready <==> n == walName || n in env.ready;
  }

  /**
   * The spool loses the name that is skipped, and gains an empty file for each other archived one, also
   * if archiving fails for some of them.
   */
  lemma ArchiveSpoolExactly(st: State, walName: string, env: ArchiveEnvironment, name: string)
    ensures var spool, answer := Archive(st, walName, env).0.spool, Archive(st, walName, env).1;
            && (answer == AlreadyArchived ==> spool == st.spool - {walName})
            && (answer == Archived ==>
                  && (name in spool <==> name in st.spool || name in env.ready)
                  && (name in env.ready ==> spool[name] == [])
                  && (name in st.spool && name !in env.ready ==> spool[name] == st.spool[name]))
            && (answer == ArchiveFailed ==>
                  if env.setupFails || env.deleteFails || env.optionsFail then spool == st.spool
                  else
                    && (name in spool <==> name in st.spool || (name in env.ready && env.uploads(name).Uploaded?))
                    && (name in env.ready && env.uploads(name).Uploaded? ==> spool[name] == []))
  {
    MarkedExactly(st.spool, env.ready, env.uploads, name);
  }

  // ---------------------------------------------------------------- what restores deliver in mixed runs

  /** The files a restore request put into the spool. */
  function StagedBy(st: State, e: Event): set<string> {
    if Restore(st, e.req, e.env).state.rounds == st.rounds then {}
    else set n | n in DownloadList(e.req.walName, MaxWalFiles(e.req))[1..] && e.env.downloads(n).Fetched?
  }

  /** The files an archive call marked in the spool. */
  function MarkedBy(st: State, walName: string, env: ArchiveEnvironment): set<string> {
    if env.setupFails || env.deleteFails || walName in st.spool || env.optionsFail then {}
    else set n | n in env.ready && env.uploads(n).Uploaded?
  }

  /** Which names are only marked after a call, given those before it. */
  function StillMarked(st: State, marked: set<string>, c: Call): set<string> {
    var left := marked * CallStep(st, c).spool.Keys;
    match c
    case RestoreCall(e) => left - StagedBy(st, e)
    case ArchiveCall(walName, env, _, _) => left + MarkedBy(st, walName, env)
  }

  /** The names in the spool that an archive call marked, not restored, skipped or downloaded since. */
  function OnlyMarked(st: State, calls: seq<Call>, k: nat): set<string>
    requires k <= |calls|
  {
    if k == 0 then {} else StillMarked(AfterCalls(st, calls, k - 1), OnlyMarked(st, calls, k - 1), calls[k - 1])
  }

  /** Marked entries are empty files, all others are those of the store. */
  ghost predicate AgreesBut(spool: map<string, Bytes>, marked: set<string>, store: Store) {
    forall n :: n in spool ==> n in store && (if n in marked then spool[n] == [] else spool[n] == store[n])
  }

  lemma {:induction false} MarkedExactly(spool: map<string, Bytes>, names: seq<string>, uploads: string -> Upload,
                                         name: string)
    ensures var m := Marked(spool, names, uploads);
            && (name in m <==> name in spool || (name in names && uploads(name).Uploaded?))
            && (name in m ==> m[name] == if name in names && uploads(name).Uploaded? then [] else spool[name])
  {
    if names != [] {
      var earlier := names[..|names| - 1];
      MarkedExactly(spool, earlier, uploads, name);
      assert name in names <==> name in earlier || name == names[|names| - 1];
    }
  }

  /** The three things a restore request may do to the spool. */
  lemma RestoreSpoolIs(st: State, req: Request, env: Environment)
    ensures var after := Restore(st, req, env).state;
            var list := DownloadList(req.walName, MaxWalFiles(req));
            || (after.rounds == st.rounds && (after.spool == st.spool || after.spool == st.spool - {req.walName}))
            || (after.rounds == st.rounds + [list] && after.spool == Staged(st.spool, list[1..], env.downloads))
  {
    hide DownloadList;
  }

  lemma CallKeepsAgreement(st: State, marked: set<string>, c: Call)
    requires AgreesBut(st.spool, marked, Before(c)) && ValidCall(c)
    ensures AgreesBut(CallStep(st, c).spool, StillMarked(st, marked, c), Later(c))
  {
    hide Restore;
    hide DownloadList;
    forall n | n in CallStep(st, c).spool
      ensures n in Later(c)
      ensures CallStep(st, c).spool[n] == if n in StillMarked(st, marked, c) then [] else Later(c)[n]
    {
      match c
      case RestoreCall(e) =>
        RestoreSpoolIs(st, e.req, e.env);
        StagedExactly(st.spool, DownloadList(e.req.walName, MaxWalFiles(e.req))[1..], e.env.downloads, n);
        assert ValidDownload(e.env.downloads(n), n, e.before, e.after);
      case ArchiveCall(walName, env, before, after) =>
        MarkedExactly(st.spool, env.ready, env.uploads, n);
    }
  }

  lemma {:induction false} MixedSpoolAgrees(st: State, start: Store, calls: seq<Call>, k: nat)
    requires SpoolAgrees(st.spool, start) && ValidMix(start, calls) && k <= |calls|
    ensures AgreesBut(AfterCalls(st, calls, k).spool, OnlyMarked(st, calls, k), StoreBefore(start, calls, k))
  {
    hide CallStep;
    hide StillMarked;
    hide ValidCall;
    if k > 0 {
      MixedSpoolAgrees(st, start, calls, k - 1);
      assert Extends(StoreBefore(start, calls, k - 1), Before(calls[k - 1]));
      CallKeepsAgreement(AfterCalls(st, calls, k - 1), OnlyMarked(st, calls, k - 1), calls[k - 1]);
    }
  }

  lemma {:induction false} OnlyMarkedInSpool(st: State, calls: seq<Call>, k: nat)
    requires k <= |calls|
    ensures OnlyMarked(st, calls, k) <= AfterCalls(st, calls, k).spool.Keys
  {
    hide Restore;
    if k > 0 {
      var before, c := AfterCalls(st, calls, k - 1), calls[k - 1];
      if c.ArchiveCall? {
        forall n | n in MarkedBy(before, c.walName, c.env) ensures n in CallStep(before, c).spool {
          MarkedExactly(before.spool, c.env.ready, c.env.uploads, n);
        }
      }
    }
  }

  /** A request for `name` that meets no failure, in a store that does not change. */
  function Undisturbed(name: string, store: Store): Event {
    Event(Request(name, false, None, "", None),
          Environment(false, false, false, false, Moves, n => if n in store then Fetched(store[n]) else NotFound),
          store, store)
  }

  /**
   * After every mixed run, whatever happens during the next restore request for a name, its answer is
   * one a plain downloader may give, exactly if the name is not only marked in the spool, or is that
   * of an empty file.
   */
  lemma MixedAnswersExactly(st: State, start: Store, calls: seq<Call>, k: nat, name: string)
    requires SpoolAgrees(st.spool, start) && ValidMix(start, calls) && k <= |calls|
    ensures var now, store := AfterCalls(st, calls, k), StoreBefore(start, calls, k);
            (forall e: Event | e.req.walName == name && ValidEvent(e) && Extends(store, e.before) ::
               var answer := Restore(now, e.req, e.env).answer;
               PlainAnswer(AnsweredName(e.req, answer), e, answer)) <==>
            (name in OnlyMarked(st, calls, k) ==> name in store && store[name] == [])
  {
    hide Restore;
    var now, store := AfterCalls(st, calls, k), StoreBefore(start, calls, k);
    MixedSpoolAgrees(st, start, calls, k);
    OnlyMarkedInSpool(st, calls, k);
    if name in OnlyMarked(st, calls, k) && !(name in store && store[name] == []) {
      var e := Undisturbed(name, store);
      RestoreHit(now, e.req, e.env);
      assert ValidEvent(e) && Extends(store, e.before);
      assert !PlainAnswer(AnsweredName(e.req, Restore(now, e.req, e.env).answer), e, Restore(now, e.req, e.env).answer);
    } else {
      forall e: Event | e.req.walName == name && ValidEvent(e) && Extends(store, e.before)
        ensures var answer := Restore(now, e.req, e.env).answer;
                PlainAnswer(AnsweredName(e.req, answer), e, answer)
      {
        AnswerOrigins(now, e);
      }
    }
  }

  /** An answer is the spool's file under the requested name, or one for which the spool did not matter. */
  lemma AnswerOrigins(st: State, e: Event)
    requires ValidEvent(e)
    ensures var answer := Restore(st, e.req, e.env).answer;
            if answer.Delivered? && answer.origin.FromSpool?
            then e.req.walName in st.spool && answer.data == st.spool[e.req.walName]
            else PlainAnswer(AnsweredName(e.req, answer), e, answer)
  {
    hide FetchName;
    hide Staged;
    var list := DownloadList(e.req.walName, MaxWalFiles(e.req));
    DownloadListShape(e.req.walName, MaxWalFiles(e.req));
    hide DownloadList;
    DownloadIsPlain(st, list, e);
    DownloadIsPlain(Cleared(st), list, e);
  }

  lemma DownloadIsPlain(st: State, list: seq<string>, e: Event)
    requires list != [] && ValidEvent(e)
    ensures forall useFlag: bool ::
              var answer := Downloaded(st, list, useFlag, e.env).answer;
              PlainAnswer(list[0], e, answer) && (answer.Delivered? ==> answer.origin.FromStore?)
  {
    assert ValidDownload(e.env.downloads(list[0]), list[0], e.before, e.after);
  }

  /** A file that was marked by archiving another one and is asked for next is delivered empty. */
  lemma MarkedFileIsServedEmpty(requested: string, name: string, store: Store)
    requires requested in store && name in store && store[name] != [] && requested != name
    ensures var archive :=
            ArchiveCall(requested, ArchiveEnvironment(false, false, false, [name], n => Uploaded), store, store);
            var event := Undisturbed(name, store);
            var calls := [archive, RestoreCall(event)];
            && ValidMix(store, calls)
            && Restore(AfterCalls(EmptyState(), calls, 1), event.req, event.env).answer == Delivered([], FromSpool)
  {
    var archive := ArchiveCall(requested, ArchiveEnvironment(false, false, false, [name], n => Uploaded), store, store);
    var event := Undisturbed(name, store);
    var calls := [archive, RestoreCall(event)];
    MarkedExactly(map[], [name], archive.env.uploads, name);
    assert AfterCalls(EmptyState(), calls, 0) == EmptyState();
    assert AfterCalls(EmptyState(), calls, 1).spool == Marked(map[], [name], archive.env.uploads);
    forall k | 0 <= k < 2 ensures ValidCall(calls[k]) && Extends(StoreBefore(store, calls, k), Before(calls[k])) {}
    hide DownloadList;
  }
}
