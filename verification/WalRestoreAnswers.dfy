/**
 * What one restore request answers and does, from any state: every error has its cause, and without a
 * failure the file is delivered, unless the request consumes a set flag.
 */
module WalRestoreAnswers {
  import opened Prelude
  import opened WalSegments
  import opened WalPrefetch
  import opened WalRestore
  import opened WalRestoreRuns

  // ---------------------------------------------------------------- by the fields of a request

  /** A pod that can stream from another one, which PostgreSQL should fall back to. */
  predicate CanStream(req: Request) {
    && req.cluster.Some?
    && req.cluster.value.currentPrimary != ""
    && (req.podName == req.cluster.value.currentPrimary ==>
          req.cluster.value.isReplica && req.cluster.value.source == Some(ExternalCluster(true)))
  }

  /** The flag machinery applies to normal requests of pods that can stream, and to no others. */
  lemma FlagAppliesExactly(req: Request)
    ensures ShouldUseFlag(req) <==> !req.rewind && CanStream(req)
  {
  }

  /** How many files a request may download. */
  function WindowSize(req: Request): nat {
    if req.rewind || req.maxParallel.None? || req.maxParallel.value <= 1 then 1 else req.maxParallel.value
  }

  function FilesOf(req: Request): seq<string> {
    DownloadList(req.walName, WindowSize(req))
  }

  predicate SomeMissing(req: Request, env: Environment) {
    exists n :: n in FilesOf(req) && env.downloads(n).NotFound?
  }

  /** What step 3 hands to step 4. */
  lemma ListIs(req: Request, env: Environment)
    ensures DownloadList(req.walName, MaxWalFiles(req)) == FilesOf(req)
    ensures FilesOf(req)[0] == FetchName(req.walName)
    ensures |FilesOf(req)| == if SegmentFromName(req.walName).Ok? then WindowSize(req) else 1
    ensures SomeNotFound(FilesOf(req), env.downloads) <==> SomeMissing(req, env)
  {
    DownloadListShape(req.walName, WindowSize(req));
  }

  // ---------------------------------------------------------------- answers have causes

  /** A call on the flag failed that the request needs before or after the spool. */
  ghost predicate FlagCause(st: State, req: Request, env: Environment) {
    || ((req.rewind || CanStream(req)) && (env.readFlagFails || (st.endOfStream && env.resetFlagFails)))
    || (!req.rewind && CanStream(req) && env.setFlagFails && SomeMissing(req, env))
  }

  /** What may lead to an answer. */
  ghost predicate HasCause(st: State, req: Request, env: Environment, a: Answer) {
    var download := env.downloads(FetchName(req.walName));
    match a
    case SetupFailed => env.setupFails
    case SpoolFailed => !env.move.Moves?
    case FlagFailed => FlagCause(st, req, env)
    case InvalidArgument => download == Failed(InvalidName)
    case Unavailable => download == Failed(Connectivity) || download == Failed(Generic)
    case Internal => download == Failed(Unexpected)
    case WalNotFound => download == NotFound && req.walName !in st.spool
    case EndOfStream => !req.rewind && CanStream(req) && st.endOfStream && req.walName !in st.spool
    case Delivered(data, origin) =>
      if req.walName in st.spool then origin.FromSpool? && data == st.spool[req.walName]
      else origin.FromStore? && download == Fetched(data)
  }

  /** How the spool, the flag and the record of downloads go with an answer. */
  ghost predicate Does(st: State, req: Request, env: Environment, o: Outcome) {
    match o.answer
    case SetupFailed => o.state == st
    case SpoolFailed =>
      && (o.state.spool == st.spool || o.state.spool == st.spool - {req.walName})
      && o.state.rounds == st.rounds && (o.state.endOfStream <==> !req.rewind && st.endOfStream)
    case FlagFailed =>
      || o.state == st
      || o.state == st.(spool := Staged(st.spool, FilesOf(req)[1..], env.downloads),
                        rounds := st.rounds + [FilesOf(req)])
    case EndOfStream => o.state.spool == st.spool && !o.state.endOfStream && o.state.rounds == st.rounds
    case Delivered(_, FromSpool) =>
      && o.state.spool == st.spool - {req.walName} && o.state.rounds == st.rounds
      && (o.state.endOfStream <==> !req.rewind && st.endOfStream)
    case Delivered(_, FromStore) =>
      && o.state.spool == Staged(st.spool, FilesOf(req)[1..], env.downloads)
      && o.state.rounds == st.rounds + [FilesOf(req)]
      && (o.state.endOfStream <==>
           !req.rewind && if CanStream(req) then SomeMissing(req, env) else st.endOfStream)
    case _ =>
      && o.state.spool == Staged(st.spool, FilesOf(req)[1..], env.downloads)
      && o.state.rounds == st.rounds + [FilesOf(req)]
      && (o.state.endOfStream <==> !req.rewind && !CanStream(req) && st.endOfStream)
  }

  /** From step 3 on, where a rewind request has cleared the flag. */
  lemma StoreAnswers(st: State, req: Request, env: Environment)
    requires req.walName !in st.spool && env.move.Moves?
    requires (req.rewind || CanStream(req)) ==> !st.endOfStream
    ensures var o := FromTheStore(st, req, env);
            HasCause(st, req, env, o.answer) && Does(st, req, env, o)
  {
    ListIs(req, env);
    FlagAppliesExactly(req);
    hide FilesOf;
    hide FetchName;
    hide MaxWalFiles;
    hide CanStream;
    hide SomeMissing;
    hide SomeNotFound;
    hide ShouldUseFlag;
    hide Staged;
  }

  lemma PastTheSpoolAnswers(st: State, req: Request, env: Environment)
    requires req.walName !in st.spool && env.move.Moves? && (req.rewind ==> !st.endOfStream)
    ensures var o := PastTheSpool(st, req, env);
            HasCause(st, req, env, o.answer) && Does(st, req, env, o)
  {
    hide SomeNotFound;
    hide DownloadList;
    hide FilesOf;
    FlagAppliesExactly(req);
    if !(CanStream(req) && st.endOfStream) { StoreAnswers(st, req, env); }
    hide FromTheStore;
    hide FetchName;
    hide CanStream;
    hide SomeMissing;
    hide ShouldUseFlag;
    hide Staged;
  }

  lemma SpoolAnswers(st: State, req: Request, env: Environment)
    requires req.rewind ==> !st.endOfStream
    ensures var o := FromTheSpool(st, req, env);
            HasCause(st, req, env, o.answer) && Does(st, req, env, o)
  {
    if env.move.Moves? && req.walName !in st.spool { PastTheSpoolAnswers(st, req, env); }
    hide PastTheSpool;
    hide FilesOf;
    hide FetchName;
    hide CanStream;
    hide SomeMissing;
    hide Staged;
  }

  /** Every answer, to every request in every state, has its cause, and the state goes with it. */
  lemma AnswersHaveCauses(st: State, req: Request, env: Environment)
    ensures var o := Restore(st, req, env);
            HasCause(st, req, env, o.answer) && Does(st, req, env, o)
  {
    if !req.rewind || !st.endOfStream { SpoolAnswers(st, req, env); }
    if req.rewind { SpoolAnswers(Cleared(st), req, env); }
    hide FromTheSpool;
    hide FilesOf;
    hide FetchName;
    hide CanStream;
    hide SomeMissing;
    hide Staged;
  }

  // ---------------------------------------------------------------- without failures

  predicate NoFailure(env: Environment) {
    !env.setupFails && !env.readFlagFails && !env.resetFlagFails && !env.setFlagFails && env.move.Moves?
  }

  /** Only a normal request of a pod that can stream finds a set flag in its way. */
  predicate FlagInTheWay(st: State, req: Request) {
    !req.rewind && CanStream(req) && st.endOfStream && req.walName !in st.spool
  }

  lemma FlagStops(st: State, req: Request, env: Environment)
    requires NoFailure(env) && FlagInTheWay(st, req)
    ensures Restore(st, req, env).answer == EndOfStream
  {
    FlagAppliesExactly(req);
    hide DownloadList;
  }

  /** A request that meets no failure is delivered, unless, exactly, a set flag is in its way. */
  lemma DeliveredExactly(st: State, req: Request, env: Environment)
    requires NoFailure(env)
    requires req.walName in st.spool || env.downloads(FetchName(req.walName)).Fetched?
    ensures Restore(st, req, env).answer ==
            if FlagInTheWay(st, req) then EndOfStream
            else if req.walName in st.spool then Delivered(st.spool[req.walName], FromSpool)
            else Delivered(env.downloads(FetchName(req.walName)).data, FromStore)
  {
    AnswersHaveCauses(st, req, env);
    if FlagInTheWay(st, req) { FlagStops(st, req, env); }
    hide Restore;
    hide Does;
    hide CanStream;
    hide SomeMissing;
    hide FetchName;
  }

  /**
   * In every run, a request for a canonical name in the store that meets no failure delivers the
   * store's bytes, unless it is a normal request of a pod that can stream and consumes a set flag.
   */
  lemma StoredIsDelivered(st: State, start: Store, events: seq<Event>, k: nat)
    requires SpoolAgrees(st.spool, start) && ValidRun(start, events) && k < |events|
    requires var e := events[k];
             && Canonical(e.req.walName) && e.req.walName in e.before
             && NoFailure(e.env) && !e.env.downloads(e.req.walName).Failed?
    ensures var e, answer := events[k], AnswerAt(st, events, k);
            if FlagInTheWay(After(st, events, k), e.req) then answer == EndOfStream
            else answer.Delivered? && answer.data == e.before[e.req.walName]
  {
    var e, now := events[k], After(st, events, k);
    SpoolStaysFaithful(st, start, events, k);
    assert Extends(StoreAt(start, events, k), e.before);
    assert ValidDownload(e.env.downloads(e.req.walName), e.req.walName, e.before, e.after);
    FetchNameExactly(e.req.walName);
    DeliveredExactly(now, e.req, e.env);
    hide Restore;
    hide FetchName;
    hide CanStream;
  }
}
