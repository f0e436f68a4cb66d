/** What the restore engine guarantees over every sequence of requests against one growing store. */
module WalRestoreRuns {
  import opened Prelude
  import opened WalSegments
  import opened WalPrefetch
  import opened WalRestore

  /** One request, with the store before and after it: files are only ever added to the store. */
  datatype Event = Event(req: Request, env: Environment, before: Store, after: Store)

  ghost predicate Extends(small: Store, large: Store) {
    forall n :: n in small ==> n in large && large[n] == small[n]
  }

  /**
   * A download returns what the store holds at some moment of the request, and reports a missing
   * file only when the store did not hold it at the start; it may fail at will.
   */
  ghost predicate ValidDownload(d: Download, name: string, before: Store, after: Store) {
    match d
    case Fetched(data) => name in after && after[name] == data
    case NotFound => name !in before
    case Failed(_) => true
  }

  ghost predicate ValidEvent(e: Event) {
    Extends(e.before, e.after) &&
    forall n :: ValidDownload(e.env.downloads(n), n, e.before, e.after)
  }

  ghost function StoreAt(start: Store, events: seq<Event>, k: nat): Store
    requires k <= |events|
  {
    if k == 0 then start else events[k - 1].after
  }

  ghost predicate ValidRun(start: Store, events: seq<Event>) {
    forall k :: 0 <= k < |events| ==> ValidEvent(events[k]) && Extends(StoreAt(start, events, k), events[k].before)
  }

  function After(st: State, events: seq<Event>, k: nat): State
    requires k <= |events|
  {
    if k == 0 then st
    else Restore(After(st, events, k - 1), events[k - 1].req, events[k - 1].env).state
  }

  function AnswerAt(st: State, events: seq<Event>, k: nat): Answer
    requires k < |events|
  {
    Restore(After(st, events, k), events[k].req, events[k].env).answer
  }

  // ---------------------------------------------------------------- refinement of a plain downloader

  ghost predicate SpoolAgrees(spool: map<string, Bytes>, store: Store) {
    forall n :: n in spool ==> n in store && store[n] == spool[n]
  }

  lemma {:induction false} StagedAgrees(spool: map<string, Bytes>, names: seq<string>, e: Event)
    requires SpoolAgrees(spool, e.before) && ValidEvent(e)
    ensures SpoolAgrees(Staged(spool, names, e.env.downloads), e.after)
  {
    if names != [] {
      StagedAgrees(spool, names[..|names| - 1], e);
      assert ValidDownload(e.env.downloads(names[|names| - 1]), names[|names| - 1], e.before, e.after);
    }
  }

  lemma {:induction false} StagedExactly(spool: map<string, Bytes>, names: seq<string>, downloads: string -> Download,
                                         name: string)
    ensures var s := Staged(spool, names, downloads);
            && (name in s <==> name in spool || (name in names && downloads(name).Fetched?))
            && (name in s ==> s[name] == if name in names && downloads(name).Fetched? then downloads(name).data
                                         else spool[name])
  {
    if names != [] {
      var earlier := names[..|names| - 1];
      StagedExactly(spool, earlier, downloads, name);
      assert name in names <==> name in earlier || name == names[|names| - 1];
    }
  }

  /**
   * What a downloader without spool, window and flag may answer for one file. The end-of-stream
   * answer is the engine's own, and only where the flag machinery applies.
   */
  ghost predicate PlainAnswer(name: string, e: Event, a: Answer) {
    match a
    case Delivered(data, _) => name in e.after && e.after[name] == data
    case WalNotFound => name !in e.before
    case EndOfStream => ShouldUseFlag(e.req)
    case _ => true
  }

  /** The name whose contents an answer is about. */
  function AnsweredName(req: Request, a: Answer): string {
    if a.Delivered? && a.origin.FromSpool? then req.walName else FetchName(req.walName)
  }

  lemma DownloadAgrees(st: State, list: seq<string>, useFlag: bool, e: Event)
    requires list != [] && SpoolAgrees(st.spool, e.before) && ValidEvent(e)
    requires useFlag ==> ShouldUseFlag(e.req)
    ensures var o := Downloaded(st, list, useFlag, e.env);
            SpoolAgrees(o.state.spool, e.after) && PlainAnswer(list[0], e, o.answer) &&
            (o.answer.Delivered? ==> o.answer.origin.FromStore?)
  {
    StagedAgrees(st.spool, list[1..], e);
    assert ValidDownload(e.env.downloads(list[0]), list[0], e.before, e.after);
  }

  lemma PastSpoolAgrees(st: State, e: Event)
    requires SpoolAgrees(st.spool, e.before) && ValidEvent(e)
    ensures var o := PastTheSpool(st, e.req, e.env);
            SpoolAgrees(o.state.spool, e.after) && PlainAnswer(FetchName(e.req.walName), e, o.answer) &&
            (o.answer.Delivered? ==> o.answer.origin.FromStore?)
  {
    var list := DownloadList(e.req.walName, MaxWalFiles(e.req));
    DownloadListShape(e.req.walName, MaxWalFiles(e.req));
    DownloadAgrees(st, list, ShouldUseFlag(e.req), e);
    assert SpoolAgrees(st.spool, e.after);
  }

  lemma SpoolStepAgrees(st: State, e: Event)
    requires SpoolAgrees(st.spool, e.before) && ValidEvent(e)
    ensures var o := FromTheSpool(st, e.req, e.env);
            SpoolAgrees(o.state.spool, e.after) && PlainAnswer(AnsweredName(e.req, o.answer), e, o.answer)
  {
    PastSpoolAgrees(st, e);
    assert SpoolAgrees(st.spool, e.after);
  }

  lemma StepAgrees(st: State, e: Event)
    requires SpoolAgrees(st.spool, e.before) && ValidEvent(e)
    ensures var o := Restore(st, e.req, e.env);
            SpoolAgrees(o.state.spool, e.after) && PlainAnswer(AnsweredName(e.req, o.answer), e, o.answer)
  {
    SpoolStepAgrees(st, e);
    SpoolStepAgrees(Cleared(st), e);
  }

  /** Over every run, every spool entry equals the store's entry. */
  lemma {:induction false} SpoolStaysFaithful(st: State, start: Store, events: seq<Event>, k: nat)
    requires SpoolAgrees(st.spool, start) && ValidRun(start, events) && k <= |events|
    ensures SpoolAgrees(After(st, events, k).spool, StoreAt(start, events, k))
  {
    hide Restore;
    if k > 0 {
      SpoolStaysFaithful(st, start, events, k - 1);
      assert Extends(StoreAt(start, events, k - 1), events[k - 1].before);
      StepAgrees(After(st, events, k - 1), events[k - 1]);
    }
  }

  /**
   * In every run, the answer for a canonical name is one the plain downloader may give: delivered
   * bytes are the store's bytes, and a file the store holds is never reported missing. For other
   * names the same holds of the name the engine looked for.
   */
  lemma EngineRefinesDownloader(st: State, start: Store, events: seq<Event>, k: nat)
    requires SpoolAgrees(st.spool, start) && ValidRun(start, events) && k < |events|
    ensures PlainAnswer(AnsweredName(events[k].req, AnswerAt(st, events, k)), events[k], AnswerAt(st, events, k))
    ensures Canonical(events[k].req.walName) ==>
              PlainAnswer(events[k].req.walName, events[k], AnswerAt(st, events, k))
  {
    hide Restore;
    hide FetchName;
    SpoolStaysFaithful(st, start, events, k);
    assert Extends(StoreAt(start, events, k), events[k].before);
    StepAgrees(After(st, events, k), events[k]);
    FetchNameExactly(events[k].req.walName);
  }

  function EmptyState(): State {
    State(map[], false, 0, 0, [])
  }

  /** A rewind request for `name` that meets no failure, in a store holding `name` alone. */
  function OnlyStored(name: string): Event {
    var store: Store := map[name := []];
    Event(Request(name, true, None, "", None),
          Environment(false, false, false, false, Moves,
                      n => if n in store then Fetched(store[n]) else NotFound),
          store, store)
  }

  lemma OtherNamesAreMissed(name: string)
    requires !Canonical(name)
    ensures var e := OnlyStored(name);
            ValidEvent(e) && name in e.before && Restore(EmptyState(), e.req, e.env).answer == WalNotFound
  {
    FetchNameExactly(name);
    DownloadListShape(name, 1);
    assert FetchName(name) != name;
  }

  /** The engine behaves like a plain downloader for a name exactly when the name is canonical. */
  lemma CanonicalNamesExactly(name: string)
    ensures Canonical(name) <==>
            forall st: State, e: Event | e.req.walName == name && SpoolAgrees(st.spool, e.before) && ValidEvent(e) ::
              PlainAnswer(name, e, Restore(st, e.req, e.env).answer)
  {
    if Canonical(name) {
      FetchNameExactly(name);
      forall st: State, e: Event | e.req.walName == name && SpoolAgrees(st.spool, e.before) && ValidEvent(e)
        ensures PlainAnswer(name, e, Restore(st, e.req, e.env).answer)
      {
        StepAgrees(st, e);
      }
    } else {
      OtherNamesAreMissed(name);
      assert SpoolAgrees(EmptyState().spool, OnlyStored(name).before);
    }
  }

  /** Twenty-three zeros and a lower-case digit. */
  const LOWER_CASE_NAME: string := seq(24, i => if i == 23 then 'a' else '0')

  /** A stored lower-case name is reported missing: the engine asks the store for upper case. */
  lemma LowerCaseIsReportedMissing()
    ensures var e := OnlyStored(LOWER_CASE_NAME);
            ValidEvent(e) && e.req.walName in e.before &&
            Restore(EmptyState(), e.req, e.env).answer == WalNotFound
  {
    assert !Canonical(LOWER_CASE_NAME) by {
      ParsesExactly(LOWER_CASE_NAME);
      assert Upper(LOWER_CASE_NAME)[23] == 'A' != LOWER_CASE_NAME[23];
    }
    OtherNamesAreMissed(LOWER_CASE_NAME);
  }

  // ---------------------------------------------------------------- the flag

  function Bit(b: bool): nat {
    if b then 1 else 0
  }

  function EndAnswers(st: State, events: seq<Event>, k: nat): nat
    requires k <= |events|
  {
    if k == 0 then 0 else EndAnswers(st, events, k - 1) + Bit(AnswerAt(st, events, k - 1) == EndOfStream)
  }

  /** How often rewind requests removed the flag. */
  function RewindClears(st: State, events: seq<Event>, k: nat): int
    requires k <= |events|
  {
    if k == 0 then 0
    else RewindClears(st, events, k - 1) +
         if events[k - 1].req.rewind then After(st, events, k).resets - After(st, events, k - 1).resets else 0
  }

  ghost predicate FlagBalanced(st: State, o: Outcome) {
    Bit(st.endOfStream) + o.state.sets - st.sets == Bit(o.state.endOfStream) + o.state.resets - st.resets
  }

  /** Only a request that delivered its file from the store raises the flag. */
  ghost predicate RaisedByDelivery(st: State, o: Outcome) {
    o.state.endOfStream && !st.endOfStream ==> o.answer.Delivered? && o.answer.origin.FromStore?
  }

  /** What one call does to the flag from step 1 on. */
  ghost predicate FlagLaw(st: State, req: Request, o: Outcome) {
    && FlagBalanced(st, o)
    && RaisedByDelivery(st, o)
    && o.state.resets == st.resets + Bit(o.answer == EndOfStream)
    && (o.answer == EndOfStream ==> !req.rewind && st.endOfStream && !o.state.endOfStream)
  }

  lemma FlagLawOfDownload(st: State, req: Request, list: seq<string>, useFlag: bool, env: Environment)
    requires list != [] && (useFlag ==> !st.endOfStream)
    ensures FlagLaw(st, req, Downloaded(st, list, useFlag, env))
  {
  }

  lemma FlagLawOfSpool(st: State, req: Request, env: Environment)
    ensures FlagLaw(st, req, FromTheSpool(st, req, env))
  {
    if !(ShouldUseFlag(req) && st.endOfStream) {
      FlagLawOfDownload(st, req, DownloadList(req.walName, MaxWalFiles(req)), ShouldUseFlag(req), env);
    }
  }

  lemma FlagStep(st: State, req: Request, env: Environment)
    ensures var o := Restore(st, req, env); FlagBalanced(st, o) && RaisedByDelivery(st, o)
    ensures var o := Restore(st, req, env);
            !req.rewind ==> o.state.resets == st.resets + Bit(o.answer == EndOfStream)
    ensures var o := Restore(st, req, env);
            o.answer == EndOfStream ==> !req.rewind && st.endOfStream && !o.state.endOfStream
  {
    FlagLawOfSpool(st, req, env);
    FlagLawOfSpool(Cleared(st), req, env);
  }

  /**
   * Every successful set of the flag is consumed by one end-of-stream answer or one rewind, or is
   * still standing.
   */
  lemma {:induction false} FlagIsConserved(st: State, events: seq<Event>, k: nat)
    requires k <= |events|
    ensures Bit(st.endOfStream) + (After(st, events, k).sets - st.sets) ==
            EndAnswers(st, events, k) + RewindClears(st, events, k) + Bit(After(st, events, k).endOfStream)
  {
    hide Restore;
    if k > 0 {
      FlagIsConserved(st, events, k - 1);
      FlagStep(After(st, events, k - 1), events[k - 1].req, events[k - 1].env);
    }
  }

  lemma {:induction false} Rise(flags: seq<bool>, a: nat, b: nat) returns (m: nat)
    requires a <= b < |flags| && !flags[a] && flags[b]
    ensures a <= m < b && !flags[m] && flags[m + 1]
    decreases b
  {
    if flags[b - 1] {
      m := Rise(flags, a, b - 1);
    } else {
      m := b - 1;
    }
  }

  /** `FlagStep` for request `k` of a run. */
  lemma FlagStepAt(st: State, events: seq<Event>, k: nat)
    requires k < |events|
    ensures AnswerAt(st, events, k) == EndOfStream ==>
              After(st, events, k).endOfStream && !After(st, events, k + 1).endOfStream
    ensures After(st, events, k + 1).endOfStream && !After(st, events, k).endOfStream ==>
              AnswerAt(st, events, k).Delivered? && AnswerAt(st, events, k).origin.FromStore?
  {
    FlagStep(After(st, events, k), events[k].req, events[k].env);
  }

  /** Between two end-of-stream answers some request delivered its file from the store. */
  lemma EndAnswersAreSeparated(st: State, events: seq<Event>, i: nat, j: nat) returns (m: nat)
    requires i < j < |events|
    requires AnswerAt(st, events, i) == EndOfStream == AnswerAt(st, events, j)
    ensures i < m < j && AnswerAt(st, events, m).Delivered? && AnswerAt(st, events, m).origin.FromStore?
  {
    hide Restore;
    FlagStepAt(st, events, i);
    FlagStepAt(st, events, j);
    var flags := seq(j + 1, k requires 0 <= k <= j => After(st, events, k).endOfStream);
    m := Rise(flags, i + 1, j);
    FlagStepAt(st, events, m);
  }

  // ---------------------------------------------------------------- rewinding

  ghost predicate AllRewind(events: seq<Event>) {
    forall k :: 0 <= k < |events| ==> events[k].req.rewind
  }

  predicate PastTheClear(a: Answer) {
    a != SetupFailed && a != FlagFailed
  }

  /** One of the first `k` requests was not stopped before or at the clear. */
  predicate SomePastTheClear(st: State, events: seq<Event>, k: nat)
    requires k <= |events|
  {
    k > 0 && (SomePastTheClear(st, events, k - 1) || PastTheClear(AnswerAt(st, events, k - 1)))
  }

  lemma RewindFromSpool(st: State, req: Request, env: Environment)
    requires req.rewind
    ensures var o := FromTheSpool(st, req, env);
            && o.answer != EndOfStream && o.state.endOfStream == st.endOfStream
            && (o.state.spool == st.spool || o.state.spool == st.spool - {req.walName})
  {
    hide DownloadList;
    DownloadListShape(req.walName, 1);
    assert |DownloadList(req.walName, 1)| == 1;
  }

  lemma RewindStep(st: State, req: Request, env: Environment)
    requires req.rewind
    ensures var o := Restore(st, req, env);
            o.answer != EndOfStream && (PastTheClear(o.answer) || !st.endOfStream ==> !o.state.endOfStream)
    ensures var o := Restore(st, req, env);
            o.state.spool == st.spool || o.state.spool == st.spool - {req.walName}
  {
    hide FromTheSpool;
    RewindFromSpool(st, req, env);
    RewindFromSpool(Cleared(st), req, env);
  }

  /**
   * From any state, rewind requests never answer end-of-stream and only ever take files out of the
   * spool; once one of them got past the clear the flag stays clear, so that the first normal
   * request afterwards cannot fail on a stale flag.
   */
  lemma {:induction false} RewindIsIsolated(st: State, events: seq<Event>, k: nat, req: Request, env: Environment)
    requires AllRewind(events) && k <= |events|
    ensures forall n :: n in After(st, events, k).spool ==>
              n in st.spool && st.spool[n] == After(st, events, k).spool[n]
    ensures k < |events| ==> AnswerAt(st, events, k) != EndOfStream
    ensures SomePastTheClear(st, events, k) ==>
              !After(st, events, k).endOfStream &&
              Restore(After(st, events, k), req, env).answer != EndOfStream
  {
    hide Restore;
    if k > 0 {
      RewindIsIsolated(st, events, k - 1, req, env);
      RewindStep(After(st, events, k - 1), events[k - 1].req, events[k - 1].env);
    }
    if k < |events| { RewindStep(After(st, events, k), events[k].req, events[k].env); }
    FlagStep(After(st, events, k), req, env);
  }
}
