/**
 * The prefetch window at work: a standby asks for n consecutive segments in order, from a store
 * that holds exactly these and meets no failure.
 */
module WalSequentialRestore {
  import opened Prelude
  import opened Arithmetic
  import opened TextOrder
  import opened WalSegments
  import opened WalPrefetch
  import opened WalRestore
  import opened WalRestoreRuns

  /** The parameters of one such recovery; `window` is what one request may fetch. */
  datatype Recovery = Recovery(
    first: Segment,
    n: nat,
    window: nat,
    cluster: Cluster,
    podName: string,
    store: Store) {

    function Segment(j: nat): string { SegmentName(first, j) }

    /** The store holds the segments 0 .. n-1 and ends there. */
    ghost predicate Valid() {
      && first.NonNegative()
      && window >= 1
      && Fits(first, n + window, 256)
      && IsStreamingAvailable(Some(cluster), podName)
      && (forall j: nat :: j < n ==> Segment(j) in store)
      && (forall j: nat :: n <= j < n + window ==> Segment(j) !in store)
    }

    function Ask(k: nat): Event {
      Event(Request(Segment(k), false, Some(cluster), podName, Some(window)),
            Environment(false, false, false, false, Moves,
                        name => if name in store then Fetched(store[name]) else NotFound),
            store, store)
    }

    function Requests(count: nat): seq<Event> {
      seq(count, k requires 0 <= k < count => Ask(k))
    }
  }

  function Names(r: Recovery, lo: nat, count: nat): (names: seq<string>)
    ensures |names| == count
    ensures forall j :: 0 <= j < count ==> names[j] == r.Segment(lo + j)
  {
    seq(count, j requires 0 <= j < count => r.Segment(lo + j))
  }

  /** Where window number `i` starts. */
  function Start(r: Recovery, i: nat): nat {
    if i == 0 then 0 else Start(r, i - 1) + r.window
  }

  function Rounds(r: Recovery, count: nat): seq<seq<string>> {
    if count == 0 then [] else Rounds(r, count - 1) + [Names(r, Start(r, count - 1), r.window)]
  }

  ghost predicate SpoolHolds(r: Recovery, spool: map<string, Bytes>, lo: nat, hi: nat) {
    && (forall j: nat :: lo <= j < hi ==> r.Segment(j) in spool)
    && (forall name :: name in spool ==> exists j: nat :: lo <= j < hi && name == r.Segment(j))
    && SpoolAgrees(spool, r.store)
  }

  /**
   * The state before request `k` when the windows so far cover the segments up to `w`: the spool
   * holds what is fetched and not yet asked for, and the flag tells whether the last window ran
   * past the end.
   */
  ghost predicate Covers(r: Recovery, st: State, k: nat, w: nat) {
    && k <= w < k + r.window
    && w == Start(r, |st.rounds|)
    && st.rounds == Rounds(r, |st.rounds|)
    && SpoolHolds(r, st.spool, k, Min(w, r.n))
    && (st.endOfStream <==> w > r.n)
  }

  lemma SegmentsDiffer(r: Recovery, i: nat, j: nat)
    requires r.Valid() && i < r.n + r.window && j < r.n + r.window && i != j
    ensures r.Segment(i) != r.Segment(j)
  {
    var lo, hi := Min(i, j), if i < j then j else i;
    SegmentNamesIncrease(r.first, lo, hi, r.n + r.window);
    LessTotal(r.Segment(lo), r.Segment(hi));
  }

  /** The window of the request for segment `k`. */
  lemma WindowOf(r: Recovery, k: nat)
    requires r.Valid() && k <= r.n
    ensures DownloadList(r.Segment(k), r.window) == Names(r, k, r.window)
  {
    var segment := Advance(r.first, k, PER_FILE, false);
    AdvanceFits(r.first, k, r.n + r.window, PER_FILE, false);
    RoundTrip(segment);
    forall i | 0 <= i < r.window
      ensures |DownloadList(r.Segment(k), r.window)| == r.window
      ensures DownloadList(r.Segment(k), r.window)[i] == r.Segment(k + i)
    {
      DownloadListAt(r.Segment(k), r.window, i);
      AdvanceAdds(r.first, k, i, PER_FILE, false);
    }
    DownloadListAt(r.Segment(k), r.window, 0);
  }

  lemma HitStep(r: Recovery, st: State, k: nat, w: nat)
    requires r.Valid() && k < r.n && k < w && Covers(r, st, k, w)
    ensures var o := Restore(st, r.Ask(k).req, r.Ask(k).env);
            o.answer == Delivered(r.store[r.Segment(k)], FromSpool) && Covers(r, o.state, k + 1, w)
  {
    hide Restore;
    hide SegmentName;
    RestoreHit(st, r.Ask(k).req, r.Ask(k).env);
    var spool := st.spool - {r.Segment(k)};
    forall j: nat | k + 1 <= j < Min(w, r.n) ensures r.Segment(j) in spool {
      SegmentsDiffer(r, j, k);
    }
    assert SpoolHolds(r, spool, k + 1, Min(w, r.n));
  }

  lemma NotYetFetched(r: Recovery, st: State, k: nat, w: nat)
    requires r.Valid() && k <= r.n && Covers(r, st, k, w) && (k == w || k == r.n)
    ensures r.Segment(k) !in st.spool && st.spool == map[]
  {
  }

  lemma StagedWindow(r: Recovery, k: nat)
    requires r.Valid() && k < r.n
    ensures SpoolHolds(r, Staged(map[], Names(r, k, r.window)[1..], r.Ask(k).env.downloads),
                       k + 1, Min(k + r.window, r.n))
  {
    var rest, downloads := Names(r, k, r.window)[1..], r.Ask(k).env.downloads;
    var spool := Staged(map[], rest, downloads);
    forall j: nat | k + 1 <= j < Min(k + r.window, r.n) ensures r.Segment(j) in spool {
      StagedExactly(map[], rest, downloads, r.Segment(j));
      assert rest[j - k - 1] == r.Segment(j);
    }
    forall name | name in spool
      ensures exists j: nat :: k + 1 <= j < Min(k + r.window, r.n) && name == r.Segment(j)
      ensures name in r.store && r.store[name] == spool[name]
    {
      StagedExactly(map[], rest, downloads, name);
      var i :| 0 <= i < |rest| && rest[i] == name;
      assert name == r.Segment(k + 1 + i);
    }
  }

  lemma WindowEnds(r: Recovery, k: nat)
    requires r.Valid() && k <= r.n
    ensures SomeNotFound(Names(r, k, r.window), r.Ask(k).env.downloads) <==> k + r.window > r.n
  {
    var names := Names(r, k, r.window);
    if k + r.window > r.n {
      assert names[r.n - k] == r.Segment(r.n);
    }
  }

  lemma MissStep(r: Recovery, st: State, k: nat)
    requires r.Valid() && k < r.n && Covers(r, st, k, k)
    ensures var o := Restore(st, r.Ask(k).req, r.Ask(k).env);
            && o.answer == Delivered(r.store[r.Segment(k)], FromStore)
            && Covers(r, o.state, k + 1, k + r.window)
            && |o.state.rounds| == |st.rounds| + 1
  {
    hide Restore;
    hide SegmentName;
    hide DownloadList;
    NotYetFetched(r, st, k, k);
    WindowOf(r, k);
    StagedWindow(r, k);
    WindowEnds(r, k);
    RestoreMiss(st, r.Ask(k).req, r.Ask(k).env);
    assert MaxWalFiles(r.Ask(k).req) == r.window;
    assert Names(r, k, r.window)[0] == r.Segment(k + 0);
  }

  lemma CoversNothing(r: Recovery)
    requires r.window >= 1
    ensures Covers(r, EmptyState(), 0, 0)
  {
  }

  /** The window end after `k` requests. */
  lemma {:induction false} Progress(r: Recovery, events: seq<Event>, k: nat) returns (w: nat)
    requires r.Valid() && k <= r.n && events == r.Requests(r.n + 1)
    ensures Covers(r, After(EmptyState(), events, k), k, w)
  {
    hide Restore;
    hide SegmentName;
    hide Covers;
    if k == 0 {
      w := 0;
      CoversNothing(r);
    } else {
      w := Progress(r, events, k - 1);
      w := NextEnd(r, After(EmptyState(), events, k - 1), k - 1, w);
      assert events[k - 1] == r.Ask(k - 1);
    }
  }

  lemma NextEnd(r: Recovery, st: State, k: nat, w: nat) returns (w': nat)
    requires r.Valid() && k < r.n && Covers(r, st, k, w)
    ensures Covers(r, Restore(st, r.Ask(k).req, r.Ask(k).env).state, k + 1, w')
  {
    hide Restore;
    hide SegmentName;
    if k < w {
      HitStep(r, st, k, w);
      w' := w;
    } else {
      MissStep(r, st, k);
      w' := k + r.window;
    }
  }

  lemma {:induction false} StartIs(r: Recovery, i: nat)
    ensures Start(r, i) == i * r.window
  {
    if i > 0 { StartIs(r, i - 1); Distribute(r.window, i - 1, 1); }
  }

  /** All the names handed to the parallel download, in order. */
  function Flatten(rounds: seq<seq<string>>): seq<string> {
    if rounds == [] then [] else Flatten(rounds[..|rounds| - 1]) + rounds[|rounds| - 1]
  }

  lemma {:induction false} FlattenRounds(r: Recovery, count: nat)
    ensures Flatten(Rounds(r, count)) == Names(r, 0, Start(r, count))
  {
    hide SegmentName;
    if count > 0 {
      FlattenRounds(r, count - 1);
      var earlier := Rounds(r, count - 1);
      assert Rounds(r, count)[..|earlier|] == earlier;
    }
  }

  lemma {:induction false} SpoolIsSmall(r: Recovery, names: set<string>, lo: nat, hi: nat)
    requires forall name :: name in names ==> exists j: nat :: lo <= j < hi && name == r.Segment(j)
    ensures |names| <= if lo < hi then hi - lo else 0
    decreases hi
  {
    if lo < hi {
      var fewer := names - {r.Segment(hi - 1)};
      SpoolIsSmall(r, fewer, lo, hi - 1);
      assert names <= fewer + {r.Segment(hi - 1)};
    } else {
      assert names == {};
    }
  }

  lemma PositionInWindow(r: Recovery, i: nat, k: nat)
    requires r.window >= 1 && Start(r, i) <= k < Start(r, i) + r.window
    ensures k % r.window == k - Start(r, i)
  {
    StartIs(r, i);
    QuotientIs(k, r.window, i, k - Start(r, i));
  }

  /** The two kinds of steps, as answers: a window starts exactly at its multiples. */
  lemma StepAnswers(r: Recovery, st: State, k: nat, w: nat) returns (o: Outcome)
    requires r.Valid() && k < r.n && Covers(r, st, k, w)
    ensures o == Restore(st, r.Ask(k).req, r.Ask(k).env)
    ensures o.answer.Delivered? && o.answer.data == r.store[r.Segment(k)]
    ensures o.answer.origin.FromStore? <==> k % r.window == 0
    ensures |o.state.spool| <= r.window - 1
  {
    hide Restore;
    hide SegmentName;
    o := Restore(st, r.Ask(k).req, r.Ask(k).env);
    var i := |st.rounds|;
    if k < w {
      HitStep(r, st, k, w);
      PositionInWindow(r, i - 1, k);
      SpoolIsSmall(r, o.state.spool.Keys, k + 1, Min(w, r.n));
    } else {
      MissStep(r, st, k);
      PositionInWindow(r, i, k);
      SpoolIsSmall(r, o.state.spool.Keys, k + 1, Min(k + r.window, r.n));
    }
  }

  /**
   * Every one of the n requests is answered with the store's bytes, from the store at the start of
   * each window and from the spool otherwise, and the spool never holds `window` files.
   */
  lemma EveryRequestSucceeds(r: Recovery, k: nat)
    requires r.Valid() && k < r.n
    ensures var events := r.Requests(r.n + 1);
            && AnswerAt(EmptyState(), events, k).Delivered?
            && AnswerAt(EmptyState(), events, k).data == r.store[r.Segment(k)]
            && (AnswerAt(EmptyState(), events, k).origin.FromStore? <==> k % r.window == 0)
            && |After(EmptyState(), events, k + 1).spool| <= r.window - 1
  {
    hide Restore;
    hide SegmentName;
    hide Covers;
    var events := r.Requests(r.n + 1);
    var w := Progress(r, events, k);
    var o := StepAnswers(r, After(EmptyState(), events, k), k, w);
    assert events[k] == r.Ask(k);
    assert o.state == After(EmptyState(), events, k + 1);
  }

  /**
   * The n segments take ceil(n / window) rounds, whose lists are the segments from the first one
   * on, each once.
   */
  lemma EverySegmentOnce(r: Recovery)
    requires r.Valid() && r.n > 0
    ensures var rounds := After(EmptyState(), r.Requests(r.n + 1), r.n).rounds;
            && (|rounds| - 1) * r.window < r.n <= |rounds| * r.window
            && Flatten(rounds) == Names(r, 0, |rounds| * r.window)
            && forall i, j :: 0 <= i < j < |rounds| * r.window ==> Flatten(rounds)[i] != Flatten(rounds)[j]
  {
    hide Restore;
    hide SegmentName;
    hide Flatten;
    var events := r.Requests(r.n + 1);
    var w := Progress(r, events, r.n);
    var i := |After(EmptyState(), events, r.n).rounds|;
    StartIs(r, i);
    StartIs(r, i - 1);
    FlattenRounds(r, i);
    forall a, b | 0 <= a < b < w ensures r.Segment(a) != r.Segment(b) { SegmentsDiffer(r, a, b); }
    assert forall a :: 0 <= a < w ==> Names(r, 0, w)[a] == r.Segment(a);
  }

  /**
   * Afterwards the spool is empty and the flag is set exactly when the last window ran past the
   * end: then the next request is told to stop, otherwise that its file is missing.
   */
  lemma TheEndIsAnnounced(r: Recovery)
    requires r.Valid() && r.n > 0
    ensures var events := r.Requests(r.n + 1);
            var end := After(EmptyState(), events, r.n);
            && end.spool == map[]
            && (end.endOfStream <==> r.n % r.window != 0)
            && AnswerAt(EmptyState(), events, r.n) == if r.n % r.window != 0 then EndOfStream else WalNotFound
  {
    hide Restore;
    hide SegmentName;
    var events := r.Requests(r.n + 1);
    var w := Progress(r, events, r.n);
    var end := After(EmptyState(), events, r.n);
    NotYetFetched(r, end, r.n, w);
    PositionInWindow(r, if w > r.n then |end.rounds| - 1 else |end.rounds|, r.n);
    LastRequest(r, end, w);
    assert events[r.n] == r.Ask(r.n);
  }

  /** The request for the segment after the last one. */
  lemma LastRequest(r: Recovery, st: State, w: nat)
    requires r.Valid() && Covers(r, st, r.n, w)
    ensures Restore(st, r.Ask(r.n).req, r.Ask(r.n).env).answer == if w > r.n then EndOfStream else WalNotFound
  {
    hide Restore;
    hide SegmentName;
    hide DownloadList;
    NotYetFetched(r, st, r.n, w);
    WindowOf(r, r.n);
    RestoreMiss(st, r.Ask(r.n).req, r.Ask(r.n).env);
    assert Names(r, r.n, r.window)[0] == r.Segment(r.n + 0);
    assert MaxWalFiles(r.Ask(r.n).req) == r.window;
  }
}
