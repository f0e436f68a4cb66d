/**
 * The WAL restore engine: a spool directory of prefetched files and a persistent end-of-stream
 * flag in front of an object store. The restorer library is modelled by `WalRestorer`, whose
 * failures are chosen by the environment of each request.
 */
module WalRestore {
  import opened Prelude
  import opened WalSegments
  import opened WalPrefetch

  newtype byte = x: int | 0 <= x < 256
  type Bytes = seq<byte>

  /** The files of one object store. */
  type Store = map<string, Bytes>

  // ---------------------------------------------------------------- requests and environments

  datatype ExternalCluster = ExternalCluster(hasConnectionParameters: bool)

  /** What the engine reads of a Cluster; `source` is the external cluster its replica source names. */
  datatype Cluster = Cluster(currentPrimary: string, isReplica: bool, source: Option<ExternalCluster>)

  datatype Request = Request(
    walName: string,
    rewind: bool,
    cluster: Option<Cluster>,
    podName: string,
    maxParallel: Option<int>)

  datatype DownloadError = InvalidName | Connectivity | Generic | Unexpected
  datatype Download = Fetched(data: Bytes) | NotFound | Failed(error: DownloadError)

  /** How moving a file out of the spool ends; a failing move may leave or lose the file. */
  datatype Move = Moves | FailsKeeping | FailsLosing

  datatype Environment = Environment(
    setupFails: bool,
    readFlagFails: bool,
    resetFlagFails: bool,
    setFlagFails: bool,
    move: Move,
    downloads: string -> Download)

  datatype Origin = FromSpool | FromStore

  datatype Answer =
    | Delivered(data: Bytes, origin: Origin)
    | EndOfStream
    | WalNotFound
    | InvalidArgument
    | Unavailable
    | Internal
    | SetupFailed
    | SpoolFailed
    | FlagFailed

  /**
   * The spool and the flag, with a record of the successful flag writes and of the lists handed
   * to the parallel download.
   */
  datatype State = State(
    spool: map<string, Bytes>,
    endOfStream: bool,
    sets: nat,
    resets: nat,
    rounds: seq<seq<string>>)

  datatype Outcome = Outcome(state: State, answer: Answer)

  // ---------------------------------------------------------------- decisions

  predicate IsStreamingAvailable(cluster: Option<Cluster>, podName: string) {
    match cluster
    case None => false
    case Some(c) =>
      if c.currentPrimary == "" then false
      else if c.currentPrimary != podName then true
      else c.isReplica && c.source.Some? && c.source.value.hasConnectionParameters
  }

  predicate ShouldUseFlag(req: Request) {
    !req.rewind && IsStreamingAvailable(req.cluster, req.podName)
  }

  function MaxWalFiles(req: Request): (n: nat)
    ensures n >= 1
  {
    if req.rewind then 1
    else if req.maxParallel.Some? && req.maxParallel.value > 1 then req.maxParallel.value
    else 1
  }

  function Classify(error: DownloadError): Answer {
    match error
    case InvalidName => InvalidArgument
    case Connectivity => Unavailable
    case Generic => Unavailable
    case Unexpected => Internal
  }

  // ---------------------------------------------------------------- the engine as a function

  /** Files after the first that were fetched end up in the spool. */
  function Staged(spool: map<string, Bytes>, names: seq<string>, downloads: string -> Download): map<string, Bytes> {
    if names == [] then spool
    else
      var last := names[|names| - 1];
      var earlier := Staged(spool, names[..|names| - 1], downloads);
      match downloads(last)
      case Fetched(data) => earlier[last := data]
      case _ => earlier
  }

  predicate SomeNotFound(names: seq<string>, downloads: string -> Download) {
    exists i :: 0 <= i < |names| && downloads(names[i]).NotFound?
  }

  /** Step 4: download the whole list, answer for its first file. */
  function Downloaded(st: State, list: seq<string>, useFlag: bool, env: Environment): Outcome
    requires list != []
  {
    var st' := st.(spool := Staged(st.spool, list[1..], env.downloads), rounds := st.rounds + [list]);
    match env.downloads(list[0])
    case NotFound => Outcome(st', WalNotFound)
    case Failed(error) => Outcome(st', Classify(error))
    case Fetched(data) =>
      if useFlag && SomeNotFound(list, env.downloads) then
        if env.setFlagFails then Outcome(st', FlagFailed)
        else Outcome(st'.(endOfStream := true, sets := st.sets + 1), Delivered(data, FromStore))
      else Outcome(st', Delivered(data, FromStore))
  }

  function FromTheStore(st: State, req: Request, env: Environment): Outcome {
    Downloaded(st, DownloadList(req.walName, MaxWalFiles(req)), ShouldUseFlag(req), env)
  }

  function Cleared(st: State): State {
    st.(endOfStream := false, resets := st.resets + 1)
  }

  /** Step 2: a set flag is consumed by one end-of-stream answer. */
  function PastTheSpool(st: State, req: Request, env: Environment): Outcome {
    if !ShouldUseFlag(req) then FromTheStore(st, req, env)
    else if env.readFlagFails then Outcome(st, FlagFailed)
    else if !st.endOfStream then FromTheStore(st, req, env)
    else if env.resetFlagFails then Outcome(st, FlagFailed)
    else Outcome(Cleared(st), EndOfStream)
  }

  /** Step 1: a staged file is moved out of the spool. */
  function FromTheSpool(st: State, req: Request, env: Environment): Outcome {
    var without := st.(spool := st.spool - {req.walName});
    match env.move
    case FailsKeeping => Outcome(st, SpoolFailed)
    case FailsLosing => Outcome(without, SpoolFailed)
    case Moves =>
      if req.walName in st.spool then Outcome(without, Delivered(st.spool[req.walName], FromSpool))
      else PastTheSpool(st, req, env)
  }

  function Restore(st: State, req: Request, env: Environment): Outcome {
    if env.setupFails then Outcome(st, SetupFailed)
    else if !req.rewind then FromTheSpool(st, req, env)
    else if env.readFlagFails then Outcome(st, FlagFailed)
    else if !st.endOfStream then FromTheSpool(st, req, env)
    else if env.resetFlagFails then Outcome(st, FlagFailed)
    else FromTheSpool(Cleared(st), req, env)
  }

  /** A staged file is delivered and leaves the spool. */
  lemma RestoreHit(st: State, req: Request, env: Environment)
    requires !env.setupFails && !req.rewind && env.move.Moves? && req.walName in st.spool
    ensures Restore(st, req, env) ==
            Outcome(st.(spool := st.spool - {req.walName}), Delivered(st.spool[req.walName], FromSpool))
  {
    hide DownloadList;
  }

  /** With the flag machinery on, a file that is not staged is downloaded or the flag consumed. */
  lemma RestoreMiss(st: State, req: Request, env: Environment)
    requires !env.setupFails && !env.readFlagFails && !env.resetFlagFails && env.move.Moves?
    requires ShouldUseFlag(req) && req.walName !in st.spool
    ensures Restore(st, req, env) ==
            if st.endOfStream then Outcome(Cleared(st), EndOfStream)
            else Downloaded(st, DownloadList(req.walName, MaxWalFiles(req)), true, env)
  {
    hide DownloadList;
  }

  // ---------------------------------------------------------------- the engine as the plugin runs it

  datatype LibraryError = LibraryError

  /** The restorer library over one spool directory. */
  class WalRestorer {
    var spool: map<string, Bytes>
    var endOfStream: bool
    ghost var sets: nat
    ghost var resets: nat
    ghost var rounds: seq<seq<string>>

    constructor ()
      ensures View() == State(map[], false, 0, 0, [])
    {
      spool, endOfStream, sets, resets, rounds := map[], false, 0, 0, [];
    }

    ghost function View(): State
      reads this
    {
      State(spool, endOfStream, sets, resets, rounds)
    }

    /** Moves a staged file to the destination; the result says whether there was one. */
    method RestoreFromSpool(walName: string, move: Move) returns (r: Result<Option<Bytes>, LibraryError>)
      modifies this`spool
      ensures r.Err? <==> !move.Moves?
      ensures r.Ok? ==> r.value == if walName in old(spool) then Some(old(spool)[walName]) else None
      ensures spool == if move.FailsKeeping? then old(spool) else old(spool) - {walName}
    {
      if move.FailsKeeping? { return Err(LibraryError); }
      var staged := if walName in spool then Some(spool[walName]) else None;
      spool := spool - {walName};
      r := if move.FailsLosing? then Err(LibraryError) else Ok(staged);
    }

    method IsEndOfWalStream(fails: bool) returns (r: Result<bool, LibraryError>)
      ensures r == if fails then Err(LibraryError) else Ok(endOfStream)
    {
      r := if fails then Err(LibraryError) else Ok(endOfStream);
    }

    method ResetEndOfWalStream(fails: bool) returns (ok: bool)
      modifies this`endOfStream, this`resets
      ensures ok == !fails
      ensures View() == if ok then Cleared(old(View())) else old(View())
    {
      ok := !fails;
      if ok { endOfStream, resets := false, resets + 1; }
    }

    method SetEndOfWalStream(fails: bool) returns (ok: bool)
      modifies this`endOfStream, this`sets
      ensures ok == !fails
      ensures View() == if ok then old(View()).(endOfStream := true, sets := old(sets) + 1) else old(View())
    {
      ok := !fails;
      if ok { endOfStream, sets := true, sets + 1; }
    }

    /** Downloads every file of the list: the first to the destination, the others to the spool. */
    method RestoreList(names: seq<string>, downloads: string -> Download) returns (results: seq<Download>)
      requires names != []
      modifies this`spool, this`rounds
      ensures |results| == |names|
      ensures forall i :: 0 <= i < |names| ==> results[i] == downloads(names[i])
      ensures spool == Staged(old(spool), names[1..], downloads)
      ensures rounds == old(rounds) + [names]
    {
      results := [downloads(names[0])];
      ghost var rest := names[1..];
      for i := 1 to |names|
        invariant |results| == i
        invariant forall j :: 0 <= j < i ==> results[j] == downloads(names[j])
        invariant spool == Staged(old(spool), rest[..i - 1], downloads)
        invariant rounds == old(rounds)
      {
        assert rest[..i][..i - 1] == rest[..i - 1] && rest[..i][i - 1] == names[i];
        var download := downloads(names[i]);
        if download.Fetched? { spool := spool[names[i] := download.data]; }
        results := results + [download];
      }
      assert rest[..|names| - 1] == rest;
      rounds := rounds + [names];
    }
  }

  /** Answers EndOfStream and consumes the flag when it is set; None when the request may go on. */
  method CheckEndOfWalStreamFlag(restorer: WalRestorer, env: Environment) returns (r: Option<Answer>)
    modifies restorer`endOfStream, restorer`resets
    ensures r == if env.readFlagFails then Some(FlagFailed)
                 else if !old(restorer.endOfStream) then None
                 else if env.resetFlagFails then Some(FlagFailed) else Some(EndOfStream)
    ensures restorer.View() == if r == Some(EndOfStream) then Cleared(old(restorer.View())) else old(restorer.View())
  {
    var contain := restorer.IsEndOfWalStream(env.readFlagFails);
    if contain.Err? { return Some(FlagFailed); }
    if contain.value {
      var ok := restorer.ResetEndOfWalStream(env.resetFlagFails);
      if !ok { return Some(FlagFailed); }
      return Some(EndOfStream);
    }
    r := None;
  }

  /** Removes the flag if present; None when that worked. */
  method ClearEndOfWalStreamFlag(restorer: WalRestorer, env: Environment) returns (r: Option<Answer>)
    modifies restorer`endOfStream, restorer`resets
    ensures r == if env.readFlagFails || (old(restorer.endOfStream) && env.resetFlagFails)
                 then Some(FlagFailed) else None
    ensures restorer.View() == if r == None && old(restorer.endOfStream) then Cleared(old(restorer.View()))
                               else old(restorer.View())
  {
    var contain := restorer.IsEndOfWalStream(env.readFlagFails);
    if contain.Err? { return Some(FlagFailed); }
    if contain.value {
      var ok := restorer.ResetEndOfWalStream(env.resetFlagFails);
      return if ok then None else Some(FlagFailed);
    }
    r := None;
  }

  method IsEndOfWalStreamResult(results: seq<Download>) returns (found: bool)
    ensures found <==> exists i :: 0 <= i < |results| && results[i].NotFound?
  {
    for i := 0 to |results|
      invariant forall j :: 0 <= j < i ==> !results[j].NotFound?
    {
      if results[i].NotFound? { return true; }
    }
    found := false;
  }

  method RestoreFromBarmanObjectStore(restorer: WalRestorer, req: Request, env: Environment)
    returns (answer: Answer)
    modifies restorer
    ensures Outcome(restorer.View(), answer) == Restore(old(restorer.View()), req, env)
  {
    if env.setupFails { return SetupFailed; }
    if req.rewind {
      var stop := ClearEndOfWalStreamFlag(restorer, env);
      if stop.Some? { return stop.value; }
    }
    answer := SpoolFirst(restorer, req, env);
  }

  /** Step 1 and what follows it. */
  method SpoolFirst(restorer: WalRestorer, req: Request, env: Environment) returns (answer: Answer)
    modifies restorer
    ensures Outcome(restorer.View(), answer) == FromTheSpool(old(restorer.View()), req, env)
  {
    var wasInSpool := restorer.RestoreFromSpool(req.walName, env.move);
    if wasInSpool.Err? { return SpoolFailed; }
    if wasInSpool.value.Some? { return Delivered(wasInSpool.value.value, FromSpool); }
    assert restorer.View() == old(restorer.View());
    answer := FlagThenStore(restorer, req, env);
  }

  /** Step 2 and what follows it. */
  method FlagThenStore(restorer: WalRestorer, req: Request, env: Environment) returns (answer: Answer)
    modifies restorer
    ensures Outcome(restorer.View(), answer) == PastTheSpool(old(restorer.View()), req, env)
  {
    var useFlag := ShouldUseFlag(req);
    if useFlag {
      var stop := CheckEndOfWalStreamFlag(restorer, env);
      if stop.Some? { return stop.value; }
    }
    answer := DownloadWalFiles(restorer, req, useFlag, env);
  }

  /** Steps 3 and 4. */
  method DownloadWalFiles(restorer: WalRestorer, req: Request, useFlag: bool, env: Environment)
    returns (answer: Answer)
    requires useFlag == ShouldUseFlag(req)
    modifies restorer
    ensures Outcome(restorer.View(), answer) == FromTheStore(old(restorer.View()), req, env)
  {
    var walFilesList := ListToDownload(req);
    answer := DownloadAll(restorer, walFilesList, useFlag, env);
  }

  /** Step 4. */
  method DownloadAll(restorer: WalRestorer, walFilesList: seq<string>, useFlag: bool, env: Environment)
    returns (answer: Answer)
    requires walFilesList != []
    modifies restorer
    ensures Outcome(restorer.View(), answer) == Downloaded(old(restorer.View()), walFilesList, useFlag, env)
  {
    var walStatus := restorer.RestoreList(walFilesList, env.downloads);
    match walStatus[0] {
      case NotFound => return WalNotFound;
      case Failed(error) => return Classify(error);
      case Fetched(data) =>
        var endOfStream := IsEndOfWalStreamResult(walStatus);
        assert endOfStream == SomeNotFound(walFilesList, env.downloads);
        if useFlag && endOfStream {
          var ok := restorer.SetEndOfWalStream(env.setFlagFails);
          if !ok { return FlagFailed; }
        }
        return Delivered(data, FromStore);
    }
  }

  /** Step 3: only a regular WAL file is prefetched around. */
  method ListToDownload(req: Request) returns (walFilesList: seq<string>)
    ensures walFilesList == DownloadList(req.walName, MaxWalFiles(req))
  {
    if IsWalFile(req.walName) {
      walFilesList := GatherWalFilesToRestore(req.walName, MaxWalFiles(req));
    } else {
      walFilesList := [req.walName];
    }
  }
}
