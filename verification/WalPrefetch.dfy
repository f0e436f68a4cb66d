/** The list of WAL files one restore request downloads: the requested one and its successors. */
module WalPrefetch {
  import opened Prelude
  import opened TextOrder
  import opened WalSegments

  const PER_FILE: int32 := 255

  lemma DefaultPerFile()
    ensures PerFile(None) == PER_FILE && !SkipsLast(None)
  {
    assert 0xFFFF_FFFF / 0x100_0000 == 255;
  }

  function SegmentName(first: Segment, i: nat): string {
    Name(Advance(first, i, PER_FILE, false))
  }

  function NamesOf(segments: seq<Segment>): (names: seq<string>)
    ensures |names| == |segments|
  {
    if segments == [] then []
    else NamesOf(segments[..|segments| - 1]) + [Name(segments[|segments| - 1])]
  }

  lemma {:induction false} NamesOfAt(segments: seq<Segment>, i: nat)
    requires i < |segments|
    ensures NamesOf(segments)[i] == Name(segments[i])
  {
    if i < |segments| - 1 { NamesOfAt(segments[..|segments| - 1], i); }
  }

  function Window(first: Segment, parallel: nat): (segments: seq<Segment>)
    ensures |segments| == parallel
  {
    seq(parallel, i requires 0 <= i < parallel => Advance(first, i, PER_FILE, false))
  }

  /** The names gatherWALFilesToRestore returns for a segment, and the name alone for other files. */
  function DownloadList(walName: string, parallel: nat): (list: seq<string>)
    ensures parallel >= 1 ==> list != []
  {
    if !IsWalFile(walName) then [walName]
    else
      match SegmentFromName(walName)
      case Err(_) => [walName]
      case Ok(first) => NamesOf(Window(first, parallel))
  }

  method GatherWalFilesToRestore(walName: string, parallel: nat) returns (walList: seq<string>)
    ensures IsWalFile(walName) ==> walList == DownloadList(walName, parallel)
    ensures !IsWalFile(walName) ==> walList == [walName]
  {
    var segment := SegmentFromName(walName);
    ParsedName(walName);
    if segment.Err? {
      return [walName];
    }
    walList := FollowingNames(segment.value, parallel);
  }

  method FollowingNames(segment: Segment, parallel: nat) returns (walList: seq<string>)
    ensures walList == NamesOf(Window(segment, parallel))
  {
    DefaultPerFile();
    var segmentList := NextSegments(segment, parallel, None, None);
    assert segmentList == Window(segment, parallel);
    walList := [];
    for idx := 0 to |segmentList|
      invariant walList == NamesOf(segmentList[..idx])
    {
      assert segmentList[..idx + 1][..idx] == segmentList[..idx];
      walList := walList + [Name(segmentList[idx])];
    }
    assert segmentList[..|segmentList|] == segmentList;
  }

  /** The name under which a request reaches the store. */
  function FetchName(walName: string): string {
    DownloadList(walName, 1)[0]
  }

  /** A name reaches the store unchanged exactly when it is no segment name or is in upper case. */
  predicate Canonical(walName: string) {
    SegmentFromName(walName).Ok? ==> Upper(walName) == walName
  }

  lemma FetchNameExactly(walName: string)
    ensures FetchName(walName) == walName <==> Canonical(walName)
    ensures SegmentFromName(walName).Ok? ==> FetchName(walName) == Upper(walName)
  {
    ParsedName(walName);
    if SegmentFromName(walName).Ok? { DownloadListAt(walName, 1, 0); }
  }

  /** The list for a request, in all its shapes. */
  lemma DownloadListShape(walName: string, parallel: nat)
    requires parallel >= 1
    ensures DownloadList(walName, parallel)[0] == FetchName(walName)
    ensures SegmentFromName(walName).Err? ==> DownloadList(walName, parallel) == [walName]
    ensures SegmentFromName(walName).Ok? ==>
              |DownloadList(walName, parallel)| == parallel && SegmentFromName(walName).value.NonNegative()
  {
    ParsedName(walName);
    if SegmentFromName(walName).Ok? {
      NamesOfAt(Window(SegmentFromName(walName).value, parallel), 0);
      NamesOfAt(Window(SegmentFromName(walName).value, 1), 0);
    }
  }

  lemma DownloadListAt(walName: string, parallel: nat, i: nat)
    requires SegmentFromName(walName).Ok? && i < parallel
    ensures |DownloadList(walName, parallel)| == parallel
    ensures DownloadList(walName, parallel)[i] == SegmentName(SegmentFromName(walName).value, i)
  {
    ParsedName(walName);
    NamesOfAt(Window(SegmentFromName(walName).value, parallel), i);
  }

  ghost predicate IncreasingWalNames(list: seq<string>) {
    && (forall i :: 0 <= i < |list| ==> IsWalFile(list[i]))
    && StrictlySorted(list)
  }

  /** The prefetch window is a strictly increasing list of WAL names exactly when no int32 overflows. */
  lemma DownloadListIncreasing(walName: string, parallel: nat)
    requires parallel >= 1 && SegmentFromName(walName).Ok?
    ensures IncreasingWalNames(DownloadList(walName, parallel)) <==>
            Fits(SegmentFromName(walName).value, parallel, 256)
  {
    ParsedName(walName);
    var first, list := SegmentFromName(walName).value, DownloadList(walName, parallel);
    DownloadListAt(walName, parallel, 0);
    if Fits(first, parallel, 256) {
      forall i | 0 <= i < |list| ensures IsWalFile(list[i]) {
        DownloadListAt(walName, parallel, i);
        AdvanceFits(first, i, parallel, PER_FILE, false);
        RoundTrip(Advance(first, i, PER_FILE, false));
      }
      forall i, j | 0 <= i < j < |list| ensures Less(list[i], list[j]) {
        DownloadListAt(walName, parallel, i);
        DownloadListAt(walName, parallel, j);
        SegmentNamesIncrease(first, i, j, parallel);
      }
    } else {
      var i := OverflowShows(first, parallel, PER_FILE, false);
      DownloadListAt(walName, parallel, i);
      RoundTrip(Advance(first, i, PER_FILE, false));
      assert !IsWalFile(list[i]);
    }
  }

  lemma SegmentNamesIncrease(first: Segment, i: nat, j: nat, size: nat)
    requires first.NonNegative() && i < j < size && Fits(first, size, 256)
    ensures Less(SegmentName(first, i), SegmentName(first, j))
  {
    AdvanceFits(first, i, size, PER_FILE, false);
    AdvanceFits(first, j, size, PER_FILE, false);
    AdvanceIncreases(first, i, j, size, PER_FILE, false);
    NameOrder(Advance(first, i, PER_FILE, false), Advance(first, j, PER_FILE, false));
  }
}
