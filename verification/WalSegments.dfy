/**
 * WAL file names: 24 hexadecimal digits naming a timeline, a log and a segment.
 * Names are modelled without directory part; integers carry Go's int32 and int64 ranges explicitly.
 */
module WalSegments {
  import opened Prelude
  import opened TextOrder
  import opened Arithmetic

  type int32 = x: int | -0x8000_0000 <= x <= 0x7FFF_FFFF
  type int64 = x: int | -0x8000_0000_0000_0000 <= x <= 0x7FFF_FFFF_FFFF_FFFF

  const MAX_INT32: int32 := 0x7FFF_FFFF
  const DEFAULT_WAL_SEGMENT_SIZE: int64 := 0x100_0000

  /** Go's `x++` on an int32. */
  function Increment(x: int32): int32 {
    if x == MAX_INT32 then -0x8000_0000 else x + 1
  }

  /** Go's conversion to int32 keeps the low 32 bits. */
  function ToInt32(x: int): int32 {
    var low := x % 0x1_0000_0000;
    if low <= 0x7FFF_FFFF then low else low - 0x1_0000_0000
  }

  /** Go's integer division truncates toward zero. */
  function Quotient(a: nat, b: int): int
    requires b != 0
  {
    if b > 0 then a / b else -(a / -b)
  }

  datatype Segment = Segment(tli: int32, log: int32, seg: int32) {
    predicate NonNegative() { tli >= 0 && log >= 0 && seg >= 0 }

    /** The order of (timeline, log, segment) triples. */
    predicate Before(other: Segment) {
      tli < other.tli || (tli == other.tli && (log < other.log || (log == other.log && seg < other.seg)))
    }
  }

  // ---------------------------------------------------------------- hexadecimal digits

  predicate IsHex(c: char) {
    '0' <= c <= '9' || 'A' <= c <= 'F' || 'a' <= c <= 'f'
  }

  predicate AllHex(s: string) {
    forall i :: 0 <= i < |s| ==> IsHex(s[i])
  }

  function DigitValue(c: char): (v: nat)
    requires IsHex(c)
    ensures v < 16
  {
    if c <= '9' then c as int - '0' as int
    else if c <= 'F' then c as int - 'A' as int + 10
    else c as int - 'a' as int + 10
  }

  function Digit(v: nat): (c: char)
    requires v < 16
    ensures IsHex(c) && DigitValue(c) == v
  {
    if v < 10 then ('0' as int + v) as char else ('A' as int + v - 10) as char
  }

  function UpperChar(c: char): char {
    if 'a' <= c <= 'f' then (c as int - 'a' as int + 'A' as int) as char else c
  }

  function Upper(s: string): (r: string) {
    seq(|s|, i requires 0 <= i < |s| => UpperChar(s[i]))
  }

  function Pow16(w: nat): nat {
    if w == 0 then 1 else 16 * Pow16(w - 1)
  }

  function HexValue(s: string): nat
    requires AllHex(s)
  {
    if s == [] then 0 else 16 * HexValue(s[..|s| - 1]) + DigitValue(s[|s| - 1])
  }

  /** `n` in upper-case hexadecimal, padded with zeros to `w` digits. */
  function HexPad(n: nat, w: nat): (s: string)
    ensures |s| == w && AllHex(s)
  {
    if w == 0 then [] else HexPad(n / 16, w - 1) + [Digit(n % 16)]
  }

  lemma {:induction false} HexValueOfPad(n: nat, w: nat)
    requires n < Pow16(w)
    ensures HexValue(HexPad(n, w)) == n
  {
    if w > 0 {
      HexValueOfPad(n / 16, w - 1);
      assert HexPad(n, w)[..w - 1] == HexPad(n / 16, w - 1);
    }
  }

  lemma {:induction false} PadOfHexValue(s: string)
    requires AllHex(s)
    ensures HexValue(s) < Pow16(|s|)
    ensures HexPad(HexValue(s), |s|) == Upper(s)
  {
    if s != [] {
      var init, last := s[..|s| - 1], s[|s| - 1];
      PadOfHexValue(init);
      assert Upper(s) == Upper(init) + [UpperChar(last)];
      assert HexValue(s) / 16 == HexValue(init) && HexValue(s) % 16 == DigitValue(last);
    }
  }

  lemma {:induction false} PadOrder(a: nat, b: nat, w: nat)
    requires a < Pow16(w) && b < Pow16(w)
    ensures Less(HexPad(a, w), HexPad(b, w)) <==> a < b
    ensures HexPad(a, w) == HexPad(b, w) <==> a == b
  {
    HexValueOfPad(a, w);
    HexValueOfPad(b, w);
    if w > 0 {
      PadOrder(a / 16, b / 16, w - 1);
      var x, y := [Digit(a % 16)], [Digit(b % 16)];
      LessConcat(HexPad(a / 16, w - 1), HexPad(b / 16, w - 1), x, y);
      assert Less(x, y) <==> x[0] < y[0] || (x[0] == y[0] && Less(x[1..], y[1..]));
    }
  }

  /** The first digit weighs most. */
  lemma {:induction false} HexValueHead(s: string)
    requires s != [] && AllHex(s)
    ensures HexValue(s) == DigitValue(s[0]) * Pow16(|s| - 1) + HexValue(s[1..])
  {
    if |s| > 1 {
      var init, last := s[..|s| - 1], DigitValue(s[|s| - 1]);
      HexValueHead(init);
      assert s[1..][..|s| - 2] == init[1..];
      var d, p := DigitValue(s[0]), Pow16(|s| - 2);
      assert HexValue(s[1..]) == 16 * HexValue(init[1..]) + last;
      MulSixteen(d, p);
    }
  }

  // ---------------------------------------------------------------- printing

  /** Go's "%08X" of an int32: a sign takes one of the eight columns. */
  function Column(x: int32): string {
    if x >= 0 then HexPad(x, 8)
    else if x > -0x1000_0000 then "-" + HexPad(0 - (x as int), 7)
    else "-" + HexPad(0 - (x as int), 8)
  }

  function Name(s: Segment): string {
    Column(s.tli) + Column(s.log) + Column(s.seg)
  }

  // ---------------------------------------------------------------- parsing

  datatype NameError = BadWalSegmentName

  /** The three groups of the file-name expression; absent groups are empty. */
  datatype Groups = Groups(all: string, tli: string, log: string, seg: string)

  /**
   * What the file-name expression accepts: a segment, a backup label, a partial segment or a
   * timeline history file.
   */
  function MatchWalFile(name: string): Option<Groups> {
    if |name| >= 24 && AllHex(name[..24]) &&
       (|name| == 24
        || (|name| == 40 && name[24] == '.' && AllHex(name[25..33]) && name[33..] == ".backup")
        || name[24..] == ".partial")
    then Some(Groups(name, name[..8], name[8..16], name[16..24]))
    else if |name| == 16 && AllHex(name[..8]) && name[8..] == ".history"
    then Some(Groups(name, name[..8], "", ""))
    else None
  }

  /** A regular WAL file: 24 hexadecimal digits and nothing else. */
  predicate IsWalFile(name: string) {
    |name| == 24 && AllHex(name)
  }

  /** Base-16 parsing into 32 signed bits; the digits carry no sign. */
  function ParseInt32(s: string): Option<int32> {
    if s != [] && AllHex(s) && HexValue(s) <= MAX_INT32 then Some(HexValue(s)) else None
  }

  function SegmentFromName(name: string): Result<Segment, NameError> {
    match MatchWalFile(name)
    case None => Err(BadWalSegmentName)
    case Some(g) =>
      if |g.all| != 24 then Err(BadWalSegmentName)
      else
        match (ParseInt32(g.tli), ParseInt32(g.log), ParseInt32(g.seg))
        case (Some(t), Some(l), Some(s)) => Ok(Segment(t, l, s))
        case _ => Err(BadWalSegmentName)
  }

  lemma Pow16At8()
    ensures Pow16(7) == 0x1000_0000 && Pow16(8) == 0x1_0000_0000
  {
    assert Pow16(4) == 0x1_0000;
  }

  lemma ColumnRoundTrip(x: int32)
    ensures ParseInt32(Column(x)) == (if x >= 0 then Some(x) else None)
    ensures x >= 0 ==> |Column(x)| == 8 && AllHex(Column(x))
    ensures x < 0 ==> |Column(x)| >= 8 && Column(x)[0] == '-'
  {
    Pow16At8();
    if x >= 0 { HexValueOfPad(x, 8); } else { assert !IsHex(Column(x)[0]); }
  }

  /** Printing and parsing undo each other exactly for segments without negative fields. */
  lemma RoundTrip(s: Segment)
    ensures s.NonNegative() ==> SegmentFromName(Name(s)) == Ok(s)
    ensures s.NonNegative() <==> IsWalFile(Name(s))
    ensures !s.NonNegative() ==> SegmentFromName(Name(s)) == Err(BadWalSegmentName)
  {
    ColumnRoundTrip(s.tli);
    ColumnRoundTrip(s.log);
    ColumnRoundTrip(s.seg);
    var t, l, n := Column(s.tli), Column(s.log), Column(s.seg);
    if s.NonNegative() {
      assert Name(s)[..8] == t && Name(s)[8..16] == l && Name(s)[16..24] == n && Name(s)[..24] == Name(s);
    } else {
      // The first sign sits among the first 24 characters.
      var at := if s.tli < 0 then 0 else if s.log < 0 then 8 else 16;
      assert Name(s)[at] == '-' && !IsHex(Name(s)[at]);
      assert |Name(s)| >= 24 && Name(s)[..24][at] == '-';
      assert SegmentFromName(Name(s)).Ok? ==> AllHex(Name(s)[..24]);
    }
  }

  lemma ParseGroup(s: string)
    requires |s| == 8 && AllHex(s)
    ensures ParseInt32(s).Some? <==> DigitValue(s[0]) < 8
    ensures ParseInt32(s).Some? ==> ParseInt32(s).value >= 0 && Column(ParseInt32(s).value) == Upper(s)
  {
    Pow16At8();
    HexValueHead(s);
    PadOfHexValue(s);
    PadOfHexValue(s[1..]);
  }

  /** A name parses exactly when it is 24 hex digits whose three groups start below 8. */
  lemma ParsesExactly(name: string)
    ensures SegmentFromName(name).Ok? <==>
            IsWalFile(name) && DigitValue(name[0]) < 8 && DigitValue(name[8]) < 8 && DigitValue(name[16]) < 8
    ensures SegmentFromName(name).Ok? ==>
              SegmentFromName(name).value.NonNegative() && Name(SegmentFromName(name).value) == Upper(name)
  {
    if IsWalFile(name) {
      var t, l, s := name[..8], name[8..16], name[16..24];
      assert name[..24] == name;
      ParseGroup(t);
      ParseGroup(l);
      ParseGroup(s);
      assert Upper(name) == Upper(t) + Upper(l) + Upper(s);
    } else {
      assert |name| == 24 ==> name[..24] == name;
    }
  }

  lemma ParsedName(name: string)
    ensures SegmentFromName(name).Ok? ==>
              IsWalFile(name) && SegmentFromName(name).value.NonNegative() &&
              Name(SegmentFromName(name).value) == Upper(name)
  {
    ParsesExactly(name);
  }

  lemma ColumnOrder(a: int32, b: int32)
    requires a >= 0 && b >= 0
    ensures |Column(a)| == |Column(b)| == 8
    ensures Less(Column(a), Column(b)) <==> a < b
    ensures Column(a) == Column(b) <==> a == b
  {
    Pow16At8();
    PadOrder(a, b, 8);
  }

  /** Names sort like (timeline, log, segment) triples. */
  lemma NameOrder(a: Segment, b: Segment)
    requires a.NonNegative() && b.NonNegative()
    ensures Less(Name(a), Name(b)) <==> a.Before(b)
    ensures Name(a) == Name(b) <==> a == b
  {
    ColumnOrder(a.tli, b.tli);
    ColumnOrder(a.log, b.log);
    ColumnOrder(a.seg, b.seg);
    LessConcat(Column(a.log), Column(b.log), Column(a.seg), Column(b.seg));
    LessConcat(Column(a.tli), Column(b.tli), Column(a.log) + Column(a.seg), Column(b.log) + Column(b.seg));
    assert Name(a) == Column(a.tli) + (Column(a.log) + Column(a.seg));
    assert Name(b) == Column(b.tli) + (Column(b.log) + Column(b.seg));
    RoundTrip(a);
    RoundTrip(b);
  }

  // ---------------------------------------------------------------- the following segments

  function WalSegmentsPerFile(walSegmentSize: int64): int32
    requires walSegmentSize != 0
  {
    ToInt32(Quotient(0xFFFF_FFFF, walSegmentSize))
  }

  function PerFile(segmentSize: Option<int64>): int32
    requires segmentSize != Some(0)
  {
    match segmentSize
    case None => WalSegmentsPerFile(DEFAULT_WAL_SEGMENT_SIZE)
    case Some(size) => WalSegmentsPerFile(size)
  }

  /** Before PostgreSQL 9.3 the last segment of each log file was not used. */
  predicate SkipsLast(postgresVersion: Option<int>) {
    postgresVersion.Some? && postgresVersion.value < 90300
  }

  function Successor(s: Segment, perFile: int32, skipLast: bool): Segment {
    var seg := Increment(s.seg);
    if seg > perFile || (skipLast && seg == perFile)
    then Segment(s.tli, Increment(s.log), 0)
    else Segment(s.tli, s.log, seg)
  }

  function Advance(s: Segment, n: nat, perFile: int32, skipLast: bool): Segment {
    if n == 0 then s else Successor(Advance(s, n - 1, perFile, skipLast), perFile, skipLast)
  }

  method NextSegments(segment: Segment, size: nat, postgresVersion: Option<int>, segmentSize: Option<int64>)
    returns (result: seq<Segment>)
    requires segmentSize != Some(0)
    ensures |result| == size
    ensures forall i :: 0 <= i < size ==>
              result[i] == Advance(segment, i, PerFile(segmentSize), SkipsLast(postgresVersion))
  {
    var walSegPerFile := PerFile(segmentSize);
    result := CollectSegments(segment, size, walSegPerFile, SkipsLast(postgresVersion));
  }

  /** The loop of NextSegments, with its two settings already resolved. */
  method CollectSegments(segment: Segment, size: nat, walSegPerFile: int32, skipLastSegment: bool)
    returns (result: seq<Segment>)
    ensures |result| == size
    ensures forall i :: 0 <= i < size ==> result[i] == Advance(segment, i, walSegPerFile, skipLastSegment)
  {
    result := [];
    var current := segment;
    while |result| < size
      invariant |result| <= size
      invariant current == Advance(segment, |result|, walSegPerFile, skipLastSegment)
      invariant forall i :: 0 <= i < |result| ==>
                  result[i] == Advance(segment, i, walSegPerFile, skipLastSegment)
    {
      result := result + [current];
      current := Segment(current.tli, current.log, Increment(current.seg));
      if current.seg > walSegPerFile || (skipLastSegment && current.seg == walSegPerFile) {
        current := Segment(current.tli, Increment(current.log), 0);
      }
    }
  }

  lemma {:induction false} AdvanceAdds(s: Segment, m: nat, n: nat, perFile: int32, skipLast: bool)
    ensures Advance(Advance(s, m, perFile, skipLast), n, perFile, skipLast) == Advance(s, m + n, perFile, skipLast)
  {
    if n > 0 { AdvanceAdds(s, m, n - 1, perFile, skipLast); }
  }

  function Pow2(k: nat): nat {
    if k == 0 then 1 else 2 * Pow2(k - 1)
  }

  lemma {:induction false} Pow2Adds(j: nat, k: nat)
    ensures Pow2(j) > 0
    ensures Pow2(j) * Pow2(k) == Pow2(j + k)
  {
    if j > 0 {
      Pow2Adds(j - 1, k);
      MulDouble(Pow2(j - 1), Pow2(k));
    }
  }

  lemma Pow2At32()
    ensures Pow2(32) == 0x1_0000_0000
  {
    assert Pow2(8) == 0x100;
    Pow2Adds(8, 8);
    Pow2Adds(16, 16);
  }

  lemma PowersOfAll(k: nat)
    requires 1 <= k <= 31
    ensures Pow2(k) >= 2 && Pow2(32 - k) >= 2
    ensures Pow2(k) * Pow2(32 - k) == 0x1_0000_0000
  {
    Pow2At32();
    Pow2Adds(k, 32 - k);
    Pow2Adds(k - 1, 0);
    Pow2Adds(31 - k, 0);
  }

  /** A segment size of 2^k gives 2^(32-k) - 1 segments per log file. */
  lemma SegmentsPerFileOfPower(k: nat)
    requires 1 <= k <= 31
    ensures 1 <= Pow2(k) <= 0x8000_0000
    ensures WalSegmentsPerFile(Pow2(k)) == Pow2(32 - k) - 1
  {
    PowersOfAll(k);
    var p, q := Pow2(k), Pow2(32 - k);
    FactorsOfAll(p, q);
    assert Quotient(0xFFFF_FFFF, p) == q - 1;
  }

  /** Element `i` of the list in closed form, `m` segments to a log file. */
  function Closed(s: Segment, i: nat, m: nat): (int, int, int)
    requires m > 0
  {
    var start := Min(s.seg, m - 1);
    if i == 0 then (s.tli, s.log, s.seg)
    else (s.tli, s.log + (start + i) / m, (start + i) % m)
  }

  function Modulus(perFile: int32, skipLast: bool): int {
    if skipLast then perFile else perFile + 1
  }

  /**
   * The loop computes the closed form as long as neither int32 field overflows. A segment number
   * beyond the last one of its file carries at once, like the last one.
   */
  lemma {:induction false} AdvanceClosed(s: Segment, i: nat, perFile: int32, skipLast: bool)
    requires 0 <= s.seg < MAX_INT32 && 0 < Modulus(perFile, skipLast) && perFile < MAX_INT32
    requires s.log + (Min(s.seg, Modulus(perFile, skipLast) - 1) + i) / Modulus(perFile, skipLast) <= MAX_INT32
    ensures var r := Advance(s, i, perFile, skipLast);
            (r.tli, r.log, r.seg) == Closed(s, i, Modulus(perFile, skipLast))
  {
    var m := Modulus(perFile, skipLast);
    var start := Min(s.seg, m - 1);
    if i == 1 {
      DivNext(start, m);
      QuotientIs(start, m, 0, start);
    } else if i > 1 {
      DivNext(start + i - 1, m);
      AdvanceClosed(s, i - 1, perFile, skipLast);
    }
  }

  /** No int32 field overflows within the first `size` elements. */
  predicate Fits(s: Segment, size: nat, m: nat)
    requires m > 0
  {
    size <= 1 || (s.seg < MAX_INT32 && s.log + (Min(s.seg, m - 1) + size - 1) / m <= MAX_INT32)
  }

  lemma FitsPrefix(s: Segment, i: nat, size: nat, m: nat)
    requires m > 0 && s.NonNegative() && 1 <= i < size && Fits(s, size, m)
    ensures s.seg < MAX_INT32 && s.log + (Min(s.seg, m - 1) + i) / m <= MAX_INT32
  {
    DivMonotonic(Min(s.seg, m - 1) + i, Min(s.seg, m - 1) + size - 1, m);
  }

  lemma AdvanceNonNegative(s: Segment, i: nat, size: nat, perFile: int32, skipLast: bool)
    requires s.NonNegative() && 0 < Modulus(perFile, skipLast) && perFile < MAX_INT32
    requires i < size && Fits(s, size, Modulus(perFile, skipLast))
    ensures Advance(s, i, perFile, skipLast).NonNegative()
  {
    var m := Modulus(perFile, skipLast);
    if i > 0 {
      FitsPrefix(s, i, size, m);
      AdvanceClosed(s, i, perFile, skipLast);
      DivMonotonic(0, Min(s.seg, m - 1) + i, m);
    }
  }

  lemma AdvanceFits(s: Segment, i: nat, size: nat, perFile: int32, skipLast: bool)
    requires s.NonNegative() && 0 < Modulus(perFile, skipLast) && perFile < MAX_INT32
    requires i < size && Fits(s, size, Modulus(perFile, skipLast))
    ensures Advance(s, i, perFile, skipLast).NonNegative()
    ensures i + 1 < size ==> Advance(s, i, perFile, skipLast).Before(Advance(s, i + 1, perFile, skipLast))
  {
    AdvanceNonNegative(s, i, size, perFile, skipLast);
    if i + 1 < size {
      AdvanceNonNegative(s, i + 1, size, perFile, skipLast);
    }
  }

  lemma {:induction false} AdvanceIncreases(s: Segment, i: nat, j: nat, size: nat, perFile: int32, skipLast: bool)
    requires s.NonNegative() && 0 < Modulus(perFile, skipLast) && perFile < MAX_INT32
    requires i < j < size && Fits(s, size, Modulus(perFile, skipLast))
    ensures Advance(s, i, perFile, skipLast).Before(Advance(s, j, perFile, skipLast))
    decreases j
  {
    AdvanceFits(s, j - 1, size, perFile, skipLast);
    if i < j - 1 { AdvanceIncreases(s, i, j - 1, size, perFile, skipLast); }
  }

  /** When a field overflows, a negative field, and so a name that is no WAL file name, appears. */
  lemma OverflowShows(s: Segment, size: nat, perFile: int32, skipLast: bool) returns (i: nat)
    requires s.NonNegative() && 0 < Modulus(perFile, skipLast) && perFile < MAX_INT32
    requires !Fits(s, size, Modulus(perFile, skipLast))
    ensures i < size && !Advance(s, i, perFile, skipLast).NonNegative()
  {
    var m := Modulus(perFile, skipLast);
    if s.seg == MAX_INT32 {
      i := 1;
      assert Advance(s, 1, perFile, skipLast) == Successor(s, perFile, skipLast);
    } else {
      var start, carries := Min(s.seg, m - 1), MAX_INT32 - s.log + 1;
      var n := LastBefore(start + size - 1, m, carries);
      i := n - start;
      if i > 1 { AdvanceClosed(s, i - 1, perFile, skipLast); }
      assert Advance(s, i - 1, perFile, skipLast).log == MAX_INT32 by {
        if i == 1 { QuotientIs(start, m, 0, start); }
      }
      assert Advance(s, i, perFile, skipLast) == Successor(Advance(s, i - 1, perFile, skipLast), perFile, skipLast);
    }
  }

  /** The generated segments are all printable and increasing exactly when no field overflows. */
  lemma IncreasingExactly(s: Segment, size: nat, perFile: int32, skipLast: bool)
    requires s.NonNegative() && 0 < Modulus(perFile, skipLast) && perFile < MAX_INT32
    ensures Fits(s, size, Modulus(perFile, skipLast)) <==>
            forall i :: 0 <= i < size ==>
              Advance(s, i, perFile, skipLast).NonNegative() &&
              (i + 1 < size ==> Advance(s, i, perFile, skipLast).Before(Advance(s, i + 1, perFile, skipLast)))
  {
    if Fits(s, size, Modulus(perFile, skipLast)) {
      forall i | 0 <= i < size
        ensures Advance(s, i, perFile, skipLast).NonNegative()
        ensures i + 1 < size ==> Advance(s, i, perFile, skipLast).Before(Advance(s, i + 1, perFile, skipLast))
      {
        AdvanceFits(s, i, size, perFile, skipLast);
      }
    } else {
      var i := OverflowShows(s, size, perFile, skipLast);
    }
  }
}
