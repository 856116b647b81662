/** Byte-stream framing of H.264 NAL units (ITU-T Rec. H.264, Annex B, section B.1)
    as the PhoneCam TCP receivers split it. Only the four-byte start code
    00 00 00 01 is recognised; the three-byte form 00 00 01 is not a boundary. */
module AnnexB {
  import opened Sequences

  newtype byte = b: int | 0 <= b < 256

  /** The start code 00 00 00 01 occupies s[i..i+4]. */
  predicate IsStartCodeAt(s: seq<byte>, i: int)
  {
    0 <= i && i + 4 <= |s| && s[i] == 0 && s[i + 1] == 0 && s[i + 2] == 0 && s[i + 3] == 1
  }

  /** No two different start codes in s. */
  predicate AtMostOneStartCode(s: seq<byte>)
  {
    forall i, j | 0 <= i < |s| && 0 <= j < |s| :: IsStartCodeAt(s, i) && IsStartCodeAt(s, j) ==> i == j
  }

  /** A unit as the receivers hand it to the decoder: it begins with a start
      code and holds no other one. */
  predicate IsNalUnit(u: seq<byte>)
  {
    IsStartCodeAt(u, 0) && forall j | 0 < j < |u| :: !IsStartCodeAt(u, j)
  }

  /** The index of the first start code at or after `start`, or -1 when there is none. */
  function StartCodeFrom(data: seq<byte>, start: nat): (r: int)
    ensures r == -1 || (start <= r && IsStartCodeAt(data, r))
    ensures r >= 0 ==> forall j :: start <= j < r ==> !IsStartCodeAt(data, j)
    ensures r == -1 <==> forall j :: start <= j ==> !IsStartCodeAt(data, j)
    decreases |data| - start
  {
    if start + 4 > |data| then -1
    else if IsStartCodeAt(data, start) then start
    else StartCodeFrom(data, start + 1)
  }

  /** The scan loop of `_find_start_code`: walk i from `start` while four bytes
      remain, return the first i where the start code begins. */
  method FindStartCode(data: seq<byte>, start: nat) returns (r: int)
    ensures r == StartCodeFrom(data, start)
  {
    var i := start;
    while i < |data| - 3
      invariant start <= i
      invariant StartCodeFrom(data, i) == StartCodeFrom(data, start)
      decreases |data| - i
    {
      if data[i] == 0 && data[i + 1] == 0 && data[i + 2] == 0 && data[i + 3] == 1 {
        return i;
      }
      i := i + 1;
    }
    return -1;
  }

  /** What one pass of the extraction loop produces. */
  datatype Split = Split(units: seq<seq<byte>>, rest: seq<byte>)

  /** One pass of the receivers' inner `while True` loop over a buffer: find the
      first start code, then the next one at least four bytes later, cut out the
      unit between them (start code included), drop everything before the next
      start code, and repeat; stop at the first search that fails. */
  function Extract(buf: seq<byte>): Split
    decreases |buf|
  {
    var s := StartCodeFrom(buf, 0);
    if s < 0 then Split([], buf)
    else
      var n := StartCodeFrom(buf, s + 4);
      if n < 0 then Split([], buf)
      else
        var tail := Extract(buf[n..]);
        Split([buf[s..n]] + tail.units, tail.rest)
  }

  /** One turn of the extraction loop: with both start codes found, the pass
      cuts the unit between them and carries on from the second one. */
  lemma ExtractCut(buf: seq<byte>, s: nat, n: nat)
    requires s == StartCodeFrom(buf, 0) && n == StartCodeFrom(buf, s + 4)
    ensures Extract(buf) == Split([buf[s..n]] + Extract(buf[n..]).units, Extract(buf[n..]).rest)
  {
  }

  /** The pass stops at once when either search fails, keeping the buffer. */
  lemma ExtractStops(buf: seq<byte>)
    requires StartCodeFrom(buf, 0) < 0 || StartCodeFrom(buf, StartCodeFrom(buf, 0) + 4) < 0
    ensures Extract(buf) == Split([], buf)
  {
  }

  /** Concatenation of a sequence of byte strings, front to back. */
  function Flatten(ss: seq<seq<byte>>): seq<byte>
  {
    if ss == [] then [] else ss[0] + Flatten(ss[1..])
  }

  lemma FlattenPrepend(u: seq<byte>, ss: seq<seq<byte>>)
    ensures Flatten([u] + ss) == u + Flatten(ss)
  {
    assert ([u] + ss)[1..] == ss;
  }

  lemma SliceJoin(s: seq<byte>, i: int, j: int)
    requires 0 <= i <= j <= |s|
    ensures s[i..j] + s[j..] == s[i..]
  {
  }

  lemma SliceAppend(x: seq<byte>, y: seq<byte>, s: int, n: int)
    requires 0 <= s <= n <= |x|
    ensures (x + y)[n..] == x[n..] + y && (x + y)[s..n] == x[s..n]
  {
  }

  /** Start codes cannot overlap: the 01 byte of one lies where the other needs 00. */
  lemma StartCodesDoNotOverlap(s: seq<byte>, i: int, j: int)
    requires IsStartCodeAt(s, i) && IsStartCodeAt(s, j) && i < j
    ensures i + 4 <= j
  {
  }

  /** A buffer that begins with a start code has its first one at index 0. */
  lemma StartCodeAtFront(s: seq<byte>)
    requires IsStartCodeAt(s, 0)
    ensures StartCodeFrom(s, 0) == 0
  {
  }

  /** Bytes appended after a start code that lies wholly inside x do not change it. */
  lemma StartCodeInPrefix(x: seq<byte>, y: seq<byte>, j: int)
    requires 0 <= j && j + 4 <= |x|
    ensures IsStartCodeAt(x + y, j) == IsStartCodeAt(x, j)
  {
  }

  /** Appending bytes does not move a start code the scan has already found. */
  lemma StartCodeFromPrefix(x: seq<byte>, y: seq<byte>, k: nat)
    requires StartCodeFrom(x, k) >= 0
    ensures StartCodeFrom(x + y, k) == StartCodeFrom(x, k)
  {
    var r := StartCodeFrom(x, k);
    var r' := StartCodeFrom(x + y, k);
    StartCodeInPrefix(x, y, r);
    assert r' <= r;
    StartCodeInPrefix(x, y, r');
  }

  /** The bytes between the first start code and the next one form a NAL unit:
      the scan skipped start + 1 .. start + 3, where no start code can begin. */
  lemma CutIsNalUnit(buf: seq<byte>, s: nat, n: nat)
    requires s == StartCodeFrom(buf, 0) && n == StartCodeFrom(buf, s + 4)
    ensures s + 4 <= n && IsNalUnit(buf[s..n])
  {
    var u := buf[s..n];
    StartCodeInSlice(buf, s, n, 0);
    forall j | 0 < j < |u|
      ensures !IsStartCodeAt(u, j)
    {
      if j < 4 {
        NoStartCodeRightAfter(u, j);
      } else {
        StartCodeInSlice(buf, s, n, j);
      }
    }
  }

  /** A start code inside a slice is one in the whole sequence, shifted. */
  lemma StartCodeInSlice(buf: seq<byte>, a: int, b: int, j: int)
    requires 0 <= a <= b <= |buf| && 0 <= j
    ensures j + 4 <= b - a ==> IsStartCodeAt(buf[a..b], j) == IsStartCodeAt(buf, a + j)
    ensures j + 4 > b - a ==> !IsStartCodeAt(buf[a..b], j)
  {
  }

  /** The 01 byte of a start code rules out another one starting in its next three bytes. */
  lemma NoStartCodeRightAfter(u: seq<byte>, j: int)
    requires IsStartCodeAt(u, 0) && 0 < j < 4
    ensures !IsStartCodeAt(u, j)
  {
  }

  /** Every extracted unit begins with the start code, is at least four bytes
      long and holds no other start code. */
  lemma {:induction false} ExtractedUnitsAreNalUnits(buf: seq<byte>)
    ensures forall k :: 0 <= k < |Extract(buf).units| ==>
              IsNalUnit(Extract(buf).units[k]) && |Extract(buf).units[k]| >= 4
    decreases |buf|
  {
    var s := StartCodeFrom(buf, 0);
    if s >= 0 && StartCodeFrom(buf, s + 4) >= 0 {
      var n := StartCodeFrom(buf, s + 4);
      ExtractCut(buf, s, n);
      CutIsNalUnit(buf, s, n);
      ExtractedUnitsAreNalUnits(buf[n..]);
      AllNalUnitsPrepend(buf[s..n], Extract(buf[n..]).units);
    } else {
      ExtractStops(buf);
    }
  }

  /** Adding a NAL unit in front of a list of NAL units keeps it one. */
  lemma AllNalUnitsPrepend(u: seq<byte>, us: seq<seq<byte>>)
    requires IsNalUnit(u) && |u| >= 4
    requires forall k :: 0 <= k < |us| ==> IsNalUnit(us[k]) && |us[k]| >= 4
    ensures forall k :: 0 <= k < |[u] + us| ==> IsNalUnit(([u] + us)[k]) && |([u] + us)[k]| >= 4
  {
    forall k | 0 <= k < |[u] + us|
      ensures IsNalUnit(([u] + us)[k]) && |([u] + us)[k]| >= 4
    {
      if k > 0 {
        assert ([u] + us)[k] == us[k - 1];
      }
    }
  }

  /** A pass extracts nothing exactly when the buffer holds at most one start
      code; a unit is cut only once the start code after it has fully arrived. */
  lemma NothingExtractedIff(buf: seq<byte>)
    ensures Extract(buf).units == [] <==> AtMostOneStartCode(buf)
    ensures Extract(buf).units == [] ==> Extract(buf).rest == buf
  {
    var s := StartCodeFrom(buf, 0);
    if s >= 0 {
      var n := StartCodeFrom(buf, s + 4);
      if n >= 0 {
        assert IsStartCodeAt(buf, s) && IsStartCodeAt(buf, n) && s != n;
      } else {
        forall i, j | IsStartCodeAt(buf, i) && IsStartCodeAt(buf, j)
          ensures i == j
        {
          if i != s {
            StartCodesDoNotOverlap(buf, s, i);
          }
          if j != s {
            StartCodesDoNotOverlap(buf, s, j);
          }
        }
      }
    }
  }

  /** After a pass the buffer holds at most one start code, and when units were
      cut it begins with a start code and is strictly shorter than before. */
  lemma {:induction false} ExtractRest(buf: seq<byte>)
    ensures AtMostOneStartCode(Extract(buf).rest)
    ensures Extract(buf).units != [] ==>
              IsStartCodeAt(Extract(buf).rest, 0) && |Extract(buf).rest| < |buf|
    decreases |buf|
  {
    var s := StartCodeFrom(buf, 0);
    if s >= 0 && StartCodeFrom(buf, s + 4) >= 0 {
      var n := StartCodeFrom(buf, s + 4);
      var tail := buf[n..];
      ExtractCut(buf, s, n);
      ExtractRest(tail);
      ExtractKeepsWhenEmpty(tail);
      RestAfterCut(buf, n, Extract(tail));
    } else {
      ExtractStops(buf);
      NothingExtractedIff(buf);
    }
  }

  /** A pass that extracts nothing leaves the buffer as it was. */
  lemma ExtractKeepsWhenEmpty(buf: seq<byte>)
    ensures Extract(buf).units == [] ==> Extract(buf).rest == buf
  {
    var s := StartCodeFrom(buf, 0);
    if s >= 0 && StartCodeFrom(buf, s + 4) >= 0 {
      ExtractCut(buf, s, StartCodeFrom(buf, s + 4));
    } else {
      ExtractStops(buf);
    }
  }

  /** After a cut at n, where a start code begins, what the pass over buf[n..]
      leaves begins with a start code and is shorter than buf. */
  lemma RestAfterCut(buf: seq<byte>, n: int, t: Split)
    requires 0 < n <= |buf| && IsStartCodeAt(buf, n)
    requires t.units == [] ==> t.rest == buf[n..]
    requires t.units != [] ==> IsStartCodeAt(t.rest, 0) && |t.rest| < |buf[n..]|
    ensures IsStartCodeAt(t.rest, 0) && |t.rest| < |buf|
  {
  }

  /** Conservation: the units of a pass followed by what is left are the buffer
      minus the bytes before its first start code; with no unit the buffer is
      left untouched. */
  lemma {:induction false} ExtractConservation(buf: seq<byte>)
    ensures Extract(buf).units == [] ==> Extract(buf).rest == buf
    ensures Extract(buf).units != [] ==>
              StartCodeFrom(buf, 0) >= 0 &&
              Flatten(Extract(buf).units) + Extract(buf).rest == buf[StartCodeFrom(buf, 0)..]
    decreases |buf|
  {
    var s := StartCodeFrom(buf, 0);
    if s >= 0 && StartCodeFrom(buf, s + 4) >= 0 {
      var n := StartCodeFrom(buf, s + 4);
      var unit, tail := buf[s..n], Extract(buf[n..]);
      assert Extract(buf) == Split([unit] + tail.units, tail.rest);
      FlattenPrepend(unit, tail.units);
      ExtractConservation(buf[n..]);
      if tail.units != [] {
        StartCodeAtFront(buf[n..]);
      }
      assert Flatten(tail.units) + tail.rest == buf[n..];
      SliceJoin(buf, s, n);
      assert Flatten(Extract(buf).units) == unit + Flatten(tail.units);
      ConcatAssoc(unit, Flatten(tail.units), tail.rest);
    }
  }

  /** The algebra of one cut in ExtractAppend: the same unit c heads the pass
      over x and the pass over x + y, and the rest follows from the tails. */
  lemma AppendAfterCut(c: seq<byte>, xs: Split, xy: Split, l: Split, t: Split, m: Split)
    requires xs == Split([c] + l.units, l.rest)
    requires xy == Split([c] + t.units, t.rest)
    requires t.units == l.units + m.units && t.rest == m.rest
    ensures xy.units == xs.units + m.units && xy.rest == m.rest
  {
    ConcatAssoc([c], l.units, m.units);
  }

  /** The algebra of ExtractAppend when x holds no complete unit. */
  lemma AppendWithoutCut(x: seq<byte>, xs: Split, m: Split)
    requires xs == Split([], x)
    ensures m.units == xs.units + m.units && xs.rest == x
  {
  }

  /** Chunking: splitting a pass over x + y into a pass over x and a pass over
      what x left plus y gives the same units in the same order and the same
      remaining buffer. */
  lemma {:induction false} ExtractAppend(x: seq<byte>, y: seq<byte>)
    ensures Extract(x + y).units == Extract(x).units + Extract(Extract(x).rest + y).units
    ensures Extract(x + y).rest == Extract(Extract(x).rest + y).rest
    decreases |x|
  {
    var s := StartCodeFrom(x, 0);
    if s >= 0 && StartCodeFrom(x, s + 4) >= 0 {
      var n := StartCodeFrom(x, s + 4);
      StartCodeFromPrefix(x, y, 0);
      StartCodeFromPrefix(x, y, s + 4);
      SliceAppend(x, y, s, n);
      ExtractCut(x, s, n);
      ExtractCut(x + y, s, n);
      ExtractAppend(x[n..], y);
      var left := Extract(x[n..]);
      AppendAfterCut(x[s..n], Extract(x), Extract(x + y), left, Extract(x[n..] + y), Extract(left.rest + y));
    } else {
      ExtractStops(x);
      AppendWithoutCut(x, Extract(x), Extract(x + y));
    }
  }
}
