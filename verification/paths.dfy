/** A model of the part of Eclipse's `IPath` that the remote launcher relies on.

    A path is a device (`"C:"` on Windows, absent elsewhere), a leading-separator
    flag and a sequence of segments. Strings are parsed the way a path is parsed
    on Windows: the device is everything up to and including the first `':'`,
    less a leading `'/'` (so the path part of a `file:` URI such as `/C:/ws`
    has device `C:`), and segments are the non-empty pieces between `'/'`
    separators. */
module Paths {
  import opened Wrappers
  import opened Strings

  datatype Path = Path(device: Option<string>, absolute: bool, segments: seq<string>)

  const Separator: char := '/'
  const DeviceSeparator: char := ':'
  const ParentSegment: string := ".."

  const Backslash: char := '\\'
  const CurrentSegment: string := "."

  /** A segment that parsing keeps as it is: not empty, free of separators and
      of the backslash Windows parsing turns into a separator, and not one of
      the `.` and `..` segments that parsing collapses. */
  predicate ValidSegment(s: string) {
    && |s| > 0 && Separator !in s && DeviceSeparator !in s && Backslash !in s
    && s != CurrentSegment && s != ParentSegment
  }

  /** A device as parsing produces it: one device separator, at the end, no
      leading separator, and no backslash (which Windows parsing turns into a
      separator before it looks for the device). */
  predicate ValidDevice(d: string) {
    && |d| > 0 && d[0] != Separator && Backslash !in d
    && d[|d| - 1] == DeviceSeparator && DeviceSeparator !in d[..|d| - 1]
  }

  /** A path whose printed form parses back to itself. */
  predicate Valid(p: Path) {
    && (p.device.Some? ==> ValidDevice(p.device.value))
    && forall i :: 0 <= i < |p.segments| ==> ValidSegment(p.segments[i])
  }

  /** `IPath.isEmpty`: no segments and no leading separator (the device is ignored). */
  predicate IsEmpty(p: Path) {
    |p.segments| == 0 && !p.absolute
  }

  /** The segments joined by single separators. */
  function Join(segs: seq<string>): string
  {
    if |segs| == 0 then ""
    else if |segs| == 1 then segs[0]
    else segs[0] + [Separator] + Join(segs[1..])
  }

  /** The non-empty pieces of `s` between separators, in order. */
  function Segments(s: string): seq<string>
    decreases |s|
  {
    if |s| == 0 then []
    else if s[0] == Separator then Segments(s[1..])
    else
      var n := IndexOf(s, Separator);
      [s[..n]] + Segments(s[n..])
  }

  /** The printed device: the device itself, or nothing. */
  function DeviceText(device: Option<string>): string
  {
    if device.Some? then device.value else ""
  }

  /** The printed path after its device: the leading separator, if any, and
      the joined segments. */
  function TailText(absolute: bool, segments: seq<string>): string
  {
    (if absolute then [Separator] else "") + Join(segments)
  }

  /** `IPath.toString`. */
  function ToString(p: Path): string
  {
    DeviceText(p.device) + TailText(p.absolute, p.segments)
  }

  function FromParts(device: Option<string>, rest: string): Path
  {
    Path(device, |rest| > 0 && rest[0] == Separator, Segments(rest))
  }

  /** `new Path(String)` on Windows: a leading separator before the device is
      dropped from it. */
  function Parse(s: string): (p: Path)
    ensures p.device.Some? <==> DeviceSeparator in s
  {
    var i := IndexOf(s, DeviceSeparator);
    if i < |s| then
      var start := if s[0] == Separator then 1 else 0;
      FromParts(Some(s[start..i + 1]), s[i + 1..])
    else FromParts(None, s)
  }

  /** Length of the longest common prefix of `a` and `b`
      (`IPath.matchingFirstSegments`). */
  function CommonPrefixLength(a: seq<string>, b: seq<string>): (n: nat)
    ensures n <= |a| && n <= |b|
    ensures a[..n] == b[..n]
    ensures n < |a| && n < |b| ==> a[n] != b[n]
  {
    if |a| == 0 || |b| == 0 || a[0] != b[0] then 0
    else
      var n := CommonPrefixLength(a[1..], b[1..]);
      assert a[..n + 1] == [a[0]] + a[1..][..n];
      assert b[..n + 1] == [b[0]] + b[1..][..n];
      n + 1
  }

  function Repeat(s: string, n: nat): (r: seq<string>)
    ensures |r| == n
    ensures forall i :: 0 <= i < n ==> r[i] == s
  {
    if n == 0 then [] else [s] + Repeat(s, n - 1)
  }

  /** `IPath.makeRelativeTo(base)`: a path on another device is returned as is;
      otherwise one parent segment for each base segment past the common prefix,
      then the rest of `p`, as a relative path without device. */
  function MakeRelativeTo(p: Path, base: Path): (r: Path)
    ensures p.device != base.device ==> r == p
    ensures p.device == base.device ==> r.device.None? && !r.absolute
    ensures p.device == base.device && base.segments <= p.segments ==>
              r.segments == p.segments[|base.segments|..]
  {
    if p.device != base.device then p
    else
      var common := CommonPrefixLength(p.segments, base.segments);
      Path(None, false, Repeat(ParentSegment, |base.segments| - common) + p.segments[common..])
  }

  /** `IPath.append(tail)`: the tail's segments after this path's segments,
      keeping this path's device and leading separator. */
  function Append(p: Path, tail: Path): (r: Path)
    ensures r.device == p.device && r.absolute == p.absolute
    ensures |r.segments| == |p.segments| + |tail.segments|
    ensures r.segments[..|p.segments|] == p.segments
    ensures r.segments[|p.segments|..] == tail.segments
  {
    Path(p.device, p.absolute, p.segments + tail.segments)
  }

  // ---------------------------------------------------------------------------
  // Parsing lemmas

  lemma SegmentOfValid(v: string)
    requires ValidSegment(v)
    ensures Segments(v) == [v]
  {
    SegmentsWithoutSeparator(v);
  }

  /** Splitting distributes over a separator. */
  lemma {:induction false} SegmentsConcat(x: string, y: string)
    ensures Segments(x + [Separator] + y) == Segments(x) + Segments(y)
    decreases |x|
  {
    if |x| == 0 {
      SegmentsConcatEmpty(y);
    } else if x[0] == Separator {
      SegmentsConcat(x[1..], y);
      SegmentsConcatLeading(x, y);
    } else if Separator in x {
      var n := SegmentsConcatInner(x, y);
      SegmentsConcat(x[n..], y);
      ConsAppend(Segments(x + [Separator] + y), x[..n], Segments(x[n..] + [Separator] + y),
                 Segments(x[n..]), Segments(y), Segments(x));
    } else {
      SegmentsConcatLast(x, y);
    }
  }

  lemma SegmentsConcatEmpty(y: string)
    ensures Segments("" + [Separator] + y) == Segments("") + Segments(y)
  {
    assert "" + [Separator] + y == [Separator] + y;
    SegmentsSeparatorFirst(y);
  }

  lemma SegmentsConcatLeading(x: string, y: string)
    requires 0 < |x| && x[0] == Separator
    requires Segments(x[1..] + [Separator] + y) == Segments(x[1..]) + Segments(y)
    ensures Segments(x + [Separator] + y) == Segments(x) + Segments(y)
  {
    assert (x + [Separator] + y)[1..] == x[1..] + [Separator] + y;
  }

  lemma SegmentsConcatInner(x: string, y: string) returns (n: nat)
    requires 0 < |x| && x[0] != Separator && Separator in x
    ensures n == IndexOf(x, Separator) && 0 < n < |x|
    ensures Segments(x + [Separator] + y) == [x[..n]] + Segments(x[n..] + [Separator] + y)
    ensures Segments(x) == [x[..n]] + Segments(x[n..])
  {
    n := IndexOf(x, Separator);
    var s := x + [Separator] + y;
    IndexOfConcat(x, [Separator] + y, Separator);
    assert s == x + ([Separator] + y);
    assert s[..n] == x[..n];
    assert s[n..] == x[n..] + [Separator] + y;
  }

  /** Putting one more element in front commutes with appending. */
  lemma ConsAppend<T>(whole: seq<T>, head: T, rest: seq<T>, front: seq<T>, back: seq<T>, consed: seq<T>)
    requires whole == [head] + rest && rest == front + back && consed == [head] + front
    ensures whole == consed + back
  {
  }

  lemma SegmentsConcatLast(x: string, y: string)
    requires 0 < |x| && x[0] != Separator && Separator !in x
    ensures Segments(x + [Separator] + y) == Segments(x) + Segments(y)
  {
    var s := x + [Separator] + y;
    IndexOfConcat(x, [Separator] + y, Separator);
    assert s == x + ([Separator] + y);
    assert IndexOf(s, Separator) == |x|;
    assert s[..|x|] == x;
    assert s[|x|..] == [Separator] + y;
    SegmentsSeparatorFirst(y);
    SegmentsWithoutSeparator(x);
  }

  lemma SegmentsSeparatorFirst(y: string)
    ensures Segments([Separator] + y) == Segments(y)
  {
    assert ([Separator] + y)[1..] == y;
  }

  lemma SegmentsWithoutSeparator(x: string)
    requires 0 < |x| && Separator !in x
    ensures Segments(x) == [x]
  {
    assert IndexOf(x, Separator) == |x|;
    assert x[..|x|] == x;
    assert x[|x|..] == [];
  }


  lemma {:induction false} SegmentsOfJoin(segs: seq<string>)
    requires forall i :: 0 <= i < |segs| ==> ValidSegment(segs[i])
    ensures Segments(Join(segs)) == segs
    decreases |segs|
  {
    if |segs| == 1 {
      SegmentOfValid(segs[0]);
    } else if |segs| > 1 {
      SegmentsConcat(segs[0], Join(segs[1..]));
      SegmentOfValid(segs[0]);
      SegmentsOfJoin(segs[1..]);
    }
  }

  lemma {:induction false} JoinHasNoDeviceSeparator(segs: seq<string>)
    requires forall i :: 0 <= i < |segs| ==> ValidSegment(segs[i])
    ensures DeviceSeparator !in Join(segs)
    ensures |segs| > 0 ==> |Join(segs)| > 0 && Join(segs)[0] != Separator
    decreases |segs|
  {
    if |segs| > 1 {
      JoinHasNoDeviceSeparator(segs[1..]);
    }
  }

  /** The first device separator of a valid device followed by a text free of
      device separators is the device's last character. */
  lemma DeviceSeparatorAtEnd(d: string, tail: string)
    requires ValidDevice(d) && DeviceSeparator !in tail
    ensures IndexOf(d + tail, DeviceSeparator) == |d| - 1
  {
    IndexOfConcat(d, tail, DeviceSeparator);
    IndexOfAt(d, DeviceSeparator, |d| - 1);
  }

  /** Parsing a device followed by a text free of device separators splits
      exactly at the device. */
  lemma ParseAfterDevice(device: Option<string>, tail: string)
    requires device.Some? ==> ValidDevice(device.value)
    requires DeviceSeparator !in tail
    ensures Parse(DeviceText(device) + tail) == FromParts(device, tail)
  {
    match device
    case None =>
      assert DeviceText(device) + tail == tail;
    case Some(d) =>
      var s := d + tail;
      DeviceSeparatorAtEnd(d, tail);
      assert s[0] == d[0];
      assert s[..|d|] == d;
      assert s[|d|..] == tail;
  }

  /** The same with a separator in front of the device, as in the path part of
      a `file:` URI: the separator is dropped. */
  lemma ParseAfterSeparatorAndDevice(device: Option<string>, tail: string)
    requires device.Some? && ValidDevice(device.value)
    requires DeviceSeparator !in tail
    ensures Parse([Separator] + (DeviceText(device) + tail)) == FromParts(device, tail)
  {
    var d := device.value;
    var s := [Separator] + (d + tail);
    DeviceSeparatorAtEnd(d, tail);
    IndexOfConcat([Separator], d + tail, DeviceSeparator);
    assert s[1..|d| + 1] == d;
    assert s[|d| + 1..] == tail;
  }

  /** The part of a printed path after its device: separator flag and segments. */
  lemma PrintedTail(p: Path)
    requires Valid(p)
    ensures DeviceSeparator !in TailText(p.absolute, p.segments)
    ensures FromParts(p.device, TailText(p.absolute, p.segments)) == p
  {
    var tail := TailText(p.absolute, p.segments);
    JoinHasNoDeviceSeparator(p.segments);
    SegmentsOfJoin(p.segments);
    if p.absolute {
      SegmentsConcat("", Join(p.segments));
      assert tail == "" + [Separator] + Join(p.segments);
    } else {
      assert tail == Join(p.segments);
    }
  }

  /** Printing a valid path and parsing it back gives the same path. */
  lemma ParseToString(p: Path)
    requires Valid(p)
    ensures Parse(ToString(p)) == p
  {
    PrintedTail(p);
    ParseAfterDevice(p.device, TailText(p.absolute, p.segments));
  }

  /** The path part of a `file:` URI, a separator before the printed path, parses
      to the same path as the printed path alone. */
  lemma ParseLeadingSeparator(p: Path)
    requires Valid(p) && p.device.Some?
    ensures Parse([Separator] + ToString(p)) == p
  {
    PrintedTail(p);
    ParseAfterSeparatorAndDevice(p.device, TailText(p.absolute, p.segments));
  }
}
