/** The StellaVG format: drawing commands, and the ops into which they are packed. */
module StvgFormat {
  import opened Wrappers
  import opened Bits

  type u8 = x: int | 0 <= x < 0x100
  type i16 = x: int | -0x8000 <= x < 0x8000

  datatype Point = Point(x: i16, y: i16)
  datatype Color = Color(r: u8, g: u8, b: u8, a: u8)

  datatype Cmd =
    | BeginPath
    | Fill
    | MoveTo(p: Point)
    | LineTo(p: Point)
    | QuadBezierTo(a: Point, b: Point)
    | CubicBezierTo(a: Point, b: Point, c: Point)
    | SetFillRgb(color: Color)

  // The op flags, from the first operation to be performed to the last.
  const SET_FILL_RGB_SHIFT: nat := 0
  const FILL_SHIFT: nat := 1
  const BEGIN_PATH_SHIFT: nat := 2
  const CONTOUR_SHIFT: nat := 3

  const BYTES_PER_POINT: nat := 4
  const CONTOUR_HDR_SIZE: nat := BYTES_PER_POINT + 2

  /** The control points of a contour after its start: whether each is on the curve,
      and where it is. */
  type Points = seq<(bool, Point)>

  datatype Contour = Contour(start: Point, points: Points)

  /** Operations that are packed together, performed in this order. */
  datatype Op = Op(color: Option<Color>, fill: bool, begin: bool, contour: Option<Contour>)

  const EMPTY_OP: Op := Op(None, false, false, None)

  // ----- curve segments -----------------------------------------------------------

  predicate IsCurve(cmd: Cmd) {
    cmd.LineTo? || cmd.QuadBezierTo? || cmd.CubicBezierTo?
  }

  /** The control points of a curve segment; the last one only is on the curve. */
  function PointsOf(cmd: Cmd): (r: Points)
    requires IsCurve(cmd)
  {
    match cmd
    case LineTo(p) => [(true, p)]
    case QuadBezierTo(a, b) => [(false, a), (true, b)]
    case CubicBezierTo(a, b, c) => [(false, a), (false, b), (true, c)]
  }

  /** The segment at the front of a number of control points. */
  function FirstCurve(pts: Points): Option<Cmd> {
    if |pts| >= 1 && pts[0].0 then Some(LineTo(pts[0].1))
    else if |pts| >= 2 && pts[1].0 then Some(QuadBezierTo(pts[0].1, pts[1].1))
    else if |pts| >= 3 && pts[2].0 then Some(CubicBezierTo(pts[0].1, pts[1].1, pts[2].1))
    else None
  }

  lemma {:induction false} FirstCurvePoints(pts: Points)
    requires FirstCurve(pts).Some?
    ensures var c := FirstCurve(pts).value;
            IsCurve(c) && |PointsOf(c)| <= |pts| && pts[..|PointsOf(c)|] == PointsOf(c)
  {
  }

  /** The control points make up whole segments. */
  predicate Whole(pts: Points)
    decreases |pts|
  {
    pts == [] || (FirstCurve(pts).Some? && (FirstCurvePoints(pts); Whole(pts[|PointsOf(FirstCurve(pts).value)|..])))
  }

  /** The segments that control points make up. */
  function Curves(pts: Points): seq<Cmd>
    requires Whole(pts)
    decreases |pts|
  {
    if pts == [] then [] else
      FirstCurvePoints(pts);
      [FirstCurve(pts).value] + Curves(pts[|PointsOf(FirstCurve(pts).value)|..])
  }

  /** More points after the first segment do not change it. */
  lemma {:induction false} FirstCurveStays(pts: Points, more: Points)
    requires FirstCurve(pts).Some?
    ensures FirstCurve(pts + more) == FirstCurve(pts)
  {
  }

  lemma {:induction false} OneCurve(cmd: Cmd)
    requires IsCurve(cmd)
    ensures Whole(PointsOf(cmd)) && Curves(PointsOf(cmd)) == [cmd]
  {
    var pts := PointsOf(cmd);
    assert FirstCurve(pts) == Some(cmd) && pts[|pts|..] == [];
    assert Whole([]) && Curves([]) == [];
  }

  /** Segments are added at the end. */
  lemma {:induction false} CurvesAppend(pts: Points, cmd: Cmd)
    requires Whole(pts) && IsCurve(cmd)
    ensures Whole(pts + PointsOf(cmd)) && Curves(pts + PointsOf(cmd)) == Curves(pts) + [cmd]
    decreases |pts|
  {
    var last := PointsOf(cmd);
    if pts == [] {
      OneCurve(cmd);
      assert pts + last == last;
    } else {
      FirstCurvePoints(pts);
      FirstCurveStays(pts, last);
      var c := FirstCurve(pts).value;
      var k := |PointsOf(c)|;
      hide FirstCurve, PointsOf;
      CurvesAppend(pts[k..], cmd);
      assert (pts + last)[k..] == pts[k..] + last;
      assert [c] + (Curves(pts[k..]) + [cmd]) == [c] + Curves(pts[k..]) + [cmd];
    }
  }

  // ----- bytes --------------------------------------------------------------------

  /** Two bytes, the low one first (`to_le_bytes`). */
  function Le16(v: nat): seq<u8>
    requires v < 0x10000
  {
    [v % 0x100, v / 0x100]
  }

  function FromLe16(a: u8, b: u8): nat {
    a + 0x100 * b
  }

  /** The bits of a negative number are those of its two's complement. */
  function Unsigned(v: i16): nat {
    if v < 0 then v + 0x10000 else v
  }

  function Signed(v: nat): i16
    requires v < 0x10000
  {
    if v < 0x8000 then v else v - 0x10000
  }

  function PointBytes(p: Point): seq<u8> {
    Le16(Unsigned(p.x)) + Le16(Unsigned(p.y))
  }

  /** The bytes of a point in two's complement, the low one of a coordinate first. */
  lemma {:induction false} PointBytesAre(p: Point)
    ensures PointBytes(p) == [p.x % 0x100, p.x / 0x100 % 0x100, p.y % 0x100, p.y / 0x100 % 0x100]
  {
  }

  function PointAt(d: seq<u8>): Point
    requires |d| >= BYTES_PER_POINT
  {
    Point(Signed(FromLe16(d[0], d[1])), Signed(FromLe16(d[2], d[3])))
  }

  lemma {:induction false} Le16RoundTrip(v: i16)
    ensures FromLe16(Le16(Unsigned(v))[0], Le16(Unsigned(v))[1]) == Unsigned(v) && Signed(Unsigned(v)) == v
  {
  }

  lemma {:induction false} PointRoundTrip(p: Point, rest: seq<u8>)
    ensures PointAt(PointBytes(p) + rest) == p
  {
    Le16RoundTrip(p.x);
    Le16RoundTrip(p.y);
  }

  function ColorBytes(c: Color): seq<u8> {
    [c.r, c.g, c.b, c.a]
  }

  function AllPointBytes(pts: Points): (r: seq<u8>)
    ensures |r| == BYTES_PER_POINT * |pts|
    decreases |pts|
  {
    if pts == [] then [] else PointBytes(pts[0].1) + AllPointBytes(pts[1..])
  }

  /** The on-curve flags of up to eight points, one bit each. */
  function FlagByte(chunk: Points): (r: u8)
    requires |chunk| <= 8
    ensures r < Pow2(|chunk|)
    decreases |chunk|
  {
    assert Pow2(8) == 0x100;
    if chunk == [] then 0 else
      Pow2Up(|chunk|, 8);
      (if chunk[0].0 then 1 else 0) + 2 * FlagByte(chunk[1..])
  }

  lemma {:induction false} FlagBit(chunk: Points, i: nat)
    requires i < |chunk| <= 8
    ensures BitAt(FlagByte(chunk), i) == chunk[i].0
    decreases i
  {
    if i > 0 {
      FlagBit(chunk[1..], i - 1);
    }
  }

  function Min(a: nat, b: nat): nat {
    if a < b then a else b
  }

  function FlagBytes(pts: Points): (r: seq<u8>)
    ensures |r| == (|pts| + 7) / 8
    decreases |pts|
  {
    if pts == [] then [] else [FlagByte(pts[..Min(8, |pts|)])] + FlagBytes(pts[Min(8, |pts|)..])
  }

  lemma {:induction false} FlagBytesAt(pts: Points, i: nat)
    requires i < |pts|
    ensures i / 8 < |FlagBytes(pts)| && BitAt(FlagBytes(pts)[i / 8], i % 8) == pts[i].0
    decreases i
  {
    hide BitAt, FlagByte;
    var k := Min(8, |pts|);
    if i < 8 {
      FlagBit(pts[..k], i);
    } else {
      FlagBytesAt(pts[8..], i - 8);
    }
  }

  /** The flags of an op. */
  function OpByte(op: Op): u8 {
    (if op.color.Some? then 1 else 0) + (if op.fill then 2 else 0) + (if op.begin then 4 else 0)
        + (if op.contour.Some? then 8 else 0)
  }

  /** The number of points is cut down to 16 bits. */
  function ContourBytes(c: Contour): seq<u8> {
    PointBytes(c.start) + Le16(|c.points| % 0x10000) + FlagBytes(c.points) + AllPointBytes(c.points)
  }

  function OpBytes(op: Op): seq<u8> {
    [OpByte(op)] + (if op.color.Some? then ColorBytes(op.color.value) else [])
    + (if op.contour.Some? then ContourBytes(op.contour.value) else [])
  }

  function OpsBytes(ops: seq<Op>): seq<u8>
    decreases |ops|
  {
    if ops == [] then [] else OpBytes(ops[0]) + OpsBytes(ops[1..])
  }

  lemma {:induction false} OpsBytesConcat(a: seq<Op>, b: seq<Op>)
    ensures OpsBytes(a + b) == OpsBytes(a) + OpsBytes(b)
    decreases |a|
  {
    if a == [] {
      assert a + b == b;
    } else {
      assert (a + b)[0] == a[0] && (a + b)[1..] == a[1..] + b;
      OpsBytesConcat(a[1..], b);
    }
  }

  lemma {:induction false} AllPointBytesAppend(a: Points, x: (bool, Point))
    ensures AllPointBytes(a + [x]) == AllPointBytes(a) + PointBytes(x.1)
    decreases |a|
  {
    if a == [] {
      assert a + [x] == [x];
      assert AllPointBytes([x]) == PointBytes(x.1) + AllPointBytes([]);
    } else {
      assert (a + [x])[0] == a[0] && (a + [x])[1..] == a[1..] + [x];
      AllPointBytesAppend(a[1..], x);
    }
  }

  /** Another flag sets the next bit. */
  lemma {:induction false} FlagByteAppend(a: Points, x: (bool, Point))
    requires |a| < 8
    ensures FlagByte(a + [x]) == FlagByte(a) + (if x.0 then Pow2(|a|) else 0)
    decreases |a|
  {
    if a == [] {
      assert (a + [x])[1..] == [];
    } else {
      assert (a + [x])[0] == a[0] && (a + [x])[1..] == a[1..] + [x];
      FlagByteAppend(a[1..], x);
    }
  }

  /** The flags of whole groups of eight points come first. */
  lemma {:induction false} FlagBytesAppend(a: Points, b: Points)
    requires |a| % 8 == 0 && 0 < |b| <= 8
    ensures FlagBytes(a + b) == FlagBytes(a) + [FlagByte(b)]
    decreases |a|
  {
    if a == [] {
      assert a + b == b && b[..|b|] == b && b[|b|..] == [];
    } else {
      assert (a + b)[..8] == a[..8] && (a + b)[8..] == a[8..] + b;
      FlagBytesAppend(a[8..], b);
    }
  }
}
