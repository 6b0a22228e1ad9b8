/** Which bytes the decoder takes for valid: it panics for all others. */
module StvgValidity {
  import opened Wrappers
  import opened Bits
  import opened StvgFormat
  import opened StvgDecoder
  import opened StvgRoundTrip

  // ----- valid data ---------------------------------------------------------------

  /** Whether control point `i` is on the curve. */
  predicate OnCurve(flags: seq<u8>, i: nat)
    requires i / 8 < |flags|
  {
    BitAt(flags[i / 8], i % 8)
  }

  /** The points from `i` on make up segments of one, two or three points: the last one
      is on the curve, and of three in a row at least one. */
  ghost predicate WholeRuns(flags: seq<u8>, i: nat, n: nat)
    requires i <= n <= 8 * |flags|
  {
    && (i < n ==> OnCurve(flags, n - 1))
    && forall j :: i <= j < n - 2 ==> OnCurve(flags, j) || OnCurve(flags, j + 1) || OnCurve(flags, j + 2)
  }

  /** The number of points of the contour at `h`. */
  function NumPoints(b: seq<u8>, h: nat): nat
    requires h + 6 <= |b|
  {
    var low: int, high: int := b[h + 4], b[h + 5];
    low + 0x100 * high
  }

  function ContourEnd(b: seq<u8>, h: nat): nat
    requires h + 6 <= |b|
  {
    h + 6 + (NumPoints(b, h) + 7) / 8 + 4 * NumPoints(b, h)
  }

  /** A start, a number of points, a flag for each and where each is, in whole segments. */
  ghost predicate ContourOk(b: seq<u8>, h: nat) {
    && h + 6 <= |b| && ContourEnd(b, h) <= |b|
    && WholeRuns(b[h + 6..h + 6 + (NumPoints(b, h) + 7) / 8], 0, NumPoints(b, h))
  }

  /** A number of ops: known flags, at least one, then the color and the contour that
      they announce. */
  ghost predicate ValidData(b: seq<u8>)
    decreases |b|
  {
    b == []
    || (&& 0 < b[0] < 16
        && var h := 1 + if b[0] % 2 == 1 then 4 else 0;
           if b[0] < 8 then h <= |b| && ValidData(b[h..])
           else ContourOk(b, h) && ValidData(b[ContourEnd(b, h)..]))
  }

  // ----- control points -----------------------------------------------------------

  /** How many points the next segment takes, if there is one. */
  ghost function RunLength(flags: seq<u8>, i: nat, n: nat): Option<nat>
    requires i < n <= 8 * |flags|
  {
    if OnCurve(flags, i) then Some(1)
    else if i + 1 < n && OnCurve(flags, i + 1) then Some(2)
    else if i + 2 < n && OnCurve(flags, i + 2) then Some(3)
    else None
  }

  lemma {:induction false} NextRun(flags: seq<u8>, i: nat, n: nat)
    requires i < n <= 8 * |flags|
    ensures WholeRuns(flags, i, n) <==>
            var k := RunLength(flags, i, n); k.Some? && i + k.value <= n && WholeRuns(flags, i + k.value, n)
  {
    hide OnCurve;
    if i + 2 < n && WholeRuns(flags, i, n) {
      assert OnCurve(flags, i) || OnCurve(flags, i + 1) || OnCurve(flags, i + 2);
    }
  }

  lemma {:induction false} GatherOne(points: seq<u8>, flags: seq<u8>, i: nat, n: nat, cps: seq<Point>)
    requires i <= n <= 8 * |flags| && |points| == 4 * (n - i) && |cps| < 3
    ensures i == n ==> Gather(points, flags, i, cps).None?
    ensures i < n ==>
              Gather(points, flags, i, cps) ==
              if OnCurve(flags, i) then Some(Gathered(cps + [PointAt(points)], points[4..], i + 1))
              else Gather(points[4..], flags, i + 1, cps + [PointAt(points)])
  {
  }

  lemma {:induction false} GatherRun(points: seq<u8>, flags: seq<u8>, i: nat, n: nat)
    requires i < n <= 8 * |flags| && |points| == 4 * (n - i)
    ensures var g, k := Gather(points, flags, i, []), RunLength(flags, i, n);
            && (g.Some? <==> k.Some?)
            && (k.Some? ==> g.value.index == i + k.value && |g.value.points| == 4 * (n - i - k.value))
  {
    hide OnCurve, PointAt, Gather;
    var p := [PointAt(points)];
    GatherOne(points, flags, i, n, []);
    if !OnCurve(flags, i) {
      GatherOne(points[4..], flags, i + 1, n, [] + p);
      if i + 1 < n && !OnCurve(flags, i + 1) {
        var q := [] + p + [PointAt(points[4..])];
        GatherOne(points[4..][4..], flags, i + 2, n, q);
        if i + 2 < n && !OnCurve(flags, i + 2) {
          GatherFull(points[4..][4..][4..], flags, i + 3, q + [PointAt(points[4..][4..])]);
        }
      }
    }
  }

  lemma {:induction false} GatherFull(points: seq<u8>, flags: seq<u8>, i: nat, cps: seq<Point>)
    requires |cps| >= 3
    ensures Gather(points, flags, i, cps).None?
  {
  }

  /** The control points of a contour are taken if and only if they make up whole
      segments. */
  lemma {:induction false} RunsTaken(d: Dec, n: nat)
    requires DecOk(d) && d.index <= n <= 8 * |d.flags| && |d.points| == 4 * (n - d.index)
    ensures DecodeAll(d).ok <==>
            WholeRuns(d.flags, d.index, n) && DecodeAll(d.(points := [], index := n)).ok
    decreases n - d.index
  {
    if d.index == n {
      assert d.(points := [], index := n) == d;
    } else {
      GatherRun(d.points, d.flags, d.index, n);
      NextRun(d.flags, d.index, n);
      hide Gather, RunLength, WholeRuns, CurveOf;
      var g := Gather(d.points, d.flags, d.index, []);
      if g.Some? {
        var e := d.(points := g.value.points, index := g.value.index);
        assert Step(d) == Yield(CurveOf(g.value.cps), e);
        Unfold(d, CurveOf(g.value.cps), e);
        RunsTaken(e, n);
        assert e.(points := [], index := n) == d.(points := [], index := n);
      }
    }
  }

  // ----- ops ----------------------------------------------------------------------

  /** The rest of the data is valid, where the flags left of the current op are `op` and
      its parameters go on at `p`. */
  ghost predicate RestOk(b: seq<u8>, op: u8, p: nat)
    requires 0 < p
    decreases op
  {
    if p > |b| then false
    else if op == 0 then ValidData(b[p..])
    else
      var next, more := TrailingZeros(op), WithoutLowest(op);
      if next == SET_FILL_RGB_SHIFT then RestOk(b, more, p + 4)
      else if next == FILL_SHIFT || next == BEGIN_PATH_SHIFT then RestOk(b, more, p)
      else next == CONTOUR_SHIFT && ContourOk(b, p) && RestOk(b, more, ContourEnd(b, p))
  }

  /** Flags that are not known. */
  lemma {:induction false} UnknownFlag(b: seq<u8>, op: u8, p: nat)
    requires 0 < p && op >= 16
    ensures !RestOk(b, op, p)
    decreases op
  {
    var next, more := TrailingZeros(op), WithoutLowest(op);
    if next <= 3 {
      LowFlag(op);
      hide ValidData, ContourOk;
      if p <= |b| {
        if next == 0 {
          UnknownFlag(b, more, p + 4);
        } else if next <= 2 {
          UnknownFlag(b, more, p);
        } else if ContourOk(b, p) {
          UnknownFlag(b, more, ContourEnd(b, p));
        }
      }
    }
  }

  lemma {:induction false} LowFlag(op: u8)
    requires op >= 16 && TrailingZeros(op) <= 3
    ensures WithoutLowest(op) >= 16
  {
    LowestOf(op);
  }

  lemma {:induction false} ZerosOf(op: nat)
    requires op != 0
    ensures if op % 2 == 1 then TrailingZeros(op) == 0
            else if op % 4 == 2 then TrailingZeros(op) == 1
            else if op % 8 == 4 then TrailingZeros(op) == 2
            else if op % 16 == 8 then TrailingZeros(op) == 3
            else TrailingZeros(op) > 3
  {
    if op % 2 == 0 {
      assert TrailingZeros(op) == 1 + TrailingZeros(op / 2);
      if op % 4 == 0 {
        assert TrailingZeros(op / 2) == 1 + TrailingZeros(op / 4);
        if op % 8 == 0 {
          assert TrailingZeros(op / 4) == 1 + TrailingZeros(op / 8);
        }
      }
    }
  }

  /** The lowest flag of an op, and what is left without it. */
  lemma {:induction false} LowestOf(op: u8)
    requires op != 0
    ensures if op % 2 == 1 then TrailingZeros(op) == 0 && WithoutLowest(op) == op - 1
            else if op % 4 == 2 then TrailingZeros(op) == 1 && WithoutLowest(op) == op - 2
            else if op % 8 == 4 then TrailingZeros(op) == 2 && WithoutLowest(op) == op - 4
            else if op % 16 == 8 then TrailingZeros(op) == 3 && WithoutLowest(op) == op - 8
            else TrailingZeros(op) > 3
  {
    ZerosOf(op);
    hide TrailingZeros;
    assert Pow2(0) == 1 && Pow2(1) == 2 && Pow2(2) == 4 && Pow2(3) == 8;
  }

  /** Flags that have no parameters make no difference. */
  lemma {:induction false} WithoutMiddle(b: seq<u8>, op: u8, p: nat)
    requires 0 < p && op < 16 && op % 2 == 0
    ensures RestOk(b, op, p) == RestOk(b, if op >= 8 then 8 else 0, p)
    decreases op
  {
    if op != 0 && op != 8 && p <= |b| {
      LowestOf(op);
      hide TrailingZeros, WithoutLowest, ValidData, ContourOk;
      WithoutMiddle(b, WithoutLowest(op), p);
    }
  }

  lemma {:induction false} OnlyContour(b: seq<u8>, p: nat)
    requires 0 < p
    ensures RestOk(b, 0, p) <==> p <= |b| && ValidData(b[p..])
    ensures RestOk(b, 8, p) <==> ContourOk(b, p) && ValidData(b[ContourEnd(b, p)..])
  {
    LowestOf(8);
    hide TrailingZeros, WithoutLowest, ValidData, WholeRuns;
    if ContourOk(b, p) {
      assert RestOk(b, 0, ContourEnd(b, p)) == ValidData(b[ContourEnd(b, p)..]);
    }
  }

  /** Taking one flag after the other amounts to the description of valid data. */
  lemma {:induction false} RestIs(b: seq<u8>)
    requires b != []
    ensures b[0] != 0 && RestOk(b, b[0], 1) <==> ValidData(b)
  {
    var op := b[0];
    if op >= 16 {
      UnknownFlag(b, op, 1);
    } else if op != 0 {
      LowestOf(op);
      var p, even: u8 := 1 + if op % 2 == 1 then 4 else 0, if op % 2 == 1 then op - 1 else op;
      WithoutMiddle(b, even, p);
      OnlyContour(b, p);
      assert RestOk(b, op, 1) == RestOk(b, even, p) by {
        hide ValidData, ContourOk;
      }
    }
  }

  // ----- the decoder --------------------------------------------------------------

  /** What the decoder does with the lowest flag: it panics, or it goes on behind the
      parameters of that flag, with the control points if it was that of a contour. */
  lemma {:induction false} FlagTaken(d: Dec)
    requires DecOk(d) && d.op != 0 && |d.points| < 4 && d.paramLen <= |d.data|
    ensures Step(d).Panic? ==> !RestOk(d.data, d.op, d.paramLen)
    ensures !Step(d).Done?
    ensures Step(d).Yield? ==>
              var f := Step(d).d;
              && f.op < d.op && f.data == (if f.op == 0 then d.data[f.paramLen..] else d.data)
              && 0 < f.paramLen <= |d.data|
              && if TrailingZeros(d.op) == CONTOUR_SHIFT
                 then && |d.data| >= d.paramLen + 6
                      && var n := NumPoints(d.data, d.paramLen);
                      && f.index == 0 && |f.points| == 4 * n <= 32 * |f.flags|
                      && (RestOk(d.data, d.op, d.paramLen) <==>
                          WholeRuns(f.flags, 0, n) && RestOk(d.data, f.op, f.paramLen))
                 else f.points == d.points && (RestOk(d.data, d.op, d.paramLen) <==> RestOk(d.data, f.op, f.paramLen))
  {
    hide ValidData, WholeRuns, TrailingZeros, WithoutLowest, Gather, PointAt;
    if TrailingZeros(d.op) == CONTOUR_SHIFT {
      ContourTaken(d.(op := WithoutLowest(d.op)));
      hide ContourParams, ContourOk, ContourEnd, NumPoints;
    } else {
      hide ContourOk, ContourStep;
    }
  }

  lemma {:induction false} ContourTaken(d: Dec)
    ensures ContourParams(d).Some? <==>
            d.paramLen + 6 <= |d.data| && ContourEnd(d.data, d.paramLen) <= |d.data|
    ensures ContourParams(d).Some? ==>
              var e, n := ContourParams(d).value, NumPoints(d.data, d.paramLen);
              && e.data == d.data && e.op == d.op && e.paramLen == ContourEnd(d.data, d.paramLen)
              && e.index == 0 && |e.points| == 4 * n <= 32 * |e.flags|
              && (ContourOk(d.data, d.paramLen) <==> WholeRuns(e.flags, 0, n))
  {
    hide WholeRuns;
  }

  /** The decoder goes on without a panic if and only if the rest of the data is valid. */
  lemma {:induction false} RestDecodes(d: Dec)
    requires DecOk(d) && d.points == [] && (d.op != 0 ==> d.paramLen <= |d.data|)
    ensures DecodeAll(d).ok <==> if d.op == 0 then ValidData(d.data) else RestOk(d.data, d.op, d.paramLen)
    decreases |d.data|, Rank(d)
  {
    if d.op != 0 {
      FlagTaken(d);
      hide RestOk, WholeRuns, OpStep, NumPoints;
      if Step(d).Yield? {
        var f := Step(d).d;
        Unfold(d, Step(d).cmd, f);
        if TrailingZeros(d.op) == CONTOUR_SHIFT {
          var n := NumPoints(d.data, d.paramLen);
          RunsTaken(f, n);
          f := f.(points := [], index := n);
        }
        RestDecodes(f);
        EndOfOp(d.data, f.paramLen);
      }
    } else if d.data != [] && d.data[0] != 0 {
      var e := d.(op := d.data[0], paramLen := 1);
      assert Step(e) == Step(d);
      RestDecodes(e);
      RestIs(d.data);
    }
  }

  lemma {:induction false} EndOfOp(b: seq<u8>, p: nat)
    requires 0 < p <= |b|
    ensures RestOk(b, 0, p) <==> ValidData(b[p..])
  {
  }

  /** The decoder gets to the end of the data without a panic if and only if the data is
      valid. */
  lemma {:induction false} DecodesValid(b: seq<u8>)
    ensures DecodeAll(From(b)).ok <==> ValidData(b)
  {
    RestDecodes(From(b));
  }
}
