/** What decoding gives for encoded data: the commands of the ops, and so the same
    picture. */
module StvgRoundTrip {
  import opened Wrappers
  import opened Bits
  import opened StvgFormat
  import opened StvgEncoder
  import opened StvgDecoder

  /** The commands of a contour. */
  function ContourCmds(c: Contour): seq<Cmd>
    requires Whole(c.points)
  {
    [MoveTo(c.start)] + Curves(c.points)
  }

  predicate OpOk(op: Op) {
    op != EMPTY_OP && (op.contour.Some? ==> Whole(op.contour.value.points))
  }

  /** The number of points of a contour can be written down. */
  predicate Fits(op: Op) {
    op.contour.Some? ==> |op.contour.value.points| < 0x10000
  }

  // ----- control points -----------------------------------------------------------

  lemma {:induction false} GatherStep(pts: Points, i: nat, cps: seq<Point>)
    requires i < |pts| && |cps| < 3
    ensures var more, rest := cps + [pts[i].1], AllPointBytes(pts[i + 1..]);
            Gather(AllPointBytes(pts[i..]), FlagBytes(pts), i, cps)
            == if pts[i].0 then Some(Gathered(more, rest, i + 1)) else Gather(rest, FlagBytes(pts), i + 1, more)
  {
    FlagBytesAt(pts, i);
    var rest := AllPointBytes(pts[i + 1..]);
    assert pts[i..][0] == pts[i] && pts[i..][1..] == pts[i + 1..];
    var all := AllPointBytes(pts[i..]);
    assert all == PointBytes(pts[i].1) + rest;
    PointRoundTrip(pts[i].1, rest);
    assert all[BYTES_PER_POINT..] == rest;
  }

  lemma {:induction false} GatherCurve(pts: Points, i: nat)
    requires i < |pts| && FirstCurve(pts[i..]).Some?
    ensures var c := FirstCurve(pts[i..]).value;
            var k := |PointsOf(c)|;
            && i + k <= |pts| && pts[i..][k..] == pts[i + k..]
            && Gather(AllPointBytes(pts[i..]), FlagBytes(pts), i, []).Some?
            && var g := Gather(AllPointBytes(pts[i..]), FlagBytes(pts), i, []).value;
               CurveOf(g.cps) == c && g.points == AllPointBytes(pts[i + k..]) && g.index == i + k
  {
    hide Gather, AllPointBytes, FlagBytes;
    GatherStep(pts, i, []);
    if !pts[i].0 {
      GatherStep(pts, i + 1, [pts[i].1]);
      assert [] + [pts[i].1] == [pts[i].1];
      if !pts[i + 1].0 {
        GatherStep(pts, i + 2, [pts[i].1] + [pts[i + 1].1]);
      }
    }
  }

  lemma {:induction false} Unfold(d: Dec, cmd: Cmd, e: Dec)
    requires DecOk(d) && Step(d) == Yield(cmd, e)
    ensures DecodeAll(d) == Prepend([cmd], DecodeAll(e))
  {
  }

  lemma {:induction false} PrependTwice(a: seq<Cmd>, b: seq<Cmd>, r: Decoded)
    ensures Prepend(a, Prepend(b, r)) == Prepend(a + b, r)
  {
  }

  lemma {:induction false} StepCurve(pts: Points, i: nat, d: Dec)
    requires i < |pts| && FirstCurve(pts[i..]).Some? && DecOk(d)
    requires d.points == AllPointBytes(pts[i..]) && d.flags == FlagBytes(pts) && d.index == i
    ensures var c := FirstCurve(pts[i..]).value;
            var k := |PointsOf(c)|;
            i + k <= |pts| && Step(d) == Yield(c, d.(points := AllPointBytes(pts[i + k..]), index := i + k))
  {
    hide Gather, FlagBytes, FirstCurve, OpStep, CurveOf;
    GatherCurve(pts, i);
    assert |pts[i..]| >= 1;
  }

  lemma {:induction false} NoPoints(pts: Points)
    requires pts == []
    ensures Whole(pts) && Curves(pts) == [] && AllPointBytes(pts) == []
  {
  }

  lemma {:induction false} CurvesFrom(pts: Points, i: nat)
    requires i < |pts| && Whole(pts[i..])
    ensures FirstCurve(pts[i..]).Some? && IsCurve(FirstCurve(pts[i..]).value)
    ensures var c := FirstCurve(pts[i..]).value;
            var k := |PointsOf(c)|;
            && k > 0 && i + k <= |pts| && Whole(pts[i + k..]) && Curves(pts[i..]) == [c] + Curves(pts[i + k..])
  {
    var c := FirstCurve(pts[i..]).value;
    FirstCurvePoints(pts[i..]);
    assert pts[i..][|PointsOf(c)|..] == pts[i + |PointsOf(c)|..];
  }

  /** The control points of a contour are decoded to its segments. */
  lemma {:induction false} DecodeCurves(pts: Points, i: nat, d: Dec)
    requires i <= |pts| && Whole(pts[i..]) && DecOk(d)
    requires d.points == AllPointBytes(pts[i..]) && d.flags == FlagBytes(pts) && d.index == i
    ensures DecodeAll(d) == Prepend(Curves(pts[i..]), DecodeAll(d.(points := [], index := |pts|)))
    decreases |pts| - i
  {
    hide DecodeAll, Step, FirstCurve, Curves, Whole, FlagBytes, AllPointBytes;
    if i == |pts| {
      NoPoints(pts[i..]);
      assert d.(points := [], index := |pts|) == d;
    } else {
      CurvesFrom(pts, i);
      StepCurve(pts, i, d);
      var c := FirstCurve(pts[i..]).value;
      var k := |PointsOf(c)|;
      var e := d.(points := AllPointBytes(pts[i + k..]), index := i + k);
      Unfold(d, c, e);
      DecodeCurves(pts, i + k, e);
      PrependTwice([c], Curves(pts[i + k..]), DecodeAll(d.(points := [], index := |pts|)));
    }
  }

  // ----- ops ----------------------------------------------------------------------

  lemma {:induction false} StaleContour(d: Dec, e: Dec)
    requires e == d.(flags := e.flags, index := e.index)
    ensures forall op: u8 :: ContourParams(d.(op := op)) == ContourParams(e.(op := op))
  {
    forall op: u8 ensures ContourParams(d.(op := op)) == ContourParams(e.(op := op)) {
      StaleParams(d.(op := op), e.(op := op));
    }
  }

  lemma {:induction false} StaleParams(d: Dec, e: Dec)
    requires e == d.(flags := e.flags, index := e.index)
    ensures ContourParams(d) == ContourParams(e)
  {
    hide FromLe16;
  }

  lemma {:induction false} StaleStep(d: Dec, e: Dec)
    requires DecOk(d) && DecOk(e) && d.points == []
             && e == d.(flags := e.flags, index := e.index, paramLen := e.paramLen)
    requires d.op != 0 ==> e.paramLen == d.paramLen
    ensures Step(d).Done? ==> Step(e).Done?
    ensures Step(d).Panic? ==> Step(e).Panic?
    ensures Step(d).Yield? ==>
              && Step(e).Yield? && Step(e).cmd == Step(d).cmd
              && (Step(e).d == Step(d).d || (Step(d).d.points == []
                  && Step(e).d == Step(d).d.(flags := e.flags, index := e.index)))
  {
    hide PointAt, TrailingZeros, WithoutLowest, Gather, ContourParams;
    if d.data != [] {
      StaleContour(if d.op == 0 then d.(paramLen := 1) else d, if e.op == 0 then e.(paramLen := 1) else e);
    }
  }

  /** Parts of the state that have no meaning any more. */
  lemma {:induction false} Stale(d: Dec, e: Dec)
    requires DecOk(d) && DecOk(e) && d.points == []
             && e == d.(flags := e.flags, index := e.index, paramLen := e.paramLen)
    requires d.op != 0 ==> e.paramLen == d.paramLen
    ensures DecodeAll(d) == DecodeAll(e)
    decreases |d.data|, Rank(d)
  {
    hide Step;
    StaleStep(d, e);
    if Step(d).Yield? && Step(e).d != Step(d).d {
      Stale(Step(d).d, Step(e).d);
    }
  }

  /** The flags of an op from number `k` on, and its commands from there on. */
  function BitsFrom(op: Op, k: nat): u8 {
    (if k <= 0 && op.color.Some? then 1 else 0) + (if k <= 1 && op.fill then 2 else 0)
    + (if k <= 2 && op.begin then 4 else 0) + (if k <= 3 && op.contour.Some? then 8 else 0)
  }

  function CmdsFrom(op: Op, k: nat): seq<Cmd>
    requires OpOk(op)
  {
    (if k <= 0 && op.color.Some? then [SetFillRgb(op.color.value)] else []) + (if k <= 1 && op.fill then [Fill] else [])
    + (if k <= 2 && op.begin then [BeginPath] else [])
        + (if k <= 3 && op.contour.Some? then ContourCmds(op.contour.value) else [])
  }

  /** Where the parameters of flag number `k` are. */
  function ParamsAt(op: Op, k: nat): nat {
    1 + if k > 0 && op.color.Some? then 4 else 0
  }

  function At(op: Op, rest: seq<u8>, k: nat, paramLen: nat): Dec {
    Dec(OpBytes(op) + rest, BitsFrom(op, k), paramLen, [], [], 0)
  }

  lemma {:induction false} ContourSlices(c: Contour, a: seq<u8>, rest: seq<u8>)
    requires |c.points| < 0x10000
    ensures var d, n := a + ContourBytes(c) + rest, |c.points|;
            var f := |a| + CONTOUR_HDR_SIZE;
            var p := f + (n + 7) / 8;
            && p + n * BYTES_PER_POINT <= |d| && FromLe16(d[|a| + 4], d[|a| + 5]) == n && PointAt(d[|a|..]) == c.start
            && d[f..p] == FlagBytes(c.points) && d[p..p + n * BYTES_PER_POINT] == AllPointBytes(c.points)
            && d[p + n * BYTES_PER_POINT..] == rest
  {
    hide FlagBytes, AllPointBytes, PointAt, FromLe16;
    var n := |c.points|;
    var h, fl, pb := PointBytes(c.start) + Le16(n), FlagBytes(c.points), AllPointBytes(c.points);
    assert |h| == 6 && h[4] == Le16(n)[0] && h[5] == Le16(n)[1];
    assert a + ContourBytes(c) + rest == a + h + fl + pb + rest by {
      Regroup(a, PointBytes(c.start), Le16(n), fl, pb, rest);
    }
    assert h + (fl + pb + rest) == PointBytes(c.start) + (Le16(n) + (fl + pb + rest)) by {
      Regroup([], PointBytes(c.start), Le16(n), fl, pb, rest);
    }
    hide ContourBytes, PointBytes, Le16;
    Pieces(a, h, fl, pb, rest);
    PointRoundTrip(c.start, Le16(n) + (fl + pb + rest));
    LengthRoundTrip(n);
  }

  lemma {:induction false} Regroup(a: seq<u8>, p: seq<u8>, l: seq<u8>, f: seq<u8>, q: seq<u8>, rest: seq<u8>)
    ensures a + (p + l + f + q) + rest == a + (p + l) + f + q + rest
    ensures p + l + (f + q + rest) == p + (l + (f + q + rest))
  {
  }

  lemma {:induction false} LengthRoundTrip(n: nat)
    requires n < 0x10000
    ensures FromLe16(Le16(n)[0], Le16(n)[1]) == n
  {
  }

  lemma {:induction false} Pieces(a: seq<u8>, h: seq<u8>, f: seq<u8>, p: seq<u8>, rest: seq<u8>)
    requires |h| == 6
    ensures var d := a + h + f + p + rest;
            && d[|a|..] == h + (f + p + rest) && d[|a| + 4] == h[4] && d[|a| + 5] == h[5]
            && d[|a| + 6..|a| + 6 + |f|] == f && d[|a| + 6 + |f|..|a| + 6 + |f| + |p|] == p
            && d[|a| + 6 + |f| + |p|..] == rest
  {
  }

  /** The decoder at the data of a contour. */
  lemma {:induction false} ContourAt(d: Dec, a: seq<u8>, c: Contour, rest: seq<u8>) returns (e: Dec)
    requires d.data == a + ContourBytes(c) + rest && d.op == 0 && d.paramLen == |a| && |c.points| < 0x10000
    ensures e == Dec(rest, 0, e.paramLen, FlagBytes(c.points), AllPointBytes(c.points), 0)
    ensures ContourStep(d) == Yield(MoveTo(c.start), e)
  {
    ContourSlices(c, a, rest);
    hide FlagBytes, AllPointBytes, PointAt, FromLe16, ContourBytes;
    e := Dec(rest, 0, |a| + CONTOUR_HDR_SIZE + (|c.points| + 7) / 8 + |c.points| * BYTES_PER_POINT,
             FlagBytes(c.points), AllPointBytes(c.points), 0);
  }

  /** The decoder at the contour of an op, and after its start. */
  lemma {:induction false} StepContour(op: Op, rest: seq<u8>) returns (e: Dec)
    requires OpOk(op) && Fits(op) && op.contour.Some?
    ensures var c := op.contour.value;
            && e == Dec(rest, 0, e.paramLen, FlagBytes(c.points), AllPointBytes(c.points), 0)
            && Step(At(op, rest, 3, ParamsAt(op, 3))) == Yield(MoveTo(c.start), e)
  {
    var c := op.contour.value;
    var a := [OpByte(op)] + if op.color.Some? then ColorBytes(op.color.value) else [];
    assert OpBytes(op) + rest == a + ContourBytes(c) + rest;
    FlagZeros(8, 3);
    var d := At(op, rest, 3, ParamsAt(op, 3));
    assert d.op == 8 && d.data != [] && WithoutLowest(d.op) == 0;
    hide OpBytes, ContourBytes, ContourStep, FlagBytes, AllPointBytes, OpOk, At, WithoutLowest, TrailingZeros;
    e := ContourAt(d.(op := 0), a, c, rest);
  }

  lemma {:induction false} DecodeContour(op: Op, rest: seq<u8>)
    requires OpOk(op) && Fits(op) && op.contour.Some?
    ensures DecodeAll(At(op, rest, 3, ParamsAt(op, 3))) == Prepend(CmdsFrom(op, 3), DecodeAll(From(rest)))
  {
    var c := op.contour.value;
    var e := StepContour(op, rest);
    hide DecodeAll, Step, Whole, Curves, FlagBytes, AllPointBytes, OpBytes;
    Unfold(At(op, rest, 3, ParamsAt(op, 3)), MoveTo(c.start), e);
    assert c.points[0..] == c.points;
    DecodeCurves(c.points, 0, e);
    Stale(e.(points := [], index := |c.points|), From(rest));
    PrependTwice([MoveTo(c.start)], Curves(c.points), DecodeAll(From(rest)));
    assert CmdsFrom(op, 3) == ContourCmds(c);
  }

  /** The size of the data of an op without a contour. */
  lemma {:induction false} NoContour(op: Op, rest: seq<u8>)
    requires op.contour.None?
    ensures |OpBytes(op)| == ParamsAt(op, 3) && (OpBytes(op) + rest)[ParamsAt(op, 3)..] == rest
  {
  }

  /** The flag number `k` of an op is dealt with; `paramLen` is what it leaves. */
  lemma {:induction false} DecodeFlag(op: Op, rest: seq<u8>, k: nat, cmd: Cmd)
    requires OpOk(op) && Fits(op) && k < 3
    requires Step(At(op, rest, k, ParamsAt(op, k))) == Advance(cmd, At(op, rest, k + 1, ParamsAt(op, k + 1)))
    requires CmdsFrom(op, k) == [cmd] + CmdsFrom(op, k + 1)
    requires BitsFrom(op, k + 1) != 0 ==>
               DecodeAll(At(op, rest, k + 1, ParamsAt(op, k + 1)))
                   == Prepend(CmdsFrom(op, k + 1), DecodeAll(From(rest)))
    ensures DecodeAll(At(op, rest, k, ParamsAt(op, k))) == Prepend(CmdsFrom(op, k), DecodeAll(From(rest)))
  {
    hide Step;
    var d, e := At(op, rest, k, ParamsAt(op, k)), At(op, rest, k + 1, ParamsAt(op, k + 1));
    if e.op != 0 {
      Unfold(d, cmd, e);
      hide DecodeAll;
      PrependTwice([cmd], CmdsFrom(op, k + 1), DecodeAll(From(rest)));
    } else {
      NoContour(op, rest);
      var f := e.(data := rest);
      Unfold(d, cmd, f);
      hide DecodeAll;
      Stale(f, From(rest));
      assert CmdsFrom(op, k + 1) == [];
    }
  }

  predicate HasFlag(op: Op, k: nat) {
    (k == 0 && op.color.Some?) || (k == 1 && op.fill) || (k == 2 && op.begin)
  }

  lemma {:induction false} LowestFlag(op: Op, k: nat)
    requires HasFlag(op, k)
    ensures BitsFrom(op, k) != 0 && TrailingZeros(BitsFrom(op, k)) == k
            && WithoutLowest(BitsFrom(op, k)) == BitsFrom(op, k + 1)
  {
    FlagZeros(BitsFrom(op, k), k);
  }

  lemma {:induction false} FlagZeros(v: nat, k: nat)
    requires v > 0
    ensures k == 0 && v % 2 == 1 ==> TrailingZeros(v) == 0 && Pow2(0) == 1
    ensures k == 1 && v % 2 == 0 && v / 2 % 2 == 1 ==> TrailingZeros(v) == 1 && Pow2(1) == 2
    ensures k == 2 && v % 2 == 0 && v / 2 % 2 == 0 && v / 2 / 2 % 2 == 1 ==> TrailingZeros(v) == 2 && Pow2(2) == 4
    ensures k == 3 && v == 8 ==> TrailingZeros(v) == 3 && Pow2(3) == 8
  {
    assert Pow2(1) == 2 && Pow2(2) == 4;
    if v % 2 == 0 && v / 2 % 2 == 0 {
      assert TrailingZeros(v) == 2 + TrailingZeros(v / 2 / 2);
    }
    assert TrailingZeros(1) == 0 && TrailingZeros(2) == 1 && TrailingZeros(4) == 2;
  }

  function FlagCmd(op: Op, k: nat): Cmd
    requires HasFlag(op, k)
  {
    if k == 0 then SetFillRgb(op.color.value) else if k == 1 then Fill else BeginPath
  }

  lemma {:induction false} ColorParams(op: Op, rest: seq<u8>)
    requires op.color.Some?
    ensures var d := OpBytes(op) + rest;
            |d| >= 5 && Color(d[1..][0], d[1..][1], d[1..][2], d[1..][3]) == op.color.value
  {
    hide ContourBytes;
  }

  lemma {:induction false} StepFlag(op: Op, rest: seq<u8>, k: nat)
    requires HasFlag(op, k)
    ensures Step(At(op, rest, k, ParamsAt(op, k))) == Advance(FlagCmd(op, k), At(op, rest, k + 1, ParamsAt(op, k + 1)))
  {
    hide BitsFrom, TrailingZeros, WithoutLowest, OpBytes, ContourStep, Gather;
    LowestFlag(op, k);
    OpBytesThere(op, rest);
    if k == 0 {
      ColorParams(op, rest);
    }
  }

  lemma {:induction false} OpBytesThere(op: Op, rest: seq<u8>)
    ensures OpBytes(op) + rest != []
  {
  }

  lemma {:induction false} CmdsFromFlag(op: Op, k: nat)
    requires OpOk(op) && k < 3
    ensures CmdsFrom(op, k) == (if HasFlag(op, k) then [FlagCmd(op, k)] else []) + CmdsFrom(op, k + 1)
    ensures !HasFlag(op, k) ==> BitsFrom(op, k) == BitsFrom(op, k + 1) && ParamsAt(op, k) == ParamsAt(op, k + 1)
  {
    hide ContourCmds;
  }

  lemma {:induction false} DecodeFrom(op: Op, rest: seq<u8>, k: nat)
    requires OpOk(op) && Fits(op) && k <= 3 && BitsFrom(op, k) != 0
    ensures DecodeAll(At(op, rest, k, ParamsAt(op, k))) == Prepend(CmdsFrom(op, k), DecodeAll(From(rest)))
    decreases 3 - k
  {
    if k == 3 {
      DecodeContour(op, rest);
    } else {
      hide DecodeAll, Step, CmdsFrom, BitsFrom, HasFlag, OpBytes, ParamsAt;
      if BitsFrom(op, k + 1) != 0 {
        DecodeFrom(op, rest, k + 1);
      }
      CmdsFromFlag(op, k);
      if HasFlag(op, k) {
        StepFlag(op, rest, k);
        DecodeFlag(op, rest, k, FlagCmd(op, k));
      } else {
        assert [] + CmdsFrom(op, k + 1) == CmdsFrom(op, k + 1);
      }
    }
  }

  /** An op is decoded to its commands, and then the data after it is decoded. */
  lemma {:induction false} DecodeOp(op: Op, rest: seq<u8>)
    requires OpOk(op) && Fits(op)
    ensures DecodeAll(From(OpBytes(op) + rest)) == Prepend(CmdsFrom(op, 0), DecodeAll(From(rest)))
  {
    hide DecodeAll, ContourBytes;
    DecodeFrom(op, rest, 0);
    Opened(OpBytes(op) + rest);
  }

  /** The flags of the next op are read. */
  lemma {:induction false} Opened(data: seq<u8>)
    requires data != [] && data[0] != 0
    ensures DecodeAll(From(data)) == DecodeAll(Dec(data, data[0], 1, [], [], 0))
  {
    assert Step(From(data)) == Step(Dec(data, data[0], 1, [], [], 0));
  }

  // ----- lists of ops ---------------------------------------------------------------

  predicate OpsOk(ops: seq<Op>) {
    forall i :: 0 <= i < |ops| ==> OpOk(ops[i])
  }

  predicate OpsFit(ops: seq<Op>) {
    forall i :: 0 <= i < |ops| ==> Fits(ops[i])
  }

  /** The commands that a list of ops stands for. */
  function OpsCmds(ops: seq<Op>): seq<Cmd>
    requires OpsOk(ops)
    decreases |ops|
  {
    if ops == [] then [] else CmdsFrom(ops[0], 0) + OpsCmds(ops[1..])
  }

  /** Encoded ops are decoded to their commands, and then the data after them is
      decoded. */
  lemma {:induction false} DecodeOps(ops: seq<Op>, rest: seq<u8>)
    requires OpsOk(ops) && OpsFit(ops)
    ensures DecodeAll(From(OpsBytes(ops) + rest)) == Prepend(OpsCmds(ops), DecodeAll(From(rest)))
    decreases |ops|
  {
    hide DecodeAll, OpBytes, OpOk, Fits;
    if ops == [] {
      assert [] + rest == rest;
    } else {
      var tail := OpsBytes(ops[1..]) + rest;
      assert OpsBytes(ops) + rest == OpBytes(ops[0]) + tail;
      assert forall i :: 0 <= i < |ops| - 1 ==> ops[1..][i] == ops[i + 1];
      DecodeOp(ops[0], tail);
      DecodeOps(ops[1..], rest);
      PrependTwice(CmdsFrom(ops[0], 0), OpsCmds(ops[1..]), DecodeAll(From(rest)));
    }
  }

  /** All data is consumed, and nothing is read that is not there. */
  lemma {:induction false} DecodeEncoded(ops: seq<Op>)
    requires OpsOk(ops) && OpsFit(ops)
    ensures DecodeAll(From(OpsBytes(ops))) == Decoded(OpsCmds(ops), true)
  {
    DecodeOps(ops, []);
    assert OpsBytes(ops) + [] == OpsBytes(ops);
    assert DecodeAll(From([])) == Decoded([], true);
  }

  /** Decoding encoded data with any data after it gives what the two give one after
      the other. */
  lemma {:induction false} DecodeConcat(a: seq<Op>, rest: seq<u8>)
    requires OpsOk(a) && OpsFit(a)
    ensures DecodeAll(From(OpsBytes(a) + rest)) == Prepend(DecodeAll(From(OpsBytes(a))).cmds, DecodeAll(From(rest)))
  {
    DecodeOps(a, rest);
    DecodeEncoded(a);
  }

  // ----- contours that are too long -------------------------------------------------

  /** Every segment belongs to a contour, which has fewer than 65536 points; `budget`
      is how many points the current one can still have. */
  predicate RunsOk(cmds: seq<Cmd>, budget: nat)
    decreases |cmds|
  {
    if cmds == [] then true
    else if IsCurve(cmds[0]) then |PointsOf(cmds[0])| <= budget && RunsOk(cmds[1..], budget - |PointsOf(cmds[0])|)
    else RunsOk(cmds[1..], if cmds[0].MoveTo? then 0xffff else 0)
  }

  lemma {:induction false} RunsMore(cmds: seq<Cmd>, a: nat, b: nat)
    requires RunsOk(cmds, a) && a <= b
    ensures RunsOk(cmds, b)
    decreases |cmds|
  {
    if cmds != [] && IsCurve(cmds[0]) {
      RunsMore(cmds[1..], a - |PointsOf(cmds[0])|, b - |PointsOf(cmds[0])|);
    }
  }

  lemma {:induction false} StepBudget(d: Dec)
    requires DecOk(d) && Step(d).Yield?
    ensures var cmd, e := Step(d).cmd, Step(d).d;
            var budget, left := |d.points| / BYTES_PER_POINT, |e.points| / BYTES_PER_POINT;
            if IsCurve(cmd) then |PointsOf(cmd)| <= budget && left == budget - |PointsOf(cmd)|
            else if cmd.MoveTo? then left <= 0xffff else left == 0
  {
    hide Gather, PointAt, TrailingZeros, WithoutLowest, ContourParams;
  }

  /** Whatever the data, a decoded contour never has more than 65535 points. */
  lemma {:induction false} DecodedRuns(d: Dec)
    requires DecOk(d)
    ensures RunsOk(DecodeAll(d).cmds, |d.points| / BYTES_PER_POINT)
    decreases |d.data|, Rank(d), |d.points|
  {
    hide Step;
    if Step(d).Yield? {
      var cmd, e := Step(d).cmd, Step(d).d;
      StepBudget(d);
      DecodedRuns(e);
      var cmds := DecodeAll(d).cmds;
      assert cmds[0] == cmd && cmds[1..] == DecodeAll(e).cmds;
      if cmd.MoveTo? {
        RunsMore(cmds[1..], |e.points| / BYTES_PER_POINT, 0xffff);
      }
    }
  }

  lemma {:induction false} RunsCurves(pts: Points, rest: seq<Cmd>, budget: nat)
    requires Whole(pts)
    ensures RunsOk(Curves(pts) + rest, budget) <==> |pts| <= budget && RunsOk(rest, budget - |pts|)
    decreases |pts|
  {
    if pts == [] {
      assert Curves(pts) + rest == rest;
    } else {
      assert pts[0..] == pts;
      CurvesFrom(pts, 0);
      var c := FirstCurve(pts).value;
      var k := |PointsOf(c)|;
      var all := Curves(pts) + rest;
      assert all[0] == c && all[1..] == Curves(pts[k..]) + rest;
      if k <= budget {
        RunsCurves(pts[k..], rest, budget - k);
      }
    }
  }

  /** What comes after an op is not part of its contour. */
  predicate Separate(cmds: seq<Cmd>) {
    cmds == [] || !IsCurve(cmds[0])
  }

  lemma {:induction false} RunsHead(cmd: Cmd, rest: seq<Cmd>, budget: nat)
    requires !IsCurve(cmd)
    ensures RunsOk([cmd] + rest, budget) == RunsOk(rest, if cmd.MoveTo? then 0xffff else 0)
  {
    assert ([cmd] + rest)[1..] == rest;
  }

  lemma {:induction false} RunsContour(op: Op, rest: seq<Cmd>, budget: nat)
    requires OpOk(op) && Separate(rest)
    ensures Separate(CmdsFrom(op, 3) + rest)
    ensures RunsOk(CmdsFrom(op, 3) + rest, budget) <==> Fits(op) && RunsOk(rest, 0)
  {
    hide PointsOf, FirstCurve;
    RunsSeparate(rest, budget);
    if op.contour.Some? {
      hide RunsOk, Curves;
      var c := op.contour.value;
      assert CmdsFrom(op, 3) + rest == [MoveTo(c.start)] + (Curves(c.points) + rest);
      RunsHead(MoveTo(c.start), Curves(c.points) + rest, budget);
      RunsCurves(c.points, rest, 0xffff);
      if |c.points| <= 0xffff {
        RunsSeparate(rest, 0xffff - |c.points|);
      }
    } else {
      assert CmdsFrom(op, 3) + rest == rest;
    }
  }

  lemma {:induction false} RunsSeparate(rest: seq<Cmd>, budget: nat)
    requires Separate(rest)
    ensures RunsOk(rest, budget) == RunsOk(rest, 0)
  {
  }

  lemma {:induction false} RunsFrom(op: Op, rest: seq<Cmd>, k: nat, budget: nat)
    requires OpOk(op) && k <= 3 && Separate(rest)
    ensures Separate(CmdsFrom(op, k) + rest)
    ensures RunsOk(CmdsFrom(op, k) + rest, budget) <==> Fits(op) && RunsOk(rest, 0)
    decreases 3 - k
  {
    hide RunsOk, CmdsFrom;
    if k == 3 {
      RunsContour(op, rest, budget);
    } else {
      CmdsFromFlag(op, k);
      RunsFrom(op, rest, k + 1, 0);
      RunsFrom(op, rest, k + 1, budget);
      if HasFlag(op, k) {
        assert CmdsFrom(op, k) + rest == [FlagCmd(op, k)] + (CmdsFrom(op, k + 1) + rest);
        RunsHead(FlagCmd(op, k), CmdsFrom(op, k + 1) + rest, budget);
      } else {
        assert CmdsFrom(op, k) + rest == CmdsFrom(op, k + 1) + rest;
      }
    }
  }

  lemma {:induction false} RunsOps(ops: seq<Op>, budget: nat)
    requires OpsOk(ops)
    ensures Separate(OpsCmds(ops)) && (RunsOk(OpsCmds(ops), budget) <==> OpsFit(ops))
    decreases |ops|
  {
    hide CmdsFrom, OpOk, Fits;
    if ops != [] {
      assert forall i :: 0 <= i < |ops| - 1 ==> ops[1..][i] == ops[i + 1];
      RunsOps(ops[1..], 0);
      RunsFrom(ops[0], OpsCmds(ops[1..]), 0, budget);
      assert OpsFit(ops) <==> Fits(ops[0]) && OpsFit(ops[1..]) by {
        assert forall i :: 0 < i < |ops| ==> ops[i] == ops[1..][i - 1];
      }
    }
  }

  /** Decoding gives back the commands of the ops if and only if no contour has more
      than 65535 points. */
  lemma {:induction false} DecodesExactly(ops: seq<Op>)
    requires OpsOk(ops)
    ensures DecodeAll(From(OpsBytes(ops))) == Decoded(OpsCmds(ops), true) <==> OpsFit(ops)
  {
    hide OpsBytes, OpsCmds, DecodeAll, RunsOk;
    if OpsFit(ops) {
      DecodeEncoded(ops);
    } else {
      DecodedRuns(From(OpsBytes(ops)));
      RunsOps(ops, 0);
    }
  }
}
