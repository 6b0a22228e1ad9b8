/** Encoding moves colours and merges commands, but keeps the picture. */
module StvgRendering {
  import opened Wrappers
  import opened StvgFormat
  import opened StvgEncoder
  import opened StvgDecoder
  import opened StvgRoundTrip

  /** What has been drawn: the current fill colour and path, and the paths that were
      filled so far, each with its colour. */
  datatype Canvas = Canvas(color: Color, path: seq<Cmd>, fills: seq<(Color, seq<Cmd>)>)

  function Draw(c: Canvas, cmd: Cmd): Canvas {
    match cmd
    case SetFillRgb(color) => c.(color := color)
    case Fill => c.(fills := c.fills + [(c.color, c.path)])
    case BeginPath => c.(path := [])
    case _ => c.(path := c.path + [cmd])
  }

  function DrawAll(c: Canvas, cmds: seq<Cmd>): Canvas
    decreases |cmds|
  {
    if cmds == [] then c else DrawAll(Draw(c, cmds[0]), cmds[1..])
  }

  lemma {:induction false} DrawConcat(c: Canvas, a: seq<Cmd>, b: seq<Cmd>)
    ensures DrawAll(c, a + b) == DrawAll(DrawAll(c, a), b)
    decreases |a|
  {
    if a == [] {
      assert a + b == b;
    } else {
      assert (a + b)[0] == a[0] && (a + b)[1..] == a[1..] + b;
      DrawConcat(Draw(c, a[0]), a[1..], b);
    }
  }

  // ----- one op -----------------------------------------------------------------------

  lemma {:induction false} DrawHead(c: Canvas, cmd: Cmd, rest: seq<Cmd>)
    ensures DrawAll(c, [cmd] + rest) == DrawAll(Draw(c, cmd), rest)
  {
    assert ([cmd] + rest)[0] == cmd && ([cmd] + rest)[1..] == rest;
  }

  lemma {:induction false} DrawCurves(c: Canvas, pts: Points)
    requires Whole(pts)
    ensures DrawAll(c, Curves(pts)) == c.(path := c.path + Curves(pts))
    decreases |pts|
  {
    if pts == [] {
      NoPoints(pts);
      DrawNothing(c);
    } else {
      hide DrawAll, FirstCurve, Whole, Curves, PointsOf;
      assert pts[0..] == pts;
      CurvesFrom(pts, 0);
      var cmd := FirstCurve(pts).value;
      var rest := pts[|PointsOf(cmd)|..];
      DrawHead(c, cmd, Curves(rest));
      DrawCurves(Draw(c, cmd), rest);
      assert c.path + [cmd] + Curves(rest) == c.path + ([cmd] + Curves(rest));
    }
  }

  /** What an op does to a canvas, in one go. */
  function DrawOp(c: Canvas, op: Op): Canvas
    requires Packable(op)
  {
    var color := if op.color.Some? then op.color.value else c.color;
    Canvas(color,
           (if op.begin then [] else c.path) + (if op.contour.Some? then ContourCmds(op.contour.value) else []),
           if op.fill then c.fills + [(color, c.path)] else c.fills)
  }

  predicate Packable(op: Op) {
    op.contour.Some? ==> Whole(op.contour.value.points)
  }

  lemma {:induction false} DrawOne(c: Canvas, cmd: Cmd)
    ensures DrawAll(c, [cmd]) == Draw(c, cmd)
  {
    assert [cmd][1..] == [] && DrawAll(Draw(c, cmd), []) == Draw(c, cmd);
  }

  lemma {:induction false} DrawContour(c: Canvas, contour: Contour)
    requires Whole(contour.points)
    ensures DrawAll(c, ContourCmds(contour)) == c.(path := c.path + ContourCmds(contour))
  {
    DrawOne(c, MoveTo(contour.start));
    DrawConcat(c, [MoveTo(contour.start)], Curves(contour.points));
    DrawCurves(Draw(c, MoveTo(contour.start)), contour.points);
    assert c.path + [MoveTo(contour.start)] + Curves(contour.points) == c.path + ContourCmds(contour);
  }

  lemma {:induction false} DrawIf(c: Canvas, b: bool, cmd: Cmd)
    ensures DrawAll(c, if b then [cmd] else []) == if b then Draw(c, cmd) else c
  {
    DrawOne(c, cmd);
  }

  lemma {:induction false} DrawCmds(c: Canvas, op: Op)
    requires OpOk(op)
    ensures DrawAll(c, CmdsFrom(op, 0)) == DrawOp(c, op)
  {
    hide DrawAll, ContourCmds, Curves, Whole;
    var color := if op.color.Some? then op.color.value else c.color;
    var a := if op.color.Some? then [SetFillRgb(color)] else [];
    var b := if op.fill then [Fill] else [];
    var d := if op.begin then [BeginPath] else [];
    var e := if op.contour.Some? then ContourCmds(op.contour.value) else [];
    assert CmdsFrom(op, 0) == a + b + d + e;
    DrawConcat(c, a + b + d, e);
    DrawConcat(c, a + b, d);
    DrawConcat(c, a, b);
    DrawIf(c, op.color.Some?, SetFillRgb(color));
    var c1 := c.(color := color);
    DrawIf(c1, op.fill, Fill);
    var c2 := c1.(fills := if op.fill then c.fills + [(color, c.path)] else c.fills);
    DrawIf(c2, op.begin, BeginPath);
    var c3 := c2.(path := if op.begin then [] else c.path);
    if op.contour.Some? {
      DrawContour(c3, op.contour.value);
    } else {
      DrawNothing(c3);
    }
  }

  lemma {:induction false} DrawNothing(c: Canvas)
    ensures DrawAll(c, []) == c && c.(path := c.path + []) == c
  {
  }

  function DrawOps(c: Canvas, ops: seq<Op>): Canvas
    requires OpsOk(ops)
    decreases |ops|
  {
    if ops == [] then c else DrawOp(DrawOps(c, ops[..|ops| - 1]), ops[|ops| - 1])
  }

  lemma {:induction false} OpsCmdsLast(ops: seq<Op>)
    requires OpsOk(ops) && ops != []
    ensures OpsCmds(ops) == OpsCmds(ops[..|ops| - 1]) + CmdsFrom(ops[|ops| - 1], 0)
    decreases |ops|
  {
    hide CmdsFrom, OpOk;
    if |ops| == 1 {
      assert ops[1..] == [] && ops[..0] == [];
      assert CmdsFrom(ops[0], 0) + [] == [] + CmdsFrom(ops[0], 0);
    } else {
      assert ops[1..][..|ops| - 2] == ops[..|ops| - 1][1..];
      assert OpsOk(ops[1..]) && OpsOk(ops[..|ops| - 1]);
      OpsCmdsLast(ops[1..]);
      var m := OpsCmds(ops[..|ops| - 1][1..]);
      assert CmdsFrom(ops[0], 0) + (m + CmdsFrom(ops[|ops| - 1], 0)) == CmdsFrom(ops[0], 0) + m
          + CmdsFrom(ops[|ops| - 1], 0);
    }
  }

  lemma {:induction false} DrawOpsCmds(c: Canvas, ops: seq<Op>)
    requires OpsOk(ops)
    ensures DrawAll(c, OpsCmds(ops)) == DrawOps(c, ops)
    decreases |ops|
  {
    hide CmdsFrom, OpOk, DrawOp;
    if ops == [] {
      DrawNothing(c);
    } else {
      var init, last := ops[..|ops| - 1], ops[|ops| - 1];
      OpsCmdsLast(ops);
      DrawOpsCmds(c, init);
      DrawConcat(c, OpsCmds(init), CmdsFrom(last, 0));
      DrawCmds(DrawOps(c, init), last);
    }
  }

  // ----- the encoder --------------------------------------------------------------------

  predicate EncOk(e: Enc) {
    OpsOk(e.ops) && Packable(e.cur)
  }

  /** What the ops of an encoder draw, with the one being put together. */
  function Drawn(c: Canvas, e: Enc): Canvas
    requires EncOk(e)
  {
    DrawOp(DrawOps(c, e.ops), e.cur)
  }

  lemma {:induction false} DrawFinalized(c: Canvas, e: Enc)
    requires EncOk(e)
    ensures EncOk(Finalize(e)) && Drawn(c, Finalize(e)) == Drawn(c, e) && DrawOps(c, Finalize(e).ops) == Drawn(c, e)
  {
    hide OpsCmds, ContourCmds, Whole;
    var f := Finalize(e);
    if e.cur != EMPTY_OP {
      assert f.ops[..|f.ops| - 1] == e.ops;
    }
    var x := DrawOps(c, f.ops);
    assert x.path + [] == x.path;
  }

  /** A command can be packed with others, whichever order it is performed in. */
  lemma {:induction false} DrawPacked(c: Canvas, op: Op, cmd: Cmd)
    requires Packable(op)
    ensures !op.fill && !op.begin && op.contour.None? ==> DrawOp(c, op.(fill := true)) == Draw(DrawOp(c, op), Fill)
    ensures op.contour.None? ==> DrawOp(c, op.(begin := true)) == Draw(DrawOp(c, op), BeginPath)
    ensures !op.fill && cmd.SetFillRgb? ==> DrawOp(c, op.(color := Some(cmd.color))) == Draw(DrawOp(c, op), cmd)
    ensures op.contour.None? && cmd.MoveTo? ==>
              var after := op.(contour := Some(Contour(cmd.p, [])));
              Packable(after) && DrawOp(c, after) == Draw(DrawOp(c, op), cmd)
    ensures op.contour.Some? && IsCurve(cmd) ==>
              var k := op.contour.value;
              var after := op.(contour := Some(k.(points := k.points + PointsOf(cmd))));
              Packable(after) && DrawOp(c, after) == Draw(DrawOp(c, op), cmd)
  {
    var p := if op.begin then [] else c.path;
    assert p + [] == p && c.path + [] == c.path;
    if op.contour.Some? && IsCurve(cmd) {
      var k := op.contour.value;
      CurvesAppend(k.points, cmd);
      assert p + ([MoveTo(k.start)] + (Curves(k.points) + [cmd])) == p + ([MoveTo(k.start)] + Curves(k.points)) + [cmd];
    } else if op.contour.None? && cmd.MoveTo? {
      NoPoints([]);
      assert [cmd] + [] == [cmd];
    }
  }

  /** The encoder draws what the command draws. */
  lemma {:induction false} EncodeDraws(c: Canvas, e: Enc, cmd: Cmd)
    requires EncOk(e) && Encode(e, cmd).Some?
    ensures EncOk(Encode(e, cmd).value) && Drawn(c, Encode(e, cmd).value) == Draw(Drawn(c, e), cmd)
  {
    hide OpsOk, Packable, DrawOp, DrawOps, Draw;
    DrawFinalized(c, e);
    var f := Finalize(e);
    DrawPacked(DrawOps(c, e.ops), e.cur, cmd);
    DrawPacked(DrawOps(c, f.ops), f.cur, cmd);
    PackedOk(e.cur, cmd);
    PackedOk(f.cur, cmd);
  }

  lemma {:induction false} PackedOk(op: Op, cmd: Cmd)
    requires Packable(op)
    ensures Packable(op.(fill := true)) && Packable(op.(begin := true))
    ensures cmd.SetFillRgb? ==> Packable(op.(color := Some(cmd.color)))
  {
  }

  lemma {:induction false} EncodeAllDraws(c: Canvas, e: Enc, cmds: seq<Cmd>)
    requires EncOk(e) && EncodeAll(e, cmds).Some?
    ensures EncOk(EncodeAll(e, cmds).value) && Drawn(c, EncodeAll(e, cmds).value) == DrawAll(Drawn(c, e), cmds)
    decreases |cmds|
  {
    hide EncOk, Drawn, Encode;
    if cmds != [] {
      EncodeDraws(c, e, cmds[0]);
      EncodeAllDraws(c, Encode(e, cmds[0]).value, cmds[1..]);
    }
  }

  /** Whatever was on the canvas before, the packed commands draw the same picture as
      the original ones: the same fills, with the same colours and paths, in the same
      order, and the same colour and path at the end. */
  lemma {:induction false} PackingKeepsPicture(c: Canvas, cmds: seq<Cmd>)
    requires OpsFor(cmds).Some?
    ensures OpsOk(OpsFor(cmds).value) && DrawAll(c, OpsCmds(OpsFor(cmds).value)) == DrawAll(c, cmds)
  {
    hide DrawAll;
    StartDraws(c);
    EncodeAllDraws(c, START, cmds);
    var e := EncodeAll(START, cmds).value;
    DrawFinalized(c, e);
    DrawOpsCmds(c, Finalize(e).ops);
  }

  lemma {:induction false} StartDraws(c: Canvas)
    ensures EncOk(START) && Drawn(c, START) == c
  {
    assert c.path + [] == c.path;
  }

  // ----- the number of points of a contour ----------------------------------------------

  /** No contour gets more than 65535 points; the current one has `used` already. */
  predicate CmdsFit(cmds: seq<Cmd>, used: nat)
    decreases |cmds|
  {
    if cmds == [] then true
    else if IsCurve(cmds[0]) then used + |PointsOf(cmds[0])| < 0x10000 && CmdsFit(cmds[1..], used + |PointsOf(cmds[0])|)
    else CmdsFit(cmds[1..], if cmds[0].MoveTo? then 0 else used)
  }

  predicate EncFits(e: Enc) {
    OpsFit(e.ops) && Fits(e.cur)
  }

  lemma {:induction false} FinalizeFits(e: Enc)
    ensures OpsFit(Finalize(e).ops) == EncFits(e) && EncFits(Finalize(e)) == EncFits(e)
  {
    var f := Finalize(e);
    if e.cur != EMPTY_OP {
      assert f.ops[|e.ops|] == e.cur;
      assert forall i :: 0 <= i < |e.ops| ==> f.ops[i] == e.ops[i];
    }
  }

  /** Counting the points of the current contour of an encoder. */
  predicate Counts(e: Enc, used: nat) {
    e.cur.contour.Some? ==> used == |e.cur.contour.value.points|
  }

  lemma {:induction false} EncodeFits(e: Enc, cmd: Cmd, used: nat)
    requires Encode(e, cmd).Some? && Counts(e, used)
    ensures var f := Encode(e, cmd).value;
            if IsCurve(cmd) then
              && Counts(f, used + |PointsOf(cmd)|)
              && (EncFits(f) <==> EncFits(e) && used + |PointsOf(cmd)| < 0x10000)
            else Counts(f, if cmd.MoveTo? then 0 else used) && EncFits(f) == EncFits(e)
  {
    hide OpsFit;
    FinalizeFits(e);
  }

  lemma {:induction false} EncodeAllFits(e: Enc, cmds: seq<Cmd>, used: nat)
    requires EncodeAll(e, cmds).Some? && Counts(e, used)
    ensures EncFits(EncodeAll(e, cmds).value) <==> EncFits(e) && CmdsFit(cmds, used)
    decreases |cmds|
  {
    hide Encode, EncFits, Counts;
    if cmds != [] {
      EncodeFits(e, cmds[0], used);
      var f := Encode(e, cmds[0]).value;
      EncodeAllFits(f, cmds[1..],
        if IsCurve(cmds[0]) then used + |PointsOf(cmds[0])| else if cmds[0].MoveTo? then 0 else used);
    }
  }

  lemma {:induction false} OpsFitExactly(cmds: seq<Cmd>)
    requires OpsFor(cmds).Some?
    ensures OpsFit(OpsFor(cmds).value) == CmdsFit(cmds, 0)
  {
    EncodeAllFits(START, cmds, 0);
    FinalizeFits(EncodeAll(START, cmds).value);
  }

  // ----- encoding and decoding ------------------------------------------------------------

  /** The bytes that the encoder gives for a list of commands. */
  function Encoded(cmds: seq<Cmd>): seq<u8>
    requires Legal(cmds, false, false)
  {
    AcceptedIs(cmds);
    OpsBytes(OpsFor(cmds).value)
  }

  /** For every list of commands whose segments belong to a contour: decoding what was
      encoded gives the packed commands back if and only if no contour has more than
      65535 points, as the number of points is cut down to 16 bits without a check. */
  lemma {:induction false} RoundTrip(cmds: seq<Cmd>)
    requires Legal(cmds, false, false)
    ensures OpsFor(cmds).Some? && OpsOk(OpsFor(cmds).value)
    ensures DecodeAll(From(Encoded(cmds))) == Decoded(OpsCmds(OpsFor(cmds).value), true) <==> CmdsFit(cmds, 0)
  {
    hide DecodeAll, OpsBytes, OpsCmds, CmdsFit, Legal;
    AcceptedIs(cmds);
    PackingKeepsPicture(Canvas(Color(0, 0, 0, 0), [], []), cmds);
    DecodesExactly(OpsFor(cmds).value);
    OpsFitExactly(cmds);
  }

  /** And so decoding what was encoded draws the same picture on any canvas. */
  lemma {:induction false} SamePicture(c: Canvas, cmds: seq<Cmd>)
    requires Legal(cmds, false, false) && CmdsFit(cmds, 0)
    ensures var r := DecodeAll(From(Encoded(cmds))); r.ok && DrawAll(c, r.cmds) == DrawAll(c, cmds)
  {
    hide DecodeAll, DrawAll, OpsBytes, OpsCmds, CmdsFit, OpsFor, Legal;
    RoundTrip(cmds);
    PackingKeepsPicture(c, cmds);
  }

  /** What was encoded on its own can be put in front of any data. */
  lemma {:induction false} Pieces(cmds: seq<Cmd>, rest: seq<u8>)
    requires Legal(cmds, false, false) && CmdsFit(cmds, 0)
    ensures DecodeAll(From(Encoded(cmds) + rest)) == Prepend(DecodeAll(From(Encoded(cmds))).cmds, DecodeAll(From(rest)))
  {
    hide DecodeAll, OpsBytes, OpsCmds, CmdsFit, OpsFor, Legal;
    RoundTrip(cmds);
    OpsFitExactly(cmds);
    DecodeConcat(OpsFor(cmds).value, rest);
  }

  /** A contour of 65536 lines does not survive. */
  lemma {:induction false} LongContourIsLost(p: Point, q: Point)
    ensures var cmds := [MoveTo(p)] + seq(0x10000, _ => LineTo(q));
            && Legal(cmds, false, false) && OpsFor(cmds).Some? && OpsOk(OpsFor(cmds).value)
            && DecodeAll(From(Encoded(cmds))) != Decoded(OpsCmds(OpsFor(cmds).value), true)
  {
    var lines: seq<Cmd> := seq(0x10000, _ => LineTo(q));
    var cmds := [MoveTo(p)] + lines;
    assert cmds[1..] == lines;
    hide DecodeAll, OpsCmds, Encoded;
    AcceptedIs(cmds);
    LinesEncoded(Encode(START, MoveTo(p)).value, lines, q);
    LinesCounted(lines, q, 0);
    assert !CmdsFit(cmds, 0);
    RoundTrip(cmds);
  }

  lemma {:induction false} LinesEncoded(e: Enc, lines: seq<Cmd>, q: Point)
    requires e.cur.contour.Some? && forall i :: 0 <= i < |lines| ==> lines[i] == LineTo(q)
    ensures EncodeAll(e, lines).Some?
    decreases |lines|
  {
    if lines != [] {
      LinesEncoded(Encode(e, lines[0]).value, lines[1..], q);
    }
  }

  lemma {:induction false} LinesCounted(lines: seq<Cmd>, q: Point, used: nat)
    requires forall i :: 0 <= i < |lines| ==> lines[i] == LineTo(q)
    requires used < 0x10000 <= used + |lines|
    ensures !CmdsFit(lines, used)
    decreases |lines|
  {
    assert |PointsOf(lines[0])| == 1;
    if used + 1 < 0x10000 {
      LinesCounted(lines[1..], q, used + 1);
    }
  }

  /** Encodes commands, decodes the outcome, and gets the same picture. */
  method EncodeAndDecode(cmds: seq<Cmd>, ghost c: Canvas) returns (encoded: bool, back: seq<Cmd>, ok: bool)
    ensures encoded == Legal(cmds, false, false)
    ensures encoded && CmdsFit(cmds, 0) ==> ok && DrawAll(c, back) == DrawAll(c, cmds)
  {
    hide DecodeAll, DrawAll, OpsBytes, OpsCmds, CmdsFit, Encode, Legal;
    AcceptedIs(cmds);
    var enc := new CmdEncoder();
    for i := 0 to |cmds|
      invariant enc.Valid() && EncodeAll(START, cmds) == EncodeAll(enc.View(), cmds[i..])
    {
      assert cmds[i..][0] == cmds[i] && cmds[i..][1..] == cmds[i + 1..];
      var added := enc.Add(cmds[i]);
      if !added {
        return false, [], false;
      }
    }
    encoded := true;
    var bytes := enc.TakeBytes();
    back, ok := Decode(bytes);
    if CmdsFit(cmds, 0) {
      SamePicture(c, cmds);
    }
  }
}
