/** The decoder: a state machine over the flags of the current op and the control
    points of the current contour. */
module StvgDecoder {
  import opened Wrappers
  import opened Bits
  import opened StvgFormat

  /** The state of a `CmdDecoder`: what is left of the data, the flags left of the
      current op, the size of its parameters so far, and what is left of the current
      contour. */
  datatype Dec = Dec(data: seq<u8>, op: u8, paramLen: nat, flags: seq<u8>, points: seq<u8>, index: nat)

  /** What `next` gives, with the state after it; invalid data is met with a panic. */
  datatype Next = Yield(cmd: Cmd, d: Dec) | Done | Panic

  function From(data: seq<u8>): Dec {
    Dec(data, 0, 0, [], [], 0)
  }

  predicate DecOk(d: Dec) {
    d.op != 0 ==> d.paramLen >= 1
  }

  /** Control points up to the next one on the curve, with what is left after them;
      there is room for three. */
  datatype Gathered = Gathered(cps: seq<Point>, points: seq<u8>, index: nat)

  function Gather(points: seq<u8>, flags: seq<u8>, index: nat, cps: seq<Point>): (r: Option<Gathered>)
    ensures r.Some? ==>
              && |cps| < |r.value.cps| <= 3
              && |points| == |r.value.points| + BYTES_PER_POINT * (|r.value.cps| - |cps|)
    decreases |points|
  {
    if |points| < BYTES_PER_POINT || |cps| >= 3 || index / 8 >= |flags| then None
    else
      var more := cps + [PointAt(points)];
      if BitAt(flags[index / 8], index % 8) then Some(Gathered(more, points[BYTES_PER_POINT..], index + 1))
      else Gather(points[BYTES_PER_POINT..], flags, index + 1, more)
  }

  function CurveOf(cps: seq<Point>): Cmd
    requires 1 <= |cps| <= 3
  {
    if |cps| == 1 then LineTo(cps[0])
    else if |cps| == 2 then QuadBezierTo(cps[0], cps[1])
    else CubicBezierTo(cps[0], cps[1], cps[2])
  }

  /** An op byte without its lowest flag. */
  function WithoutLowest(op: u8): (r: u8)
    requires op != 0
    ensures r < op
  {
    LowestPow(op);
    op - Pow2(TrailingZeros(op))
  }

  /** How far the decoder is from the end. */
  function Rank(d: Dec): nat {
    if d.op == 0 then 0x100 else d.op
  }

  predicate Nearer(e: Dec, d: Dec) {
    || |e.data| < |d.data|
    || (|e.data| == |d.data| && (Rank(e) < Rank(d) || (Rank(e) == Rank(d) && |e.points| < |d.points|)))
  }

  /** Moves on to the next op if all flags of this one have been dealt with. */
  function Advance(cmd: Cmd, d: Dec): Next {
    if d.op != 0 then Yield(cmd, d)
    else if d.paramLen > |d.data| then Panic
    else Yield(cmd, d.(data := d.data[d.paramLen..]))
  }

  /** Slices the arrays of a contour out of the data. */
  function ContourParams(d: Dec): (r: Option<Dec>)
    ensures r.Some? ==>
              && r.value.data == d.data && r.value.op == d.op
              && d.paramLen + CONTOUR_HDR_SIZE <= r.value.paramLen <= |d.data|
    ensures r.Some? ==> |r.value.points| < BYTES_PER_POINT * 0x10000
  {
    if d.paramLen + CONTOUR_HDR_SIZE > |d.data| then None
    else
      var n := FromLe16(d.data[d.paramLen + 4], d.data[d.paramLen + 5]);
      var flags := d.paramLen + CONTOUR_HDR_SIZE;
      var points := flags + (n + 7) / 8;
      var end := points + n * BYTES_PER_POINT;
      if end > |d.data| then None
      else Some(d.(paramLen := end, flags := d.data[flags..points], points := d.data[points..end], index := 0))
  }

  function ContourStep(d: Dec): Next {
    match ContourParams(d)
    case None => Panic
    case Some(e) => Advance(MoveTo(PointAt(d.data[d.paramLen..])), e)
  }

  function OpStep(d: Dec, next: nat): Next {
    if next == FILL_SHIFT then Advance(Fill, d)
    else if next == BEGIN_PATH_SHIFT then Advance(BeginPath, d)
    else if next == SET_FILL_RGB_SHIFT then
      if d.paramLen + 4 > |d.data| then Panic
      else
        var c := d.data[d.paramLen..];
        Advance(SetFillRgb(Color(c[0], c[1], c[2], c[3])), d.(paramLen := d.paramLen + 4))
    else if next == CONTOUR_SHIFT then ContourStep(d)
    else Panic
  }

  function Step(d: Dec): (r: Next)
    requires DecOk(d)
    ensures r.Yield? ==> DecOk(r.d) && Nearer(r.d, d)
  {
    if |d.points| >= BYTES_PER_POINT then
      match Gather(d.points, d.flags, d.index, [])
      case None => Panic
      case Some(g) => Yield(CurveOf(g.cps), d.(points := g.points, index := g.index))
    else if d.data != [] then
      var e := if d.op == 0 then d.(op := d.data[0], paramLen := 1) else d;
      if e.op == 0 then Panic
      else OpStep(e.(op := WithoutLowest(e.op)), TrailingZeros(e.op))
    else Done
  }

  datatype Decoded = Decoded(cmds: seq<Cmd>, ok: bool)

  function Prepend(cmds: seq<Cmd>, r: Decoded): Decoded {
    Decoded(cmds + r.cmds, r.ok)
  }

  /** All commands up to the end of the data, or a panic. */
  function DecodeAll(d: Dec): Decoded
    requires DecOk(d)
    decreases |d.data|, Rank(d), |d.points|
  {
    match Step(d)
    case Done => Decoded([], true)
    case Panic => Decoded([], false)
    case Yield(cmd, e) => Prepend([cmd], DecodeAll(e))
  }

  datatype Item = Item(cmd: Cmd) | End | Panicked

  class CmdDecoder {
    var data: seq<u8>
    // The flags left of the current op, and the size of its parameters so far.
    var op: u8
    var paramLen: nat
    var curveFlags: seq<u8>
    var curvePoints: seq<u8>
    var curveIndex: nat

    ghost function View(): Dec
      reads this
    {
      Dec(data, op, paramLen, curveFlags, curvePoints, curveIndex)
    }

    constructor (data: seq<u8>)
      ensures View() == From(data)
    {
      this.data, op, paramLen, curveFlags, curvePoints, curveIndex := data, 0, 0, [], [], 0;
    }

    /** Collects the control points of the next curve segment. */
    method NextCurve() returns (r: Item)
      requires |curvePoints| >= BYTES_PER_POINT
      modifies this`curvePoints, this`curveIndex
      ensures match Gather(old(curvePoints), curveFlags, old(curveIndex), [])
              case None => r == Panicked
              case Some(g) => r == Item(CurveOf(g.cps)) && curvePoints == g.points && curveIndex == g.index
    {
      var cps: seq<Point> := [];
      ghost var whole := Gather(curvePoints, curveFlags, curveIndex, []);
      while true
        invariant |cps| <= 3 && Gather(curvePoints, curveFlags, curveIndex, cps) == whole
        decreases |curvePoints|
      {
        if |curvePoints| < BYTES_PER_POINT || |cps| == 3 {
          return Panicked;
        }
        cps := cps + [PointAt(curvePoints)];
        var i := curveIndex;
        curveIndex := curveIndex + 1;
        curvePoints := curvePoints[BYTES_PER_POINT..];
        if i / 8 >= |curveFlags| {
          return Panicked;
        }
        if BitAt(curveFlags[i / 8], i % 8) {
          break;
        }
      }
      r := Item(CurveOf(cps));
    }

    /** Reads the header and the arrays of a contour. */
    method NextContour() returns (r: Item)
      modifies this`curveFlags, this`curvePoints, this`curveIndex, this`paramLen
      ensures match ContourParams(old(View()))
              case None => r == Panicked
              case Some(e) => r == Item(MoveTo(PointAt(data[old(paramLen)..]))) && View() == e
    {
      if paramLen + CONTOUR_HDR_SIZE > |data| {
        return Panicked;
      }
      var param := data[paramLen..];
      paramLen := paramLen + CONTOUR_HDR_SIZE;
      var numPoints := FromLe16(param[4], param[5]);
      var flagsLen := (numPoints + 7) / 8;
      if paramLen + flagsLen > |data| {
        return Panicked;
      }
      curveFlags := data[paramLen..paramLen + flagsLen];
      paramLen := paramLen + flagsLen;
      var pointsLen := numPoints * BYTES_PER_POINT;
      if paramLen + pointsLen > |data| {
        return Panicked;
      }
      curvePoints := data[paramLen..paramLen + pointsLen];
      paramLen := paramLen + pointsLen;
      curveIndex := 0;
      r := Item(MoveTo(PointAt(param)));
    }

    /** The next command (`Iterator::next`). */
    method Next() returns (r: Item)
      requires DecOk(View())
      modifies this
      ensures match Step(old(View()))
              case Done => r == End && View() == old(View())
              case Panic => r == Panicked
              case Yield(cmd, e) => r == Item(cmd) && View() == e
    {
      if |curvePoints| >= BYTES_PER_POINT {
        r := NextCurve();
        return;
      }
      if data == [] {
        return End;
      }
      if op == 0 {
        op, paramLen := data[0], 1;
        if op == 0 {
          return Panicked;
        }
      }
      var next := TrailingZeros(op);
      op := WithoutLowest(op);
      if next == FILL_SHIFT {
        r := Item(Fill);
      } else if next == BEGIN_PATH_SHIFT {
        r := Item(BeginPath);
      } else if next == SET_FILL_RGB_SHIFT {
        if paramLen + 4 > |data| {
          return Panicked;
        }
        var color := data[paramLen..];
        paramLen := paramLen + 4;
        r := Item(SetFillRgb(Color(color[0], color[1], color[2], color[3])));
      } else if next == CONTOUR_SHIFT {
        r := NextContour();
        if r.Panicked? {
          return;
        }
      } else {
        return Panicked;
      }
      if op == 0 {
        if paramLen > |data| {
          return Panicked;
        }
        data := data[paramLen..];
      }
    }
  }

  /** Decodes everything. */
  method Decode(data: seq<u8>) returns (cmds: seq<Cmd>, ok: bool)
    ensures Decoded(cmds, ok) == DecodeAll(From(data))
  {
    var dec := new CmdDecoder(data);
    cmds, ok := [], true;
    while true
      invariant DecOk(dec.View()) && Prepend(cmds, DecodeAll(dec.View())) == DecodeAll(From(data))
      decreases |dec.data|, Rank(dec.View()), |dec.curvePoints|
    {
      var item := dec.Next();
      if item.End? {
        return;
      }
      if item.Panicked? {
        ok := false;
        return;
      }
      cmds := cmds + [item.cmd];
    }
  }
}
