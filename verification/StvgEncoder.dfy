/** The encoder, which packs drawing commands into ops as they come. */
module StvgEncoder {
  import opened Wrappers
  import opened Bits
  import opened StvgFormat

  /** The ops that are finished and the one that is being put together. */
  datatype Enc = Enc(ops: seq<Op>, cur: Op)

  const START: Enc := Enc([], EMPTY_OP)

  function Finalize(e: Enc): Enc {
    if e.cur == EMPTY_OP then e else Enc(e.ops + [e.cur], EMPTY_OP)
  }

  /** Takes one more command; `None` is a panic, for lack of an active contour. */
  function Encode(e: Enc, cmd: Cmd): Option<Enc> {
    match cmd
    case MoveTo(p) =>
      var f := if e.cur.contour.Some? then Finalize(e) else e;
      Some(f.(cur := f.cur.(contour := Some(Contour(p, [])))))
    case Fill =>
      var f := if e.cur.fill || e.cur.begin || e.cur.contour.Some? then Finalize(e) else e;
      Some(f.(cur := f.cur.(fill := true)))
    case BeginPath =>
      var f := if e.cur.contour.Some? then Finalize(e) else e;
      Some(f.(cur := f.cur.(begin := true)))
    case SetFillRgb(c) =>
      var f := if e.cur.fill then Finalize(e) else e;
      Some(f.(cur := f.cur.(color := Some(c))))
    case _ =>
      if e.cur.contour.None? then None else
        var c := e.cur.contour.value;
        Some(e.(cur := e.cur.(contour := Some(c.(points := c.points + PointsOf(cmd))))))
  }

  function EncodeAll(e: Enc, cmds: seq<Cmd>): Option<Enc>
    decreases |cmds|
  {
    if cmds == [] then Some(e)
    else match Encode(e, cmds[0])
      case None => None
      case Some(f) => EncodeAll(f, cmds[1..])
  }

  /** The ops for a list of commands. */
  function OpsFor(cmds: seq<Cmd>): Option<seq<Op>> {
    match EncodeAll(START, cmds)
    case None => None
    case Some(e) => Some(Finalize(e).ops)
  }

  // ----- which commands are accepted ------------------------------------------------

  /** Whether a contour is active, and whether a fill is pending, after a command. */
  function Follow(active: bool, fillPending: bool, cmd: Cmd): (bool, bool) {
    match cmd
    case MoveTo(_) => (true, fillPending && !active)
    case Fill => (false, true)
    case BeginPath => (false, fillPending && !active)
    case SetFillRgb(_) => if fillPending then (false, false) else (active, fillPending)
    case _ => (active, fillPending)
  }

  function FollowAll(active: bool, fillPending: bool, cmds: seq<Cmd>): (bool, bool)
    decreases |cmds|
  {
    if cmds == [] then (active, fillPending) else
      var (a, f) := Follow(active, fillPending, cmds[0]);
      FollowAll(a, f, cmds[1..])
  }

  /** Every curve segment comes while a contour is active. */
  predicate Legal(cmds: seq<Cmd>, active: bool, fillPending: bool)
    decreases |cmds|
  {
    cmds == [] || (
      && (IsCurve(cmds[0]) ==> active)
      && var (a, f) := Follow(active, fillPending, cmds[0]);
      Legal(cmds[1..], a, f))
  }

  lemma {:induction false} EncodeFollows(e: Enc, cmd: Cmd)
    ensures Encode(e, cmd).Some? <==> (IsCurve(cmd) ==> e.cur.contour.Some?)
    ensures Encode(e, cmd).Some? ==>
              var f := Encode(e, cmd).value;
              (f.cur.contour.Some?, f.cur.fill) == Follow(e.cur.contour.Some?, e.cur.fill, cmd)
  {
  }

  lemma {:induction false} EncodeAllLegal(e: Enc, cmds: seq<Cmd>)
    ensures EncodeAll(e, cmds).Some? <==> Legal(cmds, e.cur.contour.Some?, e.cur.fill)
    decreases |cmds|
  {
    hide Encode, Follow, IsCurve;
    if cmds != [] {
      EncodeFollows(e, cmds[0]);
      if Encode(e, cmds[0]).Some? {
        EncodeAllLegal(Encode(e, cmds[0]).value, cmds[1..]);
      }
    }
  }

  /** The encoder accepts a list of commands if and only if every segment in it comes
      while a contour is active. */
  lemma {:induction false} AcceptedIs(cmds: seq<Cmd>)
    ensures OpsFor(cmds).Some? <==> Legal(cmds, false, false)
  {
    EncodeAllLegal(START, cmds);
  }

  lemma {:induction false} LegalAppend(cmds: seq<Cmd>, more: seq<Cmd>, active: bool, fillPending: bool)
    ensures Legal(cmds + more, active, fillPending) <==>
              && Legal(cmds, active, fillPending)
              && var (a, f) := FollowAll(active, fillPending, cmds);
              Legal(more, a, f)
    decreases |cmds|
  {
    if cmds == [] {
      assert cmds + more == more;
    } else {
      var (a, f) := Follow(active, fillPending, cmds[0]);
      assert (cmds + more)[1..] == cmds[1..] + more;
      LegalAppend(cmds[1..], more, a, f);
    }
  }

  /** Where a segment could come next, setting a colour before it makes it an error if
      and only if a fill is pending. */
  lemma {:induction false} ColorEndsContour(cmds: seq<Cmd>, color: Color, segment: Cmd)
    requires IsCurve(segment) && Legal(cmds + [segment], false, false)
    ensures OpsFor(cmds + [SetFillRgb(color), segment]).None? <==> FollowAll(false, false, cmds).1
  {
    var more := [SetFillRgb(color), segment];
    AcceptedIs(cmds + more);
    LegalAppend(cmds, [segment], false, false);
    LegalAppend(cmds, more, false, false);
    assert more[1..] == [segment] && [segment][1..] == [];
  }

  /** It is not an error on its own, but it is one after a fill. */
  lemma {:induction false} ColorWitnesses(p: Point, q: Point, c: Color)
    ensures OpsFor([MoveTo(p), SetFillRgb(c), LineTo(q)]).Some?
    ensures OpsFor([Fill, MoveTo(p), SetFillRgb(c), LineTo(q)]).None?
  {
    var a, b := [MoveTo(p)], [Fill, MoveTo(p)];
    assert a[1..] == [] && b[1..] == a && (a + [LineTo(q)])[1..] == [LineTo(q)]
        && (b + [LineTo(q)])[1..] == a + [LineTo(q)];
    assert FollowAll(true, false, []) == (true, false) && FollowAll(true, true, []) == (true, true);
    assert FollowAll(false, false, a) == (true, false) && FollowAll(false, true, a) == (true, true);
    assert [LineTo(q)][1..] == [] && Legal([LineTo(q)], true, false) && Legal([LineTo(q)], true, true);
    ColorEndsContour(a, c, LineTo(q));
    ColorEndsContour(b, c, LineTo(q));
    assert a + [SetFillRgb(c), LineTo(q)] == [MoveTo(p), SetFillRgb(c), LineTo(q)];
    assert b + [SetFillRgb(c), LineTo(q)] == [Fill, MoveTo(p), SetFillRgb(c), LineTo(q)];
  }

  /** A color, a fill, a new path and a contour that come in this order share one op. */
  lemma {:induction false} SharedOp(c: Color, p: Point, q: Point)
    ensures OpsFor([SetFillRgb(c), Fill, BeginPath, MoveTo(p), LineTo(q)])
            == Some([Op(Some(c), true, true, Some(Contour(p, [(true, q)])))])
  {
    var e1 := START.(cur := EMPTY_OP.(color := Some(c)));
    var e2 := e1.(cur := e1.cur.(fill := true));
    var e3 := e2.(cur := e2.cur.(begin := true));
    var e4 := e3.(cur := e3.cur.(contour := Some(Contour(p, []))));
    var l5: seq<Cmd> := [LineTo(q)];
    var l4, l3 := [MoveTo(p)] + l5, [BeginPath] + ([MoveTo(p)] + l5);
    var l2 := [Fill] + l3;
    var l1 := [SetFillRgb(c)] + l2;
    assert l1[1..] == l2 && l2[1..] == l3 && l3[1..] == l4 && l4[1..] == l5 && l5[1..] == [];
    var e5 := e4.(cur := e4.cur.(contour := Some(Contour(p, [(true, q)]))));
    assert [] + PointsOf(LineTo(q)) == [(true, q)];
    assert Encode(e4, LineTo(q)) == Some(e5) && EncodeAll(e4, l5) == EncodeAll(e5, []) == Some(e5);
    assert EncodeAll(START, l1) == EncodeAll(e1, l2) == EncodeAll(e2, l3) == EncodeAll(e3, l4) == EncodeAll(e4, l5);
    assert l1 == [SetFillRgb(c), Fill, BeginPath, MoveTo(p), LineTo(q)];
    assert Finalize(e5).ops == [] + [e5.cur] == [e5.cur];
  }

  /** The bytes of such an op: the flags, the color, the start of the contour, the
      number of points, whether they are on the curve, and the points, with the low
      byte first in all numbers. */
  lemma {:induction false} SharedBytes(c: Color, p: Point, q: Point)
    ensures var ops := OpsFor([SetFillRgb(c), Fill, BeginPath, MoveTo(p), LineTo(q)]);
            && ops.Some?
            && OpsBytes(ops.value) ==
               [1 + 2 + 4 + 8, c.r, c.g, c.b, c.a,
                p.x % 0x100, p.x / 0x100 % 0x100, p.y % 0x100, p.y / 0x100 % 0x100,
                1, 0, 1,
                q.x % 0x100, q.x / 0x100 % 0x100, q.y % 0x100, q.y / 0x100 % 0x100]
  {
    SharedOp(c, p, q);
    var op := Op(Some(c), true, true, Some(Contour(p, [(true, q)])));
    assert [op][1..] == [] && OpsBytes([op]) == OpBytes(op) + OpsBytes([]);
    LineBytes(p, q);
    hide ContourBytes;
  }

  lemma {:induction false} LineBytes(p: Point, q: Point)
    ensures ContourBytes(Contour(p, [(true, q)])) ==
            [p.x % 0x100, p.x / 0x100 % 0x100, p.y % 0x100, p.y / 0x100 % 0x100,
             1, 0, 1,
             q.x % 0x100, q.x / 0x100 % 0x100, q.y % 0x100, q.y / 0x100 % 0x100]
  {
    var pts := [(true, q)];
    PointBytesAre(p);
    PointBytesAre(q);
    hide PointBytes;
    assert pts[1..] == [] && pts[..Min(8, |pts|)] == pts && pts[Min(8, |pts|)..] == [];
    assert FlagByte(pts) == 1 + 2 * FlagByte([]);
    assert FlagBytes(pts) == [FlagByte(pts)] + FlagBytes([]);
    assert AllPointBytes(pts) == PointBytes(q) + AllPointBytes([]);
  }

  lemma {:induction false} OneOp(cmd: Cmd, op: Op)
    requires Encode(START, cmd) == Some(Enc([], op)) && op != EMPTY_OP
    ensures OpsFor([cmd]) == Some([op]) && OpsBytes([op]) == OpBytes(op)
  {
    assert [cmd][1..] == [] && EncodeAll(Enc([], op), []) == Some(Enc([], op));
    assert EncodeAll(START, [cmd]) == EncodeAll(Enc([], op), []);
    assert [] + [op] == [op] && [op][1..] == [] && OpsBytes([]) == [];
    assert OpsBytes([op]) == OpBytes(op) + [];
  }

  /** The flag of each part of an op, by the bytes of a list of one command. */
  lemma {:induction false} FlagOfEach(c: Color, p: Point)
    ensures var color, move := OpsFor([SetFillRgb(c)]), OpsFor([MoveTo(p)]);
            && color.Some? && OpsBytes(color.value) == [1, c.r, c.g, c.b, c.a]
            && move.Some?
            && OpsBytes(move.value) ==
               [8, p.x % 0x100, p.x / 0x100 % 0x100, p.y % 0x100, p.y / 0x100 % 0x100, 0, 0]
    ensures var fill, begin := OpsFor([Fill]), OpsFor([BeginPath]);
            fill.Some? && OpsBytes(fill.value) == [2] && begin.Some? && OpsBytes(begin.value) == [4]
  {
    OneOp(SetFillRgb(c), EMPTY_OP.(color := Some(c)));
    OneOp(Fill, EMPTY_OP.(fill := true));
    OneOp(BeginPath, EMPTY_OP.(begin := true));
    OneOp(MoveTo(p), EMPTY_OP.(contour := Some(Contour(p, []))));
    PointBytesAre(p);
    hide PointBytes, OpsFor;
  }

  class CmdEncoder {
    var data: seq<u8>
    // The flags of the current op.
    var op: u8
    var fillRgba: Color
    var startPoint: Point
    var points: Points
    ghost var ops: seq<Op>

    /** The op that is being put together. */
    ghost function Cur(): Op
      reads this
    {
      Op(if BitAt(op, SET_FILL_RGB_SHIFT) then Some(fillRgba) else None, BitAt(op, FILL_SHIFT),
          BitAt(op, BEGIN_PATH_SHIFT),
         if BitAt(op, CONTOUR_SHIFT) then Some(Contour(startPoint, points)) else None)
    }

    ghost function View(): Enc
      reads this
    {
      Enc(ops, Cur())
    }

    ghost predicate Valid()
      reads this
    {
      data == OpsBytes(ops) && op < 16 && (!BitAt(op, CONTOUR_SHIFT) ==> points == [])
    }

    constructor ()
      ensures Valid() && View() == START
    {
      data, op, fillRgba, startPoint, points, ops := [], 0, Color(0, 0, 0, 0), Point(0, 0), [], [];
    }

    /** Whether a flag is set. */
    predicate Has(shift: nat)
      reads this
    {
      BitAt(op, shift)
    }

    /** `op |= 1 << shift` */
    method SetFlag(shift: nat)
      requires op < 16 && shift < 4
      modifies this`op
      ensures op < 16 && forall i: nat :: i < 4 ==> BitAt(op, i) == (i == shift || BitAt(old(op), i))
    {
      BitsOf(op);
      if !BitAt(op, shift) {
        op := op + (if shift == 0 then 1 else if shift == 1 then 2 else if shift == 2 then 4 else 8);
      }
      BitsOf(op);
    }

    /** The flags of up to eight points. */
    method ChunkData(chunk: Points) returns (bits: u8)
      requires |chunk| <= 8
      ensures bits == FlagByte(chunk)
    {
      var sum: nat := 0;
      for i := 0 to |chunk|
        invariant sum == FlagByte(chunk[..i])
      {
        assert chunk[..i + 1] == chunk[..i] + [chunk[i]];
        FlagByteAppend(chunk[..i], chunk[i]);
        if chunk[i].0 {
          sum := sum + Pow2(i);
        }
      }
      assert chunk[..|chunk|] == chunk;
      bits := sum;
    }

    /** The flags of the points, eight to a byte. */
    method FlagData() returns (d: seq<u8>)
      ensures d == FlagBytes(points)
    {
      d := [];
      var j := 0;
      assert points[..0] == [] && FlagBytes([]) == [];
      hide FlagBytes, FlagByte;
      while j < |points|
        invariant j <= |points| && (j % 8 == 0 || j == |points|)
        invariant d == FlagBytes(points[..j])
      {
        var chunk := points[j..j + Min(8, |points| - j)];
        var bits := ChunkData(chunk);
        assert points[..j] + chunk == points[..j + |chunk|];
        FlagBytesAppend(points[..j], chunk);
        d := d + [bits];
        j := j + |chunk|;
      }
      assert points[..j] == points;
    }

    /** The coordinates of the points. */
    method PointData() returns (d: seq<u8>)
      ensures d == AllPointBytes(points)
    {
      d := [];
      for i := 0 to |points|
        invariant d == AllPointBytes(points[..i])
      {
        assert points[..i + 1] == points[..i] + [points[i]];
        AllPointBytesAppend(points[..i], points[i]);
        d := d + PointBytes(points[i].1);
      }
      assert points[..|points|] == points;
    }

    /** The parameters of the contour. */
    method ContourData() returns (d: seq<u8>)
      ensures d == ContourBytes(Contour(startPoint, points))
    {
      var flags := FlagData();
      var coords := PointData();
      d := PointBytes(startPoint) + Le16(|points| % 0x10000) + flags + coords;
    }

    /** Writes the current op out. */
    method FinalizeOp()
      requires Valid()
      modifies this
      ensures Valid() && View() == Finalize(old(View()))
    {
      hide FlagBytes, AllPointBytes, ColorBytes, Le16, PointBytes, ContourBytes;
      BitsOf(op);
      if op == 0 {
        return;
      }
      ghost var was, cur := data, Cur();
      OpsBytesLast(ops, cur);
      data := data + [op];
      ghost var color: seq<u8>, contour: seq<u8> := [], [];
      if Has(SET_FILL_RGB_SHIFT) {
        data, color := data + ColorBytes(fillRgba), ColorBytes(fillRgba);
      }
      assert data == was + [op] + color;
      if Has(CONTOUR_SHIFT) {
        var d := ContourData();
        data, contour := data + d, d;
        points := [];
      }
      assert OpBytes(cur) == [op] + color + contour;
      Associate(was, op, color, contour);
      op := 0;
      ops := ops + [cur];
    }

    /** Gives the encoded data and starts anew. */
    method TakeBytes() returns (bytes: seq<u8>)
      requires Valid()
      modifies this
      ensures Valid() && View() == START && bytes == OpsBytes(Finalize(old(View())).ops)
    {
      FinalizeOp();
      bytes := data;
      data, ops := [], [];
    }

    /** Adds a point to the current contour. */
    method PushPoint(onCurve: bool, p: Point)
      requires Valid() && Has(CONTOUR_SHIFT)
      modifies this`points
      ensures Valid() && points == old(points) + [(onCurve, p)]
    {
      points := points + [(onCurve, p)];
    }

    /** Takes one more command; fails without an active contour, which is a panic. */
    method Add(cmd: Cmd) returns (ok: bool)
      requires Valid()
      modifies this
      ensures Valid() && ok == Encode(old(View()), cmd).Some?
      ensures View() == if ok then Encode(old(View()), cmd).value else old(View())
    {
      ok := true;
      if IsCurve(cmd) && Has(CONTOUR_SHIFT) {
        PushAll(points, cmd);
      }
      match cmd {
        case MoveTo(p) =>
          if Has(CONTOUR_SHIFT) {
            FinalizeOp();
          }
          SetFlag(CONTOUR_SHIFT);
          startPoint := p;
        case Fill =>
          if Has(FILL_SHIFT) || Has(BEGIN_PATH_SHIFT) || Has(CONTOUR_SHIFT) {
            FinalizeOp();
          }
          SetFlag(FILL_SHIFT);
        case BeginPath =>
          if Has(CONTOUR_SHIFT) {
            FinalizeOp();
          }
          SetFlag(BEGIN_PATH_SHIFT);
        case SetFillRgb(c) =>
          if Has(FILL_SHIFT) {
            FinalizeOp();
          }
          SetFlag(SET_FILL_RGB_SHIFT);
          fillRgba := c;
        case LineTo(p) =>
          ok := Has(CONTOUR_SHIFT);
          if ok {
            PushPoint(true, p);
          }
        case QuadBezierTo(a, b) =>
          ok := Has(CONTOUR_SHIFT);
          if ok {
            PushPoint(false, a);
            PushPoint(true, b);
          }
        case CubicBezierTo(a, b, c) =>
          ok := Has(CONTOUR_SHIFT);
          if ok {
            PushPoint(false, a);
            PushPoint(false, b);
            PushPoint(true, c);
          }
      }
    }
  }

  lemma {:induction false} OpsBytesLast(ops: seq<Op>, op: Op)
    ensures OpsBytes(ops + [op]) == OpsBytes(ops) + OpBytes(op)
  {
    OpsBytesConcat(ops, [op]);
    assert [op][1..] == [] && OpsBytes([]) == [];
    assert OpsBytes([op]) == OpBytes(op) + [];
  }

  lemma {:induction false} Associate(a: seq<u8>, b: u8, c: seq<u8>, d: seq<u8>)
    ensures a + [b] + c + d == a + ([b] + c + d) && a + [b] + c == a + [b] + c + []
  {
  }

  lemma {:induction false} PushAll(points: Points, cmd: Cmd)
    requires IsCurve(cmd)
    ensures match cmd
            case LineTo(p) => points + PointsOf(cmd) == points + [(true, p)]
            case QuadBezierTo(a, b) => points + PointsOf(cmd) == points + [(false, a)] + [(true, b)]
            case CubicBezierTo(a, b, c) => points + PointsOf(cmd) == points + [(false, a)] + [(false, b)] + [(true, c)]
  {
  }

  lemma {:induction false} BitsOf(op: u8)
    requires op < 16
    ensures op == (if BitAt(op, 0) then 1 else 0) + (if BitAt(op, 1) then 2 else 0) + (if BitAt(op, 2) then 4 else 0)
            + (if BitAt(op, 3) then 8 else 0)
  {
    assert BitAt(op, 1) == (op / 2 % 2 == 1);
    assert BitAt(op, 2) == BitAt(op / 2, 1) == (op / 2 / 2 % 2 == 1);
    assert BitAt(op, 3) == BitAt(op / 2, 2) == BitAt(op / 2 / 2, 1);
  }
}
