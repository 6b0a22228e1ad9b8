/** Measuring UTF-8 strings by the number of their UTF-16 units. */
module Utf16Count {
  import opened Wrappers
  import opened Bits

  type Byte = x: nat | x < 0x100

  // Two bits for each high nibble of a byte, the lowest nibble in the lowest bits.
  const NIBBLE_TO_UTF16_LEN: nat := 0x9500_5555
  const NIBBLE_TO_CONTINUATION_LEN: nat := 0xe500_0000

  function NibbleToUtf16Len(x: nat): nat {
    And(Shr(NIBBLE_TO_UTF16_LEN, x * 2), 3)
  }

  function NibbleToContinuationLen(x: nat): nat {
    And(Shr(NIBBLE_TO_CONTINUATION_LEN, x * 2), 3)
  }

  lemma {:induction false} ShrTwice(a: nat, k: nat)
    ensures Shr(a, k + 2) == Shr(a, k) / 4
    decreases k
  {
    if k > 0 {
      ShrTwice(a / 2, k - 1);
    } else {
      assert Shr(a, 2) == Shr(a / 2, 1) == Shr(a / 2 / 2, 0);
    }
  }

  lemma {:induction false} AndThree(a: nat)
    ensures And(a, 3) == a % 4
  {
    if a > 0 {
      assert And(a, 3) == a % 2 + 2 * And(a / 2, 1);
      assert a / 2 > 0 ==> And(a / 2, 1) == a / 2 % 2 + 2 * And(a / 2 / 2, 0);
    }
  }

  /** The entries of a table. */
  lemma {:induction false} TableStep(a: nat, x: nat)
    ensures And(Shr(a, x * 2), 3) == Shr(a, x * 2) % 4 && Shr(a, (x + 1) * 2) == Shr(a, x * 2) / 4
  {
    AndThree(Shr(a, x * 2));
    ShrTwice(a, x * 2);
  }

  lemma {:induction false} TableAt(a: nat, x: nat, v: nat)
    requires Shr(a, x * 2) == v
    ensures And(Shr(a, x * 2), 3) == v % 4 && Shr(a, (x + 1) * 2) == v / 4
  {
    TableStep(a, x);
  }

  lemma {:induction false} LowUtf16Table(x: nat)
    requires x < 8
    ensures NibbleToUtf16Len(x) == 1
    ensures Shr(NIBBLE_TO_UTF16_LEN, 16) == 0x9500
  {
    assert Shr(NIBBLE_TO_UTF16_LEN, 0) == NIBBLE_TO_UTF16_LEN;
    hide Shr, And;
    TableAt(NIBBLE_TO_UTF16_LEN, 0, 0x95005555);
    TableAt(NIBBLE_TO_UTF16_LEN, 1, 0x25401555);
    TableAt(NIBBLE_TO_UTF16_LEN, 2, 0x9500555);
    TableAt(NIBBLE_TO_UTF16_LEN, 3, 0x2540155);
    TableAt(NIBBLE_TO_UTF16_LEN, 4, 0x950055);
    TableAt(NIBBLE_TO_UTF16_LEN, 5, 0x254015);
    TableAt(NIBBLE_TO_UTF16_LEN, 6, 0x95005);
    TableAt(NIBBLE_TO_UTF16_LEN, 7, 0x25401);
  }

  /** UTF-16 units for the leading byte of a sequence of one, two, three and four bytes;
      continuation bytes count for nothing. */
  lemma {:induction false} Utf16Table(x: nat)
    requires x < 16
    ensures NibbleToUtf16Len(x) == if x < 8 then 1 else if x < 12 then 0 else if x < 15 then 1 else 2
  {
    LowUtf16Table(if x < 8 then x else 0);
    hide Shr, And;
    TableAt(NIBBLE_TO_UTF16_LEN, 8, 0x9500);
    TableAt(NIBBLE_TO_UTF16_LEN, 9, 0x2540);
    TableAt(NIBBLE_TO_UTF16_LEN, 10, 0x950);
    TableAt(NIBBLE_TO_UTF16_LEN, 11, 0x254);
    TableAt(NIBBLE_TO_UTF16_LEN, 12, 0x95);
    TableAt(NIBBLE_TO_UTF16_LEN, 13, 0x25);
    TableAt(NIBBLE_TO_UTF16_LEN, 14, 0x9);
    TableAt(NIBBLE_TO_UTF16_LEN, 15, 0x2);
  }

  lemma {:induction false} LowContinuationTable(x: nat)
    requires x < 8
    ensures NibbleToContinuationLen(x) == 0
    ensures Shr(NIBBLE_TO_CONTINUATION_LEN, 16) == 0xe500
  {
    assert Shr(NIBBLE_TO_CONTINUATION_LEN, 0) == NIBBLE_TO_CONTINUATION_LEN;
    hide Shr, And;
    TableAt(NIBBLE_TO_CONTINUATION_LEN, 0, 0xe5000000);
    TableAt(NIBBLE_TO_CONTINUATION_LEN, 1, 0x39400000);
    TableAt(NIBBLE_TO_CONTINUATION_LEN, 2, 0xe500000);
    TableAt(NIBBLE_TO_CONTINUATION_LEN, 3, 0x3940000);
    TableAt(NIBBLE_TO_CONTINUATION_LEN, 4, 0xe50000);
    TableAt(NIBBLE_TO_CONTINUATION_LEN, 5, 0x394000);
    TableAt(NIBBLE_TO_CONTINUATION_LEN, 6, 0xe5000);
    TableAt(NIBBLE_TO_CONTINUATION_LEN, 7, 0x39400);
  }

  /** Continuation bytes after a leading byte. */
  lemma {:induction false} ContinuationTable(x: nat)
    requires x < 16
    ensures NibbleToContinuationLen(x) == if x < 12 then 0 else if x < 14 then 1 else if x == 14 then 2 else 3
  {
    LowContinuationTable(if x < 8 then x else 0);
    hide Shr, And;
    TableAt(NIBBLE_TO_CONTINUATION_LEN, 8, 0xe500);
    TableAt(NIBBLE_TO_CONTINUATION_LEN, 9, 0x3940);
    TableAt(NIBBLE_TO_CONTINUATION_LEN, 10, 0xe50);
    TableAt(NIBBLE_TO_CONTINUATION_LEN, 11, 0x394);
    TableAt(NIBBLE_TO_CONTINUATION_LEN, 12, 0xe5);
    TableAt(NIBBLE_TO_CONTINUATION_LEN, 13, 0x39);
    TableAt(NIBBLE_TO_CONTINUATION_LEN, 14, 0xe);
    TableAt(NIBBLE_TO_CONTINUATION_LEN, 15, 0x3);
  }

  function Units(b: Byte): nat {
    NibbleToUtf16Len(b / 16)
  }

  function Continuations(b: Byte): nat {
    NibbleToContinuationLen(b / 16)
  }

  lemma {:induction false} UnitsOf(b: Byte)
    ensures Units(b) == if b < 0x80 then 1 else if b < 0xc0 then 0 else if b < 0xf0 then 1 else 2
    ensures Continuations(b) == if b < 0xc0 then 0 else if b < 0xe0 then 1 else if b < 0xf0 then 2 else 3
  {
    Utf16Table(b / 16);
    ContinuationTable(b / 16);
  }

  /** The length of a string byte by byte. */
  function Len(s: seq<Byte>): nat
    decreases |s|
  {
    if s == [] then 0 else Units(s[0]) + Len(s[1..])
  }

  lemma {:induction false} LenConcat(a: seq<Byte>, b: seq<Byte>)
    ensures Len(a + b) == Len(a) + Len(b)
    decreases |a|
  {
    if a == [] {
      assert a + b == b;
    } else {
      assert (a + b)[0] == a[0] && (a + b)[1..] == a[1..] + b;
      LenConcat(a[1..], b);
    }
  }

  lemma {:induction false} LenOne(b: Byte)
    ensures Len([b]) == Units(b)
  {
    assert [b][1..] == [] && Len([]) == 0;
  }

  // ----- vectors of sixteen bytes -------------------------------------------------------

  type Vector = v: seq<Byte> | |v| == 16 witness seq(16, _ => 0)

  /** `NIBBLE_TO_UTF16_LEN_U8X16.shuffle1_dyn(v >> 4)` */
  function Lookup(v: Vector): (r: Vector)
    ensures forall i :: 0 <= i < 16 ==> r[i] == Units(v[i]) <= 2
  {
    forall i | 0 <= i < 16 ensures Units(v[i]) <= 2 {
      UnitsOf(v[i]);
    }
    seq(16, i requires 0 <= i < 16 => UnitsOf(v[i]); Units(v[i]) as Byte)
  }

  /** Lanes wrap around. */
  function Add(a: Vector, b: Vector): Vector {
    seq(16, i requires 0 <= i < 16 => AddByte(a[i], b[i]))
  }

  function AddByte(a: nat, b: nat): Byte {
    (a + b) % 0x100
  }

  /** So does the sum of all lanes. */
  function WrappingSum(s: seq<Byte>): Byte
    decreases |s|
  {
    if s == [] then 0 else (s[0] + WrappingSum(s[1..])) % 0x100
  }

  /** The length of 64 bytes, four vectors at once. */
  function ChunkLen(s: seq<Byte>): nat
    requires |s| == 64
  {
    WrappingSum(Add(Add(Add(Lookup(s[..16]), Lookup(s[16..32])), Lookup(s[32..48])), Lookup(s[48..])))
  }

  function Sum(s: seq<nat>): nat
    decreases |s|
  {
    if s == [] then 0 else s[0] + Sum(s[1..])
  }

  lemma {:induction false} SumBound(s: seq<Byte>, m: nat)
    requires forall i :: 0 <= i < |s| ==> s[i] <= m
    requires m * |s| < 0x100
    ensures WrappingSum(s) == Sum(s) <= m * |s|
    decreases |s|
  {
    if s != [] {
      assert m * |s| == m + m * (|s| - 1);
      SumBound(s[1..], m);
    }
  }

  lemma {:induction false} SumLen(s: seq<Byte>, v: seq<nat>)
    requires |v| == |s| && forall i :: 0 <= i < |s| ==> v[i] == Units(s[i])
    ensures Sum(v) == Len(s)
    decreases |s|
  {
    if s != [] {
      SumLen(s[1..], v[1..]);
    }
  }

  lemma {:induction false} SumAdd(a: seq<nat>, b: seq<nat>, c: seq<nat>)
    requires |a| == |b| == |c| && forall i :: 0 <= i < |a| ==> c[i] == a[i] + b[i]
    ensures Sum(c) == Sum(a) + Sum(b)
    decreases |a|
  {
    if a != [] {
      SumAdd(a[1..], b[1..], c[1..]);
    }
  }

  /** Lanes of up to 8 add up to 128 at most, so that nothing wraps around and the
      vectors give the same length as byte by byte. */
  lemma {:induction false} ChunkLenIsLen(s: seq<Byte>)
    requires |s| == 64
    ensures ChunkLen(s) == Len(s) <= 128
  {
    hide Units, Len, WrappingSum, Sum;
    var a, b, c, d := Lookup(s[..16]), Lookup(s[16..32]), Lookup(s[32..48]), Lookup(s[48..]);
    var ab := Add(a, b);
    var abc := Add(ab, c);
    var abcd := Add(abc, d);
    SumAdd(a, b, ab);
    SumAdd(ab, c, abc);
    SumAdd(abc, d, abcd);
    SumBound(abcd, 8);
    SumLen(s[..16], a);
    SumLen(s[16..32], b);
    SumLen(s[32..48], c);
    SumLen(s[48..], d);
    assert s == s[..16] + s[16..32] + s[32..48] + s[48..];
    LenConcat(s[..16], s[16..32]);
    LenConcat(s[..16] + s[16..32], s[32..48]);
    LenConcat(s[..16] + s[16..32] + s[32..48], s[48..]);
  }

  // ----- the functions --------------------------------------------------------------------

  /** The number of UTF-16 units, with vectors or without. */
  method Utf16LenOfUtf8Str(str: seq<Byte>, simd: bool) returns (count: nat)
    ensures count == Len(str)
  {
    hide ChunkLen, Units;
    count := 0;
    var s := str;
    if simd {
      while |s| >= 64
        invariant count + Len(s) == Len(str)
      {
        ChunkLenIsLen(s[..64]);
        LenConcat(s[..64], s[64..]);
        assert s == s[..64] + s[64..];
        count := count + ChunkLen(s[..64]);
        s := s[64..];
      }
    }
    for i := 0 to |s|
      invariant count + Len(s[i..]) == Len(str)
    {
      assert s[i..][0] == s[i] && s[i..][1..] == s[i + 1..];
      count := count + Units(s[i]);
    }
  }

  datatype FindUtf16PosResult = FindUtf16PosResult(utf8Cursor: nat, utf16Extra: nat) {
    function Utf8Pos(): Option<nat> {
      if utf16Extra == 0 then Some(utf8Cursor) else None
    }
  }

  /** The search byte by byte: bytes are taken as long as their units do not exceed what
      is left of the position. */
  function Find(pos: nat, s: seq<Byte>): FindUtf16PosResult
    decreases |s|
  {
    if s == [] || Units(s[0]) > pos then FindUtf16PosResult(0, pos)
    else
      var r := Find(pos - Units(s[0]), s[1..]);
      r.(utf8Cursor := r.utf8Cursor + 1)
  }

  /** A piece that is not longer than the position is taken as a whole. */
  lemma {:induction false} FindSkips(pos: nat, a: seq<Byte>, b: seq<Byte>)
    requires Len(a) <= pos
    ensures Find(pos, a + b) == Find(pos - Len(a), b).(utf8Cursor := |a| + Find(pos - Len(a), b).utf8Cursor)
    decreases |a|
  {
    if a == [] {
      assert a + b == b;
    } else {
      assert (a + b)[0] == a[0] && (a + b)[1..] == a[1..] + b;
      FindSkips(pos - Units(a[0]), a[1..], b);
    }
  }

  method FindUtf16PosInUtf8Str(utf16Pos: nat, str: seq<Byte>, simd: bool) returns (r: FindUtf16PosResult)
    ensures r == Find(utf16Pos, str)
  {
    hide ChunkLen, Units, Len;
    var pos, s, cursor := utf16Pos, str, 0;
    if simd {
      while |s| >= 64
        invariant Find(utf16Pos, str) == Find(pos, s).(utf8Cursor := cursor + Find(pos, s).utf8Cursor)
      {
        ChunkLenIsLen(s[..64]);
        assert s == s[..64] + s[64..];
        var chunk := ChunkLen(s[..64]);
        if chunk > pos {
          break;
        }
        FindSkips(pos, s[..64], s[64..]);
        s, cursor, pos := s[64..], cursor + 64, pos - chunk;
      }
    }
    var i := 0;
    while i < |s|
      invariant i <= |s| && Find(utf16Pos, str)
                == Find(pos, s[i..]).(utf8Cursor := cursor + Find(pos, s[i..]).utf8Cursor)
    {
      assert s[i..][0] == s[i] && s[i..][1..] == s[i + 1..];
      var units := Units(s[i]);
      if units > pos {
        break;
      }
      i, cursor, pos := i + 1, cursor + 1, pos - units;
    }
    r := FindUtf16PosResult(cursor, pos);
  }

  /** The search from the end: when the units of a leading byte exceed what is left, the
      continuation bytes after it are given back. */
  function RFind(pos: nat, s: seq<Byte>): FindUtf16PosResult
    decreases |s|
  {
    if s == [] then FindUtf16PosResult(0, pos)
    else
      var b := s[|s| - 1];
      if Units(b) > pos then FindUtf16PosResult(|s| + Continuations(b), pos) else RFind(pos - Units(b), s[..|s| - 1])
  }

  lemma {:induction false} LenLast(s: seq<Byte>)
    requires s != []
    ensures Len(s) == Len(s[..|s| - 1]) + Units(s[|s| - 1])
  {
    assert s == s[..|s| - 1] + [s[|s| - 1]];
    LenConcat(s[..|s| - 1], [s[|s| - 1]]);
    LenOne(s[|s| - 1]);
  }

  lemma {:induction false} RFindSkips(pos: nat, a: seq<Byte>, b: seq<Byte>)
    requires Len(b) <= pos
    ensures RFind(pos, a + b) == RFind(pos - Len(b), a)
    decreases |b|
  {
    if b == [] {
      assert a + b == a;
    } else {
      var n := |b| - 1;
      LenLast(b);
      assert (a + b)[|a + b| - 1] == b[n] && (a + b)[..|a + b| - 1] == a + b[..n];
      RFindSkips(pos - Units(b[n]), a, b[..n]);
    }
  }

  method RFindUtf16PosInUtf8Str(utf16Pos: nat, str: seq<Byte>, simd: bool) returns (r: FindUtf16PosResult)
    ensures r == RFind(utf16Pos, str)
  {
    hide ChunkLen, Units, Continuations, Len;
    var pos, s := utf16Pos, str;
    if simd {
      while |s| >= 64
        invariant RFind(utf16Pos, str) == RFind(pos, s)
      {
        var plot := s[|s| - 64..];
        ChunkLenIsLen(plot);
        assert s == s[..|s| - 64] + plot;
        var chunk := ChunkLen(plot);
        if chunk > pos {
          break;
        }
        RFindSkips(pos, s[..|s| - 64], plot);
        s, pos := s[..|s| - 64], pos - chunk;
      }
    }
    var cursor := |s|;
    while s != []
      invariant cursor == |s| && RFind(utf16Pos, str) == RFind(pos, s)
    {
      var plot := s[|s| - 1];
      var units := Units(plot);
      if units > pos {
        cursor := cursor + Continuations(plot);
        break;
      }
      pos, s, cursor := pos - units, s[..|s| - 1], cursor - 1;
    }
    r := FindUtf16PosResult(cursor, pos);
  }

  // ----- Unicode --------------------------------------------------------------------------

  /** A Unicode scalar value. */
  type Scalar = c: nat | c < 0x11_0000 && !(0xd800 <= c < 0xe000)

  /** The UTF-8 sequence of a scalar value (section 3 of RFC 3629). */
  function Utf8Of(c: Scalar): seq<Byte> {
    if c < 0x80 then [c]
    else if c < 0x800 then [0xc0 + c / 0x40, 0x80 + c % 0x40]
    else if c < 0x1_0000 then [0xe0 + c / 0x1000, 0x80 + c / 0x40 % 0x40, 0x80 + c % 0x40]
    else [0xf0 + c / 0x4_0000, 0x80 + c / 0x1000 % 0x40, 0x80 + c / 0x40 % 0x40, 0x80 + c % 0x40]
  }

  type Utf16Unit = x: nat | x < 0x1_0000

  /** The UTF-16 units of a scalar value: one, or a surrogate pair (section 2.1 of
      RFC 2781). */
  function Utf16Of(c: Scalar): seq<Utf16Unit> {
    if c < 0x1_0000 then [c] else [0xd800 + (c - 0x1_0000) / 0x400, 0xdc00 + (c - 0x1_0000) % 0x400]
  }

  function Utf8(cs: seq<Scalar>): seq<Byte>
    decreases |cs|
  {
    if cs == [] then [] else Utf8Of(cs[0]) + Utf8(cs[1..])
  }

  function Utf16(cs: seq<Scalar>): seq<Utf16Unit>
    decreases |cs|
  {
    if cs == [] then [] else Utf16Of(cs[0]) + Utf16(cs[1..])
  }

  lemma {:induction false} Associate(a: seq<nat>, b: seq<nat>, c: seq<nat>)
    ensures a + (b + c) == a + b + c
  {
  }

  lemma {:induction false} Concat(a: seq<Scalar>, b: seq<Scalar>)
    ensures Utf8(a + b) == Utf8(a) + Utf8(b) && Utf16(a + b) == Utf16(a) + Utf16(b)
    decreases |a|
  {
    hide Utf8Of, Utf16Of;
    if a == [] {
      assert a + b == b;
    } else {
      assert (a + b)[0] == a[0] && (a + b)[1..] == a[1..] + b;
      Concat(a[1..], b);
      Associate(Utf8Of(a[0]), Utf8(a[1..]), Utf8(b));
      Associate(Utf16Of(a[0]), Utf16(a[1..]), Utf16(b));
    }
  }

  lemma {:induction false} One(c: Scalar)
    ensures Utf8([c]) == Utf8Of(c) && Utf16([c]) == Utf16Of(c)
  {
    assert [c][1..] == [] && Utf8([]) == [] && Utf16([]) == [];
  }

  lemma {:induction false} UnitsCount(c: Scalar)
    ensures |Utf16Of(c)| == if c < 0x1_0000 then 1 else 2
  {
  }

  /** A sequence has the units of its leading byte; the continuation bytes after it are
      as many as the leading byte says. */
  lemma {:induction false} Sequence(c: Scalar)
    ensures var s := Utf8Of(c);
            && Units(s[0]) == Len(s) == |Utf16Of(c)| && Continuations(s[0]) == |s| - 1
            && forall i :: 1 <= i < |s| ==> Units(s[i]) == 0
  {
    var s := Utf8Of(c);
    forall i | 0 <= i < |s| ensures Units(s[i]) == if i > 0 then 0 else |Utf16Of(c)| {
      UnitsOf(s[i]);
    }
    UnitsOf(s[0]);
    hide Units, Continuations;
    NoUnits(s[1..]);
  }

  lemma {:induction false} NoUnits(s: seq<Byte>)
    requires forall i :: 0 <= i < |s| ==> Units(s[i]) == 0
    ensures Len(s) == 0
    decreases |s|
  {
    if s != [] {
      NoUnits(s[1..]);
    }
  }

  /** The functions count the UTF-16 units of what a string encodes. */
  lemma {:induction false} LenOfUtf8(cs: seq<Scalar>)
    ensures Len(Utf8(cs)) == |Utf16(cs)|
    decreases |cs|
  {
    if cs != [] {
      Sequence(cs[0]);
      LenConcat(Utf8Of(cs[0]), Utf8(cs[1..]));
      LenOfUtf8(cs[1..]);
    }
  }

  /** The scalar values up to number `k`, and from there on. */
  lemma {:induction false} SplitAt(cs: seq<Scalar>, k: nat)
    requires k <= |cs|
    ensures Utf8(cs) == Utf8(cs[..k]) + Utf8(cs[k..]) && |Utf16(cs)| == |Utf16(cs[..k])| + |Utf16(cs[k..])|
    ensures Len(Utf8(cs[..k])) == |Utf16(cs[..k])| && Len(Utf8(cs[k..])) == |Utf16(cs[k..])|
  {
    assert cs == cs[..k] + cs[k..];
    Concat(cs[..k], cs[k..]);
    LenOfUtf8(cs[..k]);
    LenOfUtf8(cs[k..]);
  }

  // ----- forward --------------------------------------------------------------------------

  /** With fewer units than the next scalar value has, nothing is taken. */
  lemma {:induction false} FindStops(pos: nat, cs: seq<Scalar>)
    requires cs != [] ==> pos < |Utf16Of(cs[0])|
    ensures Find(pos, Utf8(cs)) == FindUtf16PosResult(0, pos)
  {
    if cs != [] {
      Sequence(cs[0]);
      assert Utf8(cs)[0] == Utf8Of(cs[0])[0];
    }
  }

  /** The search finds every boundary between scalar values from the length of what is
      before it; one more unit, which leads into a surrogate pair, is left over. */
  lemma {:induction false} FindBoundary(cs: seq<Scalar>, k: nat, extra: nat)
    requires k <= |cs| && (k < |cs| ==> extra < |Utf16Of(cs[k])|)
    ensures Find(|Utf16(cs[..k])| + extra, Utf8(cs)) == FindUtf16PosResult(|Utf8(cs[..k])|, extra)
  {
    SplitAt(cs, k);
    FindSkips(|Utf16(cs[..k])| + extra, Utf8(cs[..k]), Utf8(cs[k..]));
    FindStops(extra, cs[k..]);
  }

  /** Every position is at a boundary, inside a surrogate pair or past the end. */
  lemma {:induction false} Locate(cs: seq<Scalar>, pos: nat) returns (k: nat, extra: nat)
    ensures k <= |cs| && pos == |Utf16(cs[..k])| + extra && (k < |cs| ==> extra < |Utf16Of(cs[k])|)
    decreases |cs|
  {
    if cs == [] || pos < |Utf16Of(cs[0])| {
      k, extra := 0, pos;
      assert cs[..0] == [];
    } else {
      var j, e := Locate(cs[1..], pos - |Utf16Of(cs[0])|);
      k, extra := j + 1, e;
      assert cs[..k][0] == cs[0] && cs[..k][1..] == cs[1..][..j];
    }
  }

  /** What the search gives for any position: a boundary; and one unit is left over
      exactly inside a surrogate pair, or more past the end. */
  lemma {:induction false} FindAnswers(cs: seq<Scalar>, pos: nat) returns (k: nat)
    ensures k <= |cs|
    ensures var r := Find(pos, Utf8(cs));
            && r.utf8Cursor == |Utf8(cs[..k])| && pos == |Utf16(cs[..k])| + r.utf16Extra
            && (r.utf16Extra == 0 || (k < |cs| && cs[k] >= 0x1_0000 && r.utf16Extra == 1) || k == |cs|)
            && (pos > |Utf16(cs)| <==> k == |cs| && r.utf16Extra > 0)
            && (pos > |Utf16(cs)| ==> r.utf16Extra == pos - |Utf16(cs)|)
  {
    hide Find, Utf8, Utf16, Utf8Of, Utf16Of, Len;
    var extra;
    k, extra := Locate(cs, pos);
    FindBoundary(cs, k, extra);
    SplitAt(cs, k);
    if k < |cs| {
      UnitsCount(cs[k]);
      Concat([cs[k]], cs[k + 1..]);
      One(cs[k]);
      assert cs[k..] == [cs[k]] + cs[k + 1..];
    } else {
      assert cs[..k] == cs && cs[k..] == [];
    }
  }

  /** Number `k` is where `pos` units and `i` bytes are over. */
  ghost predicate AtBoundary(cs: seq<Scalar>, k: nat, pos: nat, i: nat) {
    k <= |cs| && pos == |Utf16(cs[..k])| && i == |Utf8(cs[..k])|
  }

  /** `utf8_pos` gives an index if and only if there is a boundary at the position. */
  lemma {:induction false} PosFound(cs: seq<Scalar>, pos: nat, i: nat)
    ensures Find(pos, Utf8(cs)).Utf8Pos() == Some(i) <==> exists k :: AtBoundary(cs, k, pos, i)
  {
    hide Find, Utf8, Utf16, Len;
    var k := FindAnswers(cs, pos);
    if Find(pos, Utf8(cs)).Utf8Pos() == Some(i) {
      assert AtBoundary(cs, k, pos, i);
    }
    if j: nat :| AtBoundary(cs, j, pos, i) {
      if j < |cs| {
        UnitsCount(cs[j]);
      }
      FindBoundary(cs, j, 0);
    }
  }

  // ----- backward -------------------------------------------------------------------------

  /** With fewer units than the last scalar value has, nothing is taken. */
  lemma {:induction false} RFindStops(pos: nat, a: seq<Byte>, c: Scalar)
    requires pos < |Utf16Of(c)|
    ensures RFind(pos, a + Utf8Of(c)) == FindUtf16PosResult(|a + Utf8Of(c)|, pos)
  {
    var s := Utf8Of(c);
    Sequence(c);
    NoUnits(s[1..]);
    assert s == [s[0]] + s[1..];
    assert a + s == (a + [s[0]]) + s[1..];
    RFindSkips(pos, a + [s[0]], s[1..]);
    assert (a + [s[0]])[|a|] == s[0];
  }

  lemma {:induction false} RFindNothing(pos: nat)
    ensures Utf8([]) == [] && RFind(pos, []) == FindUtf16PosResult(0, pos)
  {
  }

  /** The search from the end finds every boundary from the length of what is after it;
      one more unit, which leads into the surrogate pair before it, is left over. */
  lemma {:induction false} RFindBoundary(cs: seq<Scalar>, k: nat, extra: nat)
    requires k <= |cs| && (k > 0 ==> extra < |Utf16Of(cs[k - 1])|)
    ensures RFind(|Utf16(cs[k..])| + extra, Utf8(cs)) == FindUtf16PosResult(|Utf8(cs[..k])|, extra)
  {
    hide RFind, Utf8, Utf16, Utf8Of, Utf16Of, Len;
    SplitAt(cs, k);
    RFindSkips(|Utf16(cs[k..])| + extra, Utf8(cs[..k]), Utf8(cs[k..]));
    if k > 0 {
      assert cs[..k] == cs[..k - 1] + [cs[k - 1]];
      Concat(cs[..k - 1], [cs[k - 1]]);
      One(cs[k - 1]);
      RFindStops(extra, Utf8(cs[..k - 1]), cs[k - 1]);
    } else {
      assert cs[..0] == [];
      RFindNothing(extra);
    }
  }

  lemma {:induction false} RLocate(cs: seq<Scalar>, pos: nat) returns (k: nat, extra: nat)
    ensures k <= |cs| && pos == |Utf16(cs[k..])| + extra && (k > 0 ==> extra < |Utf16Of(cs[k - 1])|)
    decreases |cs|
  {
    var n := |cs|;
    if cs == [] || pos < |Utf16Of(cs[n - 1])| {
      k, extra := n, pos;
      assert cs[n..] == [];
    } else {
      var init := cs[..n - 1];
      k, extra := RLocate(init, pos - |Utf16Of(cs[n - 1])|);
      assert cs[k..] == init[k..] + [cs[n - 1]];
      Concat(init[k..], [cs[n - 1]]);
      One(cs[n - 1]);
    }
  }

  /** What the search from the end gives for any position. */
  lemma {:induction false} RFindAnswers(cs: seq<Scalar>, pos: nat) returns (k: nat)
    ensures k <= |cs|
    ensures var r := RFind(pos, Utf8(cs));
            && r.utf8Cursor == |Utf8(cs[..k])| && pos == |Utf16(cs[k..])| + r.utf16Extra
            && (r.utf16Extra == 0 || (k > 0 && cs[k - 1] >= 0x1_0000 && r.utf16Extra == 1) || k == 0)
            && (pos > |Utf16(cs)| <==> k == 0 && r.utf16Extra > 0)
            && (pos > |Utf16(cs)| ==> r.utf16Extra == pos - |Utf16(cs)|)
  {
    hide RFind, Utf8, Utf16, Utf8Of, Utf16Of, Len;
    var extra;
    k, extra := RLocate(cs, pos);
    RFindBoundary(cs, k, extra);
    SplitAt(cs, k);
    if k > 0 {
      assert cs[..k] == cs[..k - 1] + [cs[k - 1]];
      Concat(cs[..k - 1], [cs[k - 1]]);
      One(cs[k - 1]);
      UnitsCount(cs[k - 1]);
    } else {
      assert cs[0..] == cs && cs[..0] == [];
    }
  }

  /** Inside a surrogate pair, the search from the end gives the index after the four
      bytes that the pair is made from. */
  lemma {:induction false} RFindPair(cs: seq<Scalar>, k: nat)
    requires 0 < k <= |cs| && cs[k - 1] >= 0x1_0000
    ensures var s, i := Utf8(cs), |Utf8(cs[..k])|;
            && RFind(|Utf16(cs[k..])| + 1, s) == FindUtf16PosResult(i, 1)
            && 4 <= i <= |s| && s[i - 4..i] == Utf8Of(cs[k - 1])
  {
    hide RFind, Utf8, Utf16, Len;
    UnitsCount(cs[k - 1]);
    RFindBoundary(cs, k, 1);
    SplitAt(cs, k);
    assert cs[..k] == cs[..k - 1] + [cs[k - 1]];
    Concat(cs[..k - 1], [cs[k - 1]]);
    One(cs[k - 1]);
  }

  /** The four bytes at that index, which the documentation of `rfind` names, are others:
      here they are those of four letters. */
  lemma {:induction false} NotTheSliceNamed(c: Scalar, letters: seq<Scalar>)
    requires c >= 0x1_0000 && |letters| == 4 && forall i :: 0 <= i < 4 ==> letters[i] < 0x80
    ensures var s := Utf8([c] + letters);
            RFind(5, s) == FindUtf16PosResult(4, 1) && |s| == 8 && s[4..8] == letters && s[..4] == Utf8Of(c)
  {
    assert |Utf8Of(c)| == 4;
    hide RFind, Utf8, Utf16, Utf8Of, Utf16Of, Len;
    var cs := [c] + letters;
    assert cs[1..] == letters && cs[..1] == [c];
    Letters(letters);
    One(c);
    Concat([c], letters);
    RFindPair(cs, 1);
  }

  /** Letters of one byte have one unit each. */
  lemma {:induction false} Letters(cs: seq<Scalar>)
    requires forall i :: 0 <= i < |cs| ==> cs[i] < 0x80
    ensures Utf8(cs) == cs && |Utf16(cs)| == |cs|
    decreases |cs|
  {
    if cs != [] {
      Letters(cs[1..]);
      assert cs == [cs[0]] + cs[1..];
    }
  }

  /** The two searches meet: each finds the boundary that the other one finds. */
  lemma {:induction false} BothWays(cs: seq<Scalar>, k: nat)
    requires k <= |cs|
    ensures Find(|Utf16(cs[..k])|, Utf8(cs)) == RFind(|Utf16(cs[k..])|, Utf8(cs))
            == FindUtf16PosResult(|Utf8(cs[..k])|, 0)
  {
    hide Find, RFind, Utf8, Utf16, Len;
    if k < |cs| {
      UnitsCount(cs[k]);
    }
    if k > 0 {
      UnitsCount(cs[k - 1]);
    }
    FindBoundary(cs, k, 0);
    RFindBoundary(cs, k, 0);
  }
}
