/** A queue of at most 64 tasks, each to be run between a start time and a deadline. */
module TimerQueue {
  import opened Wrappers
  import opened Bits
  import opened FixTime

  const SIZE: nat := 64
  const GROUP_MASK: nat := 0x1111_1111_1111_1111

  // ----- scanning bitmaps ---------------------------------------------------------------

  predicate Increasing(s: seq<nat>) {
    forall i, j :: 0 <= i < j < |s| ==> s[i] < s[j]
  }

  /** `s` lists the bits of `x` from the lowest to the highest. */
  ghost predicate ListsBits(s: seq<nat>, x: nat) {
    Increasing(s) && forall i: nat :: i in s <==> BitAt(x, i)
  }

  /** The bits of `x` that are not in `s` are those of `y`, and come after all in `s`. */
  ghost predicate LeftOf(x: nat, s: seq<nat>, y: nat) {
    && Increasing(s) && (forall i: nat :: BitAt(x, i) <==> i in s || BitAt(y, i))
    && forall i: nat, j :: BitAt(y, i) && 0 <= j < |s| ==> s[j] < i
  }

  lemma {:induction false} AppendOne(s: seq<nat>, z: nat)
    ensures forall i: nat :: i in s + [z] <==> i in s || i == z
  {
  }

  lemma {:induction false} LeftStep(x: nat, s: seq<nat>, y: nat)
    requires LeftOf(x, s, y) && y > 0
    ensures LeftOf(x, s + [TrailingZeros(y)], And(y - 1, y))
  {
    hide BitAt, And, TrailingZeros;
    var z := TrailingZeros(y);
    AppendOne(s, z);
    TrailingZerosBit(y, 0);
    var t, w := s + [z], And(y - 1, y);
    forall i: nat ensures BitAt(w, i) == (BitAt(y, i) && i != z) {
      ClearLowest(y, i);
    }
    forall i: nat | BitAt(y, i) ensures z <= i {
      TrailingZerosBit(y, i);
    }
    forall i, j | 0 <= i < j < |t| ensures t[i] < t[j] {
      assert BitAt(y, z);
    }
    forall i: nat, j | BitAt(w, i) && 0 <= j < |t| ensures t[j] < i {
      assert BitAt(y, i);
    }
  }

  /** The set bits of `x`, each being cleared in turn. */
  method IterBits(x: nat) returns (s: seq<nat>)
    ensures ListsBits(s, x)
  {
    s := [];
    var y := x;
    while y != 0
      invariant LeftOf(x, s, y)
    {
      LeftStep(x, s, y);
      AndLess(y - 1, y);
      s := s + [TrailingZeros(y)];
      y := And(y - 1, y);
    }
    forall i: nat ensures !BitAt(0, i) {
      ZeroBit(i);
    }
  }

  function Ones(k: nat): nat {
    if k == 0 then 0 else 1 + 16 * Ones(k - 1)
  }

  lemma {:induction false} OnesBit(k: nat, i: nat)
    ensures BitAt(Ones(k), i) <==> i % 4 == 0 && i < 4 * k
    decreases k
  {
    if k == 0 {
      ZeroBit(i);
    } else {
      var v, w := Ones(k), Ones(k - 1);
      assert v / 2 == 8 * w && v / 2 / 2 == 4 * w && v / 2 / 2 / 2 == 2 * w && v / 2 / 2 / 2 / 2 == w;
      if i >= 4 {
        assert BitAt(v, i) == BitAt(v / 2, i - 1) == BitAt(v / 2 / 2, i - 2) == BitAt(v / 2 / 2 / 2, i - 3)
            == BitAt(w, i - 4);
        OnesBit(k - 1, i - 4);
      } else if i > 0 {
        assert BitAt(v / 2, 0) == BitAt(v / 2 / 2, 0) == BitAt(v / 2 / 2 / 2, 0) == false;
        assert BitAt(v, 1) == BitAt(v / 2, 0);
        assert BitAt(v, 2) == BitAt(v / 2, 1) == BitAt(v / 2 / 2, 0);
        assert BitAt(v, 3) == BitAt(v / 2, 2) == BitAt(v / 2 / 2, 1) == BitAt(v / 2 / 2 / 2, 0);
      }
    }
  }

  lemma {:induction false} GroupMaskBit(i: nat)
    ensures BitAt(GROUP_MASK, i) <==> i % 4 == 0 && i < SIZE
  {
    assert Ones(2) == 0x11;
    assert Ones(4) == 0x1111;
    assert Ones(6) == 0x11_1111;
    assert Ones(8) == 0x1111_1111;
    assert Ones(10) == 0x11_1111_1111;
    assert Ones(12) == 0x1111_1111_1111;
    assert Ones(14) == 0x11_1111_1111_1111;
    assert Ones(16) == GROUP_MASK;
    OnesBit(16, i);
  }

  /** The word in which a bit is set at the start of each group of four bits any of
      which are set in `x`. */
  function GroupBits(x: nat): nat {
    var a := Or(x, Shr(x, 1));
    var b := Or(a, Shr(a, 2));
    And(b, GROUP_MASK)
  }

  lemma {:induction false} GroupBit(x: nat, g: nat)
    ensures BitAt(GroupBits(x), g) <==>
              && g % 4 == 0 && g < SIZE
              && (BitAt(x, g) || BitAt(x, g + 1) || BitAt(x, g + 2) || BitAt(x, g + 3))
  {
    var a := Or(x, Shr(x, 1));
    var b := Or(a, Shr(a, 2));
    AndBit(b, GROUP_MASK, g);
    GroupMaskBit(g);
    OrBit(a, Shr(a, 2), g);
    ShrBit(a, 2, g);
    OrBit(x, Shr(x, 1), g);
    ShrBit(x, 1, g);
    OrBit(x, Shr(x, 1), g + 2);
    ShrBit(x, 1, g + 2);
  }

  /** Which group a position belongs to. */
  function GroupOf(i: nat): nat {
    i - i % 4
  }

  /** The groups of four bits any of which are set in `x`. */
  method IterBitGroups4Any(x: nat) returns (s: seq<nat>)
    requires x < Pow2(SIZE)
    ensures Increasing(s) && forall g :: g in s ==> g % 4 == 0 && g + 4 <= SIZE
    ensures forall i: nat :: BitAt(x, i) ==> GroupOf(i) in s
    ensures forall g :: g in s ==> BitAt(x, g) || BitAt(x, g + 1) || BitAt(x, g + 2) || BitAt(x, g + 3)
  {
    hide BitAt, GroupBits;
    s := IterBits(GroupBits(x));
    forall i: nat | BitAt(x, i) ensures GroupOf(i) in s {
      InGroup(x, i);
    }
    forall g: nat | g in s
      ensures g % 4 == 0 && g + 4 <= SIZE && (BitAt(x, g) || BitAt(x, g + 1) || BitAt(x, g + 2) || BitAt(x, g + 3))
    {
      GroupBit(x, g);
    }
  }

  lemma {:induction false} InGroup(x: nat, i: nat)
    requires x < Pow2(SIZE) && BitAt(x, i)
    ensures i < SIZE && BitAt(GroupBits(x), GroupOf(i))
  {
    hide BitAt, GroupBits;
    if i >= SIZE {
      HighBit(x, SIZE, i);
      assert false;
    }
    GroupBit(x, GroupOf(i));
    assert i == GroupOf(i) + i % 4;
  }

  // ----- vectors of four numbers --------------------------------------------------------

  /** `v.le(splat(x)).bitmask()` */
  function LeMask(v: seq<F64>, x: F64): nat
    requires |v| == 4
  {
    (if Le(v[0], x) then 1 else 0) + (if Le(v[1], x) then 2 else 0) + (if Le(v[2], x) then 4 else 0)
        + (if Le(v[3], x) then 8 else 0)
  }

  lemma {:induction false} NibbleBit(a: bool, b: bool, c: bool, d: bool, i: nat)
    ensures BitAt((if a then 1 else 0) + (if b then 2 else 0) + (if c then 4 else 0) + (if d then 8 else 0), i)
            == ((i == 0 && a) || (i == 1 && b) || (i == 2 && c) || (i == 3 && d))
  {
    var v := (if a then 1 else 0) + (if b then 2 else 0) + (if c then 4 else 0) + (if d then 8 else 0);
    assert v / 2 / 2 / 2 / 2 == 0;
    if i >= 4 {
      assert BitAt(v, i) == BitAt(v / 2, i - 1) == BitAt(v / 2 / 2, i - 2) == BitAt(v / 2 / 2 / 2, i - 3)
          == BitAt(0, i - 4);
      ZeroBit(i - 4);
    } else if i == 1 {
      assert BitAt(v, 1) == BitAt(v / 2, 0);
    } else if i == 2 {
      assert BitAt(v, 2) == BitAt(v / 2, 1) == BitAt(v / 2 / 2, 0);
    } else if i == 3 {
      assert BitAt(v, 3) == BitAt(v / 2, 2) == BitAt(v / 2 / 2, 1) == BitAt(v / 2 / 2 / 2, 0);
    }
  }

  lemma {:induction false} LeMaskBit(v: seq<F64>, x: F64, i: nat)
    requires |v| == 4
    ensures BitAt(LeMask(v, x), i) == (i < 4 && Le(v[i], x))
  {
    hide Le;
    NibbleBit(Le(v[0], x), Le(v[1], x), Le(v[2], x), Le(v[3], x), i);
  }

  function FMin(a: F64, b: F64): F64 {
    if Le(a, b) then a else b
  }

  lemma {:induction false} BitMask(h: nat, i: nat)
    ensures BitAt(Shl(1, h), i) == (i == h)
  {
    ShlBit(1, h, i);
    if i > h {
      ZeroBit(i - h - 1);
      assert BitAt(1, i - h) == BitAt(0, i - h - 1);
    }
  }

  // ----- the queue ------------------------------------------------------------------------

  /** A task is to be run from `start` to `end`. */
  datatype Task<T> = Task(start: Time, end: Time, payload: T)

  /** What the arrays hold for position `i`. */
  ghost predicate SlotOk<T>(tasks: map<nat, Task<T>>, i: nat, start: F64, end: F64, payload: Option<T>) {
    if i in tasks then start == ToFp(tasks[i].start) && end == ToFp(tasks[i].end) && payload == Some(tasks[i].payload)
    else start == F64_INFINITY && end == F64_INFINITY
  }

  /** The bits of `bitmap` are the positions of the tasks. */
  ghost predicate BitmapOk<T>(tasks: map<nat, Task<T>>, bitmap: nat) {
    bitmap < Pow2(SIZE) && forall i: nat :: i in tasks <==> BitAt(bitmap, i)
  }

  lemma {:induction false} BitmapSet<T>(tasks: map<nat, Task<T>>, bitmap: nat, i: nat, t: Task<T>)
    requires BitmapOk(tasks, bitmap) && i < SIZE
    ensures BitmapOk(tasks[i := t], Or(bitmap, Shl(1, i)))
  {
    hide BitAt, Or, Shl;
    forall j: nat ensures BitAt(Or(bitmap, Shl(1, i)), j) == (BitAt(bitmap, j) || j == i) {
      OrBit(bitmap, Shl(1, i), j);
      BitMask(i, j);
    }
    MaskBound(i);
    OrBound(bitmap, Shl(1, i), SIZE);
  }

  lemma {:induction false} MaskBound(i: nat)
    requires i < SIZE
    ensures Shl(1, i) < Pow2(SIZE)
  {
    ShlBound(1, i, 1);
    Pow2Up(i + 1, SIZE);
  }

  lemma {:induction false} BitmapClear<T>(tasks: map<nat, Task<T>>, bitmap: nat, i: nat)
    requires BitmapOk(tasks, bitmap) && i < SIZE
    ensures Shl(1, i) < Pow2(SIZE) && BitmapOk(tasks - {i}, And(bitmap, Not(Shl(1, i), SIZE)))
  {
    hide BitAt, And, Shl, Not;
    MaskBound(i);
    forall j: nat ensures BitAt(And(bitmap, Not(Shl(1, i), SIZE)), j) == (BitAt(bitmap, j) && j != i) {
      AndBit(bitmap, Not(Shl(1, i), SIZE), j);
      NotBit(Shl(1, i), SIZE, j);
      BitMask(i, j);
      if j >= SIZE {
        HighBit(bitmap, SIZE, j);
      }
    }
    AndLess(bitmap, Not(Shl(1, i), SIZE));
  }

  /** `bitmap & mask != 0` */
  lemma {:induction false} BitTest(bitmap: nat, i: nat)
    ensures And(bitmap, Shl(1, i)) != 0 <==> BitAt(bitmap, i)
  {
    hide BitAt, And, Shl;
    var m := And(bitmap, Shl(1, i));
    AndBit(bitmap, Shl(1, i), i);
    BitMask(i, i);
    if m == 0 {
      ZeroBit(i);
    } else {
      var z := TrailingZeros(m);
      TrailingZerosBit(m, 0);
      AndBit(bitmap, Shl(1, i), z);
      BitMask(i, z);
    }
  }

  /** The lowest vacant position. */
  lemma {:induction false} FirstVacant<T>(tasks: map<nat, Task<T>>, bitmap: nat)
    requires BitmapOk(tasks, bitmap)
    ensures Not(bitmap, SIZE) == 0 <==> forall i: nat :: i < SIZE ==> i in tasks
    ensures Not(bitmap, SIZE) != 0 ==>
              var z := TrailingZeros(Not(bitmap, SIZE));
              z < SIZE && z !in tasks && forall i: nat :: i < z ==> i in tasks
  {
    hide BitAt, Not, TrailingZeros;
    var free := Not(bitmap, SIZE);
    forall i: nat ensures BitAt(free, i) == (i < SIZE && i !in tasks) {
      NotBit(bitmap, SIZE, i);
    }
    if free == 0 {
      forall i: nat ensures !BitAt(free, i) {
        ZeroBit(i);
      }
    } else {
      TrailingZerosBit(free, 0);
      forall i: nat | i < TrailingZeros(free) ensures !BitAt(free, i) {
        TrailingZerosBit(free, i);
      }
    }
  }

  /** The tasks that have not started by `time`. */
  ghost function NotStarted<T>(tasks: map<nat, Task<T>>, time: Time): map<nat, Task<T>> {
    map i | i in tasks && tasks[i].start > time :: tasks[i]
  }

  /** The bits of `bits` are the positions of the tasks that have started by `time`,
      as far as they belong to the groups `gs`. */
  ghost predicate RunnableBits<T>(tasks: map<nat, Task<T>>, time: Time, gs: seq<nat>, bits: nat) {
    forall i: nat :: BitAt(bits, i) <==> i in tasks && tasks[i].start <= time && GroupOf(i) in gs
  }

  lemma {:induction false} RunnableStep<T>(tasks: map<nat, Task<T>>, time: Time, gs: seq<nat>, bits: nat, g: nat,
                                           v: seq<F64>)
    requires RunnableBits(tasks, time, gs, bits) && g % 4 == 0 && |v| == 4
    requires forall k: nat :: k < 4 ==> Le(v[k], ToFp(time)) == (g + k in tasks && tasks[g + k].start <= time)
    ensures RunnableBits(tasks, time, gs + [g], Or(bits, Shl(LeMask(v, ToFp(time)), g)))
  {
    hide BitAt, Or, Shl, LeMask, Le;
    var m := LeMask(v, ToFp(time));
    forall i: nat
      ensures BitAt(Or(bits, Shl(m, g)), i)
              == (BitAt(bits, i) || (GroupOf(i) == g && i in tasks && tasks[i].start <= time))
    {
      OrBit(bits, Shl(m, g), i);
      ShlBit(m, g, i);
      if i >= g {
        LeMaskBit(v, ToFp(time), i - g);
        if i < g + 4 {
          assert i == g + (i - g);
        }
      }
    }
    AppendOne(gs, g);
  }

  class TimerQueueCore<T(==)> {
    const start: array<F64>
    const end: array<F64>
    const payloads: array<Option<T>>
    var bitmap: nat
    ghost var tasks: map<nat, Task<T>>

    ghost predicate Valid()
      reads this, start, end, payloads
    {
      && start.Length == SIZE && end.Length == SIZE && payloads.Length == SIZE && start != end
      && BitmapOk(tasks, bitmap)
      && forall i: nat :: i < SIZE ==> SlotOk(tasks, i, start[i], end[i], payloads[i])
    }

    constructor ()
      ensures Valid() && tasks == map[] && fresh(start) && fresh(end) && fresh(payloads)
    {
      start := new F64[SIZE](_ => F64_INFINITY);
      end := new F64[SIZE](_ => F64_INFINITY);
      payloads := new Option<T>[SIZE](_ => None);
      bitmap, tasks := 0, map[];
      new;
      forall i: nat ensures !BitAt(0, i) {
        ZeroBit(i);
      }
      Pow2Up(0, SIZE);
    }

    /** Puts a task on the lowest vacant position, if there is one. */
    method Insert(from: Time, to: Time, payload: T) returns (r: Option<nat>)
      requires Valid()
      modifies this, start, end, payloads
      ensures Valid()
      ensures r.None? <==> forall i: nat :: i < SIZE ==> i in old(tasks)
      ensures r.None? ==> tasks == old(tasks)
      ensures r.Some? ==>
                && r.value < SIZE && r.value !in old(tasks) && (forall i: nat :: i < r.value ==> i in old(tasks))
                && tasks == old(tasks)[r.value := Task(from, to, payload)]
    {
      hide BitmapOk;
      FirstVacant(tasks, bitmap);
      BitmapBound(tasks, bitmap);
      var freeBitmap := Not(bitmap, SIZE);
      if freeBitmap == 0 {
        return None;
      }
      var htask := TrailingZeros(freeBitmap);
      BitmapSet(tasks, bitmap, htask, Task(from, to, payload));
      start[htask] := ToFp(from);
      end[htask] := ToFp(to);
      bitmap := Or(bitmap, Shl(1, htask));
      payloads[htask] := Some(payload);
      tasks := tasks[htask := Task(from, to, payload)];
      r := Some(htask);
    }

    method Get(htask: nat) returns (r: Option<T>)
      requires Valid() && htask < SIZE
      ensures r == if htask in tasks then Some(tasks[htask].payload) else None
    {
      BitTest(bitmap, htask);
      if And(bitmap, Shl(1, htask)) == 0 {
        return None;
      }
      r := payloads[htask];
    }

    method Remove(htask: nat) returns (r: Option<T>)
      requires Valid() && htask < SIZE
      modifies this, start, end, payloads
      ensures Valid() && tasks == old(tasks) - {htask}
      ensures r == if htask in old(tasks) then Some(old(tasks)[htask].payload) else None
    {
      BitTest(bitmap, htask);
      if And(bitmap, Shl(1, htask)) == 0 {
        assert tasks - {htask} == tasks;
        return None;
      }
      var x := RemoveUnchecked(htask);
      r := Some(x);
    }

    method RemoveUnchecked(htask: nat) returns (x: T)
      requires Valid() && htask < SIZE && htask in tasks
      modifies this, start, end, payloads
      ensures Valid() && tasks == old(tasks) - {htask} && x == old(tasks)[htask].payload
    {
      hide BitmapOk;
      BitmapClear(tasks, bitmap, htask);
      start[htask] := F64_INFINITY;
      end[htask] := F64_INFINITY;
      bitmap := And(bitmap, Not(Shl(1, htask), SIZE));
      x := payloads[htask].value;
      tasks := tasks - {htask};
    }

    /** The positions of the tasks that have started by `time`, in order; groups without
        a task are skipped. */
    method RunnableTasks(time: Time) returns (s: seq<nat>)
      requires Valid()
      ensures Increasing(s) && forall i: nat :: i in s <==> i in tasks && tasks[i].start <= time
      ensures forall i :: i in s ==> i < SIZE
    {
      hide BitAt, Or, Shl, LeMask, Le;
      var runnable := 0;
      var gs := IterBitGroups4Any(bitmap);
      forall i: nat ensures !BitAt(0, i) {
        ZeroBit(i);
      }
      for j := 0 to |gs|
        invariant RunnableBits(tasks, time, gs[..j], runnable)
      {
        var g := gs[j];
        assert g in gs;
        assert gs[..j + 1] == gs[..j] + [g];
        var v := start[g..g + 4];
        forall k: nat | k < 4 ensures Le(v[k], ToFp(time)) == (g + k in tasks && tasks[g + k].start <= time) {
          StartedAt(tasks, g + k, start[g + k], end[g + k], payloads[g + k], time);
        }
        RunnableStep(tasks, time, gs[..j], runnable, g, v);
        runnable := Or(runnable, Shl(LeMask(v, ToFp(time)), g));
      }
      assert gs[..|gs|] == gs;
      s := IterBits(runnable);
      forall i | i in s ensures i < SIZE {
        TasksBelow(tasks, bitmap, i);
      }
    }

    /** Takes out the tasks that have started by `time`, in the order of their
        positions. */
    method DrainRunnableTasks(time: Time) returns (out: seq<(nat, T)>)
      requires Valid()
      modifies this, start, end, payloads
      ensures Valid() && tasks == NotStarted(old(tasks), time)
      ensures Drained(old(tasks), time, out)
    {
      hide BitmapOk, SlotOk, Drained, NotStarted, Increasing;
      var s := RunnableTasks(time);
      out := [];
      assert Remaining(tasks, tasks, []);
      for j := 0 to |s|
        invariant Valid() && Remaining(old(tasks), tasks, s[..j])
        invariant |out| == j && forall k :: 0 <= k < j ==>
                  s[k] in old(tasks) && out[k] == (s[k], old(tasks)[s[k]].payload)
      {
        assert s[j] in s;
        assert s[..j + 1] == s[..j] + [s[j]];
        AppendOne(s[..j], s[j]);
        NotBefore(s, j);
        var x := RemoveUnchecked(s[j]);
        out := out + [(s[j], x)];
      }
      assert s[..|s|] == s;
      DrainedAll(old(tasks), tasks, time, s, out);
    }

    /** Four lanes of deadlines. */
    lemma {:induction false} LanesAre(g: nat)
      requires Valid() && g + 4 <= SIZE
      ensures LanesAt(tasks, g, end[g..g + 4])
    {
      hide BitmapOk;
      var v := end[g..g + 4];
      forall k: nat | k < 4 ensures EndsAt(tasks, g + k, v[k]) {
        assert SlotOk(tasks, g + k, start[g + k], end[g + k], payloads[g + k]);
      }
    }

    /** The earliest deadline. */
    method SuggestNextWakeup() returns (r: Option<Time>)
      requires Valid()
      ensures r.None? <==> tasks == map[]
      ensures r.Some? ==>
                && (exists i :: i in tasks && tasks[i].end == r.value)
                && forall i :: i in tasks ==> r.value <= tasks[i].end
    {
      NoTasks(tasks, bitmap);
      if bitmap == 0 {
        return None;
      }
      hide BitmapOk, BitAt, SlotOk, LeastOfLanes, LanesAt, MinElement, FMin4;
      var gs := IterBitGroups4Any(bitmap);
      var least := NO_LANES;
      NoLanes(tasks);
      assert gs[..0] == [];
      for j := 0 to |gs|
        invariant |least| == 4 && LeastOfLanes(tasks, gs[..j], least)
      {
        var g := gs[j];
        assert g in gs;
        assert gs[..j + 1] == gs[..j] + [g];
        var v := end[g..g + 4];
        LanesAre(g);
        LanesStep(tasks, gs[..j], g, least, v);
        least := FMin4(least, v);
      }
      assert gs[..|gs|] == gs;
      LeastOfAll(tasks, bitmap, gs, least);
      r := Some(FromFp(MinElement(least)));
    }
  }

  // ----- the earliest deadline ------------------------------------------------------------

  function FMin4(a: seq<F64>, b: seq<F64>): seq<F64>
    requires |a| == 4 && |b| == 4
  {
    [FMin(a[0], b[0]), FMin(a[1], b[1]), FMin(a[2], b[2]), FMin(a[3], b[3])]
  }

  function MinElement(a: seq<F64>): F64
    requires |a| == 4
  {
    FMin(FMin(a[0], a[1]), FMin(a[2], a[3]))
  }

  lemma {:induction false} FMinIsMin(a: F64, b: F64)
    ensures FMin(a, b) == if a <= b then a else b
  {
    LeIsLe(a, b);
  }

  lemma {:induction false} MinElementIsMin(a: seq<F64>)
    requires |a| == 4
    ensures MinElement(a) in a && forall k: nat :: k < 4 ==> MinElement(a) <= a[k]
  {
    hide FMin;
    FMinIsMin(a[0], a[1]);
    FMinIsMin(a[2], a[3]);
    FMinIsMin(FMin(a[0], a[1]), FMin(a[2], a[3]));
  }

  ghost predicate EndsAt<T>(tasks: map<nat, Task<T>>, i: nat, end: F64) {
    if i in tasks then end == ToFp(tasks[i].end) else end == F64_INFINITY
  }

  /** `m` is the least deadline of the tasks at place `k` of the groups `gs`. */
  ghost predicate LeastOf<T>(tasks: map<nat, Task<T>>, gs: seq<nat>, k: nat, m: F64) {
    && (forall g :: g in gs && g + k in tasks ==> m <= ToFp(tasks[g + k].end))
    && (m != F64_INFINITY ==> exists g :: g in gs && g + k in tasks && m == ToFp(tasks[g + k].end))
  }

  ghost predicate LeastOfLanes<T>(tasks: map<nat, Task<T>>, gs: seq<nat>, least: seq<F64>) {
    |least| == 4 && forall k: nat :: k < 4 ==> LeastOf(tasks, gs, k, least[k])
  }

  lemma {:induction false} LeastStep<T>(tasks: map<nat, Task<T>>, gs: seq<nat>, g: nat, k: nat, m: F64, end: F64)
    requires LeastOf(tasks, gs, k, m) && EndsAt(tasks, g + k, end)
    ensures LeastOf(tasks, gs + [g], k, FMin(m, end))
  {
    AppendOne(gs, g);
    FMinIsMin(m, end);
    hide FMin;
    if FMin(m, end) != F64_INFINITY {
      if m <= end {
        var h :| h in gs && h + k in tasks && m == ToFp(tasks[h + k].end);
        assert h in gs + [g];
      } else {
        assert g in gs + [g] && g + k in tasks;
      }
    }
  }

  const NO_LANES: seq<F64> := [F64_INFINITY, F64_INFINITY, F64_INFINITY, F64_INFINITY]

  lemma {:induction false} NoLanes<T>(tasks: map<nat, Task<T>>)
    ensures LeastOfLanes(tasks, [], NO_LANES)
  {
    forall k: nat | k < 4 ensures LeastOf(tasks, [], k, NO_LANES[k]) {
    }
  }

  /** `v` are the deadlines of the group at `g`. */
  ghost predicate LanesAt<T>(tasks: map<nat, Task<T>>, g: nat, v: seq<F64>) {
    |v| == 4 && forall k: nat :: k < 4 ==> EndsAt(tasks, g + k, v[k])
  }

  lemma {:induction false} LanesStep<T>(tasks: map<nat, Task<T>>, gs: seq<nat>, g: nat, least: seq<F64>, v: seq<F64>)
    requires LeastOfLanes(tasks, gs, least) && LanesAt(tasks, g, v)
    ensures |v| == |least| == 4 && LeastOfLanes(tasks, gs + [g], FMin4(least, v))
  {
    hide LeastOf, EndsAt, FMin;
    forall k: nat | k < 4 ensures LeastOf(tasks, gs + [g], k, FMin4(least, v)[k]) {
      LeastStep(tasks, gs, g, k, least[k], v[k]);
    }
  }

  lemma {:induction false} PlaceInGroup(i: nat) returns (k: nat)
    ensures k < 4 && i == GroupOf(i) + k
  {
    k := i % 4;
  }

  lemma {:induction false} LeastBelow<T>(tasks: map<nat, Task<T>>, bitmap: nat, gs: seq<nat>, least: seq<F64>, i: nat)
    requires BitmapOk(tasks, bitmap) && LeastOfLanes(tasks, gs, least) && i in tasks
    requires forall i: nat :: BitAt(bitmap, i) ==> GroupOf(i) in gs
    ensures MinElement(least) <= ToFp(tasks[i].end)
  {
    hide BitAt, FMin, MinElement, GroupOf;
    MinElementIsMin(least);
    assert BitAt(bitmap, i);
    var k := PlaceInGroup(i);
    assert LeastOf(tasks, gs, k, least[k]);
  }

  lemma {:induction false} LeastThere<T>(tasks: map<nat, Task<T>>, gs: seq<nat>, least: seq<F64>) returns (i: nat)
    requires LeastOfLanes(tasks, gs, least) && MinElement(least) != F64_INFINITY
    ensures i in tasks && ToFp(tasks[i].end) == MinElement(least)
  {
    hide FMin, MinElement;
    MinElementIsMin(least);
    var k: nat :| k < 4 && least[k] == MinElement(least);
    assert LeastOf(tasks, gs, k, MinElement(least));
    var g :| g in gs && g + k in tasks && MinElement(least) == ToFp(tasks[g + k].end);
    i := g + k;
  }

  lemma {:induction false} LeastOfAll<T>(tasks: map<nat, Task<T>>, bitmap: nat, gs: seq<nat>, least: seq<F64>)
    requires BitmapOk(tasks, bitmap) && tasks != map[] && |least| == 4 && LeastOfLanes(tasks, gs, least)
    requires forall i: nat :: BitAt(bitmap, i) ==> GroupOf(i) in gs
    ensures var m := MinElement(least);
            && m != F64_INFINITY && (exists i :: i in tasks && tasks[i].end == FromFp(m))
            && forall i :: i in tasks ==> FromFp(m) <= tasks[i].end
  {
    hide BitAt, BitmapOk, MinElement, LeastOfLanes;
    forall i | i in tasks ensures MinElement(least) <= ToFp(tasks[i].end) {
      LeastBelow(tasks, bitmap, gs, least, i);
    }
    var t :| t in tasks;
    assert MinElement(least) <= ToFp(tasks[t].end);
    var i := LeastThere(tasks, gs, least);
    assert tasks[i].end == FromFp(MinElement(least));
  }

  /** The tasks left after those at the positions `s` have been taken out. */
  ghost predicate Remaining<T>(tasks: map<nat, Task<T>>, left: map<nat, Task<T>>, s: seq<nat>) {
    && (forall i :: i in left <==> i in tasks && i !in s)
    && forall i :: i in left ==> left[i] == tasks[i]
  }

  /** What is taken out is what has started by `time`, each task once. */
  ghost predicate Drained<T>(tasks: map<nat, Task<T>>, time: Time, out: seq<(nat, T)>) {
    && (forall j :: 0 <= j < |out| ==>
        out[j].0 in tasks && tasks[out[j].0].start <= time && out[j].1 == tasks[out[j].0].payload)
    && (forall i :: i in tasks && tasks[i].start <= time ==> exists j :: 0 <= j < |out| && out[j].0 == i)
    && (forall i, j :: 0 <= i < j < |out| ==> out[i].0 < out[j].0)
  }

  lemma {:induction false} DrainedAll<T>(tasks: map<nat, Task<T>>, left: map<nat, Task<T>>, time: Time, s: seq<nat>,
                                         out: seq<(nat, T)>)
    requires Remaining(tasks, left, s) && Increasing(s)
             && forall i: nat :: i in s <==> i in tasks && tasks[i].start <= time
    requires |out| == |s| && forall k :: 0 <= k < |s| ==> s[k] in tasks && out[k] == (s[k], tasks[s[k]].payload)
    ensures left == NotStarted(tasks, time) && Drained(tasks, time, out)
  {
    forall i | i in tasks && tasks[i].start <= time ensures exists j :: 0 <= j < |out| && out[j].0 == i {
      var j :| 0 <= j < |s| && s[j] == i;
      assert out[j].0 == i;
    }
  }

  lemma {:induction false} NoTasks<T>(tasks: map<nat, Task<T>>, bitmap: nat)
    requires BitmapOk(tasks, bitmap)
    ensures bitmap == 0 <==> tasks == map[]
  {
    hide BitAt;
    if bitmap == 0 {
      forall i: nat ensures i !in tasks {
        ZeroBit(i);
      }
    } else {
      TrailingZerosBit(bitmap, 0);
    }
  }

  lemma {:induction false} NotBefore(s: seq<nat>, j: nat)
    requires Increasing(s) && j < |s|
    ensures s[j] !in s[..j]
  {
  }

  lemma {:induction false} TasksBelow<T>(tasks: map<nat, Task<T>>, bitmap: nat, i: nat)
    requires BitmapOk(tasks, bitmap) && i in tasks
    ensures i < SIZE
  {
    hide BitAt;
    if i >= SIZE {
      HighBit(bitmap, SIZE, i);
    }
  }

  lemma {:induction false} StartedAt<T>(tasks: map<nat, Task<T>>, i: nat, start: F64, end: F64, payload: Option<T>,
                                        time: Time)
    requires SlotOk(tasks, i, start, end, payload)
    ensures Le(start, ToFp(time)) == (i in tasks && tasks[i].start <= time)
  {
    ToFpOrder(if i in tasks then tasks[i].start else 0, time);
  }

  lemma {:induction false} BitmapBound<T>(tasks: map<nat, Task<T>>, bitmap: nat)
    requires BitmapOk(tasks, bitmap)
    ensures bitmap < Pow2(SIZE)
  {
  }

  // ----- waking up ------------------------------------------------------------------------

  lemma {:induction false} FewerTasks<T>(a: map<nat, Task<T>>, b: map<nat, Task<T>>, i: nat)
    requires b.Keys <= a.Keys && i in a && i !in b
    ensures |b| < |a|
  {
    assert |b.Keys| <= |a.Keys - {i}| by {
      SubsetSize(b.Keys, a.Keys - {i});
    }
  }

  lemma {:induction false} SubsetSize(a: set<nat>, b: set<nat>)
    requires a <= b
    ensures |a| <= |b|
    decreases a
  {
    if a != {} {
      var x :| x in a;
      SubsetSize(a - {x}, b - {x});
    }
  }

  /** A task that ran: its position, its payload, and when. */
  datatype Ran<T> = Ran(slot: nat, payload: T, time: Time)

  /** What ran so far, the tasks drained at `time` included. */
  function Logged<T>(ran: seq<Ran<T>>, out: seq<(nat, T)>, time: Time): seq<Ran<T>> {
    ran + seq(|out|, j requires 0 <= j < |out| => Ran(out[j].0, out[j].1, time))
  }

  ghost predicate RanAs<T>(all: map<nat, Task<T>>, r: Ran<T>) {
    r.slot in all && r.payload == all[r.slot].payload && all[r.slot].start <= r.time <= all[r.slot].end
  }

  /** The tasks of `all` that are not left have run exactly once, with their own
      payloads, each in its time. */
  ghost predicate RanInTime<T>(all: map<nat, Task<T>>, left: map<nat, Task<T>>, ran: seq<Ran<T>>) {
    && (forall i :: i in left ==> i in all && left[i] == all[i])
    && (forall j :: 0 <= j < |ran| ==> RanAs(all, ran[j]) && ran[j].slot !in left)
    && (forall i :: i in all && i !in left ==> exists j :: 0 <= j < |ran| && ran[j].slot == i)
    && forall i, j :: 0 <= i < j < |ran| ==> ran[i].slot != ran[j].slot
  }

  lemma {:induction false} LoggedInTime<T>(all: map<nat, Task<T>>, left: map<nat, Task<T>>, ran: seq<Ran<T>>,
                                           time: Time, out: seq<(nat, T)>)
    requires RanInTime(all, left, ran) && Drained(left, time, out) && forall i :: i in left ==> time <= left[i].end
    ensures RanInTime(all, NotStarted(left, time), Logged(ran, out, time))
  {
    var rest, log := NotStarted(left, time), Logged(ran, out, time);
    forall i | i in all && i !in rest ensures exists j :: 0 <= j < |log| && log[j].slot == i {
      if i in left {
        var j :| 0 <= j < |out| && out[j].0 == i;
        assert log[|ran| + j].slot == i;
      } else {
        var j :| 0 <= j < |ran| && ran[j].slot == i;
        assert log[j] == ran[j];
      }
    }
    forall i, j | 0 <= i < j < |log| ensures log[i].slot != log[j].slot {
      if i < |ran| <= j {
        assert ran[i].slot !in left;
      }
    }
  }

  /** Waking up at the earliest deadline runs tasks that have started, one at least, and
      none of them too late. */
  lemma {:induction false} WakeUp<T>(all: map<nat, Task<T>>, left: map<nat, Task<T>>, ran: seq<Ran<T>>, time: Time,
                                     out: seq<(nat, T)>)
    requires RanInTime(all, left, ran) && forall i :: i in all ==> all[i].start <= all[i].end
    requires (exists i :: i in left && left[i].end == time) && forall i :: i in left ==> time <= left[i].end
    requires Drained(left, time, out)
    ensures RanInTime(all, NotStarted(left, time), Logged(ran, out, time)) && |NotStarted(left, time)| < |left|
  {
    var i :| i in left && left[i].end == time;
    assert left[i].start <= time;
    FewerTasks(left, NotStarted(left, time), i);
    hide Drained;
    LoggedInTime(all, left, ran, time, out);
  }

  /** Wakes up whenever the queue suggests it, until there is no task left: the log
      has every task exactly once, with its payload, between its start and its
      deadline, and there are no more wakeups than tasks. */
  method RunAll<T>(q: TimerQueueCore<T>) returns (ran: seq<Ran<T>>, wakeups: nat)
    requires q.Valid() && forall i :: i in q.tasks ==> q.tasks[i].start <= q.tasks[i].end
    modifies q, q.start, q.end, q.payloads
    ensures q.Valid() && q.tasks == map[] && wakeups <= |old(q.tasks)|
    ensures forall j :: 0 <= j < |ran| ==> RanAs(old(q.tasks), ran[j])
    ensures forall i :: i in old(q.tasks) ==> exists j :: 0 <= j < |ran| && ran[j].slot == i
    ensures forall i, j :: 0 <= i < j < |ran| ==> ran[i].slot != ran[j].slot
  {
    hide BitmapOk, SlotOk, Drained, Logged, NotStarted;
    ran, wakeups := [], 0;
    ghost var all := q.tasks;
    while true
      invariant q.Valid() && RanInTime(all, q.tasks, ran) && wakeups + |q.tasks| <= |all|
      decreases |q.tasks|
    {
      var t := q.SuggestNextWakeup();
      if t.None? {
        break;
      }
      ghost var left := q.tasks;
      var out := q.DrainRunnableTasks(t.value);
      WakeUp(all, left, ran, t.value, out);
      ran, wakeups := Logged(ran, out, t.value), wakeups + 1;
    }
  }

  // ----- handles ----------------------------------------------------------------------------

  /** A position and a task ID in one word. */
  type HTask = nat

  function NewHTask(core: nat, id: nat): HTask {
    Or(core, id)
  }

  function CoreOf(h: HTask): nat {
    h % SIZE
  }

  /** `h & !(SIZE - 1)` */
  function IdOf(h: HTask): nat
    requires h < Pow2(64)
  {
    SizeBound();
    And(h, Not(SIZE - 1, 64))
  }

  lemma {:induction false} SizeBound()
    ensures SIZE - 1 < Pow2(64) && Pow2(6) == SIZE
  {
    assert Pow2(2) == 4 && Pow2(4) == 16;
    Pow2Up(6, 64);
  }

  lemma {:induction false} OrDisjoint(a: nat, b: nat, k: nat)
    requires a < Pow2(k) && b % Pow2(k) == 0
    ensures Or(a, b) == a + b
    decreases k
  {
    if k > 0 && a > 0 && b > 0 {
      var p := Pow2(k - 1);
      assert Pow2(k) == 2 * p;
      Pow2Up(0, k - 1);
      HalfMultiple(b, p);
      OrDisjoint(a / 2, b / 2, k - 1);
    }
  }

  lemma {:induction false} HalfMultiple(b: nat, p: nat)
    requires p > 0 && b % (2 * p) == 0
    ensures b % 2 == 0 && b / 2 % p == 0
  {
    var q := b / (2 * p);
    assert b == 2 * p * q;
    assert b == 2 * (p * q);
    MultipleMod(p, q);
  }

  lemma {:induction false} MultipleMod(p: nat, q: nat)
    requires p > 0
    ensures p * q % p == 0
  {
    ModUnique(p * q, p, q, 0);
  }

  lemma {:induction false} Distribute(p: nat, a: nat, b: nat)
    ensures p * (a + b) == p * a + p * b && p * b >= 0
  {
  }

  lemma {:induction false} MulGap(p: nat, a: nat, b: nat)
    requires a < b
    ensures p * a + p <= p * b
  {
    var d: nat := b - a - 1;
    Distribute(p, a + 1, d);
    Distribute(p, a, 1);
  }

  lemma {:induction false} ModUnique(h: nat, p: nat, q: nat, r: nat)
    requires p > 0 && h == p * q + r && r < p
    ensures h % p == r
  {
    var a, b := h / p, h % p;
    assert h == p * a + b;
    if q < a {
      MulGap(p, q, a);
    } else if a < q {
      MulGap(p, a, q);
    }
  }

  lemma {:induction false} AndTwice(a: nat, b: nat)
    ensures And(a, 2 * b) == 2 * And(a / 2, b)
  {
  }

  lemma {:induction false} AndOdd(a: nat, b: nat)
    ensures And(a, 2 * b + 1) == a % 2 + 2 * And(a / 2, b)
  {
    assert (2 * b + 1) / 2 == b;
  }

  lemma {:induction false} AndAll(a: nat, n: nat)
    requires a < Pow2(n)
    ensures And(a, Pow2(n) - 1) == a
    decreases n
  {
    if a > 0 {
      Pow2Up(0, n - 1);
      var m := Pow2(n - 1) - 1;
      assert Pow2(n) - 1 == 2 * m + 1;
      AndAll(a / 2, n - 1);
      AndOdd(a, m);
    }
  }

  /** The bits below number 6 are cleared. */
  lemma {:induction false} ClearLow(h: nat, c: nat)
    ensures And(h, 64 * c) == 64 * And(h / 64, c)
  {
    hide And;
    AndTwice(h, 32 * c);
    AndTwice(h / 2, 16 * c);
    AndTwice(h / 4, 8 * c);
    AndTwice(h / 8, 4 * c);
    AndTwice(h / 16, 2 * c);
    AndTwice(h / 32, c);
  }

  lemma {:induction false} PowSix()
    ensures Pow2(64) == 64 * Pow2(58)
  {
    assert Pow2(64) == 4 * Pow2(62);
    assert Pow2(62) == 4 * Pow2(60);
    assert Pow2(60) == 4 * Pow2(58);
  }

  /** `h & !(SIZE - 1)` clears the position. */
  lemma {:induction false} IdOfIs(h: HTask)
    requires h < Pow2(64)
    ensures IdOf(h) == h - h % SIZE
  {
    SizeBound();
    PowSix();
    hide Pow2, And;
    ClearLow(h, Pow2(58) - 1);
    AndAll(h / 64, 58);
  }

  /** Position and ID can be told apart. */
  lemma {:induction false} Packing(core: nat, id: nat)
    requires core < SIZE && id % SIZE == 0 && id < Pow2(64) - SIZE
    ensures var h := NewHTask(core, id); h == core + id && h < Pow2(64) && CoreOf(h) == core && IdOf(h) == id
  {
    SizeBound();
    hide Pow2, Or, And, Not;
    OrDisjoint(core, id, 6);
    IdOfIs(core + id);
  }

  // ----- the queue with handles ---------------------------------------------------------------

  /** The outcome of an insertion; running out of task IDs is a panic. */
  datatype Inserted = Ok(htask: HTask) | CapacityError | Exhausted

  /** A task at position `i` is live under its handle. */
  ghost predicate TaskOk<T>(tasks: map<nat, Task<(nat, T)>>, nextId: nat, live: map<HTask, Task<T>>, i: nat)
    requires i in tasks
  {
    var (id, x) := tasks[i].payload;
    i < SIZE && id % SIZE == 0 && id < nextId && id + i in live && live[id + i] == Task(tasks[i].start, tasks[i].end, x)
  }

  /** A live handle `h` leads to the position it names, where its own ID is. */
  ghost predicate LiveOk<T>(tasks: map<nat, Task<(nat, T)>>, h: HTask) {
    h % SIZE in tasks && tasks[h % SIZE].payload.0 == h - h % SIZE
  }

  /** `live` are the tasks in the queue by their handles. */
  ghost predicate HandlesOk<T>(tasks: map<nat, Task<(nat, T)>>, nextId: nat, live: map<HTask, Task<T>>) {
    && (forall i {:trigger TaskOk(tasks, nextId, live, i)} :: i in tasks ==> TaskOk(tasks, nextId, live, i))
    && forall h {:trigger LiveOk(tasks, h)} :: h in live ==> LiveOk(tasks, h)
  }

  /** `issued` are the payloads of all handles given out so far. */
  ghost predicate IssuedOk<T>(nextId: nat, live: map<HTask, Task<T>>, issued: map<HTask, T>) {
    && nextId % SIZE == 0
    && (forall h :: h in issued ==> h < nextId)
    && forall h :: h in live ==> h in issued && live[h].payload == issued[h]
  }

  lemma {:induction false} IssuedAdded<T>(nextId: nat, live: map<HTask, Task<T>>, issued: map<HTask, T>, h: HTask,
                                          t: Task<T>)
    requires IssuedOk(nextId, live, issued) && nextId <= h < nextId + SIZE
    ensures nextId % SIZE == 0 && h !in issued && h !in live
            && IssuedOk(nextId + SIZE, live[h := t], issued[h := t.payload])
  {
  }

  lemma {:induction false} HandleAdded<T>(tasks: map<nat, Task<(nat, T)>>, nextId: nat, live: map<HTask, Task<T>>,
                                          issued: map<HTask, T>,
                                          i: nat, from: Time, to: Time, x: T)
    requires HandlesOk(tasks, nextId, live) && IssuedOk(nextId, live, issued) && i < SIZE && i !in tasks
    ensures var h := nextId + i;
            && h !in issued && HandlesOk(tasks[i := Task(from, to, (nextId, x))], nextId + SIZE,
                live[h := Task(from, to, x)])
            && IssuedOk(nextId + SIZE, live[h := Task(from, to, x)], issued[h := x])
  {
    var h := nextId + i;
    IssuedAdded(nextId, live, issued, h, Task(from, to, x));
    hide IssuedOk;
    var after, now := tasks[i := Task(from, to, (nextId, x))], live[h := Task(from, to, x)];
    forall g | g in now ensures LiveOk(after, g) {
      if g != h {
        assert LiveOk(tasks, g);
      }
    }
    forall j | j in after ensures TaskOk(after, nextId + SIZE, now, j) {
      if j != i {
        assert TaskOk(tasks, nextId, live, j);
      }
    }
  }

  lemma {:induction false} HandlesLater<T>(tasks: map<nat, Task<(nat, T)>>, nextId: nat, live: map<HTask, Task<T>>,
                                           issued: map<HTask, T>)
    requires HandlesOk(tasks, nextId, live) && IssuedOk(nextId, live, issued)
    ensures HandlesOk(tasks, nextId + SIZE, live) && IssuedOk(nextId + SIZE, live, issued)
  {
    forall j | j in tasks ensures TaskOk(tasks, nextId + SIZE, live, j) {
      assert TaskOk(tasks, nextId, live, j);
    }
  }

  /** Only the handle of a live task leads to a task. */
  lemma {:induction false} HandleLeads<T>(tasks: map<nat, Task<(nat, T)>>, nextId: nat, live: map<HTask, Task<T>>,
                                          h: HTask)
    requires HandlesOk(tasks, nextId, live)
    ensures h in live <==> LiveOk(tasks, h)
    ensures h in live ==> live[h].payload == tasks[h % SIZE].payload.1
  {
    if LiveOk(tasks, h) {
      assert TaskOk(tasks, nextId, live, h % SIZE);
    }
    assert h in live ==> LiveOk(tasks, h);
  }

  lemma {:induction false} HandleRemoved<T>(tasks: map<nat, Task<(nat, T)>>, nextId: nat, live: map<HTask, Task<T>>,
                                            issued: map<HTask, T>, h: HTask)
    requires HandlesOk(tasks, nextId, live) && IssuedOk(nextId, live, issued) && h in live
    ensures HandlesOk(tasks - {h % SIZE}, nextId, live - {h}) && IssuedOk(nextId, live - {h}, issued)
  {
    var i := h % SIZE;
    assert LiveOk(tasks, h);
    forall g | g in live - {h} ensures LiveOk(tasks - {i}, g) {
      assert LiveOk(tasks, g);
    }
    forall j | j in tasks - {i} ensures TaskOk(tasks - {i}, nextId, live - {h}, j) {
      assert TaskOk(tasks, nextId, live, j);
    }
  }

  /** The handle of what is at position `i`. */
  lemma {:induction false} HandleOf<T>(tasks: map<nat, Task<(nat, T)>>, nextId: nat, live: map<HTask, Task<T>>, i: nat)
    requires HandlesOk(tasks, nextId, live) && i in tasks
    ensures var h := tasks[i].payload.0 + i;
            && i < SIZE && tasks[i].payload.0 % SIZE == 0 && tasks[i].payload.0 < nextId && h % SIZE == i
            && h in live && live[h] == Task(tasks[i].start, tasks[i].end, tasks[i].payload.1)
  {
    assert TaskOk(tasks, nextId, live, i);
  }

  ghost function StillWaiting<T>(live: map<HTask, Task<T>>, now: Time): map<HTask, Task<T>> {
    map h | h in live && live[h].start > now :: live[h]
  }

  lemma {:induction false} HandlesDrained<T>(tasks: map<nat, Task<(nat, T)>>, nextId: nat, live: map<HTask, Task<T>>,
                                             issued: map<HTask, T>, now: Time)
    requires HandlesOk(tasks, nextId, live) && IssuedOk(nextId, live, issued)
    ensures HandlesOk(NotStarted(tasks, now), nextId, StillWaiting(live, now))
            && IssuedOk(nextId, StillWaiting(live, now), issued)
  {
    var left, waiting := NotStarted(tasks, now), StillWaiting(live, now);
    forall h | h in waiting ensures LiveOk(left, h) {
      assert LiveOk(tasks, h);
      assert TaskOk(tasks, nextId, live, h % SIZE);
    }
    forall i | i in left ensures TaskOk(left, nextId, waiting, i) {
      assert TaskOk(tasks, nextId, live, i);
    }
  }

  /** What a handle obtains is its own payload, once. */
  ghost predicate Obtained<T>(live: map<HTask, Task<T>>, now: Time, out: seq<(HTask, T)>) {
    && (forall j :: 0 <= j < |out| ==>
        out[j].0 in live && live[out[j].0].start <= now && out[j].1 == live[out[j].0].payload)
    && (forall h :: h in live && live[h].start <= now ==> exists j :: 0 <= j < |out| && out[j].0 == h)
    && (forall i, j :: 0 <= i < j < |out| ==> out[i].0 != out[j].0)
  }

  // ----- what handles obtain over a run ---------------------------------------------------------

  /** The live tasks by their handles, and the payloads of all handles given out. */
  datatype QState<T> = QState(live: map<HTask, Task<T>>, issued: map<HTask, T>)

  /** An operation takes the queue from `a` to `b` and hands out `got`. */
  ghost predicate QStep<T>(a: QState<T>, b: QState<T>, got: seq<(HTask, T)>) {
    || (a == b && got == [])
    || (got == [] && exists h ::
          h !in a.issued && h in b.live && b == QState(a.live[h := b.live[h]], a.issued[h := b.live[h].payload]))
    || (b.issued == a.issued && exists h :: h in a.live && b.live == a.live - {h} && got == [(h, a.live[h].payload)])
    || (b.issued == a.issued && exists now :: b.live == StillWaiting(a.live, now) && Obtained(a.live, now, got))
  }

  /** `all` has been handed out so far: own payloads only, and none twice. */
  ghost predicate History<T>(q: QState<T>, all: seq<(HTask, T)>) {
    && (forall j :: 0 <= j < |all| ==> all[j].0 in q.issued && all[j].1 == q.issued[all[j].0] && all[j].0 !in q.live)
    && (forall i, j :: 0 <= i < j < |all| ==> all[i].0 != all[j].0)
    && forall h :: h in q.live ==> h in q.issued && q.live[h].payload == q.issued[h]
  }

  lemma {:induction false} HistoryStep<T>(a: QState<T>, b: QState<T>, got: seq<(HTask, T)>, all: seq<(HTask, T)>)
    requires History(a, all) && QStep(a, b, got)
    ensures History(b, all + got)
  {
  }

  ghost function Concat<T>(gots: seq<seq<(HTask, T)>>): seq<(HTask, T)>
    decreases |gots|
  {
    if gots == [] then [] else Concat(gots[..|gots| - 1]) + gots[|gots| - 1]
  }

  /** Over every run a handle obtains its own payload at most once, and never that of
      another task, even though positions are used again. */
  lemma {:induction false} EachPayloadOnce<T>(states: seq<QState<T>>, gots: seq<seq<(HTask, T)>>)
    requires |states| == |gots| + 1 && states[0] == QState(map[], map[])
    requires forall k :: 0 <= k < |gots| ==> QStep(states[k], states[k + 1], gots[k])
    ensures History(states[|gots|], Concat(gots))
    decreases |gots|
  {
    hide QStep;
    if gots != [] {
      var n := |gots| - 1;
      var init := gots[..n];
      assert forall k :: 0 <= k < n ==> init[k] == gots[k];
      EachPayloadOnce(states[..|gots|], init);
      assert QStep(states[n], states[n + 1], gots[n]);
      HistoryStep(states[n], states[n + 1], gots[n], Concat(init));
    }
  }

  ghost predicate Renamed<T>(out: seq<(nat, (nat, T))>, named: seq<(HTask, T)>) {
    |named| == |out| && forall j :: 0 <= j < |out| ==> named[j] == (out[j].1.0 + out[j].0, out[j].1.1)
  }

  lemma {:induction false} AllObtained<T>(tasks: map<nat, Task<(nat, T)>>, nextId: nat, live: map<HTask, Task<T>>,
                                          now: Time,
                                          out: seq<(nat, (nat, T))>, named: seq<(HTask, T)>)
    requires HandlesOk(tasks, nextId, live) && Drained(tasks, now, out) && Renamed(out, named)
    ensures Obtained(live, now, named)
  {
    forall j | 0 <= j < |named|
      ensures named[j].0 in live && live[named[j].0].start <= now && named[j].1 == live[named[j].0].payload
              && named[j].0 % SIZE == out[j].0
    {
      HandleOf(tasks, nextId, live, out[j].0);
    }
    forall h | h in live && live[h].start <= now ensures exists j :: 0 <= j < |named| && named[j].0 == h {
      HandleLeads(tasks, nextId, live, h);
      HandleOf(tasks, nextId, live, h % SIZE);
      var j :| 0 <= j < |out| && out[j].0 == h % SIZE;
      assert named[j].0 == h;
    }
  }

  /** Gives each task its handle. */
  method NameAll<T>(drained: seq<(nat, (nat, T))>, ghost tasks: map<nat, Task<(nat, T)>>, ghost nextId: nat,
                    ghost live: map<HTask, Task<T>>, ghost issued: map<HTask, T>, ghost now: Time)
    returns (out: seq<(HTask, T)>)
    requires HandlesOk(tasks, nextId, live) && IssuedOk(nextId, live, issued) && nextId < Pow2(64)
             && Drained(tasks, now, drained)
    ensures Renamed(drained, out)
  {
    hide HandlesOk, IssuedOk, Pow2;
    NextIdOk(nextId, live, issued);
    out := [];
    for j := 0 to |drained|
      invariant Renamed(drained[..j], out)
    {
      HandleOf(tasks, nextId, live, drained[j].0);
      Packing(drained[j].0, drained[j].1.0);
      out := out + [(NewHTask(drained[j].0, drained[j].1.0), drained[j].1.1)];
    }
    assert drained[..|drained|] == drained;
  }

  class TimerQueue<T(==)> {
    const core: TimerQueueCore<(nat, T)>
    var nextId: nat
    ghost var live: map<HTask, Task<T>>
    ghost var issued: map<HTask, T>
    // The intervals as they were asked for, before rounding.
    ghost var asked: map<HTask, Interval>

    ghost predicate Valid()
      reads this, core, core.start, core.end, core.payloads
    {
      && core.Valid() && nextId < Pow2(64) && HandlesOk(core.tasks, nextId, live) && IssuedOk(nextId, live, issued)
      && AskedOk(live, asked)
    }

    ghost function State(): QState<T>
      reads this
    {
      QState(live, issued)
    }

    constructor ()
      ensures Valid() && State() == QState(map[], map[]) && nextId == 0 && core.tasks == map[]
      ensures fresh(core) && fresh(core.start) && fresh(core.end) && fresh(core.payloads)
    {
      core := new TimerQueueCore<(nat, T)>();
      nextId, live, issued, asked := 0, map[], map[], map[];
      new;
      Pow2Up(0, 64);
    }

    /** Schedules a task after a delay; `elapsed` is the present time.  Handles are never
        given out twice. */
    method Insert(from: Duration, to: Duration, elapsed: Duration, payload: T) returns (r: Inserted)
      requires Valid()
      requires FromDuration(Plus(from, elapsed)) <= TIME_MAX && FromDuration(Plus(to, elapsed)) <= TIME_MAX
      modifies this, core, core.start, core.end, core.payloads
      ensures Valid()
      ensures r.Ok? ==>
                && r.htask !in old(issued) && issued == old(issued)[r.htask := payload]
                && live == old(live)[r.htask := Task(FromDuration(Plus(from, elapsed)), FromDuration(Plus(to, elapsed)),
                    payload)]
                && asked == old(asked)[r.htask := Interval(Plus(from, elapsed), Plus(to, elapsed))]
      ensures r.Ok? ==>
                && r.htask in asked && NanosOk(asked[r.htask])
                && InNanos(asked[r.htask].start) == InNanos(from) + InNanos(elapsed)
                && InNanos(asked[r.htask].end) == InNanos(to) + InNanos(elapsed)
      ensures !r.Ok? ==> live == old(live) && issued == old(issued) && asked == old(asked)
      ensures r.Exhausted? <==> old(nextId) + SIZE >= Pow2(64)
      ensures r.CapacityError? <==> !r.Exhausted? && forall i: nat :: i < SIZE ==> i in old(core.tasks)
      ensures nextId == if r.Exhausted? then old(nextId) else old(nextId) + SIZE
      ensures QStep(old(State()), State(), [])
    {
      PlusNanos(from, elapsed);
      PlusNanos(to, elapsed);
      hide HandlesOk, IssuedOk, BitmapOk, Pow2, Plus, InNanos;
      var id := nextId;
      if id + SIZE >= Pow2(64) {
        return Exhausted;
      }
      NextIdOk(nextId, live, issued);
      nextId := id + SIZE;
      var start: Time, end: Time := FromDuration(Plus(from, elapsed)), FromDuration(Plus(to, elapsed));
      HandlesLater(core.tasks, id, live, issued);
      ghost var tasks := core.tasks;
      var slot := core.Insert(start, end, (id, payload));
      if slot.None? {
        return CapacityError;
      }
      var i := slot.value;
      HandleAdded(tasks, id, live, issued, i, start, end, payload);
      Packing(i, id);
      var h := NewHTask(i, id);
      AskedAdded(live, asked, h, Interval(Plus(from, elapsed), Plus(to, elapsed)), start, end, payload);
      live, issued := live[h := Task(start, end, payload)], issued[h := payload];
      asked := asked[h := Interval(Plus(from, elapsed), Plus(to, elapsed))];
      r := Ok(h);
    }

    /** Takes a task back; a handle whose task has gone, or whose position has been used
        again, obtains nothing. */
    method Remove(h: HTask) returns (r: Option<T>)
      requires Valid() && h < Pow2(64)
      modifies this, core, core.start, core.end, core.payloads
      ensures Valid() && live == old(live) - {h} && issued == old(issued) && asked == old(asked)
      ensures r == if h in old(live) then Some(old(issued)[h]) else None
      ensures QStep(old(State()), State(), if r.Some? then [(h, r.value)] else [])
    {
      hide HandlesOk, BitmapOk, Pow2, SlotOk;
      HandleLeads(core.tasks, nextId, live, h);
      if h in live {
        HandleRemoved(core.tasks, nextId, live, issued, h);
      }
      IdOfIs(h);
      var found := core.Get(CoreOf(h));
      if found.Some? && found.value.0 == IdOf(h) {
        var x := core.Remove(CoreOf(h));
        live := live - {h};
        r := Some(x.value.1);
      } else {
        assert live - {h} == live;
        r := None;
      }
    }

    /** Takes out the tasks that have started; `elapsed` is the present time.  Because
        of rounding that can be up to 1023 ns before the start that was asked for, but
        never later than it. */
    method DrainRunnableTasks(elapsed: Duration) returns (out: seq<(HTask, T)>)
      requires Valid() && DurationOk(elapsed) && FromDuration(elapsed) <= TIME_MAX
      modifies this, core, core.start, core.end, core.payloads
      ensures Valid() && live == StillWaiting(old(live), FromDuration(elapsed)) && issued == old(issued)
              && asked == old(asked)
      ensures Obtained(old(live), FromDuration(elapsed), out) && QStep(old(State()), State(), out)
      ensures forall j :: 0 <= j < |out| ==>
              out[j].0 in asked && InNanos(asked[out[j].0].start) < InNanos(elapsed) + 0x400
      ensures forall h :: h in live ==> h in asked && InNanos(elapsed) < InNanos(asked[h].start)
    {
      hide HandlesOk, IssuedOk, BitmapOk, Pow2, SlotOk, Obtained, AskedOk, FromDuration, InNanos, DurationOk;
      var now: Time := FromDuration(elapsed);
      ghost var tasks := core.tasks;
      HandlesDrained(tasks, nextId, live, issued, now);
      var drained := core.DrainRunnableTasks(now);
      out := NameAll(drained, tasks, nextId, live, issued, now);
      AllObtained(tasks, nextId, live, now, drained, out);
      AskedDrained(live, asked, elapsed, out);
      live := StillWaiting(live, now);
    }

    /** When to wake up next: at the earliest deadline, rounded down. */
    method SuggestNextWakeup() returns (r: Option<Duration>)
      requires Valid()
      ensures r.None? <==> live == map[]
      ensures r.Some? ==>
                && DurationOk(r.value) && (exists h :: h in live && live[h].end == FromDuration(r.value))
                && forall h :: h in live ==>
                     FromDuration(r.value) <= live[h].end && h in asked && InNanos(r.value) <= InNanos(asked[h].end)
    {
      hide BitmapOk, SlotOk;
      var t := core.SuggestNextWakeup();
      SameEnds(core.tasks, nextId, live);
      if t.None? {
        return None;
      }
      hide HandlesOk;
      AskedEarliest(live, asked, t.value);
      r := Some(ToDuration(t.value));
    }
  }

  // ----- intervals before rounding ----------------------------------------------------------

  datatype Interval = Interval(start: Duration, end: Duration)

  /** Whole seconds have been carried over. */
  predicate NanosOk(i: Interval) {
    i.start.nanos < 1_000_000_000 && i.end.nanos < 1_000_000_000
  }

  /** The live tasks have the intervals that were asked for, rounded. */
  ghost predicate AskedOk<T>(live: map<HTask, Task<T>>, asked: map<HTask, Interval>) {
    forall h :: h in live ==>
      && h in asked && DurationOk(asked[h].start) && DurationOk(asked[h].end)
      && live[h].start == FromDuration(asked[h].start) && live[h].end == FromDuration(asked[h].end)
  }

  lemma {:induction false} AskedAdded<T>(live: map<HTask, Task<T>>, asked: map<HTask, Interval>, h: HTask, i: Interval,
                                         start: Time, end: Time, x: T)
    requires AskedOk(live, asked) && start == FromDuration(i.start) && end == FromDuration(i.end)
    requires NanosOk(i)
    ensures AskedOk(live[h := Task(start, end, x)], asked[h := i])
  {
  }

  lemma {:induction false} AskedDrained<T>(live: map<HTask, Task<T>>, asked: map<HTask, Interval>, elapsed: Duration,
                                           out: seq<(HTask, T)>)
    requires AskedOk(live, asked) && DurationOk(elapsed) && FromDuration(elapsed) <= TIME_MAX
    requires Obtained(live, FromDuration(elapsed), out)
    ensures AskedOk(StillWaiting(live, FromDuration(elapsed)), asked)
    ensures forall j :: 0 <= j < |out| ==>
            out[j].0 in asked && InNanos(asked[out[j].0].start) < InNanos(elapsed) + 0x400
    ensures forall h :: h in StillWaiting(live, FromDuration(elapsed)) ==>
            h in asked && InNanos(elapsed) < InNanos(asked[h].start)
  {
    hide DurationOk, FromDuration, InNanos;
    var waiting := StillWaiting(live, FromDuration(elapsed));
    forall j | 0 <= j < |out| ensures out[j].0 in asked && InNanos(asked[out[j].0].start) < InNanos(elapsed) + 0x400 {
      RoundedOrder(asked[out[j].0].start, elapsed);
    }
    forall h | h in waiting ensures h in asked && InNanos(elapsed) < InNanos(asked[h].start) {
      if InNanos(asked[h].start) <= InNanos(elapsed) {
        DurationOrder(asked[h].start, elapsed);
      }
    }
  }

  lemma {:induction false} AskedEarliest<T>(live: map<HTask, Task<T>>, asked: map<HTask, Interval>, t: Time)
    requires AskedOk(live, asked)
    requires (exists h :: h in live && live[h].end == t) && forall h :: h in live ==> t <= live[h].end
    ensures DurationOk(ToDuration(t)) && FromDuration(ToDuration(t)) == t
    ensures forall h :: h in live ==> h in asked && InNanos(ToDuration(t)) <= InNanos(asked[h].end)
  {
    hide DurationOk, FromDuration, ToDuration, InNanos;
    var g :| g in live && live[g].end == t;
    var d := asked[g].end;
    RoundedNanos(d);
    DurationRounding(d);
    forall h | h in live ensures h in asked && InNanos(ToDuration(t)) <= InNanos(asked[h].end) {
      RoundedOrder(d, asked[h].end);
    }
  }

  /** A queue with one task in it, asked for at time 0. */
  method FirstTask(x: int, from: Time, to: Time, start: Duration, end: Duration) returns (q: TimerQueue<int>, h: HTask)
    requires Plus(start, Duration(0, 0)) == start && Plus(end, Duration(0, 0)) == end
    requires from == FromDuration(start) && to == FromDuration(end)
    ensures q.Valid() && fresh(q) && fresh(q.core) && fresh(q.core.start) && fresh(q.core.end) && fresh(q.core.payloads)
    ensures q.live == map[h := Task(from, to, x)]
  {
    Pow2Up(7, 64);
    assert Pow2(64) > SIZE by {
      assert Pow2(7) == 128;
    }
    hide Plus, FromDuration, Pow2, HandlesOk, IssuedOk, BitmapOk, SlotOk, AskedOk, QStep;
    q := new TimerQueue<int>();
    assert 0 !in q.core.tasks;
    var r := q.Insert(start, end, Duration(0, 0), x);
    h := r.htask;
  }

  lemma {:induction false} PlusZero(d: Duration)
    requires d.nanos < 1_000_000_000
    ensures Plus(d, Duration(0, 0)) == d
  {
  }

  /** A task that is to start after 1023 ns runs at once. */
  method RunsEarly(x: int) returns (h: HTask, start: Duration, out: seq<(HTask, int)>, now: Duration)
    ensures out == [(h, x)] && start == Duration(0, 1023) && now == Duration(0, 0) && Early(start, now)
  {
    hide FromDuration, Early, InNanos, DurationOk, Plus, HandlesOk, IssuedOk, BitmapOk, SlotOk, AskedOk, QStep,
        Obtained, StillWaiting, Pow2;
    start, now := Duration(0, 1023), Duration(0, 0);
    SmallDuration(start);
    SmallDuration(now);
    SmallEarly(start, now);
    PlusZero(start);
    var q;
    q, h := FirstTask(x, 0, 0, start, start);
    ghost var live := q.live;
    out := q.DrainRunnableTasks(now);
    OnlyOne(live, h, x, 0, 0, out);
  }

  lemma {:induction false} OnlyOne<T>(live: map<HTask, Task<T>>, h: HTask, x: T, now: Time, end: Time,
                                      out: seq<(HTask, T)>)
    requires live == map[h := Task(0, end, x)] && Obtained(live, now, out)
    ensures out == [(h, x)]
  {
    assert h in live && live[h].start <= now;
    NoMoreThan(out, {h});
  }

  lemma {:induction false} NoMoreThan<T>(out: seq<(HTask, T)>, hs: set<HTask>)
    requires forall j :: 0 <= j < |out| ==> out[j].0 in hs
    requires forall i, j :: 0 <= i < j < |out| ==> out[i].0 != out[j].0
    ensures |out| <= |hs|
    decreases |out|
  {
    if out != [] {
      NoMoreThan(out[1..], hs - {out[0].0});
    }
  }

  lemma {:induction false} EndOfLive<T>(tasks: map<nat, Task<(nat, T)>>, nextId: nat, live: map<HTask, Task<T>>,
                                        h: HTask)
    requires HandlesOk(tasks, nextId, live) && h in live
    ensures exists i :: i in tasks && live[h].end == tasks[i].end
  {
    HandleLeads(tasks, nextId, live, h);
    HandleOf(tasks, nextId, live, h % SIZE);
  }

  lemma {:induction false} EndOfTask<T>(tasks: map<nat, Task<(nat, T)>>, nextId: nat, live: map<HTask, Task<T>>, i: nat)
    requires HandlesOk(tasks, nextId, live) && i in tasks
    ensures exists h :: h in live && live[h].end == tasks[i].end
  {
    HandleOf(tasks, nextId, live, i);
  }

  /** The live tasks have the deadlines of the tasks in the queue. */
  lemma {:induction false} SameEnds<T>(tasks: map<nat, Task<(nat, T)>>, nextId: nat, live: map<HTask, Task<T>>)
    requires HandlesOk(tasks, nextId, live)
    ensures tasks == map[] <==> live == map[]
    ensures forall i :: i in tasks ==> exists h :: h in live && live[h].end == tasks[i].end
    ensures forall h :: h in live ==> exists i :: i in tasks && live[h].end == tasks[i].end
  {
    hide HandlesOk;
    forall i | i in tasks ensures exists h :: h in live && live[h].end == tasks[i].end {
      EndOfTask(tasks, nextId, live, i);
    }
    forall h | h in live ensures exists i :: i in tasks && live[h].end == tasks[i].end {
      EndOfLive(tasks, nextId, live, h);
    }
    assert tasks == map[] <==> forall i :: i !in tasks;
    assert live == map[] <==> forall h :: h !in live;
  }

  lemma {:induction false} NextIdOk<T>(nextId: nat, live: map<HTask, Task<T>>, issued: map<HTask, T>)
    requires IssuedOk(nextId, live, issued)
    ensures nextId % SIZE == 0
  {
  }

  /** Durations are added with a carry. */
  function Plus(a: Duration, b: Duration): Duration {
    NewDuration(a.secs + b.secs, a.nanos + b.nanos)
  }

  /** The sum in nanoseconds, with whole seconds carried over. */
  lemma {:induction false} PlusNanos(a: Duration, b: Duration)
    ensures InNanos(Plus(a, b)) == InNanos(a) + InNanos(b) && Plus(a, b).nanos < 1_000_000_000
  {
    CarriedNanos(a.secs + b.secs, a.nanos + b.nanos);
    assert (a.secs + b.secs) * 1_000_000_000 == a.secs * 1_000_000_000 + b.secs * 1_000_000_000;
  }

  lemma {:induction false} CarriedNanos(secs: nat, nanos: nat)
    ensures InNanos(NewDuration(secs, nanos)) == secs * 1_000_000_000 + nanos
    ensures NewDuration(secs, nanos).nanos < 1_000_000_000
  {
    assert nanos == nanos / 1_000_000_000 * 1_000_000_000 + nanos % 1_000_000_000;
  }
}
