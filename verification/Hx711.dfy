/** The HX711 driver of mini210_hx711.c and the loop of PthreadBalance::run that
    tares the scale through its ioctl. */
module Hx711 {
  import opened Bytes
  import opened ByteOrder

  // One conversion of the chip: 24 bits, most significant first.
  type Bits = s: seq<bool> | |s| == 24 witness seq(24, _ => false)

  const HALF: nat := 0x80_0000
  const FULL: nat := 0x100_0000

  // The range of int, and what an int operation leaves of its exact result.
  const INT_MIN: int := -0x8000_0000
  const INT_SPAN: int := 0x1_0000_0000

  predicate IsInt(x: int) {
    INT_MIN <= x < INT_MIN + INT_SPAN
  }

  function Wrap(x: int): (r: int)
    ensures IsInt(r) && (IsInt(x) ==> r == x)
  {
    (x - INT_MIN) % INT_SPAN + INT_MIN
  }

  // ------------------------------------------------------------ the reading

  function Unsigned(bits: seq<bool>): nat {
    if bits == [] then 0 else 2 * Unsigned(bits[..|bits| - 1]) + (if bits[|bits| - 1] then 1 else 0)
  }

  function Pow2(n: nat): nat {
    if n == 0 then 1 else 2 * Pow2(n - 1)
  }

  // Two's complement: the first bit weighs -2^23.
  function Signed(bits: Bits): int {
    Unsigned(bits[1..]) - (if bits[0] then HALF else 0)
  }

  lemma {:induction false} UnsignedBound(bits: seq<bool>)
    ensures Unsigned(bits) < Pow2(|bits|)
  {
    if bits != [] { UnsignedBound(bits[..|bits| - 1]); }
  }

  lemma {:induction false} UnsignedHead(bits: seq<bool>)
    requires |bits| > 0
    ensures Unsigned(bits) == (if bits[0] then Pow2(|bits| - 1) else 0) + Unsigned(bits[1..])
  {
    var front := bits[..|bits| - 1];
    if |bits| == 1 {
      assert front == [] && bits[1..] == [];
    } else {
      assert bits[1..][..|bits| - 2] == front[1..];
      UnsignedHead(front);
    }
  }

  lemma Pow2Values()
    ensures Pow2(23) == HALF && Pow2(24) == FULL
  {
    assert Pow2(8) == 256;
    assert Pow2(16) == 65536;
  }

  // weight ^ 0x800000 flips the bit of weight 2^23.
  function FlipTop(w: int): int
    requires 0 <= w < FULL
  {
    if w / HALF % 2 == 1 then w - HALF else w + HALF
  }

  lemma FlipTopValue(w: int)
    requires 0 <= w < FULL
    ensures FlipTop(w) == if w < HALF then w + HALF else w - HALF
  {
  }

  lemma FlipWord(v: bv32)
    requires v < 0x100_0000
    ensures v as int < 0x100_0000
    ensures (v ^ 0x80_0000) as int == if v as int < 0x80_0000 then v as int + 0x80_0000 else v as int - 0x80_0000
  {
  }

  lemma FlipTopIsXor(v: bv32, w: int)
    requires v < 0x100_0000 && v as int == w
    ensures 0 <= w < FULL && FlipTop(w) == (v ^ 0x80_0000) as int
  {
    FlipWord(v);
    FlipTopValue(w);
  }

  // What read_hx711_data leaves in weight for these bits.
  function Reading(bits: Bits): (r: int)
    ensures r == Signed(bits) + HALF && 0 <= r < FULL
  {
    UnsignedBound(bits);
    UnsignedBound(bits[1..]);
    UnsignedHead(bits);
    Pow2Values();
    FlipTop(Unsigned(bits))
  }

  // Heavier loads read higher.
  lemma ReadingIsMonotone(a: Bits, b: Bits)
    ensures Reading(a) < Reading(b) <==> Signed(a) < Signed(b)
    ensures Reading(a) == Reading(b) ==> a == b
  {
    if Reading(a) == Reading(b) {
      UnsignedHead(a);
      UnsignedHead(b);
      UnsignedBound(a[1..]);
      UnsignedBound(b[1..]);
      Pow2Values();
      UnsignedInjective(a, b);
    }
  }

  lemma {:induction false} UnsignedInjective(a: seq<bool>, b: seq<bool>)
    requires |a| == |b| && Unsigned(a) == Unsigned(b)
    ensures a == b
  {
    if a != [] {
      UnsignedInjective(a[..|a| - 1], b[..|b| - 1]);
      assert a == a[..|a| - 1] + [a[|a| - 1]] && b == b[..|b| - 1] + [b[|b| - 1]];
    }
  }

  // -------------------------------------------------------------- the driver

  const THRESHOLD: int := 1000

  // The weight a tick should deliver.
  function Delivered(raw: int, base: int): int {
    if raw - base >= THRESHOLD then raw - base else 0
  }

  // The weight a tick does deliver.
  function Ticked(raw: int, base: int): int {
    var w := if Wrap(raw - base) < 0 then 0 else Wrap(raw - base);
    if w < THRESHOLD then 0 else w
  }

  // What is delivered, in numbers.
  lemma DeliveredInNumbers(bits: Bits, base: int)
    requires IsInt(base)
    ensures 1000 <= Reading(bits) - base < 0x8000_0000 ==> Ticked(Reading(bits), base) == Reading(bits) - base
    ensures Reading(bits) - base < 1000 ==> Ticked(Reading(bits), base) == 0
    ensures Reading(bits) - base >= 1000 ==> Delivered(Reading(bits), base) == Reading(bits) - base
    ensures Reading(bits) - base < 1000 ==> Delivered(Reading(bits), base) == 0
  {
  }

  // It is the intended one exactly while raw - base is an int.
  lemma TickedIsRightIff(bits: Bits, base: int)
    requires IsInt(base)
    ensures Ticked(Reading(bits), base) == Delivered(Reading(bits), base) <==> Reading(bits) - base < INT_MIN + INT_SPAN
    ensures Reading(bits) - base >= INT_MIN + INT_SPAN ==> Ticked(Reading(bits), base) == 0
  {
  }

  // The bits of the heaviest load.
  const HEAVIEST: Bits := [false] + seq(23, _ => true)

  lemma {:induction false} AllZeros(n: nat)
    ensures Unsigned(seq(n, _ => false)) == 0
  {
    if n > 0 {
      AllZeros(n - 1);
      assert seq(n, _ => false)[..n - 1] == seq(n - 1, _ => false);
    }
  }

  // The first bit is the sign, the last one weighs one.
  lemma ReadingsInNumbers()
    ensures Reading([true] + seq(23, _ => false)) == 0
    ensures Reading(seq(23, _ => false) + [true]) == 0x80_0001
  {
    var low, one: Bits := [true] + seq(23, _ => false), seq(23, _ => false) + [true];
    AllZeros(23);
    AllZeros(22);
    assert low[1..] == seq(23, _ => false);
    assert one[1..] == seq(22, _ => false) + [true];
    assert one[1..][..22] == seq(22, _ => false);
  }

  lemma {:induction false} AllOnes(n: nat)
    ensures Unsigned(seq(n, _ => true)) == Pow2(n) - 1
  {
    if n > 0 {
      AllOnes(n - 1);
      assert seq(n, _ => true)[..n - 1] == seq(n - 1, _ => true);
    }
  }

  // Outside the bases the tare loop reaches the difference may not be an int: against
  // the least base the heaviest load counts as none.
  lemma DifferenceWraps()
    ensures Reading(HEAVIEST) == FULL - 1
    ensures Ticked(Reading(HEAVIEST), INT_MIN) == 0 && Delivered(Reading(HEAVIEST), INT_MIN) == FULL - 1 - INT_MIN
  {
    AllOnes(23);
    assert HEAVIEST[1..] == seq(23, _ => true);
    Pow2Values();
  }

  // The weight after some ticks.
  function WeightAfter(w: int, ticks: seq<Bits>, base: int): int {
    if ticks == [] then w else Delivered(Reading(ticks[|ticks| - 1]), base)
  }

  class Driver {
    var weight: int
    var baise: int
    var evPress: bool

    constructor ()
      ensures weight == 0 && baise == 8414300 && !evPress
    {
      weight, baise, evPress := 0, 8414300, false;
    }

    method ReadHx711Data(bits: Bits)
      modifies `weight
      ensures weight == Reading(bits)
    {
      weight := 0;
      var i := 0;
      while i < 24
        invariant i <= 24 && weight == Unsigned(bits[..i])
      {
        weight := weight * 2;
        if bits[i] {
          weight := weight + 1;
        }
        assert bits[..i + 1][..i] == bits[..i];
        i := i + 1;
      }
      assert bits[..24] == bits;
      UnsignedBound(bits);
      Pow2Values();
      weight := FlipTop(weight);
    }

    // The result is the intended one exactly while raw - baise is an int.
    method Timer(bits: Bits)
      requires IsInt(baise)
      modifies `weight, `evPress
      ensures evPress && 0 <= weight == Ticked(Reading(bits), baise)
      ensures weight == Delivered(Reading(bits), baise) <==> Reading(bits) - baise < INT_MIN + INT_SPAN
      ensures Reading(bits) - baise >= INT_MIN + INT_SPAN ==> weight == 0
      ensures 1000 <= Reading(bits) - baise < 0x8000_0000 ==> weight == Reading(bits) - baise
      ensures Reading(bits) - baise < 1000 ==> weight == 0
    {
      ReadHx711Data(bits);
      DeliveredInNumbers(bits, baise);
      weight := if Wrap(weight - baise) < 0 then 0 else Wrap(weight - baise);
      if weight >= 0 {
        if weight < 1000 {
          weight := 0;
        }
        evPress := true;
      }
    }

    // cmd 1 raises the base, cmd 0 lowers it, anything else is ignored.
    method Ioctl(cmd: int, arg: nat)
      requires IsInt(baise)
      modifies `baise
      ensures IsInt(baise)
      ensures baise == if cmd == 1 then Wrap(old(baise) + arg) else if cmd == 0 then Wrap(old(baise) - arg) else old(baise)
    {
      match cmd
      case 1 => baise := Wrap(baise + arg);
      case 0 => baise := Wrap(baise - arg);
      case _ =>
    }

    // A run of timer ticks.
    method Ticks(readings: seq<Bits>)
      requires INT_MIN + FULL <= baise && IsInt(baise)
      modifies `weight, `evPress
      ensures weight == WeightAfter(old(weight), readings, baise)
      ensures evPress == (old(evPress) || readings != [])
    {
      var i := 0;
      while i < |readings|
        invariant i <= |readings|
        invariant weight == WeightAfter(old(weight), readings[..i], baise)
        invariant evPress == (old(evPress) || i > 0)
      {
        Timer(readings[i]);
        i := i + 1;
      }
      assert readings[..i] == readings;
    }

    // mini210_hx711_read; 11 is EAGAIN and 14 EFAULT. Ticks before it looks at ev_press are in p.before. A wait that
    // a signal interrupts starts again; p.wake is the tick that ends the last one. Ticks
    // between the clearing of ev_press and the copy are in p.during.
    method Mini210Hx711Read(p: Pass, nonblock: bool, count: nat, fault: bool) returns (r: int, buff: seq<byte>)
      requires INT_MIN + FULL <= baise && IsInt(baise) && 0 <= weight
      modifies `weight, `evPress
      ensures 0 <= weight
      ensures var pressed := old(evPress) || p.before != [];
        if !pressed && nonblock then
          r == -11 && buff == [] && weight == old(weight) && !evPress
        else
          && r == (if fault then -14 else if count < 4 then count else 4)
          && weight == WeightAfter(old(weight), Seen(p, pressed), baise)
          && (evPress <==> p.during != [])
          && (if fault then buff == [] else buff == Stored(weight, r))
    {
      ghost var pressed := evPress || p.before != [];
      Ticks(p.before);
      var signals := p.signals;
      while !evPress
        invariant 0 <= weight
        invariant pressed ==> evPress && weight == WeightAfter(old(weight), p.before, baise)
        invariant !pressed && evPress ==> !nonblock && weight == Delivered(Reading(p.wake), baise)
        invariant !pressed && !evPress ==> weight == old(weight)
        decreases !evPress, signals
      {
        if nonblock {
          return -11, [];
        }
        if signals > 0 {
          signals := signals - 1;
        } else {
          Timer(p.wake);
        }
      }
      evPress := false;
      Ticks(p.during);
      if fault {
        return -14, [];
      }
      r := if count < 4 then count else 4;
      buff := Stored(weight, r);
    }
  }

  // ---------------------------------------------------------- the tare loop

  // What the timer does around one pass of the loop, and how often a signal
  // interrupts the wait. Ticks in after come between the copy and the ioctl.
  datatype Pass = Pass(before: seq<Bits>, signals: nat, wake: Bits, during: seq<Bits>, after: seq<Bits>)

  // The ticks whose weight a read may see.
  function Seen(p: Pass, pressed: bool): seq<Bits> {
    p.before + (if pressed then [] else [p.wake]) + p.during
  }

  // A weight that was measured with this base, for some reading.
  predicate MeasuredWith(weight: int, base: int) {
    weight == 0 || THRESHOLD <= weight < FULL - base
  }

  lemma SeenIsMeasured(w: int, ticks: seq<Bits>, base: int)
    requires ticks == [] ==> MeasuredWith(w, base - 300)
    ensures MeasuredWith(WeightAfter(w, ticks, base), base - 300)
    ensures ticks != [] ==> MeasuredWith(WeightAfter(w, ticks, base), base)
  {
  }

  // Every tick of the pass reads raw.
  ghost predicate SteadyTicks(p: Pass, raw: int) {
    Reading(p.wake) == raw && AllRead(p.before, raw) && AllRead(p.during, raw) && AllRead(p.after, raw)
  }

  ghost predicate AllRead(ticks: seq<Bits>, raw: int) {
    forall i :: 0 <= i < |ticks| ==> Reading(ticks[i]) == raw
  }

  lemma SteadySeen(p: Pass, raw: int, pressed: bool, w: int, base: int)
    requires SteadyTicks(p, raw)
    ensures Seen(p, pressed) != [] ==> WeightAfter(w, Seen(p, pressed), base) == Delivered(raw, base)
    ensures p.after != [] ==> WeightAfter(w, p.after, base) == Delivered(raw, base)
  {
    var s := Seen(p, pressed);
    if s != [] {
      var last := s[|s| - 1];
      assert p.during != [] ==> last == p.during[|p.during| - 1];
      assert p.during == [] && pressed ==> s == p.before;
      assert p.during == [] && !pressed ==> last == p.wake;
    }
  }

  // The loop reads four bytes into an int of its own, in blocking mode.
  method ReadWeight(d: Driver, p: Pass) returns (w: int)
    requires INT_MIN + FULL <= d.baise && IsInt(d.baise) && 0 <= d.weight
    requires d.evPress ==> MeasuredWith(d.weight, d.baise - 300)
    modifies d`weight, d`evPress
    ensures 0 <= d.weight && MeasuredWith(w, d.baise - 300)
    ensures d.evPress ==> MeasuredWith(d.weight, d.baise)
    ensures forall raw :: SteadyTicks(p, raw) ==>
      (w == Delivered(raw, d.baise) || (old(d.evPress) && w == old(d.weight))) &&
      (d.evPress ==> d.weight == Delivered(raw, d.baise))
    ensures forall raw :: SteadyTicks(p, raw) && p.before != [] ==> w == d.weight == Delivered(raw, d.baise)
  {
    ghost var pressed, w0 := d.evPress || p.before != [], d.weight;
    SeenIsMeasured(w0, Seen(p, pressed), d.baise);
    forall raw | SteadyTicks(p, raw)
      ensures Seen(p, pressed) != [] ==> WeightAfter(w0, Seen(p, pressed), d.baise) == Delivered(raw, d.baise)
    {
      SteadySeen(p, raw, pressed, w0, d.baise);
    }
    var n: int;
    var buff: seq<byte>;
    n, buff := d.Mini210Hx711Read(p, false, 4, false);
    w := FromStored(buff);
    PowerValues();
    StoredValue(d.weight, 4);
    SeenIsMeasured(0, p.during, d.baise);
    SeenIsMeasured(0, p.after, d.baise);
    d.Ticks(p.after);
  }

  // A steady load, with a tick before each read.
  ghost predicate SteadyLoad(env: nat -> Pass, raw: int) {
    forall i: nat :: SteadyTicks(env(i), raw) && env(i).before != []
  }

  // A steady load with ticks anywhere.
  ghost predicate Steady(env: nat -> Pass, raw: int) {
    forall i: nat :: SteadyTicks(env(i), raw)
  }

  // The loop ends for any readings and any placement of ticks; n counts its ioctls.
  method TareLoop(d: Driver, env: nat -> Pass) returns (n: nat)
    requires INT_MIN + FULL <= d.baise && IsInt(d.baise + 600) && 0 <= d.weight
    requires d.evPress ==> MeasuredWith(d.weight, d.baise)
    modifies d
    ensures d.baise == old(d.baise) + 300 * n
    ensures n > 0 ==> d.baise < 0x100_0000 - 400
    ensures forall raw :: SteadyLoad(env, raw) ==>
      (if raw - old(d.baise) <= 999 then n == 0
       else 700 <= raw - d.baise <= 999 && n == (raw - old(d.baise) - 1000) / 300 + 1)
    ensures forall raw :: Steady(env, raw) && (old(d.evPress) ==> old(d.weight) == Delivered(raw, old(d.baise))) ==>
      (if raw - old(d.baise) <= 999 then n == 0 else 400 <= raw - d.baise <= 999)
  {
    ghost var base := d.baise;
    ghost var e0, w0 := d.evPress, d.weight;
    n := 0;
    while true
      invariant d.baise == base + 300 * n && IsInt(d.baise + 600) && 0 <= d.weight
      invariant d.evPress ==> MeasuredWith(d.weight, d.baise - 300)
      invariant n > 0 ==> d.baise < FULL - THRESHOLD + 600
      invariant forall raw :: SteadyLoad(env, raw) && n > 0 ==> raw - d.baise >= 700
      invariant n == 0 ==> d.evPress == e0 && d.weight == w0
      invariant forall raw :: Steady(env, raw) && (e0 ==> w0 == Delivered(raw, base)) && n > 0 ==>
        raw - base >= THRESHOLD && raw - d.baise >= 400 && (d.evPress ==> d.weight == Delivered(raw, d.baise - 300))
      decreases FULL - THRESHOLD + 600 - d.baise
    {
      var w := ReadWeight(d, env(n));
      if w != 0 {
        d.Ioctl(if w > 0 then 1 else 0, 300);
      } else {
        break;
      }
      n := n + 1;
    }
  }
}
