/**
 * The Sonyflake ID generator: a 63-bit ID made of 37 bits of time in units of 10 ms, a 6-bit
 * sequence number, a 4-bit random number and a 16-bit machine id, from high to low. The clock,
 * the random source and the network interfaces are inputs.
 */
module Uuid {
  import opened Wrappers
  import opened Bytes
  import opened Text

  const BitLenTime: nat := 37
  const BitLenSequence: nat := 6
  const BitLenRandomNum: nat := 4
  const BitLenMachineID: nat := 63 - BitLenTime - BitLenRandomNum - BitLenSequence

  /** One Sonyflake time unit in nanoseconds: 10 ms. */
  const SonyflakeTimeUnit: int := 10_000_000

  /** 2014-09-01 00:00:00 UTC in nanoseconds since the Unix epoch, the default start time. */
  const DefaultStartNanos: int := 1_409_529_600_000_000_000

  // ---------------------------------------------------------------------------------------------
  // Unsigned 64-bit arithmetic: powers of two, shifts and the bitwise operators on naturals.

  function Pow2(n: nat): nat {
    if n == 0 then 1 else 2 * Pow2(n - 1)
  }

  lemma {:induction false} Pow2Positive(n: nat)
    ensures Pow2(n) >= 1
    decreases n
  {
    if n > 0 {
      Pow2Positive(n - 1);
    }
  }

  /** 2^(a + b) == 2^a * 2^b. */
  lemma {:induction false} Pow2Add(a: nat, b: nat)
    ensures Pow2(a + b) == Pow2(a) * Pow2(b)
    decreases b
  {
    if b > 0 {
      Pow2Add(a, b - 1);
      MulDouble(Pow2(a), Pow2(b - 1));
    }
  }

  lemma Pow2Values()
    ensures Pow2(6) == 64 && Pow2(4) == 16 && Pow2(16) == 0x1_0000 && Pow2(20) == 0x10_0000
    ensures Pow2(26) == 0x400_0000 && Pow2(37) == 0x20_0000_0000
    ensures Pow2(24) == 0x100_0000 && Pow2(32) == 0x1_0000_0000
    ensures Pow2(63) == 0x8000_0000_0000_0000 && Pow2(64) == 0x1_0000_0000_0000_0000
  {
    assert Pow2(2) == 4;
    assert Pow2(4) == 16;
    assert Pow2(6) == 64;
    Pow2Add(4, 4);
    Pow2Add(8, 8);
    Pow2Add(16, 4);
    Pow2Add(20, 6);
    Pow2Add(26, 6);
    Pow2Add(32, 4);
    Pow2Add(32, 1);
    Pow2Add(32, 5);
    Pow2Add(32, 32);
    Pow2Add(32, 31);
    Pow2Add(16, 15);
    Pow2Add(16, 16);
    Pow2Add(16, 8);
  }

  /** k one bits: 2^k - 1. */
  function Mask(k: nat): nat {
    Pow2Positive(k);
    Pow2(k) - 1
  }

  /** a * (2 * p) == 2 * (a * p). */
  lemma MulDouble(a: int, p: int)
    ensures a * (2 * p) == 2 * (a * p)
  {
  }

  /** Bitwise OR of naturals, one binary digit at a time from the lowest. */
  function BitOr(a: nat, b: nat): nat
    decreases a + b
  {
    if a == 0 then b
    else if b == 0 then a
    else 2 * BitOr(a / 2, b / 2) + (if a % 2 == 1 || b % 2 == 1 then 1 else 0)
  }

  /** Bitwise AND of naturals, one binary digit at a time from the lowest. */
  function BitAnd(a: nat, b: nat): nat
    decreases a + b
  {
    if a == 0 || b == 0 then 0
    else 2 * BitAnd(a / 2, b / 2) + (if a % 2 == 1 && b % 2 == 1 then 1 else 0)
  }

  /** a shifted up n bits: a * 2^n. */
  function Shifted(a: nat, n: nat): nat {
    if n == 0 then a else 2 * Shifted(a, n - 1)
  }

  /** x shifted down n bits: x / 2^n. */
  function Halved(x: nat, n: nat): nat {
    if n == 0 then x else Halved(x / 2, n - 1)
  }

  /** The n lowest bits of x: x % 2^n. */
  function Low(x: nat, n: nat): nat {
    if n == 0 then 0 else 2 * Low(x / 2, n - 1) + x % 2
  }

  /** OR keeps k-bit numbers within k bits. */
  lemma {:induction false} OrBound(a: nat, b: nat, k: nat)
    requires a < Pow2(k) && b < Pow2(k)
    ensures BitOr(a, b) < Pow2(k)
    decreases k
  {
    if k > 0 && a != 0 && b != 0 {
      OrBound(a / 2, b / 2, k - 1);
    }
  }

  /** AND never exceeds its second operand. */
  lemma {:induction false} AndBound(a: nat, b: nat)
    ensures BitAnd(a, b) <= b
    decreases a + b
  {
    if a != 0 && b != 0 {
      AndBound(a / 2, b / 2);
    }
  }

  /** x | y on uint64. */
  function Or64(a: uint64, b: uint64): uint64 {
    Pow2Values();
    OrBound(a, b, 64);
    BitOr(a, b)
  }

  /** x & y on uint64. */
  function And64(a: uint64, b: uint64): uint64 {
    AndBound(a, b);
    BitAnd(a, b)
  }

  /** Go's uint64(x) of a signed integer: two's complement, so modulo 2^64. */
  function ToUint64(x: int64): uint64 {
    x % 0x1_0000_0000_0000_0000
  }

  /** x << n on uint64: the bits pushed past bit 63 are lost. */
  function Shl(x: uint64, n: nat): uint64 {
    Pow2Values();
    Shifted(x, n) % Pow2(64)
  }

  /** x >> n on uint64. */
  function Shr(x: uint64, n: nat): uint64 {
    HalvedBound(x, n);
    Halved(x, n)
  }

  lemma {:induction false} HalvedBound(x: nat, n: nat)
    ensures Halved(x, n) <= x
    decreases n
  {
    if n > 0 {
      HalvedBound(x / 2, n - 1);
    }
  }

  lemma OrDouble(a: nat, b: nat)
    ensures BitOr(2 * a, 2 * b) == 2 * BitOr(a, b)
  {
    if a != 0 && b != 0 {
      assert (2 * a) / 2 == a && (2 * b) / 2 == b;
    }
  }

  /** Shifting both operands up j bits shifts their OR. */
  lemma {:induction false} OrShifted(a: nat, b: nat, j: nat)
    ensures BitOr(Shifted(a, j), Shifted(b, j)) == Shifted(BitOr(a, b), j)
    decreases j
  {
    if j > 0 {
      OrShifted(a, b, j - 1);
      OrDouble(Shifted(a, j - 1), Shifted(b, j - 1));
    }
  }

  /** A number shifted clear of a k-bit number: OR adds them. */
  lemma {:induction false} OrDisjoint(a: nat, b: nat, k: nat)
    requires b < Pow2(k)
    ensures BitOr(Shifted(a, k), b) == Shifted(a, k) + b
    decreases k
  {
    if k > 0 && Shifted(a, k) != 0 && b != 0 {
      var x := Shifted(a, k);
      assert x / 2 == Shifted(a, k - 1) && x % 2 == 0;
      OrDisjoint(a, b / 2, k - 1);
    }
  }

  /** Shifting by i then by j is shifting by i + j. */
  lemma {:induction false} ShiftedTwice(a: nat, i: nat, j: nat)
    ensures Shifted(Shifted(a, i), j) == Shifted(a, i + j)
    decreases j
  {
    if j > 0 {
      ShiftedTwice(a, i, j - 1);
    }
  }

  /** Halving by i then by j is halving by i + j. */
  lemma {:induction false} HalvedTwice(x: nat, i: nat, j: nat)
    ensures Halved(Halved(x, i), j) == Halved(x, i + j)
    decreases i
  {
    if i > 0 {
      HalvedTwice(x / 2, i - 1, j);
    }
  }

  /** A number shifted up k bits with a k-bit number below it: both come back out. */
  lemma {:induction false} Unpack(a: nat, b: nat, k: nat)
    requires b < Pow2(k)
    ensures Halved(Shifted(a, k) + b, k) == a && Low(Shifted(a, k) + b, k) == b
    decreases k
  {
    if k > 0 {
      var x := Shifted(a, k) + b;
      assert x / 2 == Shifted(a, k - 1) + b / 2 && x % 2 == b % 2;
      Unpack(a, b / 2, k - 1);
    }
  }

  /** Packing keeps the order of the high parts, whatever the low parts are. */
  lemma {:induction false} PackOrdered(a: nat, a': nat, b: nat, n: nat)
    requires a < a' && b < Pow2(n)
    ensures Shifted(a, n) + b < Shifted(a', n)
    decreases n
  {
    if n > 0 {
      PackOrdered(a, a', b / 2, n - 1);
    }
  }

  /** Shifting never lowers a number. */
  lemma {:induction false} ShiftedMono(a: nat, a': nat, n: nat)
    requires a <= a'
    ensures Shifted(a, n) <= Shifted(a', n)
    decreases n
  {
    if n > 0 {
      ShiftedMono(a, a', n - 1);
    }
  }

  lemma {:induction false} ShiftedPow2(j: nat, n: nat)
    ensures Shifted(Pow2(j), n) == Pow2(j + n)
    decreases n
  {
    if n > 0 {
      ShiftedPow2(j, n - 1);
    }
  }

  /** A j-bit number above a k-bit number fits in j + k bits. */
  lemma PackBound(a: nat, b: nat, j: nat, k: nat)
    requires a < Pow2(j) && b < Pow2(k)
    ensures Shifted(a, k) + b < Pow2(j + k)
  {
    PackOrdered(a, Pow2(j), b, k);
    ShiftedPow2(j, k);
  }

  /** AND with k low ones keeps the k lowest bits. */
  lemma {:induction false} AndLowMask(x: nat, k: nat)
    ensures BitAnd(x, Mask(k)) == Low(x, k)
    decreases k
  {
    if k > 0 {
      var m := Mask(k);
      Pow2Positive(k - 1);
      assert m / 2 == Mask(k - 1) && m % 2 == 1;
      AndLowMask(x / 2, k - 1);
    }
  }

  /** AND with k ones shifted up n bits, then shifted back: the k bits above the n lowest. */
  lemma {:induction false} AndShiftedMask(x: nat, k: nat, n: nat)
    ensures Halved(BitAnd(x, Shifted(Mask(k), n)), n) == Low(Halved(x, n), k)
    decreases n
  {
    if n == 0 {
      AndLowMask(x, k);
    } else {
      var m := Shifted(Mask(k), n);
      assert m / 2 == Shifted(Mask(k), n - 1) && m % 2 == 0;
      AndShiftedMask(x / 2, k, n - 1);
      var y := BitAnd(x / 2, m / 2);
      assert BitAnd(x, m) == 2 * y;
      assert (2 * y) / 2 == y;
    }
  }

  /** A number below 2^k keeps all its k low bits. */
  lemma {:induction false} LowSmall(x: nat, k: nat)
    requires x < Pow2(k)
    ensures Low(x, k) == x
    decreases k
  {
    if k > 0 {
      LowSmall(x / 2, k - 1);
    }
  }

  /** A number below 2^k has nothing above bit k - 1. */
  lemma {:induction false} HalvedSmall(x: nat, k: nat)
    requires x < Pow2(k)
    ensures Halved(x, k) == 0
    decreases k
  {
    if k > 0 {
      HalvedSmall(x / 2, k - 1);
    }
  }

  /** Every number splits into its high part above bit k and its k low bits. */
  lemma {:induction false} Split(x: nat, k: nat)
    ensures x == Shifted(Halved(x, k), k) + Low(x, k) && Low(x, k) < Pow2(k)
    decreases k
  {
    if k > 0 {
      Split(x / 2, k - 1);
    }
  }

  /** A number below 2^(j + k), shifted down k bits, is below 2^j. */
  lemma {:induction false} HalvedBelow(x: nat, j: nat, k: nat)
    requires x < Pow2(j + k)
    ensures Halved(x, k) < Pow2(j)
    decreases k
  {
    if k > 0 {
      HalvedBelow(x / 2, j, k - 1);
    }
  }

  /** Division and remainder are determined by x == q * d + r with 0 <= r < d. */
  lemma DivModUnique(x: nat, d: nat, q: nat, r: nat)
    requires d > 0 && r < d && x == q * d + r
    ensures x / d == q && x % d == r
  {
    var q0 := x / d;
    if q0 < q {
      MulMono(q0 + 1, q, d);
      assert false;
    } else if q0 > q {
      MulMono(q + 1, q0, d);
      assert false;
    }
  }

  // ---------------------------------------------------------------------------------------------
  // The ID layout.

  /** 1 << BitLenTime: the first elapsed time that no longer fits. */
  const TimeLimit: nat := 0x20_0000_0000

  /** The ID with these fields, high to low: time, sequence, random number, machine id. */
  function Layout(elapsed: nat, sequence: nat, randomNum: nat, machineID: nat): nat {
    Shifted(Shifted(Shifted(elapsed, BitLenSequence) + sequence, BitLenRandomNum) + randomNum, BitLenMachineID)
      + machineID
  }

  /** toID: an elapsed time past the time limit is an error; otherwise the fields ORed at their shifts. */
  function ToID(elapsed: int64, sequence: uint16, randomNum: uint16, machineID: uint16): (r: Result<uint64, string>)
    ensures r.Failure? <==> elapsed >= TimeLimit
  {
    if elapsed >= TimeLimit then Failure("over the time limit")
    else
      Success(Or64(Or64(Or64(Shl(ToUint64(elapsed), BitLenSequence + BitLenRandomNum + BitLenMachineID),
                             Shl(sequence, BitLenRandomNum + BitLenMachineID)),
                        Shl(randomNum, BitLenMachineID)),
                   machineID))
  }

  /** The four widths fill the 63 bits below the sign bit. */
  lemma WidthsFill63()
    ensures BitLenTime + BitLenSequence + BitLenRandomNum + BitLenMachineID == 63
    ensures BitLenMachineID == 16 && Pow2(BitLenTime) == TimeLimit
    ensures Pow2(BitLenSequence) == 64 && Pow2(BitLenRandomNum) == 16 && Pow2(BitLenMachineID) == 0x1_0000
    ensures Pow2(64) == 0x1_0000_0000_0000_0000
  {
    Pow2Values();
  }

  /** Fields within their widths pack below 2^(jt + js + jr + jm). */
  lemma PackFits(e: nat, s: nat, r: nat, m: nat)
    requires e < Pow2(BitLenTime) && s < Pow2(BitLenSequence) && r < Pow2(BitLenRandomNum) && m < Pow2(BitLenMachineID)
    ensures Layout(e, s, r, m) < Pow2(BitLenTime + BitLenSequence + BitLenRandomNum + BitLenMachineID)
  {
    PackBound(e, s, BitLenTime, BitLenSequence);
    PackBound(Shifted(e, BitLenSequence) + s, r, BitLenTime + BitLenSequence, BitLenRandomNum);
    PackBound(Shifted(Shifted(e, BitLenSequence) + s, BitLenRandomNum) + r, m, BitLenTime + BitLenSequence + BitLenRandomNum, BitLenMachineID);
  }

  /** ORing fields that are within their widths at their shifts packs them. */
  lemma OrsPack(e: nat, s: nat, r: nat, m: nat)
    requires s < Pow2(BitLenSequence) && r < Pow2(BitLenRandomNum) && m < Pow2(BitLenMachineID)
    ensures BitOr(BitOr(BitOr(Shifted(e, BitLenSequence + (BitLenRandomNum + BitLenMachineID)), Shifted(s, BitLenRandomNum + BitLenMachineID)), Shifted(r, BitLenMachineID)), m)
            == Layout(e, s, r, m)
  {
    OrPack(e, s, BitLenSequence, BitLenRandomNum + BitLenMachineID);
    OrsPackLow(Shifted(e, BitLenSequence) + s, r, m, BitLenRandomNum, BitLenMachineID);
  }

  /** The two low fields ORed under a high part shifted over both. */
  lemma OrsPackLow(a: nat, r: nat, m: nat, jr: nat, jm: nat)
    requires r < Pow2(jr) && m < Pow2(jm)
    ensures BitOr(BitOr(Shifted(a, jr + jm), Shifted(r, jm)), m) == Shifted(Shifted(a, jr) + r, jm) + m
  {
    OrPack(a, r, jr, jm);
    OrDisjoint(Shifted(a, jr) + r, m, jm);
  }

  /** In-range fields do not overlap: the ORs add up to the layout, which stays below 2^63. */
  lemma ToIDLayout(elapsed: int64, sequence: uint16, randomNum: uint16, machineID: uint16)
    requires 0 <= elapsed < TimeLimit && sequence < 64 && randomNum < 16
    ensures ToID(elapsed, sequence, randomNum, machineID) == Success(Layout(elapsed, sequence, randomNum, machineID))
    ensures Layout(elapsed, sequence, randomNum, machineID) < Pow2(63)
  {
    WidthsFill63();
    ModSmall(elapsed, 0x1_0000_0000_0000_0000);
    ShlFits(elapsed, BitLenTime, BitLenSequence + BitLenRandomNum + BitLenMachineID);
    ShlFits(sequence, BitLenSequence, BitLenRandomNum + BitLenMachineID);
    ShlFits(randomNum, BitLenRandomNum, BitLenMachineID);
    OrsPack(elapsed, sequence, randomNum, machineID);
    PackFits(elapsed, sequence, randomNum, machineID);
  }

  /** A later time packs higher, whatever the other fields are. */
  lemma PackOrderTime(e: nat, s: nat, r: nat, m: nat, e': nat, s': nat, r': nat, m': nat)
    requires s < Pow2(BitLenSequence) && r < Pow2(BitLenRandomNum) && m < Pow2(BitLenMachineID) && e < e'
    ensures Layout(e, s, r, m) < Layout(e', s', r', m')
  {
    PackOrdered(e, e', s, BitLenSequence);
    PackOrderLow(Shifted(e, BitLenSequence) + s, r, m, Shifted(e', BitLenSequence) + s', r', m',
                 BitLenRandomNum, BitLenMachineID);
  }

  /** At the same time, a later sequence packs higher, whatever the random and machine bits are. */
  lemma PackOrderSequence(e: nat, s: nat, r: nat, m: nat, s': nat, r': nat, m': nat)
    requires r < Pow2(BitLenRandomNum) && m < Pow2(BitLenMachineID) && s < s'
    ensures Layout(e, s, r, m) < Layout(e, s', r', m')
  {
    PackOrderLow(Shifted(e, BitLenSequence) + s, r, m, Shifted(e, BitLenSequence) + s', r', m',
                 BitLenRandomNum, BitLenMachineID);
  }

  /** A smaller high part packs smaller, whatever the two low fields are. */
  lemma PackOrderLow(a: nat, r: nat, m: nat, a': nat, r': nat, m': nat, jr: nat, jm: nat)
    requires a < a' && r < Pow2(jr) && m < Pow2(jm)
    ensures Shifted(Shifted(a, jr) + r, jm) + m < Shifted(Shifted(a', jr) + r', jm) + m'
  {
    PackOrdered(a, a', r, jr);
    PackOrdered(Shifted(a, jr) + r, Shifted(a', jr) + r', m, jm);
  }

  /** Packing is strictly ordered by time first, then sequence, whatever the random and machine bits. */
  lemma LayoutOrdered(elapsed: nat, sequence: nat, randomNum: nat, machineID: nat,
                      elapsed': nat, sequence': nat, randomNum': nat, machineID': nat)
    requires sequence < 64 && randomNum < 16 && machineID < 0x1_0000
    requires elapsed < elapsed' || (elapsed == elapsed' && sequence < sequence')
    ensures Layout(elapsed, sequence, randomNum, machineID) < Layout(elapsed', sequence', randomNum', machineID')
  {
    WidthsFill63();
    if elapsed < elapsed' {
      PackOrderTime(elapsed, sequence, randomNum, machineID, elapsed', sequence', randomNum', machineID');
    } else {
      PackOrderSequence(elapsed, sequence, randomNum, machineID, sequence', randomNum', machineID');
    }
  }

  /** Decompose's masks, (1 << width - 1) << shift. */
  function MaskSequence(): uint64 {
    Pow2Values();
    PackBound(Mask(BitLenSequence), 0, BitLenSequence, BitLenRandomNum + BitLenMachineID);
    Shifted(Mask(BitLenSequence), BitLenMachineID + BitLenRandomNum)
  }

  function MaskRandomNum(): uint64 {
    Pow2Values();
    PackBound(Mask(BitLenRandomNum), 0, BitLenRandomNum, BitLenMachineID);
    Shifted(Mask(BitLenRandomNum), BitLenMachineID)
  }

  function MaskMachineID(): uint64 {
    Pow2Values();
    Mask(BitLenMachineID)
  }

  /** The three masks as shifted runs of one bits. */
  lemma MasksAre()
    ensures MaskSequence() == Shifted(Mask(BitLenSequence), BitLenRandomNum + BitLenMachineID)
    ensures MaskRandomNum() == Shifted(Mask(BitLenRandomNum), BitLenMachineID)
    ensures MaskMachineID() == Mask(BitLenMachineID)
  {
  }

  /** The fields of a number, as Decompose extracts them. */
  function IDTime(x: nat): nat {
    Halved(x, BitLenSequence + (BitLenRandomNum + BitLenMachineID))
  }

  function IDSequence(x: nat): nat {
    Halved(BitAnd(x, Shifted(Mask(BitLenSequence), BitLenRandomNum + BitLenMachineID)), BitLenRandomNum + BitLenMachineID)
  }

  function IDRandomNum(x: nat): nat {
    Halved(BitAnd(x, Shifted(Mask(BitLenRandomNum), BitLenMachineID)), BitLenMachineID)
  }

  function IDMachineID(x: nat): nat {
    BitAnd(x, Mask(BitLenMachineID))
  }

  /** Decompose: the parts of an ID by name. */
  function Decompose(id: uint64): (d: map<string, uint64>)
    ensures d.Keys == {"id", "msb", "time", "random-num", "sequence", "machine-id"}
    ensures d["id"] == id
  {
    map["id" := id,
        "msb" := Shr(id, 63),
        "time" := Shr(id, BitLenSequence + BitLenRandomNum + BitLenMachineID),
        "random-num" := Shr(And64(id, MaskRandomNum()), BitLenMachineID),
        "sequence" := Shr(And64(id, MaskSequence()), BitLenRandomNum + BitLenMachineID),
        "machine-id" := And64(id, MaskMachineID())]
  }

  /** Decompose's entries as shifts and masks. */
  lemma DecomposeEntries(id: uint64)
    ensures var d := Decompose(id);
            d["id"] == id && d["msb"] == Halved(id, 63) && d["time"] == IDTime(id) &&
            d["sequence"] == IDSequence(id) && d["random-num"] == IDRandomNum(id) && d["machine-id"] == IDMachineID(id)
  {
    MasksAre();
  }

  /** The time and the sequence come back out of a layout. */
  lemma PackHigh(e: nat, s: nat, r: nat, m: nat)
    requires s < Pow2(BitLenSequence) && r < Pow2(BitLenRandomNum) && m < Pow2(BitLenMachineID)
    ensures IDTime(Layout(e, s, r, m)) == e && IDSequence(Layout(e, s, r, m)) == s
  {
    PackRegroup(e, s, r, m);
    HighOf(e, s, r, m);
  }

  /** The random number comes back out of a layout. */
  lemma PackRandomNum(e: nat, s: nat, r: nat, m: nat)
    requires r < Pow2(BitLenRandomNum) && m < Pow2(BitLenMachineID)
    ensures IDRandomNum(Layout(e, s, r, m)) == r
  {
    MiddleOf(Shifted(e, BitLenSequence) + s, r, m, BitLenRandomNum, BitLenMachineID);
  }

  /** The machine id comes back out of a layout. */
  lemma PackMachineID(e: nat, s: nat, r: nat, m: nat)
    requires m < Pow2(BitLenMachineID)
    ensures IDMachineID(Layout(e, s, r, m)) == m
  {
    LowOf(Shifted(Shifted(e, BitLenSequence) + s, BitLenRandomNum) + r, m, BitLenMachineID);
  }

  /** A k-bit number below a high part: the low mask picks it. */
  lemma LowOf(hi: nat, lo: nat, k: nat)
    requires lo < Pow2(k)
    ensures BitAnd(Shifted(hi, k) + lo, Mask(k)) == lo
  {
    Unpack(hi, lo, k);
    AndLowMask(Shifted(hi, k) + lo, k);
  }

  /** A j-bit field between a high part and a k-bit low part: the shifted mask picks it. */
  lemma MiddleOf(hi: nat, f: nat, lo: nat, j: nat, k: nat)
    requires f < Pow2(j) && lo < Pow2(k)
    ensures Halved(BitAnd(Shifted(Shifted(hi, j) + f, k) + lo, Shifted(Mask(j), k)), k) == f
  {
    var x := Shifted(Shifted(hi, j) + f, k) + lo;
    Unpack(Shifted(hi, j) + f, lo, k);
    Unpack(hi, f, j);
    AndShiftedMask(x, j, k);
  }

  /** The high field and the next one above two low fields. */
  lemma HighOf(e: nat, s: nat, r: nat, m: nat)
    requires s < Pow2(BitLenSequence) && r < Pow2(BitLenRandomNum) && m < Pow2(BitLenMachineID)
    ensures var y := Shifted(Shifted(e, BitLenSequence) + s, BitLenRandomNum + BitLenMachineID) + (Shifted(r, BitLenMachineID) + m);
            Halved(y, BitLenSequence + (BitLenRandomNum + BitLenMachineID)) == e && Halved(BitAnd(y, Shifted(Mask(BitLenSequence), BitLenRandomNum + BitLenMachineID)), BitLenRandomNum + BitLenMachineID) == s
  {
    PackBound(r, m, BitLenRandomNum, BitLenMachineID);
    FieldOf(e, s, Shifted(r, BitLenMachineID) + m, BitLenSequence, BitLenRandomNum + BitLenMachineID);
  }

  /** A packing as its high part shifted over the two low fields. */
  lemma PackRegroup(e: nat, s: nat, r: nat, m: nat)
    ensures Layout(e, s, r, m) == Shifted(Shifted(e, BitLenSequence) + s, BitLenRandomNum + BitLenMachineID) + (Shifted(r, BitLenMachineID) + m)
  {
    Regroup(Shifted(e, BitLenSequence) + s, r, m, BitLenRandomNum, BitLenMachineID);
  }

  /** Conversely, a number below 2^63 is the layout of its fields. */
  lemma FieldsPack(x: nat)
    ensures x == Layout(IDTime(x), IDSequence(x), IDRandomNum(x), IDMachineID(x))
  {
    SplitFields(x, BitLenSequence, BitLenRandomNum, BitLenMachineID);
  }

  /** x as its part above bit js + jr + jm over three fields of js, jr and jm bits. */
  lemma SplitFields(x: nat, js: nat, jr: nat, jm: nat)
    ensures x == Shifted(Shifted(Shifted(Halved(x, js + (jr + jm)), js) + Halved(BitAnd(x, Shifted(Mask(js), jr + jm)), jr + jm), jr)
                         + Halved(BitAnd(x, Shifted(Mask(jr), jm)), jm), jm) + BitAnd(x, Mask(jm))
  {
    SplitLow(x, jm);
    SplitField(x, jr, jm);
    SplitField(x, js, jr + jm);
  }

  /** Each field of a number below 2^63 is within its width. */
  lemma FieldsFit(x: nat)
    requires x < Pow2(BitLenTime + (BitLenSequence + (BitLenRandomNum + BitLenMachineID)))
    ensures IDTime(x) < Pow2(BitLenTime) && IDSequence(x) < Pow2(BitLenSequence)
    ensures IDRandomNum(x) < Pow2(BitLenRandomNum) && IDMachineID(x) < Pow2(BitLenMachineID)
  {
    SplitLow(x, BitLenMachineID);
    SplitField(x, BitLenRandomNum, BitLenMachineID);
    SplitField(x, BitLenSequence, BitLenRandomNum + BitLenMachineID);
    HalvedBelow(x, BitLenTime, BitLenSequence + (BitLenRandomNum + BitLenMachineID));
  }

  /** Decompose recovers every field toID packed, with a zero top bit. */
  lemma DecomposeToID(elapsed: int64, sequence: uint16, randomNum: uint16, machineID: uint16)
    requires 0 <= elapsed < TimeLimit && sequence < 64 && randomNum < 16
    ensures var d := Decompose(ToID(elapsed, sequence, randomNum, machineID).value);
            d["id"] == ToID(elapsed, sequence, randomNum, machineID).value &&
            d["msb"] == 0 && d["time"] == elapsed as int && d["sequence"] == sequence as int &&
            d["random-num"] == randomNum as int && d["machine-id"] == machineID as int
  {
    ToIDLayout(elapsed, sequence, randomNum, machineID);
    WidthsFill63();
    var id := Layout(elapsed, sequence, randomNum, machineID);
    DecomposeEntries(id);
    HalvedSmall(id, 63);
    PackHigh(elapsed, sequence, randomNum, machineID);
    PackRandomNum(elapsed, sequence, randomNum, machineID);
    PackMachineID(elapsed, sequence, randomNum, machineID);
  }

  /** Conversely, every ID below 2^63 is what toID packs from its decomposed fields. */
  lemma ToIDDecompose(id: uint64)
    requires id < Pow2(63)
    ensures var d := Decompose(id);
            d["time"] < TimeLimit && d["sequence"] < 64 && d["random-num"] < 16 && d["machine-id"] < 0x1_0000 &&
            ToID(d["time"], d["sequence"], d["random-num"], d["machine-id"]) == Success(id)
  {
    WidthsFill63();
    DecomposeEntries(id);
    FieldsPack(id);
    FieldsFit(id);
    var d := Decompose(id);
    ToIDLayout(d["time"], d["sequence"], d["random-num"], d["machine-id"]);
  }

  /** A j-bit field between a high part and a k-bit low part: each comes back out. */
  lemma FieldOf(hi: nat, f: nat, lo: nat, j: nat, k: nat)
    requires f < Pow2(j) && lo < Pow2(k)
    ensures var x := Shifted(Shifted(hi, j) + f, k) + lo;
            Halved(x, j + k) == hi && Halved(BitAnd(x, Shifted(Mask(j), k)), k) == f &&
            BitAnd(x, Mask(k)) == lo
  {
    var x := Shifted(Shifted(hi, j) + f, k) + lo;
    Unpack(Shifted(hi, j) + f, lo, k);
    Unpack(hi, f, j);
    HalvedTwice(x, k, j);
    AndShiftedMask(x, j, k);
    AndLowMask(x, k);
  }

  /** Regrouping: a high part over two fields is the high part shifted over both. */
  lemma Regroup(a: nat, f: nat, lo: nat, j: nat, k: nat)
    ensures Shifted(Shifted(a, j) + f, k) + lo == Shifted(a, j + k) + (Shifted(f, k) + lo)
  {
    ShiftedSum(Shifted(a, j), f, k);
    ShiftedTwice(a, j, k);
  }

  lemma {:induction false} ShiftedSum(a: nat, b: nat, k: nat)
    ensures Shifted(a + b, k) == Shifted(a, k) + Shifted(b, k)
    decreases k
  {
    if k > 0 {
      ShiftedSum(a, b, k - 1);
    }
  }

  /** x split at bit k: its part above and its k low bits, which AND with the low mask gives. */
  lemma SplitLow(x: nat, k: nat)
    ensures x == Shifted(Halved(x, k), k) + BitAnd(x, Mask(k)) && BitAnd(x, Mask(k)) < Pow2(k)
  {
    Split(x, k);
    AndLowMask(x, k);
  }

  /** x above bit k split at bit j + k: the part above, and the j-bit field the shifted mask picks. */
  lemma SplitField(x: nat, j: nat, k: nat)
    ensures Halved(x, k) == Shifted(Halved(x, j + k), j) + Halved(BitAnd(x, Shifted(Mask(j), k)), k)
    ensures Halved(BitAnd(x, Shifted(Mask(j), k)), k) < Pow2(j)
  {
    assert k + j == j + k;
    Split(Halved(x, k), j);
    AndShiftedMask(x, j, k);
    HalvedTwice(x, k, j);
  }

  /** A j-bit number shifted up k bits, with j + k <= 64, loses nothing. */
  lemma ShlFits(x: uint64, j: nat, k: nat)
    requires x < Pow2(j) && j + k <= 64 && Pow2(64) == 0x1_0000_0000_0000_0000
    ensures Shl(x, k) == Shifted(x, k)
  {
    Pow2Positive(k);
    PackBound(x, 0, j, k);
    Pow2Mono(j + k, 64);
    ModSmall(Shifted(x, k), Pow2(64));
  }

  lemma {:induction false} Pow2Mono(i: nat, j: nat)
    requires i <= j
    ensures Pow2(i) <= Pow2(j)
    decreases j
  {
    if i < j {
      Pow2Mono(i, j - 1);
    }
  }

  /** OR of a high part shifted j + k bits and a j-bit field shifted k bits: the two packed. */
  lemma OrPack(a: nat, f: nat, j: nat, k: nat)
    requires f < Pow2(j)
    ensures BitOr(Shifted(a, j + k), Shifted(f, k)) == Shifted(Shifted(a, j) + f, k)
  {
    ShiftedTwice(a, j, k);
    OrShifted(Shifted(a, j), f, k);
    OrDisjoint(a, f, j);
  }

  // ---------------------------------------------------------------------------------------------
  // The sequence state machine.

  /** (sequence + 1) & maskSequence, on uint16. */
  function NextSequence(sequence: uint16): uint16 {
    Pow2Values();
    AndBound((sequence + 1) % 0x1_0000, Mask(BitLenSequence));
    BitAnd((sequence + 1) % 0x1_0000, Mask(BitLenSequence))
  }

  /**
   * NextID's update of (elapsedTime, sequence) against the current elapsed time: a later time
   * restarts the sequence at 0; otherwise the sequence counts on modulo 64, and a wrap to 0 moves
   * the elapsed time one unit ahead.
   */
  function Advance(elapsed: int64, sequence: uint16, current: int64): (int64, uint16) {
    if elapsed < current then (current, 0)
    else
      var s := NextSequence(sequence);
      if s == 0 then (Wrap64(elapsed + 1), s) else (elapsed, s)
  }

  /** The sequence counts modulo 64. */
  lemma NextSequenceCounts(sequence: uint16)
    requires sequence < 64
    ensures NextSequence(sequence) == if sequence == 63 then 0 else sequence + 1
  {
    if sequence < 63 {
      NextSequenceStep(sequence);
    } else {
      NextSequenceWraps();
    }
  }

  lemma NextSequenceStep(sequence: uint16)
    requires sequence < 63
    ensures NextSequence(sequence) == sequence + 1
  {
    Pow2Values();
    var x: nat := sequence + 1;
    ModSmall(x, 0x1_0000);
    AndLowMask(x, 6);
    LowSmall(x, 6);
  }

  lemma NextSequenceWraps()
    ensures NextSequence(63) == 0
  {
    Pow2Values();
    ModSmall(64, 0x1_0000);
    AndLowMask(64, 6);
    ShiftedPow2(0, 6);
    Unpack(1, 0, 6);
  }

  /** Each step moves (elapsed time, sequence) strictly forward, and the sequence stays below 64. */
  lemma AdvanceMovesForward(elapsed: int64, sequence: uint16, current: int64)
    requires sequence < 64 && elapsed < 0x7fff_ffff_ffff_ffff
    ensures var (e, s) := Advance(elapsed, sequence, current);
            s < 64 && (elapsed < e || (elapsed == e && sequence < s))
    ensures elapsed < current ==> Advance(elapsed, sequence, current) == (current, 0)
    ensures elapsed >= current ==>
      Advance(elapsed, sequence, current) ==
        (if sequence == 63 then (elapsed + 1, 0) else (elapsed, sequence + 1))
  {
    NextSequenceCounts(sequence);
  }

  /** Successive IDs strictly increase while both are under the time limit, whatever their random bits. */
  lemma IDsIncrease(elapsed: int64, sequence: uint16, randomNum: uint16, machineID: uint16,
                    current: int64, randomNum': uint16)
    requires 0 <= elapsed && sequence < 64 && randomNum < 16 && randomNum' < 16
    requires ToID(elapsed, sequence, randomNum, machineID).Success?
    requires ToID(Advance(elapsed, sequence, current).0, Advance(elapsed, sequence, current).1, randomNum', machineID).Success?
    ensures ToID(Advance(elapsed, sequence, current).0, Advance(elapsed, sequence, current).1, randomNum', machineID).value
          > ToID(elapsed, sequence, randomNum, machineID).value
  {
    var (e, s) := Advance(elapsed, sequence, current);
    AdvanceMovesForward(elapsed, sequence, current);
    ToIDLayout(elapsed, sequence, randomNum, machineID);
    ToIDLayout(e, s, randomNum', machineID);
    LayoutOrdered(elapsed, sequence, randomNum, machineID, e, s, randomNum', machineID);
  }

  /** Starting the sequence at 63 makes the first ID of a generator carry sequence 0. */
  lemma FirstIDHasSequenceZero(current: int64)
    ensures Advance(0, 63, current) == (if 0 < current then (current, 0) else (1, 0))
  {
    NextSequenceCounts(63);
  }

  /**
   * The elapsed time does not stay non-negative forever: at the largest int64 the increment at the
   * sequence wrap overflows to the least one.
   */
  lemma ElapsedWrapsAtMax()
    ensures Advance(0x7fff_ffff_ffff_ffff, 63, 0) == (-0x8000_0000_0000_0000, 0)
  {
    NextSequenceCounts(63);
  }

  /** Below the largest int64 a non-negative elapsed time stays non-negative and never decreases. */
  lemma AdvanceKeepsNonNegative(elapsed: int64, sequence: uint16, current: int64)
    requires 0 <= elapsed < 0x7fff_ffff_ffff_ffff && sequence < 64
    ensures 0 <= elapsed <= Advance(elapsed, sequence, current).0
  {
    AdvanceMovesForward(elapsed, sequence, current);
  }

  /** toSonyflakeTime: nanoseconds to 10 ms units, truncating toward zero as Go's integer division does. */
  function ToSonyflakeTime(nanos: int64): (t: int64)
    ensures nanos >= 0 ==> t == nanos / SonyflakeTimeUnit
  {
    if nanos >= 0 then nanos / SonyflakeTimeUnit else -((-(nanos as int)) / SonyflakeTimeUnit)
  }

  /** currentElapsedTime: the current time in units since the start time. */
  function CurrentElapsedTime(now: int64, startTime: int64): (t: int64)
    ensures -0x8000_0000_0000_0000 <= ToSonyflakeTime(now) - startTime < 0x8000_0000_0000_0000 ==>
            t == ToSonyflakeTime(now) - startTime
  {
    Wrap64(ToSonyflakeTime(now) - startTime)
  }

  /** The Sonyflake generator's state; its mutex and random generator are left to the caller. */
  class Sonyflake {
    var startTime: int64
    var elapsedTime: int64
    var randomNum: uint16
    var sequence: uint16
    var machineID: uint16

    /** The state NextID keeps: a 6-bit sequence and a 4-bit random number. */
    ghost predicate Valid()
      reads this
    {
      sequence < 64 && randomNum < 16
    }

    /** A generator as NewSonyflake leaves it: sequence 63, elapsed time and random number 0. */
    constructor (startTime: int64, machineID: uint16)
      ensures this.startTime == startTime && this.machineID == machineID
      ensures elapsedTime == 0 && randomNum == 0 && sequence == 63
      ensures Valid()
    {
      this.startTime := startTime;
      this.machineID := machineID;
      elapsedTime := 0;
      randomNum := 0;
      sequence := 63;
    }

    /**
     * NextID at wall-clock time now (nanoseconds) with random the value Intn(16) drew. The sleep
     * until the elapsed time the state has moved to is the caller's to do.
     */
    method NextID(now: int64, random: int) returns (id: Result<uint64, string>)
      requires Valid() && 0 <= random < 16
      modifies this
      ensures Valid()
      ensures (elapsedTime, sequence) == Advance(old(elapsedTime), old(sequence), CurrentElapsedTime(now, startTime))
      ensures randomNum == random && startTime == old(startTime) && machineID == old(machineID)
      ensures id == ToID(elapsedTime, sequence, randomNum, machineID)
      ensures 0 <= old(elapsedTime) < 0x7fff_ffff_ffff_ffff ==> old(elapsedTime) <= elapsedTime
    {
      var current := CurrentElapsedTime(now, startTime);
      if elapsedTime < current {
        elapsedTime := current;
        sequence := 0;
      } else {
        sequence := NextSequence(sequence);
        if sequence == 0 {
          elapsedTime := Wrap64(elapsedTime + 1);
        }
      }
      NextSequenceCounts(old(sequence));
      randomNum := random;
      id := ToID(elapsedTime, sequence, randomNum, machineID);
    }
  }

  /**
   * GetUuidUInt64: the next ID, or 0 when the generator is past its time limit. The package-level
   * generator is nil when NewSonyflake failed, and then every call panics in NextID.
   */
  method GetUuidUInt64(flake: Sonyflake?, now: int64, random: int) returns (uid: Outcome<uint64>)
    requires flake != null ==> flake.Valid()
    requires 0 <= random < 16
    modifies flake
    ensures flake == null ==> uid == Panics
    ensures flake != null ==>
            var (e, s) := Advance(old(flake.elapsedTime), old(flake.sequence), CurrentElapsedTime(now, old(flake.startTime)));
            var r := ToID(e, s, random, old(flake.machineID));
            uid == Returns(if r.Success? then r.value else 0)
  {
    if flake == null {
      return Panics;
    }
    var r := flake.NextID(now, random);
    uid := Returns(if r.Success? then r.value else 0);
  }

  /** GetUuidString: the next ID in decimal; it panics with GetUuidUInt64. */
  method GetUuidString(flake: Sonyflake?, now: int64, random: int) returns (uid: Outcome<string>)
    requires flake != null ==> flake.Valid()
    requires 0 <= random < 16
    modifies flake
    ensures flake == null ==> uid == Panics
    ensures flake != null ==>
            var (e, s) := Advance(old(flake.elapsedTime), old(flake.sequence), CurrentElapsedTime(now, old(flake.startTime)));
            var r := ToID(e, s, random, old(flake.machineID));
            uid == Returns(Decimal(if r.Success? then r.value else 0))
  {
    var n := GetUuidUInt64(flake, now, random);
    if n.Panics? {
      return Panics;
    }
    uid := Returns(Decimal(n.value));
  }

  // ---------------------------------------------------------------------------------------------
  // The machine id: the lower 16 bits of the first private IPv4 address.

  type IPv4 = s: seq<byte> | |s| == 4 witness [0, 0, 0, 0]

  /** An interface address: an IP network with its IP (4 or 16 bytes), or an address of another kind. */
  datatype Addr = IPNet(ip: seq<byte>) | OtherAddr

  /** net.IP.To4: a 4-byte IP, or the last 4 bytes of an IPv4-mapped 16-byte IP; nil otherwise. */
  function To4(ip: seq<byte>): (r: Option<IPv4>)
    ensures r.Some? ==> |ip| == 4 || |ip| == 16
  {
    if |ip| == 4 then var v: IPv4 := ip; Some(v)
    else if |ip| == 16 && (forall k :: 0 <= k < 10 ==> ip[k] == 0) && ip[10] == 0xff && ip[11] == 0xff then
      var v: IPv4 := ip[12..16]; Some(v)
    else None
  }

  /** net.IP.IsLoopback: 127/8 for IPv4, ::1 otherwise. */
  predicate IsLoopback(ip: seq<byte>) {
    if To4(ip).Some? then To4(ip).value[0] == 127
    else |ip| == 16 && (forall k :: 0 <= k < 15 ==> ip[k] == 0) && ip[15] == 1
  }

  /** isPrivateIPv4: 10/8, 172.16/12 or 192.168/16. */
  predicate IsPrivateIPv4(ip: Option<IPv4>) {
    ip.Some? &&
    (ip.value[0] == 10 || (ip.value[0] == 172 && ip.value[1] >= 16 && ip.value[1] < 32) ||
     (ip.value[0] == 192 && ip.value[1] == 168))
  }

  /** The address as a 32-bit big-endian number. */
  function AddressValue(ip: IPv4): nat {
    ip[0] as int * 0x100_0000 + ip[1] as int * 0x1_0000 + ip[2] as int * 0x100 + ip[3]
  }

  /** ip lies in the network base/prefixLength. */
  predicate InNetwork(ip: IPv4, base: IPv4, prefixLength: nat)
    requires prefixLength <= 32
  {
    Pow2Positive(32 - prefixLength);
    AddressValue(ip) / Pow2(32 - prefixLength) == AddressValue(base) / Pow2(32 - prefixLength)
  }

  /** The private ranges are exactly the three private networks of RFC 1918. */
  lemma PrivateIsRfc1918(ip: IPv4)
    ensures IsPrivateIPv4(Some(ip)) <==>
      InNetwork(ip, [10, 0, 0, 0], 8) || InNetwork(ip, [172, 16, 0, 0], 12) || InNetwork(ip, [192, 168, 0, 0], 16)
  {
    InNetwork10(ip);
    InNetwork172(ip);
    InNetwork192(ip);
  }

  /** 10/8 is the addresses whose first byte is 10. */
  lemma InNetwork10(ip: IPv4)
    ensures InNetwork(ip, [10, 0, 0, 0], 8) <==> ip[0] == 10
  {
    Pow2Values();
    DivModUnique(AddressValue(ip), 0x100_0000, ip[0], ip[1] as int * 0x1_0000 + ip[2] as int * 0x100 + ip[3]);
    DivModUnique(AddressValue([10, 0, 0, 0]), 0x100_0000, 10, 0);
  }

  /** 172.16/12 is the addresses 172.16 to 172.31. */
  lemma InNetwork172(ip: IPv4)
    ensures InNetwork(ip, [172, 16, 0, 0], 12) <==> ip[0] == 172 && 16 <= ip[1] < 32
  {
    Pow2Values();
    DivModUnique(AddressValue(ip), 0x10_0000, ip[0] as int * 16 + ip[1] as int / 16,
                 (ip[1] as int % 16) * 0x1_0000 + ip[2] as int * 0x100 + ip[3]);
    DivModUnique(AddressValue([172, 16, 0, 0]), 0x10_0000, 2753, 0);
  }

  /** 192.168/16 is the addresses whose first two bytes are 192 and 168. */
  lemma InNetwork192(ip: IPv4)
    ensures InNetwork(ip, [192, 168, 0, 0], 16) <==> ip[0] == 192 && ip[1] == 168
  {
    Pow2Values();
    DivModUnique(AddressValue(ip), 0x1_0000, ip[0] as int * 0x100 + ip[1], ip[2] as int * 0x100 + ip[3]);
    DivModUnique(AddressValue([192, 168, 0, 0]), 0x1_0000, 0xc0a8, 0);
  }

  /** A usable address: an IP network, not loopback, whose IPv4 form is private. */
  predicate Usable(a: Addr) {
    a.IPNet? && !IsLoopback(a.ip) && IsPrivateIPv4(To4(a.ip))
  }

  /** privateIPv4 on the interface addresses: the first usable one. */
  function FirstPrivateIPv4(addrs: seq<Addr>): (r: Result<IPv4, string>)
    ensures r.Failure? <==> forall k :: 0 <= k < |addrs| ==> !Usable(addrs[k])
    ensures r.Success? ==> exists k :: 0 <= k < |addrs| && Usable(addrs[k]) && To4(addrs[k].ip) == Some(r.value) &&
                                       forall j :: 0 <= j < k ==> !Usable(addrs[j])
    decreases |addrs|
  {
    if addrs == [] then Failure("no private ip address")
    else if Usable(addrs[0]) then Success(To4(addrs[0].ip).value)
    else
      var r := FirstPrivateIPv4(addrs[1..]);
      assert forall k :: 1 <= k < |addrs| ==> addrs[k] == addrs[1..][k - 1];
      if r.Success? then
        var k :| 0 <= k < |addrs[1..]| && Usable(addrs[1..][k]) && To4(addrs[1..][k].ip) == Some(r.value) &&
                 forall j :: 0 <= j < k ==> !Usable(addrs[1..][j]);
        assert Usable(addrs[k + 1]) && forall j :: 0 <= j < k + 1 ==> !Usable(addrs[j]);
        r
      else r
  }

  /** privateIPv4: the interface listing's error, or the first usable address. */
  method PrivateIPv4(interfaceAddrs: Result<seq<Addr>, string>) returns (r: Result<IPv4, string>)
    ensures interfaceAddrs.Failure? ==> r == Failure(interfaceAddrs.error)
    ensures interfaceAddrs.Success? ==> r == FirstPrivateIPv4(interfaceAddrs.value)
  {
    if interfaceAddrs.Failure? {
      return Failure(interfaceAddrs.error);
    }
    var addrs := interfaceAddrs.value;
    var i := 0;
    while i < |addrs|
      invariant 0 <= i <= |addrs| && FirstPrivateIPv4(addrs[i..]) == FirstPrivateIPv4(addrs)
    {
      var a := addrs[i];
      if a.IPNet? && !IsLoopback(a.ip) {
        var ip := To4(a.ip);
        if IsPrivateIPv4(ip) {
          return Success(ip.value);
        }
      }
      assert addrs[i..][1..] == addrs[i + 1..];
      i := i + 1;
    }
    return Failure("no private ip address");
  }

  /** uint16(ip[2]) << 8 + uint16(ip[3]), on uint16. */
  function MachineIDOfIP(ip: IPv4): (id: uint16)
    ensures id == ip[2] as int * 0x100 + ip[3]
  {
    ((ip[2] as int * 0x100) % 0x1_0000 + ip[3]) % 0x1_0000
  }

  /** The machine id is the address's low 16 bits; nothing wraps. */
  lemma MachineIDIsLow16(ip: IPv4)
    ensures MachineIDOfIP(ip) == AddressValue(ip) % 0x1_0000 == ip[2] as int * 0x100 + ip[3]
  {
    DivModUnique(AddressValue(ip), 0x1_0000, ip[0] as int * 0x100 + ip[1], ip[2] as int * 0x100 + ip[3]);
  }

  /** lower16BitPrivateIP, on what the interface listing returned. */
  function Lower16BitPrivateIP(interfaceAddrs: Result<seq<Addr>, string>): (r: Result<uint16, string>)
    ensures interfaceAddrs.Failure? ==> r == Failure(interfaceAddrs.error)
    ensures interfaceAddrs.Success? ==>
      (r.Success? <==> FirstPrivateIPv4(interfaceAddrs.value).Success?) &&
      (r.Success? ==> r.value == AddressValue(FirstPrivateIPv4(interfaceAddrs.value).value) % 0x1_0000)
  {
    if interfaceAddrs.Failure? then Failure(interfaceAddrs.error)
    else
      var ip := FirstPrivateIPv4(interfaceAddrs.value);
      if ip.Failure? then Failure(ip.error)
      else
        MachineIDIsLow16(ip.value);
        Success(MachineIDOfIP(ip.value))
  }

  // ---------------------------------------------------------------------------------------------
  // NewSonyflake.

  /**
   * Settings: the start time in nanoseconds (None for Go's zero time), the machine id the
   * MachineID callback returns (None when there is no callback), and the CheckMachineID callback.
   */
  datatype Settings = Settings(startTime: Option<int64>, machineID: Option<Result<uint16, string>>,
                               checkMachineID: Option<uint16 -> bool>)

  /** The start time in Sonyflake units: the given one, or 2014-09-01 UTC for the zero time. */
  function StartTimeOf(st: Settings): (t: int64)
    ensures st.startTime.None? ==> t == 140_952_960_000
  {
    ToSonyflakeTime(if st.startTime.Some? then st.startTime.value else DefaultStartNanos)
  }

  /** The machine id: the callback's, or the lower 16 bits of the private IP. */
  function MachineIDOf(st: Settings, interfaceAddrs: Result<seq<Addr>, string>): Result<uint16, string> {
    if st.machineID.Some? then st.machineID.value else Lower16BitPrivateIP(interfaceAddrs)
  }

  /** NewSonyflake creates a generator: no future start time, a machine id, and one the check accepts. */
  predicate Creates(st: Settings, now: int64, interfaceAddrs: Result<seq<Addr>, string>) {
    (st.startTime.None? || st.startTime.value <= now) &&
    MachineIDOf(st, interfaceAddrs).Success? &&
    (st.checkMachineID.None? || st.checkMachineID.value(MachineIDOf(st, interfaceAddrs).value))
  }

  /** NewSonyflake at wall-clock time now; null where the source returns nil. */
  method NewSonyflake(st: Settings, now: int64, interfaceAddrs: Result<seq<Addr>, string>) returns (sf: Sonyflake?)
    ensures sf == null <==> !Creates(st, now, interfaceAddrs)
    ensures sf != null ==> fresh(sf) && sf.Valid() && sf.startTime == StartTimeOf(st) &&
                           sf.machineID == MachineIDOf(st, interfaceAddrs).value &&
                           sf.sequence == 63 && sf.elapsedTime == 0
  {
    if st.startTime.Some? && st.startTime.value > now {
      return null;
    }
    var machineID: Result<uint16, string>;
    if st.machineID.None? {
      var ip := PrivateIPv4(interfaceAddrs);
      machineID := if ip.Failure? then Failure(ip.error) else Success(MachineIDOfIP(ip.value));
    } else {
      machineID := st.machineID.value;
    }
    if machineID.Failure? || (st.checkMachineID.Some? && !st.checkMachineID.value(machineID.value)) {
      return null;
    }
    sf := new Sonyflake(StartTimeOf(st), machineID.value);
  }
}
