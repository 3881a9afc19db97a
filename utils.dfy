/**
 * Helpers of the utils package: membership of an int64 list, the bounds of RandNum, and the
 * log-argument joining of JoinArgs.
 */
module Utils {
  import opened Wrappers
  import opened Bytes
  import opened Text

  /** Int64sContain: a search loop that stops at the first match. */
  method Int64sContain(a: seq<int64>, x: int64) returns (found: bool)
    ensures found <==> x in a
  {
    var i := 0;
    while i < |a|
      invariant 0 <= i <= |a| && x !in a[..i]
    {
      if a[i] == x {
        return true;
      }
      assert a[..i + 1] == a[..i] + [a[i]];
      i := i + 1;
    }
    assert a[..i] == a;
    return false;
  }

  /** The range RandNum draws from: 0..100 with no argument, 0..n with one, a..b with two or more. */
  function RandBounds(num: seq<int64>): (b: (int64, int64))
    ensures |num| == 0 ==> b == (0, 100)
    ensures |num| == 1 ==> b == (0, num[0])
    ensures |num| >= 2 ==> b == (num[0], num[1])
  {
    if |num| == 0 then (0, 100) else if |num| == 1 then (0, num[0]) else (num[0], num[1])
  }

  /** The argument of rand.Intn: end - start + 1 in Go's 64-bit int. */
  function Span(num: seq<int64>): int64 {
    Wrap64(RandBounds(num).1 - RandBounds(num).0 + 1)
  }

  /**
   * v lies on the way from start to end counting up in 64-bit int, wrapping from the largest
   * int64 to the least: the interval itself when start <= end, its two ends otherwise.
   */
  predicate Between(start: int64, end: int64, v: int64) {
    if start <= end then start <= v <= end else start <= v || v <= end
  }

  /**
   * RandNum, with the value rand.Intn(end - start + 1) drew given as pick. The span and the sum
   * are Go int arithmetic, and Intn panics unless the span is positive: an empty range panics, and
   * so does a range of 2^63 or more values, whose span wraps to zero or below.
   */
  function RandNum(num: seq<int64>, pick: int): (r: Outcome<int64>)
    requires Span(num) > 0 ==> 0 <= pick < Span(num)
    ensures r == Panics <==> Span(num) <= 0
    ensures var (start, end) := RandBounds(num);
      start <= end && end - start < 0x7fff_ffff_ffff_ffff ==> r.Returns?
    ensures var (start, end) := RandBounds(num);
      start <= end && end - start >= 0x7fff_ffff_ffff_ffff ==> r == Panics
    ensures r.Returns? ==> Between(RandBounds(num).0, RandBounds(num).1, r.value)
  {
    var (start, end) := RandBounds(num);
    var n := Span(num);
    if n <= 0 then Panics else Returns(Wrap64(pick + start))
  }

  /** Every value between the bounds is reached by some draw when the span is positive. */
  lemma RandNumCovers(num: seq<int64>, v: int64)
    requires Span(num) > 0 && Between(RandBounds(num).0, RandBounds(num).1, v)
    ensures 0 <= (v - RandBounds(num).0) % Two64 < Span(num)
    ensures RandNum(num, (v - RandBounds(num).0) % Two64) == Returns(v)
  {
    var (start, end) := RandBounds(num);
    if start > end {
      assert Span(num) == end - start + 1 + Two64;
    }
  }

  /** The whole int64 range wraps the span to 0, so rand.Intn panics. */
  lemma FullRangePanics()
    ensures Span([-0x8000_0000_0000_0000, 0x7fff_ffff_ffff_ffff]) == 0
    ensures RandNum([-0x8000_0000_0000_0000, 0x7fff_ffff_ffff_ffff], 0) == Panics
  {
  }

  /** The range from the least int64 to 0 has 2^63 + 1 values, whose span wraps negative. */
  lemma HalfRangePanics()
    ensures Span([-0x8000_0000_0000_0000, 0]) == -0x7fff_ffff_ffff_ffff
    ensures RandNum([-0x8000_0000_0000_0000, 0], 0) == Panics
  {
  }

  /**
   * An inverted range whose span wraps back to a small positive number does not panic: from the
   * largest int64 to the least the span is 2, and the draw 1 wraps round to the least int64.
   */
  lemma InvertedRangeWraps()
    ensures Span([0x7fff_ffff_ffff_ffff, -0x8000_0000_0000_0000]) == 2
    ensures RandNum([0x7fff_ffff_ffff_ffff, -0x8000_0000_0000_0000], 1) == Returns(-0x8000_0000_0000_0000)
  {
  }

  /** The summed lengths of the first k argument strings. */
  function PrefixLen(args: seq<string>, k: nat): nat
    requires k <= |args|
  {
    if k == 0 then 0 else PrefixLen(args, k - 1) + |args[k - 1]|
  }

  /** Running lengths only grow. */
  lemma {:induction false} PrefixLenMonotone(args: seq<string>, j: nat, k: nat)
    requires j <= k <= |args|
    ensures PrefixLen(args, j) <= PrefixLen(args, k)
    decreases k - j
  {
    if j < k {
      PrefixLenMonotone(args, j, k - 1);
    }
  }

  /** The number of arguments converted when the scan has reached argument i without stopping. */
  function StopAt(args: seq<string>, showByte: int, i: nat): (k: nat)
    requires i <= |args|
    ensures i <= k <= |args|
    ensures k < |args| ==> k >= 1 && PrefixLen(args, k) >= showByte
    decreases |args| - i
  {
    if i == |args| then i
    else if PrefixLen(args, i + 1) >= showByte then i + 1
    else StopAt(args, showByte, i + 1)
  }

  /** The number of arguments JoinArgs converts before the running length reaches showByte. */
  function Converted(args: seq<string>, showByte: int): nat
    ensures Converted(args, showByte) <= |args|
  {
    StopAt(args, showByte, 0)
  }

  /** No running length before the stop reaches showByte. */
  lemma {:induction false} NoEarlierStop(args: seq<string>, showByte: int, i: nat, j: nat)
    requires i <= |args| && i < j < StopAt(args, showByte, i)
    ensures PrefixLen(args, j) < showByte
    decreases |args| - i
  {
    if j > i + 1 {
      NoEarlierStop(args, showByte, i + 1, j);
    }
  }

  /** The argument strings after conversion: the first k as formatted, the rest left empty. */
  function ArgStr(args: seq<string>, k: nat): (r: seq<string>)
    requires k <= |args|
    ensures |r| == |args|
  {
    seq(|args|, i requires 0 <= i < |args| => if i < k then args[i] else "")
  }

  /** The converted strings are exactly as long as the converted arguments. */
  lemma {:induction false} ArgStrLength(args: seq<string>, k: nat, from: nat)
    requires k <= |args| && from <= |args|
    ensures TotalLength(ArgStr(args, k)[from..]) == (if from < k then PrefixLen(args, k) - PrefixLen(args, from) else 0)
    decreases |args| - from
  {
    var a := ArgStr(args, k);
    if from < |args| {
      ArgStrLength(args, k, from + 1);
      assert a[from..][1..] == a[from + 1..];
      if from < k {
        PrefixLenMonotone(args, from + 1, k);
      }
    } else {
      assert a[from..] == [];
    }
  }

  /** The string JoinArgs returns. */
  function JoinArgsOf(showByte: nat, args: seq<string>): (r: string)
  {
    var k := Converted(args, showByte);
    var joined := Join(ArgStr(args, k), " ");
    ArgStrFits(args, k);
    if PrefixLen(args, k) > showByte then joined[..showByte] + " ..." else joined
  }

  /** The join of the converted strings is at least as long as the converted arguments. */
  lemma ArgStrFits(args: seq<string>, k: nat)
    requires k <= |args|
    ensures |Join(ArgStr(args, k), " ")| >= PrefixLen(args, k)
  {
    ArgStrLength(args, k, 0);
    assert ArgStr(args, k)[0..] == ArgStr(args, k);
    JoinLength(ArgStr(args, k), " ");
    if 0 < k {
    } else {
      assert PrefixLen(args, k) == 0;
    }
  }

  /**
   * JoinArgs, the arguments given as the strings they format to. A negative showByte is always
   * below the running length, so the cut slices with a negative bound and panics.
   */
  method JoinArgs(showByte: int, args: seq<string>) returns (argVal: Outcome<string>)
    ensures showByte < 0 ==> argVal == Panics
    ensures showByte >= 0 ==> argVal == Returns(JoinArgsOf(showByte, args))
  {
    var sumLen := 0;
    var argStr := seq(|args|, _ => "");
    var i := 0;
    while i < |args|
      invariant 0 <= i <= |args| && sumLen == PrefixLen(args, i)
      invariant argStr == ArgStr(args, i)
      invariant Converted(args, showByte) == StopAt(args, showByte, i)
    {
      argStr := argStr[i := args[i]];
      sumLen := sumLen + |args[i]|;
      i := i + 1;
      assert argStr == ArgStr(args, i);
      if sumLen >= showByte {
        assert StopAt(args, showByte, i - 1) == i;
        break;
      }
    }
    assert i == Converted(args, showByte) && sumLen == PrefixLen(args, i) && argStr == ArgStr(args, i);
    var joined := Join(argStr, " ");
    ArgStrFits(args, i);
    if sumLen > showByte {
      if showByte < 0 {
        return Panics;
      }
      joined := joined[..showByte] + " ...";
    }
    argVal := Returns(joined);
  }

  /** Past showByte the result is the first showByte characters followed by " ...". */
  lemma JoinArgsTruncates(showByte: nat, args: seq<string>)
    requires PrefixLen(args, Converted(args, showByte)) > showByte
    ensures |JoinArgsOf(showByte, args)| == showByte + 4
    ensures JoinArgsOf(showByte, args)[showByte..] == " ..."
    ensures JoinArgsOf(showByte, args)[..showByte] <= Join(ArgStr(args, Converted(args, showByte)), " ")
  {
    ArgStrFits(args, Converted(args, showByte));
  }

  /** When all arguments together stay under showByte, they are all joined with spaces, uncut. */
  lemma JoinArgsShort(showByte: nat, args: seq<string>)
    requires PrefixLen(args, |args|) < showByte
    ensures JoinArgsOf(showByte, args) == Join(args, " ")
  {
    AllConverted(args, showByte, 0);
    var k := Converted(args, showByte);
    assert k == |args|;
    assert ArgStr(args, k) == args;
    assert PrefixLen(args, k) <= showByte;
  }

  /** A scan whose total stays under showByte converts every argument. */
  lemma {:induction false} AllConverted(args: seq<string>, showByte: int, i: nat)
    requires i <= |args| && PrefixLen(args, |args|) < showByte
    ensures StopAt(args, showByte, i) == |args|
    decreases |args| - i
  {
    if i < |args| {
      PrefixLenMonotone(args, i + 1, |args|);
      AllConverted(args, showByte, i + 1);
    }
  }

  /**
   * A running length of exactly showByte is not cut, but the arguments after the stop are only
   * empty strings between their separators.
   */
  lemma JoinArgsExact(showByte: nat, args: seq<string>)
    requires PrefixLen(args, Converted(args, showByte)) == showByte
    ensures JoinArgsOf(showByte, args)
         == Join(args[..Converted(args, showByte)] + seq(|args| - Converted(args, showByte), _ => ""), " ")
  {
    var k := Converted(args, showByte);
    ArgStrSplit(args, k);
    ArgStrFits(args, k);
    assert JoinArgsOf(showByte, args) == Join(ArgStr(args, k), " ");
  }

  /** The converted strings are the first k arguments followed by empty strings. */
  lemma ArgStrSplit(args: seq<string>, k: nat)
    requires k <= |args|
    ensures ArgStr(args, k) == args[..k] + seq(|args| - k, _ => "")
  {
    var tail: seq<string> := seq(|args| - k, _ => "");
    var a := ArgStr(args, k);
    assert |a| == |args[..k] + tail|;
    forall i | 0 <= i < |a| ensures a[i] == (args[..k] + tail)[i] {
      if i < k {
        assert a[i] == args[i];
      } else {
        assert a[i] == "";
      }
    }
  }
}
