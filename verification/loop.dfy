/** Storyboard loops (app/storyboard/loop.go): a loop command collects the
    transformations of its child commands and unwinds them into `repeats`
    time-shifted copies. The start time and repeat count are read from the
    command's text with Go's `strconv.ParseInt(s, 10, 64)`, whose result on
    a malformed or out-of-range field (0, or the clamped bound) the model
    keeps. */
module StoryboardLoop {

  /** An animation transformation; only its time span matters here, the
      rest of it is carried along unchanged by a clone. */
  datatype Transformation = Transformation(command: string, startTime: real, endTime: real)

  datatype LoopProcessor = LoopProcessor(start: int, repeats: int, transforms: seq<Transformation>)

  const MaxUint64: int := 18446744073709551615
  const MaxInt64: int := 9223372036854775807
  const MinInt64: int := -9223372036854775808

  /** Outcome of scanning the digits of an unsigned decimal number. */
  datatype UintScan = Value(n: nat) | SyntaxError | RangeError

  predicate IsDigit(c: char) {
    '0' <= c <= '9'
  }

  function DigitValue(c: char): nat
    requires IsDigit(c)
  {
    (c as int) - ('0' as int)
  }

  /** The digit loop of `strconv.ParseUint` in base 10 from index i, with n
      the value so far. A non-digit is a syntax error; the first step that
      would exceed 2^64-1 stops the scan with a range error, whatever
      follows. */
  function ScanUint(s: string, i: nat, n: nat): (r: UintScan)
    requires i <= |s|
    requires n <= MaxUint64
    ensures r.Value? ==> r.n <= MaxUint64
    decreases |s| - i
  {
    if i == |s| then Value(n)
    else if !IsDigit(s[i]) then SyntaxError
    else if n >= MaxUint64 / 10 + 1 then RangeError
    else if n * 10 + DigitValue(s[i]) > MaxUint64 then RangeError
    else ScanUint(s, i + 1, n * 10 + DigitValue(s[i]))
  }

  /** The text after an optional leading sign. */
  function Unsigned(s: string): string {
    if |s| > 0 && (s[0] == '+' || s[0] == '-') then s[1..] else s
  }

  /** Length of the run of decimal digits that starts s. */
  function DigitRun(s: string): (k: nat)
    ensures k <= |s|
    ensures forall j :: 0 <= j < k ==> IsDigit(s[j])
    ensures k < |s| ==> !IsDigit(s[k])
  {
    if |s| == 0 || !IsDigit(s[0]) then 0 else 1 + DigitRun(s[1..])
  }

  function ClampInt64(n: int): (r: int)
    ensures MinInt64 <= r <= MaxInt64
    ensures MinInt64 <= n <= MaxInt64 ==> r == n
    ensures n > MaxInt64 ==> r == MaxInt64
    ensures n < MinInt64 ==> r == MinInt64
  {
    if n > MaxInt64 then MaxInt64 else if n < MinInt64 then MinInt64 else n
  }

  /** `strconv.ParseInt(s, 10, 64)` with its error dropped. Text that is
      an optional sign and digits gives its value clamped to int64. Text
      with no digits, or with a non-digit after digits that still fit in
      64 bits, is a syntax error and gives 0. Digits that overflow 64 bits
      before any non-digit are a range error and give the bound of the
      sign, whatever follows. */
  function ParseInt64(s: string): (r: int)
    ensures MinInt64 <= r <= MaxInt64
    ensures |s| == 0 ==> r == 0
    ensures var d := Unsigned(s); |d| > 0 && DigitRun(d) == |d| ==>
              r == ClampInt64(if s[0] == '-' then -(DigitsValue(d) as int) else DigitsValue(d))
    ensures var d := Unsigned(s); (|d| == 0 || DigitRun(d) < |d|) && DigitsValue(d[..DigitRun(d)]) <= MaxUint64 ==>
              r == 0
    ensures var d := Unsigned(s); DigitsValue(d[..DigitRun(d)]) > MaxUint64 ==>
              r == (if s[0] == '-' then MinInt64 else MaxInt64)
  {
    if |s| == 0 then 0
    else
      var neg := s[0] == '-';
      var digits := if s[0] == '+' || s[0] == '-' then s[1..] else s;
      assert digits[..0] == [] && digits[..|digits|] == digits;
      ScanOutcome(digits, 0);
      var un := if |digits| == 0 then SyntaxError else ScanUint(digits, 0, 0);
      match un
      case SyntaxError => 0
      case RangeError => if neg then MinInt64 else MaxInt64
      case Value(n) =>
        if !neg && n > MaxInt64 then MaxInt64
        else if neg && n > -MinInt64 then MinInt64
        else if neg then -(n as int) else n
  }

  /** Value of a string of decimal digits, most significant first. */
  function DigitsValue(s: string): nat
    requires forall k :: 0 <= k < |s| ==> IsDigit(s[k])
  {
    if |s| == 0 then 0 else DigitsValue(s[..|s| - 1]) * 10 + DigitValue(s[|s| - 1])
  }

  function DigitChar(d: nat): (c: char)
    requires d < 10
    ensures IsDigit(c) && DigitValue(c) == d
  {
    ('0' as int + d) as char
  }

  /** Decimal digits of n, without leading zeros (one digit for 0). */
  function FormatNat(n: nat): (s: string)
    ensures |s| > 0
    ensures forall k :: 0 <= k < |s| ==> IsDigit(s[k])
    ensures DigitsValue(s) == n
  {
    if n < 10 then [DigitChar(n)]
    else
      var p := FormatNat(n / 10);
      var s := p + [DigitChar(n % 10)];
      assert s[..|s| - 1] == p;
      s
  }

  /** `strconv.FormatInt(n, 10)`. */
  function FormatInt(n: int): string {
    if n < 0 then "-" + FormatNat(-n) else FormatNat(n)
  }

  lemma {:induction false} PrefixValueAtMost(s: string, i: nat)
    requires forall k :: 0 <= k < |s| ==> IsDigit(s[k])
    requires i <= |s|
    ensures DigitsValue(s[..i]) <= DigitsValue(s)
    decreases |s| - i
  {
    if i < |s| {
      PrefixValueAtMost(s, i + 1);
      assert s[..i + 1][..i] == s[..i];
    } else {
      assert s[..i] == s;
    }
  }

  /** What scanning yields, in terms of the leading digit run p of s: a
      range error when p overflows 64 bits, otherwise p's value when p is
      all of s, and a syntax error when a non-digit follows. */
  lemma {:induction false} ScanOutcome(s: string, i: nat)
    requires i <= DigitRun(s)
    requires DigitsValue(s[..i]) <= MaxUint64
    ensures ScanUint(s, i, DigitsValue(s[..i]))
            == if DigitsValue(s[..DigitRun(s)]) > MaxUint64 then RangeError
               else if DigitRun(s) == |s| then Value(DigitsValue(s))
               else SyntaxError
    decreases |s| - i
  {
    var p := s[..DigitRun(s)];
    var n := DigitsValue(s[..i]);
    if i == DigitRun(s) {
      assert s[..i] == p;
      if i == |s| {
        assert p == s;
      }
    } else {
      var n' := DigitsValue(s[..i + 1]);
      assert s[..i + 1][..i] == s[..i];
      assert n' == n * 10 + DigitValue(s[i]);
      assert p[..i + 1] == s[..i + 1];
      PrefixValueAtMost(p, i + 1);
      if n' > MaxUint64 {
        assert n >= MaxUint64 / 10 + 1 || n * 10 + DigitValue(s[i]) > MaxUint64;
      } else {
        assert n < MaxUint64 / 10 + 1;
        ScanOutcome(s, i + 1);
      }
    }
  }

  /** Scanning a digit string whose value fits in 64 bits yields that value. */
  lemma {:induction false} ScanDigits(s: string, i: nat)
    requires forall k :: 0 <= k < |s| ==> IsDigit(s[k])
    requires DigitsValue(s) <= MaxUint64
    requires i <= |s|
    ensures DigitsValue(s[..i]) <= MaxUint64
    ensures ScanUint(s, i, DigitsValue(s[..i])) == Value(DigitsValue(s))
    decreases |s| - i
  {
    PrefixValueAtMost(s, i);
    if i == |s| {
      assert s[..i] == s;
    } else {
      PrefixValueAtMost(s, i + 1);
      assert s[..i + 1][..i] == s[..i];
      ScanDigits(s, i + 1);
    }
  }

  /** Every int64 survives formatting and parsing back. */
  lemma ParseFormatRoundTrip(n: int)
    requires MinInt64 <= n <= MaxInt64
    ensures ParseInt64(FormatInt(n)) == n
  {
    var digits := FormatNat(if n < 0 then -n else n);
    assert digits[..0] == [];
    ScanDigits(digits, 0);
    if n < 0 {
      assert FormatInt(n)[1..] == digits;
    } else {
      assert FormatInt(n)[0] == digits[0];
    }
  }

  /** Reads the start time and repeat count from fields 1 and 2 of the
      command line. */
  function NewLoopProcessor(data: seq<string>): (loop: LoopProcessor)
    requires |data| >= 3
    ensures loop.transforms == []
    ensures loop.start == ParseInt64(data[1]) && loop.repeats == ParseInt64(data[2])
    ensures forall n :: MinInt64 <= n <= MaxInt64 && data[1] == FormatInt(n) ==> loop.start == n
    ensures forall n :: MinInt64 <= n <= MaxInt64 && data[2] == FormatInt(n) ==> loop.repeats == n
    ensures MinInt64 <= loop.start <= MaxInt64 && MinInt64 <= loop.repeats <= MaxInt64
  {
    var loop := LoopProcessor(ParseInt64(data[1]), ParseInt64(data[2]), []);
    assert forall n :: MinInt64 <= n <= MaxInt64 ==> ParseInt64(FormatInt(n)) == n by {
      forall n | MinInt64 <= n <= MaxInt64 {
        ParseFormatRoundTrip(n);
      }
    }
    loop
  }

  /** Appends the transformations a child command generates. */
  function Add(loop: LoopProcessor, generated: seq<Transformation>): (r: LoopProcessor)
    ensures r.start == loop.start && r.repeats == loop.repeats
    ensures |r.transforms| == |loop.transforms| + |generated|
    ensures r.transforms[..|loop.transforms|] == loop.transforms
    ensures r.transforms[|loop.transforms|..] == generated
  {
    loop.(transforms := loop.transforms + generated)
  }

  /** Earliest start among the transformations. */
  function MinStart(ts: seq<Transformation>): (m: real)
    requires |ts| > 0
    ensures forall k :: 0 <= k < |ts| ==> m <= ts[k].startTime
    ensures exists k :: 0 <= k < |ts| && m == ts[k].startTime
  {
    if |ts| == 1 then ts[0].startTime
    else
      var m := MinStart(ts[..|ts| - 1]);
      assert forall k :: 0 <= k < |ts| - 1 ==> ts[..|ts| - 1][k] == ts[k];
      if ts[|ts| - 1].startTime < m then ts[|ts| - 1].startTime else m
  }

  /** Latest end among the transformations. */
  function MaxEnd(ts: seq<Transformation>): (m: real)
    requires |ts| > 0
    ensures forall k :: 0 <= k < |ts| ==> ts[k].endTime <= m
    ensures exists k :: 0 <= k < |ts| && m == ts[k].endTime
  {
    if |ts| == 1 then ts[0].endTime
    else
      var m := MaxEnd(ts[..|ts| - 1]);
      assert forall k :: 0 <= k < |ts| - 1 ==> ts[..|ts| - 1][k] == ts[k];
      if ts[|ts| - 1].endTime > m then ts[|ts| - 1].endTime else m
  }

  /** Length of one iteration: from the earliest start to the latest end. */
  function TransTime(ts: seq<Transformation>): (d: real)
    requires |ts| > 0
    ensures forall k :: 0 <= k < |ts| ==> d >= ts[k].endTime - ts[k].startTime
  {
    MaxEnd(ts) - MinStart(ts)
  }

  /** Offset added to every time of iteration i. The first iteration is
      shifted by the loop start alone; later ones also subtract the
      earliest start. */
  function PartStart(loop: LoopProcessor, i: nat): real
    requires |loop.transforms| > 0
  {
    var p := loop.start as real + i as real * TransTime(loop.transforms);
    if i > 0 then p - MinStart(loop.transforms) else p
  }

  function Clone(t: Transformation, startTime: real, endTime: real): Transformation {
    t.(startTime := startTime, endTime := endTime)
  }

  /** The clones of iteration i, in the order the transformations were added. */
  function Iteration(loop: LoopProcessor, i: nat): (r: seq<Transformation>)
    requires |loop.transforms| > 0
  {
    var p := PartStart(loop, i);
    seq(|loop.transforms|, j requires 0 <= j < |loop.transforms| =>
      Clone(loop.transforms[j], p + loop.transforms[j].startTime, p + loop.transforms[j].endTime))
  }

  /** The first n iterations, one after the other. */
  function Iterations(loop: LoopProcessor, n: nat): seq<Transformation>
    requires |loop.transforms| > 0
  {
    if n == 0 then [] else Iterations(loop, n - 1) + Iteration(loop, n - 1)
  }

  /** Every transformation of the loop, `repeats` times over. */
  function Unwind(loop: LoopProcessor): (r: seq<Transformation>)
    ensures |r| == (if loop.repeats <= 0 then 0 else loop.repeats) * |loop.transforms|
  {
    if |loop.transforms| == 0 || loop.repeats <= 0 then []
    else
      IterationsLength(loop, loop.repeats);
      Iterations(loop, loop.repeats)
  }

  lemma {:induction false} IterationsLength(loop: LoopProcessor, n: nat)
    requires |loop.transforms| > 0
    ensures |Iterations(loop, n)| == n * |loop.transforms|
  {
    if n > 0 {
      IterationsLength(loop, n - 1);
    }
  }

  /** Unwinding yields max(repeats, 0) copies of every transformation. */
  lemma UnwindLength(loop: LoopProcessor)
    ensures |Unwind(loop)| == (if loop.repeats <= 0 then 0 else loop.repeats) * |loop.transforms|
  {
    if |loop.transforms| > 0 && loop.repeats > 0 {
      IterationsLength(loop, loop.repeats);
    }
  }

  lemma SlotBound(i: nat, j: nat, m: nat, n: nat)
    requires i < n && j < m
    ensures i * m + j < n * m
  {
    assert i * m + j < (i + 1) * m;
    assert (i + 1) * m <= n * m;
  }

  lemma {:induction false} IterationsAt(loop: LoopProcessor, n: nat, i: nat, j: nat)
    requires |loop.transforms| > 0
    requires i < n && j < |loop.transforms|
    ensures i * |loop.transforms| + j < |Iterations(loop, n)|
    ensures Iterations(loop, n)[i * |loop.transforms| + j] == Iteration(loop, i)[j]
  {
    var m := |loop.transforms|;
    var a, b := Iterations(loop, n - 1), Iteration(loop, n - 1);
    assert Iterations(loop, n) == a + b;
    IterationsLength(loop, n - 1);
    if i < n - 1 {
      SlotBound(i, j, m, n - 1);
      IterationsAt(loop, n - 1, i, j);
      assert (a + b)[i * m + j] == a[i * m + j];
    } else {
      assert i * m + j == |a| + j;
      assert (a + b)[|a| + j] == b[j];
    }
  }

  /** Item i*n+j of the unwound list is transformation j of iteration i:
      same command and duration, shifted by that iteration's offset. */
  lemma UnwindAt(loop: LoopProcessor, i: nat, j: nat)
    requires i < loop.repeats && j < |loop.transforms|
    ensures i * |loop.transforms| + j < |Unwind(loop)|
    ensures Unwind(loop)[i * |loop.transforms| + j].command == loop.transforms[j].command
    ensures Unwind(loop)[i * |loop.transforms| + j].startTime
            == PartStart(loop, i) + loop.transforms[j].startTime
    ensures Unwind(loop)[i * |loop.transforms| + j].endTime - Unwind(loop)[i * |loop.transforms| + j].startTime
            == loop.transforms[j].endTime - loop.transforms[j].startTime
  {
    IterationsAt(loop, loop.repeats, i, j);
  }

  /** The first iteration is shifted by exactly the loop start. */
  lemma FirstIterationAtLoopStart(loop: LoopProcessor, j: nat)
    requires 0 < loop.repeats && j < |loop.transforms|
    ensures Unwind(loop)[j].startTime == loop.start as real + loop.transforms[j].startTime
    ensures Unwind(loop)[j].endTime == loop.start as real + loop.transforms[j].endTime
  {
    UnwindAt(loop, 0, j);
  }

  /** From the second iteration on, consecutive iterations are exactly one
      iteration length apart. */
  lemma LaterIterationsEvenlySpaced(loop: LoopProcessor, i: nat)
    requires |loop.transforms| > 0 && i >= 1
    ensures PartStart(loop, i + 1) - PartStart(loop, i) == TransTime(loop.transforms)
  {
    assert (i + 1) as real * TransTime(loop.transforms)
           == i as real * TransTime(loop.transforms) + TransTime(loop.transforms);
  }

  /** The first step is shorter by the earliest start: the second iteration
      opens that much before the first one closes. */
  lemma SecondIterationOverlapsFirst(loop: LoopProcessor)
    requires |loop.transforms| > 0
    ensures PartStart(loop, 1) + MinStart(loop.transforms)
            == PartStart(loop, 0) + MaxEnd(loop.transforms) - MinStart(loop.transforms)
  {
  }
}
