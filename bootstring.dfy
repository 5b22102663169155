/** The hand-written Punycode decoder of the front end
    (`punycodeDecoder` in src/components/EmojiDomainConverter.js), which
    follows the Bootstring decoding procedure of RFC 3492 (parameters of
    section 5, bias adaptation of section 6.1, decoding of section 6.2) with
    two deviations kept here as written:
    - the digit formula rejects only characters above 'z'; characters below
      '0' and those between '9' and 'A' or between 'Z' and 'a' get digit
      values (some of them negative) instead of being refused;
    - `i` is not range-checked before the final digit of an integer, so it can
      exceed 0x7FFFFFFF, and `delta >> 1` in adapt is then a 32-bit shift.
    The JavaScript numbers involved stay far below 2^53, so they are
    modelled as unbounded integers, with `Math.floor` as floor division and
    `>>` and `%` written out. */
module Bootstring {
  import opened Wrappers
  import opened JsText

  // Parameters (RFC 3492 section 5)
  const Base := 36
  const TMin := 1
  const TMax := 26
  const Skew := 38
  const Damp := 700
  const InitialBias := 72
  const InitialN := 128
  const Delimiter: CodeUnit := 0x2D  // '-'
  const MaxInt := 0x7FFFFFFF

  /** The two exceptions decode throws: 'Invalid input' and 'Overflow'. */
  datatype DecodeError = InvalidInput | Overflow

  /** The bias is a JavaScript number. Besides integers it can become
      -Infinity: adapt divides by `delta + skew`, which is zero when the
      scaled delta is -38. A negative digit value can drive it there, and so
      can the 32-bit wrap of `delta >> 1` for a delta of 2^31 or more. */
  datatype Bias = Finite(value: int) | MinusInfinity

  // ---------------------------------------------------------------------
  // Digits

  /** The digit values of RFC 3492 section 5: letters of either case are
      0..25, decimal digits 26..35. */
  function RfcDigit(c: CodeUnit): int
  {
    if 'a' as int <= c <= 'z' as int then c - 'a' as int
    else if 'A' as int <= c <= 'Z' as int then c - 'A' as int
    else c - '0' as int + 26
  }

  predicate IsAsciiAlphanumeric(c: CodeUnit) {
    'a' as int <= c <= 'z' as int || 'A' as int <= c <= 'Z' as int || '0' as int <= c <= '9' as int
  }

  /** The digit formula of decode. It agrees with RFC 3492 on letters and
      decimal digits, refuses (value `Base`) exactly the characters above
      'z', and gives negative values to the characters below 22 and to those
      in the gaps ':'..'@' and '['..'`'. */
  function DigitValue(c: CodeUnit): (d: int)
    ensures d == Base <==> c > 'z' as int
    ensures IsAsciiAlphanumeric(c) ==> d == RfcDigit(c) && 0 <= d < Base
    ensures d < 0 <==> c < 22 || ':' as int <= c <= '@' as int || '[' as int <= c <= '`' as int
    ensures d <= Base
  {
    var u := c as int;
    if u - 48 < 10 then u - 22
    else if u - 65 < 26 then u - 65
    else if u - 97 < 26 then u - 97
    else Base
  }

  /** The per-digit threshold `t`: `bias` clamped into [tMin, tMax]. */
  function Threshold(k: int, bias: Bias): (t: int)
    ensures TMin <= t <= TMax
    ensures 10 <= Base - t <= 35
    ensures bias.Finite? && bias.value + TMin <= k <= bias.value + TMax ==> t == k - bias.value
  {
    match bias
    case MinusInfinity => TMax
    case Finite(b) => if k <= b then TMin else if k >= b + TMax then TMax else k - b
  }

  // ---------------------------------------------------------------------
  // Bias adaptation (RFC 3492 section 6.1)

  /** `ToInt32`, the conversion `>>` applies to its left operand. */
  function Int32(x: int): (r: int)
    ensures -0x8000_0000 <= r < 0x8000_0000
    ensures (r - x) % 0x1_0000_0000 == 0
    ensures -0x8000_0000 <= x < 0x8000_0000 ==> r == x
  {
    (x + 0x8000_0000) % 0x1_0000_0000 - 0x8000_0000
  }

  /** `x >> 1`: halving rounded down, after the 32-bit conversion. */
  function ShiftRight1(x: int): int {
    Int32(x) / 2
  }

  /** `Math.floor(a / b)` for a nonzero divisor of either sign. */
  function FloorDiv(a: int, b: int): (q: int)
    requires b != 0
    ensures b * q <= a < b * q + b || b * q + b < a <= b * q
    ensures a >= 0 && b > 0 ==> q >= 0
  {
    if b > 0 then a / b else (-a) / (-b)
  }

  /** Lines 26-27 of adapt: damp or halve, then add the share of the new length. */
  function ScaledDelta(delta: int, numPoints: int, firstTime: bool): int
    requires numPoints >= 1
  {
    var d := if firstTime then delta / Damp else ShiftRight1(delta);
    d + d / numPoints
  }

  /** The `for` loop of adapt: divide by `base - tMin` while above 455,
      adding `base` to `k` each time. Returns the final delta and k. */
  function AdaptLoop(delta: int, k: int): (int, int)
    decreases if delta > 0 then delta else 0
  {
    if delta > ((Base - TMin) * TMax) / 2 then AdaptLoop(delta / (Base - TMin), k + Base)
    else (delta, k)
  }

  /** The bias adapt returns. It is -Infinity exactly when the scaled delta
      is -38, and never negative when the scaled delta is not. */
  function AdaptBias(delta: int, numPoints: int, firstTime: bool): (r: Bias)
    requires numPoints >= 1
    ensures r == MinusInfinity <==> ScaledDelta(delta, numPoints, firstTime) == -Skew
    ensures ScaledDelta(delta, numPoints, firstTime) >= 0 ==> r.Finite? && r.value >= 0
  {
    AdaptLoopCounts(ScaledDelta(delta, numPoints, firstTime), 0);
    var (d, k) := AdaptLoop(ScaledDelta(delta, numPoints, firstTime), 0);
    if d + Skew == 0 then MinusInfinity
    else Finite(k + FloorDiv((Base - TMin + 1) * d, d + Skew))
  }

  /** How many times the loop of adapt divides a delta by 35. */
  function Divisions(delta: int): nat
    decreases if delta > 0 then delta else 0
  {
    if delta > 455 then 1 + Divisions(delta / 35) else 0
  }

  /** The delta the loop of adapt leaves: the first quotient by a power of
      35 that is at most 455. */
  function Reduced(delta: int): (d: int)
    ensures d <= 455
    ensures delta >= 0 ==> d >= 0
    decreases if delta > 0 then delta else 0
  {
    if delta > 455 then Reduced(delta / 35) else delta
  }

  /** The loop of adapt adds 36 to `k` per division and leaves `Reduced`. */
  lemma {:induction false} AdaptLoopCounts(delta: int, k: int)
    ensures AdaptLoop(delta, k) == (Reduced(delta), k + Base * Divisions(delta))
    decreases if delta > 0 then delta else 0
  {
    if delta > 455 {
      AdaptLoopCounts(delta / 35, k + Base);
    }
  }

  /** Adapt on a non-negative delta (and, for the halving branch, one that
      fits in 32 bits): the scaled delta is non-negative and the result is the
      finite bias 36 * (number of divisions) + floor(36 * d / (d + 38)) where
      d <= 455 is what the divisions leave; that bias is never negative and
      lies in [36 m, 36 m + 33] for m divisions. */
  lemma AdaptNonNegative(delta: int, numPoints: int, firstTime: bool)
    requires numPoints >= 1 && 0 <= delta
    requires !firstTime ==> delta < 0x8000_0000
    ensures var s := ScaledDelta(delta, numPoints, firstTime);
      var d := Reduced(s);
      s >= 0 && 0 <= d <= 455
      && AdaptBias(delta, numPoints, firstTime) == Finite(Base * Divisions(s) + (36 * d) / (d + Skew))
      && 0 <= AdaptBias(delta, numPoints, firstTime).value - Base * Divisions(s) <= 33
  {
    var s := ScaledDelta(delta, numPoints, firstTime);
    ScaledNonNegative(delta, numPoints, firstTime);
    AdaptLoopCounts(s, 0);
    BiasRemainder(Reduced(s));
  }

  /** The 32-bit limit of AdaptNonNegative is needed: `delta >> 1` reads a
      delta of 0xFFFFFFFE as -2 and adapt returns the negative bias -2. */
  lemma AdaptWrapsNegative()
    ensures AdaptBias(0xFFFF_FFFE, 2, false) == Finite(-2)
  {
    assert Int32(0xFFFF_FFFE) == -2;
    assert ScaledDelta(0xFFFF_FFFE, 2, false) == -2;
    assert AdaptLoop(-2, 0) == (-2, 0);
  }

  /** A delta of 2^32 - 74 is read as -74, halved to -37 and scaled to -38,
      so adapt divides by zero and the bias becomes -Infinity. */
  lemma AdaptWrapsToMinusInfinity()
    ensures AdaptBias(0x1_0000_0000 - 74, 38, false) == MinusInfinity
  {
    assert Int32(0x1_0000_0000 - 74) == -74;
    assert ScaledDelta(0x1_0000_0000 - 74, 38, false) == -38;
  }

  lemma ScaledNonNegative(delta: int, numPoints: int, firstTime: bool)
    requires numPoints >= 1 && 0 <= delta
    requires !firstTime ==> delta < 0x8000_0000
    ensures ScaledDelta(delta, numPoints, firstTime) >= 0
  {
    var d := if firstTime then delta / Damp else ShiftRight1(delta);
    assert d >= 0;
    assert d / numPoints >= 0;
  }

  lemma BiasRemainder(d: int)
    requires 0 <= d <= 455
    ensures FloorDiv((Base - TMin + 1) * d, d + Skew) == (36 * d) / (d + Skew)
    ensures 0 <= (36 * d) / (d + Skew) <= 33
  {
    var q := (36 * d) / (d + Skew);
    assert q * (d + Skew) <= 36 * d;
  }

  /** adapt, as the loop the source runs. */
  method Adapt(delta: int, numPoints: int, firstTime: bool) returns (bias: Bias)
    requires numPoints >= 1
    ensures bias == AdaptBias(delta, numPoints, firstTime)
  {
    var k := 0;
    var d := if firstTime then delta / Damp else ShiftRight1(delta);
    d := d + d / numPoints;
    while d > ((Base - TMin) * TMax) / 2
      invariant AdaptLoop(d, k) == AdaptLoop(ScaledDelta(delta, numPoints, firstTime), 0)
      decreases d
    {
      d := d / (Base - TMin);
      k := k + Base;
    }
    if d + Skew == 0 {
      bias := MinusInfinity;
    } else {
      bias := Finite(k + FloorDiv((Base - TMin + 1) * d, d + Skew));
    }
  }

  // ---------------------------------------------------------------------
  // Decoding (RFC 3492 section 6.2)

  /** `s.lastIndexOf(u)`: -1 when absent. */
  function LastIndexOf(s: JsString, u: CodeUnit): (r: int)
    ensures -1 <= r < |s|
    ensures r >= 0 ==> s[r] == u
    ensures forall j :: r < j < |s| ==> s[j] != u
  {
    if s == [] then -1
    else if s[|s| - 1] == u then |s| - 1
    else LastIndexOf(s[..|s| - 1], u)
  }

  /** `basic`: the index of the last delimiter, or 0 when there is none. */
  function BasicLength(input: JsString): (b: nat)
    ensures b <= |input|
    ensures b > 0 ==> b < |input| && input[b] == Delimiter
    ensures forall j :: b < j < |input| ==> input[j] != Delimiter
  {
    var last := LastIndexOf(input, Delimiter);
    if last < 0 then 0 else last
  }

  /** Where the digit stream starts: after the delimiter when it is past
      position 0; otherwise the whole input (a delimiter at position 0 is
      then read as a digit). */
  function DigitStart(input: JsString): (start: nat)
    ensures start <= |input|
  {
    var b := BasicLength(input);
    if b > 0 then b + 1 else 0
  }

  /** The mutable variables of decode between two integers. */
  datatype DecoderState = DecoderState(i: int, n: int, bias: Bias, output: seq<int>)

  /** The inner `for` loop: one variable-length integer. Starting at `index`
      with accumulator `i`, weight `w` and position `k`, it returns the new
      `i` and the index after the integer's last digit. */
  function ReadInteger(input: JsString, index: nat, i: int, w: int, k: int, bias: Bias)
    : (r: Result<(int, nat), DecodeError>)
    requires index <= |input|
    ensures r.Ok? ==> index < r.value.1 <= |input|
    decreases |input| - index
  {
    if index >= |input| then Err(InvalidInput)
    else
      var digitValue := DigitValue(input[index]);
      if digitValue >= Base then Err(InvalidInput)
      else
        var i' := i + digitValue * w;
        var t := Threshold(k, bias);
        if digitValue < t then Ok((i', index + 1))
        else if w > (MaxInt - i') / (Base - t) then Err(Overflow)
        else ReadInteger(input, index + 1, i', w * (Base - t), k + Base, bias)
  }

  /** JavaScript's `%` (the sign follows the dividend). */
  function JsRemainder(a: int, b: int): (r: int)
    requires b > 0
    ensures -b < r < b
    ensures a >= 0 ==> r == a % b
  {
    if a >= 0 then a % b else -((-a) % b)
  }

  /** Where `output.splice(i, 0, n)` inserts: a negative start counts from
      the end. */
  function SplicePosition(i: int, len: nat): (p: nat)
    requires -(len + 1) < i <= len
    ensures p <= len
  {
    if i < 0 then len + i else i
  }

  /** Lines 83-93: after an integer has been read into `st.i` (it was
      `oldi` before), adapt the bias, advance `n` by `floor(i / out)`, insert
      `n` into the output at `i % out`, and step `i` past it. */
  function InsertCodePoint(st: DecoderState, oldi: int): Result<DecoderState, DecodeError>
  {
    var out := |st.output| + 1;
    var bias := AdaptBias(st.i - oldi, out, oldi == 0);
    if st.i / out > MaxInt - st.n then Err(Overflow)
    else
      var n := st.n + st.i / out;
      var i := JsRemainder(st.i, out);
      var p := SplicePosition(i, |st.output|);
      Ok(DecoderState(i + 1, n, bias, st.output[..p] + [n] + st.output[p..]))
  }

  /** Each completed integer inserts exactly one code point, at a position
      in [0, length] (the position is `i mod (length + 1)` when `i` is not
      negative); `n` stays at most 0x7FFFFFFF, or 'Overflow' is thrown. When
      `i` was not negative, `n` does not decrease and the next `i` is at
      least 1, so `oldi === 0`, which selects the damped adaptation, cannot
      happen again. */
  lemma InsertOneCodePoint(st: DecoderState, oldi: int)
    ensures var r := InsertCodePoint(st, oldi);
      (r.Err? <==> st.i / (|st.output| + 1) > MaxInt - st.n)
      && (r.Err? ==> r.error == Overflow)
      && (r.Ok? ==> |r.value.output| == |st.output| + 1 && r.value.n <= MaxInt)
      && (r.Ok? ==> r.value.bias == AdaptBias(st.i - oldi, |st.output| + 1, oldi == 0))
      && (r.Ok? && st.i >= 0 ==> r.value.n >= st.n && r.value.i >= 1)
    ensures var r := InsertCodePoint(st, oldi);
      r.Ok? ==>
        exists p :: 0 <= p <= |st.output| &&
                    r.value.output == st.output[..p] + [r.value.n] + st.output[p..] &&
                    (st.i >= 0 ==> p == st.i % (|st.output| + 1))
  {
    var out := |st.output| + 1;
    var q := st.i / out;
    if q <= MaxInt - st.n {
      var i := JsRemainder(st.i, out);
      var p := SplicePosition(i, |st.output|);
      InsertCodePointValue(st, oldi);
      if st.i >= 0 {
        DivNonNegative(st.i, out);
      }
    }
  }

  lemma DivNonNegative(a: int, b: int)
    requires a >= 0 && b > 0
    ensures a / b >= 0 && a % b >= 0
  {
  }

  lemma InsertCodePointValue(st: DecoderState, oldi: int)
    requires st.i / (|st.output| + 1) <= MaxInt - st.n
    ensures var out := |st.output| + 1;
      var n := st.n + st.i / out;
      var p := SplicePosition(JsRemainder(st.i, out), |st.output|);
      InsertCodePoint(st, oldi)
        == Ok(DecoderState(JsRemainder(st.i, out) + 1, n, AdaptBias(st.i - oldi, out, oldi == 0),
                           st.output[..p] + [n] + st.output[p..]))
  {
  }

  /** The outer `for` loop, from `index` on. */
  function DecodeFrom(input: JsString, index: nat, st: DecoderState): Result<seq<int>, DecodeError>
    requires index <= |input|
    decreases |input| - index
  {
    if index >= |input| then Ok(st.output)
    else
      match ReadInteger(input, index, st.i, 1, Base, st.bias)
      case Err(e) => Err(e)
      case Ok((i, next)) =>
        match InsertCodePoint(st.(i := i), st.i)
        case Err(e) => Err(e)
        case Ok(st') => DecodeFrom(input, next, st')
  }

  /** How many integers the outer loop reads and inserts from `index` on
      before it stops, at the end of the input or at an error. */
  function Integers(input: JsString, index: nat, st: DecoderState): nat
    requires index <= |input|
    decreases |input| - index
  {
    if index >= |input| then 0
    else
      match ReadInteger(input, index, st.i, 1, Base, st.bias)
      case Err(_) => 0
      case Ok((i, next)) =>
        match InsertCodePoint(st.(i := i), st.i)
        case Err(_) => 0
        case Ok(st') => 1 + Integers(input, next, st')
  }

  /** One round of the outer loop, unfolded. */
  lemma DecodeFromStep(input: JsString, index: nat, st: DecoderState)
    requires index < |input|
    ensures DecodeFrom(input, index, st) ==
      match ReadInteger(input, index, st.i, 1, Base, st.bias)
      case Err(e) => Err(e)
      case Ok((i, next)) =>
        match InsertCodePoint(st.(i := i), st.i)
        case Err(e) => Err(e)
        case Ok(st') => DecodeFrom(input, next, st')
  {
  }

  lemma WeightPositive(w: int, b: int)
    requires w >= 1 && b >= 1
    ensures w * b >= 1
  {
  }

  /** What `decode(input)` computes, as the sequence of code points handed
      to `String.fromCodePoint`. */
  function Decoded(input: JsString): (r: Result<seq<int>, DecodeError>)
    ensures (exists j :: 0 <= j < BasicLength(input) && input[j] >= 0x80) ==> r == Err(InvalidInput)
    ensures r.Ok? ==> forall j :: 0 <= j < BasicLength(input) ==> input[j] < 0x80
  {
    var b := BasicLength(input);
    if exists j :: 0 <= j < b && input[j] >= 0x80 then Err(InvalidInput)
    else DecodeFrom(input, DigitStart(input), DecoderState(0, InitialN, Finite(InitialBias), input[..b]))
  }

  lemma ReadIntegerStep(input: JsString, index: nat, i: int, w: int, k: int, bias: Bias)
    requires index < |input|
    ensures var digitValue := DigitValue(input[index]);
      var i' := i + digitValue * w;
      var t := Threshold(k, bias);
      ReadInteger(input, index, i, w, k, bias) ==
        if digitValue >= Base then Err(InvalidInput)
        else if digitValue < t then Ok((i', index + 1))
        else if w > (MaxInt - i') / (Base - t) then Err(Overflow)
        else ReadInteger(input, index + 1, i', w * (Base - t), k + Base, bias)
  {
  }

  /** The inner `for` loop of decode, as the source runs it: reads one
      variable-length integer starting at `index` into `i`, updating the
      weight `w` and position `k` digit by digit. */
  method ReadDigits(input: JsString, index0: nat, i0: int, bias: Bias)
    returns (r: Result<(int, nat), DecodeError>)
    requires index0 <= |input|
    ensures r == ReadInteger(input, index0, i0, 1, Base, bias)
  {
    var index, i, w, k := index0, i0, 1, Base;
    while true
      invariant index0 <= index <= |input| && w >= 1
      invariant ReadInteger(input, index, i, w, k, bias) == ReadInteger(input, index0, i0, 1, Base, bias)
      decreases |input| - index
    {
      if index >= |input| {
        return Err(InvalidInput);
      }
      ReadIntegerStep(input, index, i, w, k, bias);
      var digitValue := DigitValue(input[index]);
      index := index + 1;
      if digitValue >= Base {
        return Err(InvalidInput);
      }
      i := i + digitValue * w;
      var t := Threshold(k, bias);
      if digitValue < t {
        return Ok((i, index));
      }
      var baseMinusT := Base - t;
      if w > (MaxInt - i) / baseMinusT {
        return Err(Overflow);
      }
      WeightPositive(w, baseMinusT);
      w := w * baseMinusT;
      k := k + Base;
    }
  }

  /** decode, as the source runs it: the output list grows by `push` and
      `splice`, and `i`, `n`, `bias` and `index` are updated in the outer
      loop around `ReadDigits`. */
  method Decode(input: JsString) returns (r: Result<seq<int>, DecodeError>)
    ensures r == Decoded(input)
  {
    var output: seq<int> := [];
    var i := 0;
    var n := InitialN;
    var bias := Finite(InitialBias);

    var basic := LastIndexOf(input, Delimiter);
    if basic < 0 {
      basic := 0;
    }
    var j := 0;
    while j < basic
      invariant basic == BasicLength(input) && j <= basic
      invariant output == input[..j]
      invariant forall m :: 0 <= m < j ==> input[m] < 0x80
    {
      if input[j] >= 0x80 {
        return Err(InvalidInput);
      }
      output := output + [input[j]];
      j := j + 1;
    }

    var index := if basic > 0 then basic + 1 else 0;
    r := DecodeDigits(input, index, DecoderState(i, n, bias, output));
  }

  /** The outer `for` loop of decode, from `index0` on, with the decoder
      state held in the variables `i`, `n`, `bias` and `output`: each round
      reads one integer and inserts one code point. */
  method DecodeDigits(input: JsString, index0: nat, st: DecoderState) returns (r: Result<seq<int>, DecodeError>)
    requires index0 <= |input|
    ensures r == DecodeFrom(input, index0, st)
  {
    var i, n, bias, output := st.i, st.n, st.bias, st.output;
    var index := index0;
    while index < |input|
      invariant index <= |input|
      invariant DecodeFrom(input, index, DecoderState(i, n, bias, output)) == DecodeFrom(input, index0, st)
      decreases |input| - index
    {
      var oldi := i;
      ghost var before := DecoderState(i, n, bias, output);
      DecodeFromStep(input, index, before);
      var read := ReadDigits(input, index, i, bias);
      if read.Err? {
        return Err(read.error);
      }
      i, index := read.value.0, read.value.1;
      ghost var after := before.(i := i);

      var out := |output| + 1;
      bias := Adapt(i - oldi, out, oldi == 0);
      if i / out > MaxInt - n {
        return Err(Overflow);
      }
      InsertCodePointValue(after, oldi);
      n := n + i / out;
      i := JsRemainder(i, out);
      output := output[..SplicePosition(i, |output|)] + [n] + output[SplicePosition(i, |output|)..];
      i := i + 1;
      assert InsertCodePoint(after, oldi) == Ok(DecoderState(i, n, bias, output));
    }
    return Ok(output);
  }
}

/** Properties of what decode computes. */
module BootstringProperties {
  import opened Wrappers
  import opened JsText
  import opened Bootstring

  lemma InsertMultiset(s: seq<int>, p: nat, x: int)
    requires p <= |s|
    ensures multiset(s[..p] + [x] + s[p..]) == multiset(s) + multiset{x}
  {
    assert s == s[..p] + s[p..];
  }

  /** The integers read by the inner loop end at a digit below the
      threshold, hence below tMax, and none of their digits is above 'z'. */
  lemma {:induction false} ReadIntegerDigits(input: JsString, index: nat, i: int, w: int, k: int, bias: Bias)
    requires index <= |input|
    requires ReadInteger(input, index, i, w, k, bias).Ok?
    ensures var next := ReadInteger(input, index, i, w, k, bias).value.1;
      DigitValue(input[next - 1]) < TMax
      && forall j :: index <= j < next ==> input[j] <= 'z' as int
    decreases |input| - index
  {
    ReadIntegerStep(input, index, i, w, k, bias);
    var digitValue := DigitValue(input[index]);
    var t := Threshold(k, bias);
    if digitValue >= t {
      ReadIntegerDigits(input, index + 1, i + digitValue * w, w * (Base - t), k + Base, bias);
    }
  }

  /** The overflow guard of the inner loop: when it lets the weight update
      through, `i + w` is at most 0x7FFFFFFF afterwards. */
  lemma WeightUpdateBound(i: int, w: int, t: int)
    requires TMin <= t <= TMax
    requires !(w > (MaxInt - i) / (Base - t))
    ensures i + w * (Base - t) <= MaxInt
  {
    var d := Base - t;
    var q := (MaxInt - i) / d;
    assert q * d <= MaxInt - i;
    assert w * d <= q * d;
  }

  lemma MulNonNegative(a: int, b: int)
    requires a >= 0 && b >= 0
    ensures a * b >= 0
  {
  }

  /** With no negative digit value ahead and a positive weight, reading an
      integer never makes `i` smaller. */
  lemma {:induction false} ReadIntegerGrows(input: JsString, index: nat, i: int, w: int, k: int, bias: Bias)
    requires index <= |input| && w >= 1
    requires forall j :: index <= j < |input| ==> DigitValue(input[j]) >= 0
    requires ReadInteger(input, index, i, w, k, bias).Ok?
    ensures ReadInteger(input, index, i, w, k, bias).value.0 >= i
    decreases |input| - index
  {
    ReadIntegerStep(input, index, i, w, k, bias);
    var digitValue := DigitValue(input[index]);
    var t := Threshold(k, bias);
    MulNonNegative(digitValue, w);
    if digitValue >= t {
      WeightPositive(w, Base - t);
      ReadIntegerGrows(input, index + 1, i + digitValue * w, w * (Base - t), k + Base, bias);
    }
  }

  /** One successful round of the outer loop, taken apart: the integer read,
      the state after the insertion, and the position of the insertion. */
  lemma DecodeRound(input: JsString, index: nat, st: DecoderState, out: seq<int>)
    returns (i: int, next: nat, st': DecoderState, p: nat)
    requires index < |input|
    requires DecodeFrom(input, index, st) == Ok(out)
    ensures ReadInteger(input, index, st.i, 1, Base, st.bias) == Ok((i, next))
    ensures InsertCodePoint(st.(i := i), st.i) == Ok(st')
    ensures index < next <= |input|
    ensures DecodeFrom(input, next, st') == Ok(out)
    ensures p <= |st.output| && st'.output == st.output[..p] + [st'.n] + st.output[p..]
    ensures st'.n <= MaxInt
    ensures i >= 0 ==> st'.n >= st.n && st'.i >= 1
  {
    DecodeFromStep(input, index, st);
    var r := ReadInteger(input, index, st.i, 1, Base, st.bias);
    i, next := r.value.0, r.value.1;
    var read := st.(i := i);
    InsertOneCodePoint(read, st.i);
    st' := InsertCodePoint(read, st.i).value;
    p :| 0 <= p <= |st.output| && st'.output == st.output[..p] + [st'.n] + st.output[p..];
  }

  /** From any point of the outer loop, a successful decode inserts exactly
      one code point per integer read; as every integer takes at least one
      digit, it adds at most one per remaining digit, and at least one when
      any digit remains. */
  lemma {:induction false} DecodeFromLength(input: JsString, index: nat, st: DecoderState, out: seq<int>)
    requires index <= |input|
    requires DecodeFrom(input, index, st) == Ok(out)
    ensures |out| == |st.output| + Integers(input, index, st)
    ensures Integers(input, index, st) <= |input| - index
    ensures |st.output| <= |out| <= |st.output| + (|input| - index)
    ensures |out| == |st.output| <==> index == |input|
    ensures index == |input| ==> out == st.output
    decreases |input| - index
  {
    if index < |input| {
      var i, next, st', p := DecodeRound(input, index, st, out);
      DecodeFromLength(input, next, st', out);
    }
  }

  /** A successful decode keeps every code point already in the output. */
  lemma {:induction false} DecodeFromKeeps(input: JsString, index: nat, st: DecoderState, out: seq<int>)
    requires index <= |input|
    requires DecodeFrom(input, index, st) == Ok(out)
    ensures multiset(st.output) <= multiset(out)
    decreases |input| - index
  {
    if index < |input| {
      var i, next, st', p := DecodeRound(input, index, st, out);
      InsertMultiset(st.output, p, st'.n);
      DecodeFromKeeps(input, next, st', out);
    }
  }

  /** A successful decode never reads a character above 'z', and ends on a
      digit whose value is below tMax. */
  lemma {:induction false} DecodeFromDigits(input: JsString, index: nat, st: DecoderState, out: seq<int>)
    requires index <= |input|
    requires DecodeFrom(input, index, st) == Ok(out)
    ensures forall j :: index <= j < |input| ==> input[j] <= 'z' as int
    ensures index < |input| ==> DigitValue(input[|input| - 1]) < TMax
    decreases |input| - index
  {
    if index < |input| {
      var i, next, st', p := DecodeRound(input, index, st, out);
      ReadIntegerDigits(input, index, st.i, 1, Base, st.bias);
      DecodeFromDigits(input, next, st', out);
    }
  }

  /** The code points below 0x80 of a sequence, in order. */
  function BasicPart(s: seq<int>): (r: seq<int>)
    ensures |r| <= |s|
  {
    if s == [] then []
    else if s[0] < 0x80 then [s[0]] + BasicPart(s[1..])
    else BasicPart(s[1..])
  }

  lemma {:induction false} BasicPartAppend(a: seq<int>, b: seq<int>)
    ensures BasicPart(a + b) == BasicPart(a) + BasicPart(b)
  {
    if a == [] {
      assert a + b == b;
    } else {
      assert (a + b)[1..] == a[1..] + b;
      BasicPartAppend(a[1..], b);
    }
  }

  lemma {:induction false} BasicPartAll(s: seq<int>)
    requires forall j :: 0 <= j < |s| ==> s[j] < 0x80
    ensures BasicPart(s) == s
  {
    if s != [] {
      BasicPartAll(s[1..]);
    }
  }

  lemma BasicPartNonBasic(x: int)
    requires x >= 0x80
    ensures BasicPart([x]) == []
  {
    assert [x][1..] == [];
  }

  lemma BasicPartSplit(s: seq<int>, p: nat)
    requires p <= |s|
    ensures BasicPart(s) == BasicPart(s[..p]) + BasicPart(s[p..])
  {
    assert s == s[..p] + s[p..];
    BasicPartAppend(s[..p], s[p..]);
  }

  /** Inserting a non-basic code point leaves the basic ones as they were. */
  lemma InsertKeepsBasic(s: seq<int>, p: nat, x: int)
    requires p <= |s| && x >= 0x80
    ensures BasicPart(s[..p] + [x] + s[p..]) == BasicPart(s)
  {
    BasicPartNonBasic(x);
    BasicPartAppend(s[..p], [x]);
    BasicPartAppend(s[..p] + [x], s[p..]);
    BasicPartSplit(s, p);
  }

  predicate NonNegativeDigits(input: JsString, from: nat) {
    forall j :: from <= j < |input| ==> DigitValue(input[j]) >= 0
  }

  /** Code points that are either basic or in [initialN, 0x7FFFFFFF]. */
  predicate BasicOrExtended(s: seq<int>) {
    forall j :: 0 <= j < |s| ==> s[j] < 0x80 || InitialN <= s[j] <= MaxInt
  }

  /** When no digit ahead has a negative value (for instance when they are
      all ASCII letters and decimal digits), `i` stays non-negative, `n`
      never drops below initialN, and so every inserted code point is at
      least 0x80: the basic code points keep their order and nothing else
      below 0x80 appears. */
  lemma {:induction false} DecodeFromNonNegative(input: JsString, index: nat, st: DecoderState, out: seq<int>)
    requires index <= |input|
    requires DecodeFrom(input, index, st) == Ok(out)
    requires NonNegativeDigits(input, index)
    requires st.i >= 0 && InitialN <= st.n && BasicOrExtended(st.output)
    ensures BasicPart(out) == BasicPart(st.output)
    ensures BasicOrExtended(out)
    decreases |input| - index
  {
    if index < |input| {
      var i, next, st', p := DecodeRound(input, index, st, out);
      ReadIntegerGrows(input, index, st.i, 1, Base, st.bias);
      InsertKeepsBasic(st.output, p, st'.n);
      assert BasicOrExtended(st'.output) by {
        forall j | 0 <= j < |st'.output| ensures st'.output[j] < 0x80 || InitialN <= st'.output[j] <= MaxInt {
          if j < p {
            assert st'.output[j] == st.output[j];
          } else if j > p {
            assert st'.output[j] == st.output[j - 1];
          }
        }
      }
      DecodeFromNonNegative(input, next, st', out);
    }
  }

  /** What a successful decode returns, given `b`, the position of the last
      '-' (or 0): the b code units before it, all below 0x80, are kept (a
      code unit >= 0x80 among them throws 'Invalid input'); one code point
      is added per integer of the digit stream, so at most one per
      character of the stream, and at least one
      when the stream is not empty; with an empty stream the result is
      exactly those b code units. No character of the stream is above 'z',
      and the last one has a digit value below tMax, so a stream ending
      mid-integer (for instance in a decimal digit) is rejected. */
  lemma DecodedShape(input: JsString)
    ensures var b := BasicLength(input);
      var r := Decoded(input);
      ((exists j :: 0 <= j < b && input[j] >= 0x80) ==> r == Err(InvalidInput))
      && (r.Ok? ==>
            (forall j :: 0 <= j < b ==> input[j] < 0x80)
            && |r.value| == b + Integers(input, DigitStart(input), DecoderState(0, InitialN, Finite(InitialBias), input[..b]))
            && b <= |r.value| <= b + (|input| - DigitStart(input))
            && multiset(input[..b]) <= multiset(r.value)
            && (|r.value| == b <==> DigitStart(input) == |input|)
            && (DigitStart(input) == |input| ==> r.value == input[..b])
            && (forall j :: DigitStart(input) <= j < |input| ==> input[j] <= 'z' as int)
            && (DigitStart(input) < |input| ==> DigitValue(input[|input| - 1]) < TMax))
  {
    var b := BasicLength(input);
    if Decoded(input).Ok? {
      var start := DecoderState(0, InitialN, Finite(InitialBias), input[..b]);
      DecodeFromLength(input, DigitStart(input), start, Decoded(input).value);
      DecodeFromKeeps(input, DigitStart(input), start, Decoded(input).value);
      DecodeFromDigits(input, DigitStart(input), start, Decoded(input).value);
    }
  }

  /** When the digit stream has no negative digit value, a successful decode
      returns the basic code units in their original order, interleaved
      with inserted code points that all lie in [0x80, 0x7FFFFFFF]. */
  lemma DecodedNonNegative(input: JsString)
    requires NonNegativeDigits(input, DigitStart(input))
    requires Decoded(input).Ok?
    ensures BasicPart(Decoded(input).value) == input[..BasicLength(input)]
    ensures BasicOrExtended(Decoded(input).value)
  {
    var b := BasicLength(input);
    var prefix := input[..b];
    BasicPartAll(prefix);
    DecodeFromNonNegative(input, DigitStart(input), DecoderState(0, InitialN, Finite(InitialBias), prefix), Decoded(input).value);
  }

  // ---------------------------------------------------------------------
  // A worked example: the label `xn--ls8h` of the converter page's placeholder

  /** The digits l, s, 8, h (11, 18, 34, 7) read as one integer with
      thresholds 1, 1, 26, 26: 11 + 18*35 + 34*1225 + 7*12250. */
  lemma PlaceholderInteger()
    ensures ReadInteger(Units("ls8h"), 0, 0, 1, Base, Finite(InitialBias)) == Ok((128041, 4))
  {
    var input := Units("ls8h");
    assert input == ['l' as int, 's' as int, '8' as int, 'h' as int];
    assert DigitValue(input[3]) == 7 && DigitValue(input[2]) == 34;
    assert DigitValue(input[1]) == 18 && DigitValue(input[0]) == 11;
    assert ReadInteger(input, 3, 42291, 12250, 144, Finite(72)) == Ok((128041, 4));
    assert ReadInteger(input, 2, 641, 1225, 108, Finite(72)) == Ok((128041, 4));
    assert ReadInteger(input, 1, 11, 35, 72, Finite(72)) == Ok((128041, 4));
  }

  /** Inserting that integer into the empty output gives 128 + 128041,
      and the damped bias becomes 32. */
  lemma PlaceholderInsert()
    ensures InsertCodePoint(DecoderState(128041, InitialN, Finite(InitialBias), []), 0)
            == Ok(DecoderState(1, 0x1F4A9, Finite(32), [0x1F4A9]))
  {
    assert ScaledDelta(128041, 1, true) == 364;
    assert AdaptLoop(364, 0) == (364, 0);
    assert FloorDiv(36 * 364, 364 + 38) == 32;
    assert AdaptBias(128041, 1, true) == Finite(32);
    assert JsRemainder(128041, 1) == 0;
    assert SplicePosition(0, 0) == 0;
    var empty: seq<int> := [];
    assert empty[..0] + [0x1F4A9] + empty[0..] == [0x1F4A9];
    assert 128041 / 1 == 128041 && 128 + 128041 == 0x1F4A9;
  }

  /** `ls8h` decodes to U+1F4A9 PILE OF POO. */
  lemma PlaceholderDecoded()
    ensures Decoded(Units("ls8h")) == Ok([0x1F4A9])
  {
    var input := Units("ls8h");
    assert input == ['l' as int, 's' as int, '8' as int, 'h' as int];
    PlaceholderInteger();
    PlaceholderInsert();
    assert BasicLength(input) == 0 && DigitStart(input) == 0;
    var st' := DecoderState(1, 0x1F4A9, Finite(32), [0x1F4A9]);
    assert DecodeFrom(input, 4, st') == Ok([0x1F4A9]);
  }
}
