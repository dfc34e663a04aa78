/** Converters between clocks of different rates that keep their remainder, so that rounding
    never accumulates. */
module Rates {
  import Arith

  const TWO32 := 0x1_0000_0000
  const TWO64 := 0x1_0000_0000_0000_0000

  datatype Conversion = Conversion(cycles: nat, remainder: nat)

  /** Cycles of a clock at `freqOut` in the time of `cycles` of a clock at `freqIn`. */
  function Convert(remainder: nat, cycles: nat, freqIn: nat, freqOut: nat): Conversion
    requires freqIn > 0
  {
    var total := (cycles * freqOut + remainder) % TWO64;
    Conversion(total / freqIn, total % freqIn)
  }

  class CycleCounter {
    var cycles: nat
    var remainder: nat

    method ConvertCycles(cyclesIn: nat, freqIn: nat, freqOut: nat)
      requires freqIn > 0
      modifies this
      ensures Conversion(cycles, remainder) == Convert(old(remainder), cyclesIn, freqIn, freqOut)
    {
      var total := cyclesIn * freqOut % TWO64;
      total := (total + remainder) % TWO64;
      WrapTwice(cyclesIn * freqOut, remainder);
      cycles := total / freqIn;
      remainder := total % freqIn;
    }
  }

  lemma WrapTwice(a: nat, b: nat)
    ensures (a % TWO64 + b) % TWO64 == (a + b) % TWO64
  {
    assert a + b == a % TWO64 + b + a / TWO64 * TWO64;
  }

  function Sum(s: seq<nat>): nat { if s == [] then 0 else s[0] + Sum(s[1..]) }

  /** The cycles given out by a list of calls with the same two clocks. */
  function Given(remainder: nat, inputs: seq<nat>, freqIn: nat, freqOut: nat): nat
    requires freqIn > 0
    decreases |inputs|
  {
    if inputs == [] then 0
    else
      var c := Convert(remainder, inputs[0], freqIn, freqOut);
      c.cycles + Given(c.remainder, inputs[1..], freqIn, freqOut)
  }

  function Kept(remainder: nat, inputs: seq<nat>, freqIn: nat, freqOut: nat): nat
    requires freqIn > 0
    decreases |inputs|
  {
    if inputs == [] then remainder
    else Kept(Convert(remainder, inputs[0], freqIn, freqOut).remainder, inputs[1..], freqIn, freqOut)
  }

  /** No call overflows 64 bits, with room for the largest remainder. */
  predicate Fits(remainder: nat, inputs: seq<nat>, freqIn: nat, freqOut: nat) {
    && remainder < freqIn < TWO64
    && forall i :: 0 <= i < |inputs| ==> inputs[i] * freqOut + freqIn <= TWO64
  }

  lemma ConvertAccounts(remainder: nat, cycles: nat, freqIn: nat, freqOut: nat)
    requires freqIn > 0 && cycles * freqOut + remainder < TWO64
    ensures var c := Convert(remainder, cycles, freqIn, freqOut);
      c.cycles * freqIn + c.remainder == cycles * freqOut + remainder && c.remainder < freqIn
  {
    var total := cycles * freqOut + remainder;
    assert total % TWO64 == total && total == total / freqIn * freqIn + total % freqIn;
  }

  lemma {:induction false} Accounts(remainder: nat, inputs: seq<nat>, freqIn: nat, freqOut: nat)
    requires Fits(remainder, inputs, freqIn, freqOut)
    ensures Given(remainder, inputs, freqIn, freqOut) * freqIn + Kept(remainder, inputs, freqIn, freqOut)
         == Sum(inputs) * freqOut + remainder
    ensures Kept(remainder, inputs, freqIn, freqOut) < freqIn
    decreases |inputs|
  {
    hide Convert;
    if inputs != [] {
      var c := Convert(remainder, inputs[0], freqIn, freqOut);
      ConvertAccounts(remainder, inputs[0], freqIn, freqOut);
      Accounts(c.remainder, inputs[1..], freqIn, freqOut);
      Arith.Distribute(c.cycles, Given(c.remainder, inputs[1..], freqIn, freqOut), freqIn);
      Arith.Distribute(inputs[0], Sum(inputs[1..]), freqOut);
    }
  }

  /** However a stretch of time is cut into calls, the cycles given out are those of one exact
      division, and what is kept is its remainder. */
  lemma ConversionsAddUp(remainder: nat, inputs: seq<nat>, freqIn: nat, freqOut: nat)
    requires Fits(remainder, inputs, freqIn, freqOut)
    ensures Given(remainder, inputs, freqIn, freqOut) == (Sum(inputs) * freqOut + remainder) / freqIn
    ensures Kept(remainder, inputs, freqIn, freqOut) == (Sum(inputs) * freqOut + remainder) % freqIn
  {
    Accounts(remainder, inputs, freqIn, freqOut);
    Arith.Division(Sum(inputs) * freqOut + remainder, freqIn,
      Given(remainder, inputs, freqIn, freqOut), Kept(remainder, inputs, freqIn, freqOut));
  }

  // ----- the sample-rate counter of the DMA sound -----

  /** Steps of the 32.32 counter over n output samples, from fraction `frac`. */
  function Steps(frac: nat, ratio: nat, n: nat): nat
    decreases n
  {
    if n == 0 then 0 else (frac + ratio) / TWO32 + Steps((frac + ratio) % TWO32, ratio, n - 1)
  }

  function Fraction(frac: nat, ratio: nat, n: nat): nat
    decreases n
  {
    if n == 0 then frac else Fraction((frac + ratio) % TWO32, ratio, n - 1)
  }

  lemma {:induction false} StepsAddUp(frac: nat, ratio: nat, n: nat)
    requires frac < TWO32
    ensures Steps(frac, ratio, n) * TWO32 + Fraction(frac, ratio, n) == frac + n * ratio
    ensures Fraction(frac, ratio, n) < TWO32
    decreases n
  {
    if n > 0 {
      StepsAddUp((frac + ratio) % TWO32, ratio, n - 1);
      assert n * ratio == (n - 1) * ratio + ratio;
      assert frac + ratio == (frac + ratio) / TWO32 * TWO32 + (frac + ratio) % TWO32;
    }
  }

  lemma StepsNone(frac: nat, ratio: nat)
    ensures Steps(frac, ratio, 0) == 0 && Fraction(frac, ratio, 0) == frac
  {
  }

  lemma {:induction false} StepsSnoc(frac: nat, ratio: nat, n: nat)
    requires frac < TWO32
    ensures Fraction(frac, ratio, n) < TWO32
    ensures Steps(frac, ratio, n + 1) == Steps(frac, ratio, n) + (Fraction(frac, ratio, n) + ratio) / TWO32
    ensures Fraction(frac, ratio, n + 1) == (Fraction(frac, ratio, n) + ratio) % TWO32
    decreases n
  {
    if n > 0 {
      StepsSnoc((frac + ratio) % TWO32, ratio, n - 1);
    } else {
      assert Steps((frac + ratio) % TWO32, ratio, 0) == 0;
    }
  }

  lemma {:induction false} StepsMonotone(frac: nat, ratio: nat, m: nat, n: nat)
    requires frac < TWO32 && m <= n
    ensures Steps(frac, ratio, m) <= Steps(frac, ratio, n)
    decreases n
  {
    if m < n {
      StepsMonotone(frac, ratio, m, n - 1);
      StepsSnoc(frac, ratio, n - 1);
    }
  }

  /** The fixed-point ratio of a sample rate to the output frequency. */
  function Ratio(rate: nat, freq: nat): nat
    requires freq > 0
  {
    rate * TWO32 / freq
  }

  /** After n output samples from a fresh start the input has advanced floor(n * ratio / 2^32)
      samples, which is never ahead of n * rate / freq and behind it by less than 1 + n / 2^32. */
  lemma ResamplerKeepsPace(rate: nat, freq: nat, n: nat)
    requires freq > 0
    ensures var steps := Steps(0, Ratio(rate, freq), n);
      && steps == n * Ratio(rate, freq) / TWO32
      && steps * freq <= n * rate
      && n * (rate * TWO32) < (steps + 1) * TWO32 * freq + n * freq
  {
    hide Ratio, Steps, Fraction;
    var ratio := Ratio(rate, freq);
    StepsAddUp(0, ratio, n);
    Arith.Division(n * ratio, TWO32, Steps(0, ratio, n), Fraction(0, ratio, n));
    RatioBounds(rate, freq);
    NeverAhead(rate, freq, n, ratio, Steps(0, ratio, n), Fraction(0, ratio, n));
    NotFarBehind(rate, freq, n, ratio, Steps(0, ratio, n), Fraction(0, ratio, n));
  }

  lemma RatioBounds(rate: nat, freq: nat)
    requires freq > 0
    ensures Ratio(rate, freq) * freq <= rate * TWO32 < Ratio(rate, freq) * freq + freq
  {
    var t := rate * TWO32;
    assert t == t / freq * freq + t % freq;
  }

  lemma Product(n: nat, ratio: nat, freq: nat, steps: nat, frac: nat)
    requires n * ratio == steps * TWO32 + frac
    ensures n * (ratio * freq) == steps * TWO32 * freq + frac * freq
  {
    assert n * (ratio * freq) == (n * ratio) * freq;
  }

  lemma NeverAhead(rate: nat, freq: nat, n: nat, ratio: nat, steps: nat, frac: nat)
    requires n * ratio == steps * TWO32 + frac && ratio * freq <= rate * TWO32
    ensures steps * freq <= n * rate
  {
    Product(n, ratio, freq, steps, frac);
    Arith.MulMonotone(ratio * freq, rate * TWO32, n);
    assert frac * freq >= 0;
    assert (steps * freq) * TWO32 == steps * TWO32 * freq;
    assert (n * rate) * TWO32 == n * (rate * TWO32);
  }

  lemma NotFarBehind(rate: nat, freq: nat, n: nat, ratio: nat, steps: nat, frac: nat)
    requires freq > 0 && frac < TWO32
    requires n * ratio == steps * TWO32 + frac && rate * TWO32 < ratio * freq + freq
    ensures n * (rate * TWO32) < (steps + 1) * TWO32 * freq + n * freq
  {
    Product(n, ratio, freq, steps, frac);
    Arith.MulMonotone(rate * TWO32, ratio * freq + freq, n);
    assert n * (ratio * freq + freq) == n * (ratio * freq) + n * freq;
    Fraction32(frac, freq);
    assert (steps + 1) * TWO32 * freq == steps * TWO32 * freq + TWO32 * freq;
  }

  lemma Fraction32(frac: nat, freq: nat)
    requires frac < TWO32 && freq > 0
    ensures frac * freq < TWO32 * freq
  {
  }
}
