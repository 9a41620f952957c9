/**
 * `Number.prototype.pad(length, str = ' ')`: the number's decimal form,
 * prefixed with copies of `str` until it is at least `length || 2` long.
 */
module Pad {
  import opened Wrappers
  import opened Text

  /** `length || 2`: a missing length or a zero length both mean 2. */
  function PadTarget(length: Option<int>): int
  {
    if length.None? || length.value == 0 then 2 else length.value
  }

  /** The filler, `' '` when the argument is left out. */
  function Filler(str: Option<string>): string
  {
    if str.None? then " " else str.value
  }

  /** `k` copies of `fill` in a row. */
  function Repeat(fill: string, k: nat): string
  {
    if k == 0 then [] else Repeat(fill, k - 1) + fill
  }

  lemma {:induction false} RepeatLength(fill: string, k: nat)
    ensures |Repeat(fill, k)| == k * |fill|
  {
    if k > 0 {
      RepeatLength(fill, k - 1);
    }
  }

  /**
   * What the loop computes: prepend `fill` while the text is shorter than
   * `target`. With an empty filler and a short text the source loops forever,
   * so that case is excluded.
   */
  function Padded(base: string, target: int, fill: string): string
    requires fill != [] || |base| >= target
    decreases target - |base|
  {
    if |base| >= target then base else Padded(fill + base, target, fill)
  }

  /** The result is some number of fillers followed by the unchanged text. */
  lemma {:induction false} PaddedShape(base: string, target: int, fill: string) returns (k: nat)
    requires fill != [] || |base| >= target
    ensures Padded(base, target, fill) == Repeat(fill, k) + base
    ensures |base| >= target ==> k == 0
    decreases target - |base|
  {
    if |base| >= target {
      k := 0;
    } else {
      var k' := PaddedShape(fill + base, target, fill);
      k := k' + 1;
      assert Repeat(fill, k) == Repeat(fill, k') + fill;
      assert Repeat(fill, k') + (fill + base) == Repeat(fill, k) + base;
    }
  }

  /**
   * The result reaches the target; if anything was prepended, one filler fewer
   * would have been too short; with a one-character filler the length is
   * exactly the target.
   */
  lemma {:induction false} PaddedLength(base: string, target: int, fill: string)
    requires fill != [] || |base| >= target
    ensures |Padded(base, target, fill)| >= target
    ensures |base| >= target ==> Padded(base, target, fill) == base
    ensures |base| < target ==> |Padded(base, target, fill)| - |fill| < target
    ensures |fill| == 1 && |base| <= target ==> |Padded(base, target, fill)| == target
    decreases target - |base|
  {
    if |base| < target {
      PaddedLength(fill + base, target, fill);
    }
  }

  /** `(n).pad(length, str)` */
  method PadNumber(n: nat, length: Option<int>, str: Option<string>) returns (s: string)
    requires Filler(str) != [] || |DecimalString(n)| >= PadTarget(length)
    ensures s == Padded(DecimalString(n), PadTarget(length), Filler(str))
  {
    var target := PadTarget(length);
    var fill := Filler(str);
    s := DecimalString(n);
    while |s| < target
      invariant fill != [] || |s| >= target
      invariant Padded(s, target, fill) == Padded(DecimalString(n), target, fill)
      decreases target - |s|
    {
      s := fill + s;
    }
  }

  /**
   * Everything about one call: the result is fillers then the digits of `n`,
   * at least the target long, and no filler more than needed; with a
   * one-character filler such as the default space, exactly the target long.
   */
  lemma PadResult(n: nat, length: Option<int>, str: Option<string>)
    requires Filler(str) != [] || |DecimalString(n)| >= PadTarget(length)
    ensures var s := Padded(DecimalString(n), PadTarget(length), Filler(str));
      |s| >= PadTarget(length) && |s| >= |DecimalString(n)| &&
      s[|s| - |DecimalString(n)|..] == DecimalString(n) &&
      (|DecimalString(n)| >= PadTarget(length) ==> s == DecimalString(n)) &&
      (|DecimalString(n)| < PadTarget(length) ==> |s| - |Filler(str)| < PadTarget(length)) &&
      (|Filler(str)| == 1 && |DecimalString(n)| <= PadTarget(length) ==> |s| == PadTarget(length))
  {
    var base, target, fill := DecimalString(n), PadTarget(length), Filler(str);
    var k := PaddedShape(base, target, fill);
    PaddedLength(base, target, fill);
    var s := Padded(base, target, fill);
    assert s[|s| - |base|..] == base;
  }

  /** The default call `(n).pad()` on a one-digit number gives a space and the digit. */
  lemma DefaultPadOfDigit(n: nat)
    requires n < 10
    ensures Padded(DecimalString(n), PadTarget(None), Filler(None)) == [' ', DigitChar(n)]
  {
    assert DecimalString(n) == [DigitChar(n)];
    assert Padded([' ', DigitChar(n)], 2, " ") == [' ', DigitChar(n)];
  }
}
