/**
 * String operations of the JavaScript runtime that the renderer relies on:
 * `String.prototype.replace` with a global pattern and with a string pattern,
 * `String.prototype.toUpperCase` on ASCII, and `String(n)` for a natural number.
 * Patterns are literal strings here (see README, "Left out").
 */
module Text {

  /** `p` occurs in `s` starting at index `i`. */
  ghost predicate OccursAt(s: string, p: string, i: int)
  {
    0 <= i && i + |p| <= |s| && s[i..i + |p|] == p
  }

  /** `p` occurs somewhere in `s`. */
  ghost predicate Contains(s: string, p: string)
  {
    exists i :: OccursAt(s, p, i)
  }

  /** No character of `a` is a character of `b`. */
  ghost predicate SharesNoChar(a: string, b: string)
  {
    forall c :: c in a ==> c !in b
  }

  /**
   * `s.replace(new RegExp(p, 'g'), r)` for a literal `p`: scan left to right and
   * replace every non-overlapping occurrence of `p` by `r`, in a single pass.
   */
  function ReplaceAll(s: string, p: string, r: string): string
    requires |p| > 0
    decreases |s|
  {
    if |s| < |p| then s
    else if s[..|p|] == p then r + ReplaceAll(s[|p|..], p, r)
    else [s[0]] + ReplaceAll(s[1..], p, r)
  }

  /** `s.replace(p, r)` with a string `p`: only the leftmost occurrence is replaced. */
  function ReplaceFirst(s: string, p: string, r: string): string
    requires |p| > 0
    decreases |s|
  {
    if |s| < |p| then s
    else if s[..|p|] == p then r + s[|p|..]
    else [s[0]] + ReplaceFirst(s[1..], p, r)
  }

  lemma NoOccurrenceInTail(s: string, p: string, k: nat)
    requires k <= |s| && !Contains(s, p)
    ensures !Contains(s[k..], p)
  {
    forall i ensures !OccursAt(s[k..], p, i) {
      if 0 <= i && i + |p| <= |s| - k {
        assert !OccursAt(s, p, k + i);
        assert s[k..][i..i + |p|] == s[k + i..k + i + |p|];
      }
    }
  }

  /** A string without an occurrence of `p` comes back from ReplaceAll unchanged. */
  lemma {:induction false} ReplaceAllIdentity(s: string, p: string, r: string)
    requires |p| > 0 && !Contains(s, p)
    ensures ReplaceAll(s, p, r) == s
    decreases |s|
  {
    if |s| >= |p| {
      assert !OccursAt(s, p, 0);
      NoOccurrenceInTail(s, p, 1);
      ReplaceAllIdentity(s[1..], p, r);
      assert s == [s[0]] + s[1..];
    }
  }

  /**
   * When no character of `r` belongs to `q`, a prefix of the result is either
   * copied verbatim from `s` or holds a character that is not in `q`.
   */
  lemma {:induction false} CopiedPrefix(s: string, p: string, r: string, q: string, m: nat)
    requires |p| > 0 && |r| > 0 && SharesNoChar(r, q)
    requires m <= |ReplaceAll(s, p, r)|
    ensures (m <= |s| && s[..m] == ReplaceAll(s, p, r)[..m])
         || (exists k :: 0 <= k < m && ReplaceAll(s, p, r)[k] !in q)
    decreases |s|
  {
    var t := ReplaceAll(s, p, r);
    if m > 0 && |s| >= |p| {
      if s[..|p|] == p {
        assert t[0] == r[0] && r[0] in r;
      } else {
        var t' := ReplaceAll(s[1..], p, r);
        assert t == [s[0]] + t';
        CopiedPrefix(s[1..], p, r, q, m - 1);
        if exists k :: 0 <= k < m - 1 && t'[k] !in q {
          var k :| 0 <= k < m - 1 && t'[k] !in q;
          assert t[k + 1] == t'[k];
        } else {
          assert s[..m] == [s[0]] + s[1..][..m - 1];
          assert t[..m] == [s[0]] + t'[..m - 1];
        }
      }
    }
  }

  lemma PrependFree(r: string, t: string, q: string)
    requires |q| > 0 && SharesNoChar(r, q) && !Contains(t, q)
    ensures !Contains(r + t, q)
  {
    var u := r + t;
    forall i ensures !OccursAt(u, q, i) {
      if 0 <= i < |r| && i + |q| <= |u| {
        assert u[i] == r[i] && r[i] in r;
        assert u[i..i + |q|][0] == u[i];
        assert q[0] in q;
      } else if |r| <= i && i + |q| <= |u| {
        assert u[i..i + |q|] == t[i - |r|..i - |r| + |q|];
        assert !OccursAt(t, q, i - |r|);
      }
    }
  }

  lemma PrependCharFree(c: char, t: string, q: string)
    requires !Contains(t, q) && !OccursAt([c] + t, q, 0)
    ensures !Contains([c] + t, q)
  {
    var u := [c] + t;
    forall i | 0 < i && i + |q| <= |u| ensures !OccursAt(u, q, i) {
      assert u[i..i + |q|] == t[i - 1..i - 1 + |q|];
      assert !OccursAt(t, q, i - 1);
    }
  }

  /** A result that starts with a copied character does not start with `q` unless `s` did. */
  lemma HeadNotOccurrence(s: string, p: string, r: string, q: string)
    requires |p| > 0 && |q| > 0 && |r| > 0 && SharesNoChar(r, q)
    requires !OccursAt(s, q, 0)
    ensures !OccursAt(ReplaceAll(s, p, r), q, 0)
  {
    var t := ReplaceAll(s, p, r);
    if |q| <= |t| {
      CopiedPrefix(s, p, r, q, |q|);
      if exists k :: 0 <= k < |q| && t[k] !in q {
        var k :| 0 <= k < |q| && t[k] !in q;
        assert t[..|q|][k] == t[k];
        assert q[k] in q;
      }
    }
  }

  /**
   * With a non-empty replacement sharing no character with `q`, ReplaceAll
   * creates no occurrence of `q`: none is left when `q` is the pattern itself,
   * and none appears when `s` had none.
   */
  lemma {:induction false} NoOccurrenceAfterReplaceAll(s: string, p: string, r: string, q: string)
    requires |p| > 0 && |q| > 0 && |r| > 0 && SharesNoChar(r, q)
    requires q == p || !Contains(s, q)
    ensures !Contains(ReplaceAll(s, p, r), q)
    decreases |s|
  {
    if |s| < |p| {
    } else if s[..|p|] == p {
      if q != p { NoOccurrenceInTail(s, q, |p|); }
      NoOccurrenceAfterReplaceAll(s[|p|..], p, r, q);
      PrependFree(r, ReplaceAll(s[|p|..], p, r), q);
    } else {
      if q != p { NoOccurrenceInTail(s, q, 1); }
      NoOccurrenceAfterReplaceAll(s[1..], p, r, q);
      assert !OccursAt(s, q, 0);
      HeadNotOccurrence(s, p, r, q);
      PrependCharFree(s[0], ReplaceAll(s[1..], p, r), q);
    }
  }

  /** A string without an occurrence of `p` comes back from ReplaceFirst unchanged. */
  lemma {:induction false} ReplaceFirstIdentity(s: string, p: string, r: string)
    requires |p| > 0 && !Contains(s, p)
    ensures ReplaceFirst(s, p, r) == s
    decreases |s|
  {
    if |s| >= |p| {
      assert !OccursAt(s, p, 0);
      NoOccurrenceInTail(s, p, 1);
      ReplaceFirstIdentity(s[1..], p, r);
      assert s == [s[0]] + s[1..];
    }
  }

  /**
   * When the leftmost occurrence of `p` in `s` is at `i`, ReplaceFirst puts `r`
   * in its place and keeps everything before and after it.
   */
  lemma {:induction false} ReplaceFirstAt(s: string, p: string, r: string, i: nat)
    requires |p| > 0 && OccursAt(s, p, i)
    requires forall j :: 0 <= j < i ==> !OccursAt(s, p, j)
    ensures ReplaceFirst(s, p, r) == s[..i] + r + s[i + |p|..]
    decreases i
  {
    if i > 0 {
      assert !OccursAt(s, p, 0);
      var s' := s[1..];
      assert s'[i - 1..i - 1 + |p|] == s[i..i + |p|];
      forall j | 0 <= j < i - 1 ensures !OccursAt(s', p, j) {
        assert !OccursAt(s, p, j + 1);
        if j + |p| <= |s'| {
          assert s'[j..j + |p|] == s[j + 1..j + 1 + |p|];
        }
      }
      ReplaceFirstAt(s', p, r, i - 1);
      assert ReplaceFirst(s, p, r) == [s[0]] + ReplaceFirst(s', p, r);
      assert s[..i] == [s[0]] + s'[..i - 1];
      assert s[i + |p|..] == s'[i - 1 + |p|..];
    }
  }

  /**
   * The special case used by the error messages: when the first character of
   * `p` does not occur in `a`, the first occurrence in `a + p + b` is right after `a`.
   */
  lemma ReplaceFirstAfter(a: string, p: string, b: string, r: string)
    requires |p| > 0 && p[0] !in a
    ensures ReplaceFirst(a + p + b, p, r) == a + r + b
  {
    var s := a + p + b;
    assert s[|a|..|a| + |p|] == p;
    forall j | 0 <= j < |a| ensures !OccursAt(s, p, j) {
      assert s[j] == a[j];
      if j + |p| <= |s| {
        assert s[j..j + |p|][0] == s[j];
      }
    }
    ReplaceFirstAt(s, p, r, |a|);
    assert s[..|a|] == a;
    assert s[|a| + |p|..] == b;
  }

  /** A string none of whose characters starts `p` does not contain `p`. */
  lemma NotContainsFirstChar(s: string, p: string)
    requires |p| > 0 && p[0] !in s
    ensures !Contains(s, p)
  {
    forall i | 0 <= i && i + |p| <= |s| ensures !OccursAt(s, p, i) {
      assert s[i..i + |p|][0] == s[i];
    }
  }

  /** `c.toUpperCase()` on one character; only ASCII letters are modelled. */
  function UpperChar(c: char): char
  {
    if 'a' <= c <= 'z' then (c as int - 32) as char else c
  }

  /** `s.toUpperCase()`, character by character. */
  function Upper(s: string): string
  {
    if s == [] then [] else [UpperChar(s[0])] + Upper(s[1..])
  }

  predicate IsUpperLetter(c: char)
  {
    'A' <= c <= 'Z'
  }

  /** A string of upper-case letters is its own upper-case form. */
  lemma {:induction false} UpperOfUpperLetters(s: string)
    requires forall i :: 0 <= i < |s| ==> IsUpperLetter(s[i])
    ensures Upper(s) == s
  {
    if s != [] {
      UpperOfUpperLetters(s[1..]);
      assert s == [s[0]] + s[1..];
    }
  }

  predicate IsDigit(c: char)
  {
    '0' <= c <= '9'
  }

  function DigitChar(d: nat): char
    requires d < 10
  {
    ('0' as int + d) as char
  }

  function DigitValue(c: char): nat
    requires IsDigit(c)
  {
    c as int - '0' as int
  }

  /** `String(n)` for a natural number: its decimal digits, most significant first. */
  function DecimalString(n: nat): string
  {
    if n < 10 then [DigitChar(n)] else DecimalString(n / 10) + [DigitChar(n % 10)]
  }

  /** The number that a string of decimal digits denotes. */
  function DigitsValue(s: string): nat
    requires forall i :: 0 <= i < |s| ==> IsDigit(s[i])
  {
    if s == [] then 0 else DigitsValue(s[..|s| - 1]) * 10 + DigitValue(s[|s| - 1])
  }

  /** `String(n)` is a non-empty digit string without a leading zero that reads back as `n`. */
  lemma {:induction false} DecimalStringRoundTrip(n: nat)
    ensures |DecimalString(n)| > 0
    ensures forall i :: 0 <= i < |DecimalString(n)| ==> IsDigit(DecimalString(n)[i])
    ensures DecimalString(n)[0] == '0' ==> n == 0
    ensures DigitsValue(DecimalString(n)) == n
  {
    if n >= 10 {
      DecimalStringRoundTrip(n / 10);
      var s := DecimalString(n);
      assert s[..|s| - 1] == DecimalString(n / 10);
    }
  }
}
