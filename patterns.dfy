/**
 * The regular expressions of the error table. Every pattern there is anchored
 * (`^...$`) and made of literal text and `\d+` runs, so a pattern is a sequence
 * of segments. Also the parsing of a table key with `/^([A-Z]+) +(.*)$/` into
 * its method token and its pattern source.
 */
module Patterns {
  import opened Wrappers
  import opened Text

  /** One piece of an anchored pattern: literal text, or `\d+`. */
  datatype Segment = Lit(text: string) | Digits

  type Pattern = seq<Segment>

  /** `new RegExp('^' + ... + '$').test(s)` for a pattern of segments. */
  function Matches(p: Pattern, s: string): bool
    decreases |s|, |p|
  {
    if p == [] then s == []
    else match p[0]
      case Lit(l) => |l| <= |s| && s[..|l|] == l && Matches(p[1..], s[|l|..])
      case Digits =>
        |s| > 0 && IsDigit(s[0]) && (Matches(p[1..], s[1..]) || Matches([Digits] + p[1..], s[1..]))
  }

  /** The text a single segment accepts on its own. */
  predicate Accepts(g: Segment, piece: string)
  {
    match g
    case Lit(l) => piece == l
    case Digits => |piece| > 0 && forall i :: 0 <= i < |piece| ==> IsDigit(piece[i])
  }

  function Concat(pieces: seq<string>): string
  {
    if pieces == [] then [] else pieces[0] + Concat(pieces[1..])
  }

  lemma ConcatTwo(a: string, b: string)
    ensures Concat([a, b]) == a + b
  {
    assert [a, b][1..] == [b];
    assert Concat([b]) == b + Concat([]);
  }

  lemma ConcatThree(a: string, b: string, c: string)
    ensures Concat([a, b, c]) == a + b + c
  {
    assert [a, b, c][1..] == [b, c];
    ConcatTwo(b, c);
  }

  /** `s` cut into one piece per segment, each accepted by its segment. */
  ghost predicate Decomposition(p: Pattern, pieces: seq<string>, s: string)
  {
    |pieces| == |p| && Concat(pieces) == s &&
    forall i :: 0 <= i < |p| ==> Accepts(p[i], pieces[i])
  }

  lemma {:induction false} DecompositionOfMatch(p: Pattern, s: string) returns (pieces: seq<string>)
    requires Matches(p, s)
    ensures Decomposition(p, pieces, s)
    decreases |s|, |p|
  {
    if p == [] {
      pieces := [];
    } else {
      match p[0]
      case Lit(l) => {
        var rest := DecompositionOfMatch(p[1..], s[|l|..]);
        pieces := [l] + rest;
        assert pieces[1..] == rest;
        assert s == l + s[|l|..];
      }
      case Digits => {
        if Matches(p[1..], s[1..]) {
          var rest := DecompositionOfMatch(p[1..], s[1..]);
          pieces := [[s[0]]] + rest;
          assert pieces[1..] == rest;
          assert s == [s[0]] + s[1..];
        } else {
          var rest := DecompositionOfMatch([Digits] + p[1..], s[1..]);
          var first := [s[0]] + rest[0];
          pieces := [first] + rest[1..];
          assert pieces[1..] == rest[1..];
          assert Concat(rest) == rest[0] + Concat(rest[1..]);
          assert s == [s[0]] + s[1..];
          forall i | 0 <= i < |first| ensures IsDigit(first[i]) {
            if i > 0 { assert first[i] == rest[0][i - 1]; }
          }
          forall i | 1 <= i < |p| ensures Accepts(p[i], pieces[i]) {
            assert ([Digits] + p[1..])[i] == p[i];
          }
        }
      }
    }
  }

  lemma {:induction false} MatchOfDecomposition(p: Pattern, pieces: seq<string>, s: string)
    requires Decomposition(p, pieces, s)
    ensures Matches(p, s)
    decreases |s|, |p|
  {
    if p != [] {
      assert Concat(pieces) == pieces[0] + Concat(pieces[1..]);
      var tail := Concat(pieces[1..]);
      forall i | 0 <= i < |p| - 1 ensures Accepts(p[1..][i], pieces[1..][i]) {
        assert p[1..][i] == p[i + 1] && pieces[1..][i] == pieces[i + 1];
      }
      match p[0]
      case Lit(l) => {
        assert s[..|l|] == l && s[|l|..] == tail;
        MatchOfDecomposition(p[1..], pieces[1..], tail);
      }
      case Digits => {
        var d := pieces[0];
        assert s[0] == d[0];
        if |d| == 1 {
          assert s[1..] == tail;
          MatchOfDecomposition(p[1..], pieces[1..], tail);
        } else {
          var pieces' := [d[1..]] + pieces[1..];
          assert pieces'[1..] == pieces[1..];
          assert s[1..] == d[1..] + tail;
          forall i | 0 <= i < |d| - 1 ensures IsDigit(d[1..][i]) {
            assert d[1..][i] == d[i + 1];
          }
          forall i | 1 <= i < |p| ensures Accepts(([Digits] + p[1..])[i], pieces'[i]) {
            assert ([Digits] + p[1..])[i] == p[i];
          }
          MatchOfDecomposition([Digits] + p[1..], pieces', s[1..]);
        }
      }
    }
  }

  /** The matcher accepts exactly the strings that split into one accepted piece per segment. */
  lemma MatchesIffDecomposition(p: Pattern, s: string)
    ensures Matches(p, s) <==> exists pieces :: Decomposition(p, pieces, s)
  {
    if Matches(p, s) {
      var pieces := DecompositionOfMatch(p, s);
    }
    forall pieces | Decomposition(p, pieces, s) ensures Matches(p, s) {
      MatchOfDecomposition(p, pieces, s);
    }
  }

  /** A literal followed by a digit run matches the literal then digits. */
  lemma LitDigitsMatches(a: string, id: string)
    requires Accepts(Digits, id)
    ensures Matches([Lit(a), Digits], a + id)
  {
    ConcatTwo(a, id);
    MatchOfDecomposition([Lit(a), Digits], [a, id], a + id);
  }

  /** A literal, a digit run and a literal match the three in a row. */
  lemma LitDigitsLitMatches(a: string, id: string, b: string)
    requires Accepts(Digits, id)
    ensures Matches([Lit(a), Digits, Lit(b)], a + id + b)
  {
    ConcatThree(a, id, b);
    MatchOfDecomposition([Lit(a), Digits, Lit(b)], [a, id, b], a + id + b);
  }

  /** Anchored at the end: a pattern ending in a literal only matches strings ending in it. */
  lemma {:induction false} MatchEndsWithLit(p: Pattern, s: string, l: string)
    requires p != [] && p[|p| - 1] == Lit(l)
    ensures Matches(p, s) ==> |l| <= |s| && s[|s| - |l|..] == l
    decreases |s|, |p|
  {
    if Matches(p, s) {
      match p[0]
      case Lit(l') => {
        if |p| == 1 {
          assert p[1..] == [];
          assert Matches(p[1..], s[|l'|..]);
          assert s[|l'|..] == [];
          assert s == s[..|l'|];
        } else {
          assert p[1..][|p[1..]| - 1] == Lit(l);
          MatchEndsWithLit(p[1..], s[|l'|..], l);
          assert s[|l'|..][|s[|l'|..]| - |l|..] == s[|s| - |l|..];
        }
      }
      case Digits => {
        assert p[1..][|p[1..]| - 1] == Lit(l);
        assert ([Digits] + p[1..])[|p| - 1] == Lit(l);
        MatchEndsWithLit(p[1..], s[1..], l);
        MatchEndsWithLit([Digits] + p[1..], s[1..], l);
        assert s[1..][|s[1..]| - |l|..] == s[|s| - |l|..];
      }
    }
  }

  /** Anchored at the end: a pattern ending in `\d+` only matches strings ending in a digit. */
  lemma {:induction false} MatchEndsWithDigit(p: Pattern, s: string)
    requires p != [] && p[|p| - 1] == Digits
    ensures Matches(p, s) ==> |s| > 0 && IsDigit(s[|s| - 1])
    decreases |s|, |p|
  {
    if Matches(p, s) {
      match p[0]
      case Lit(l') => {
        assert p[1..][|p[1..]| - 1] == Digits;
        MatchEndsWithDigit(p[1..], s[|l'|..]);
        assert s[|l'|..][|s[|l'|..]| - 1] == s[|s| - 1];
      }
      case Digits => {
        var t := s[1..];
        if |p| > 1 {
          assert p[1..][|p[1..]| - 1] == Digits;
          MatchEndsWithDigit(p[1..], t);
        }
        MatchEndsWithDigit([Digits] + p[1..], t);
        if |t| > 0 {
          assert Matches(p[1..], t) || Matches([Digits] + p[1..], t);
          assert IsDigit(t[|t| - 1]);
          assert t[|t| - 1] == s[|s| - 1];
        }
      }
    }
  }

  /** A pattern starting with a literal only matches strings starting with that literal's first character. */
  lemma FirstCharMismatch(p: Pattern, s: string)
    requires p != [] && p[0].Lit? && |p[0].text| > 0
    requires s == [] || s[0] != p[0].text[0]
    ensures !Matches(p, s)
  {
    if |p[0].text| <= |s| {
      assert s[..|p[0].text|][0] == s[0];
    }
  }

  // ---- pattern source text and its compilation -------------------------------

  /** Characters a literal part of a table pattern may hold: none is special in a regular expression. */
  predicate PlainChar(c: char)
  {
    'a' <= c <= 'z' || 'A' <= c <= 'Z' || '0' <= c <= '9' || c == '/' || c == '-' || c == '_'
  }

  /** Length of the longest prefix of `s` whose characters all satisfy `f`. */
  function RunLength(s: string, f: char -> bool): (n: nat)
    ensures n <= |s|
    ensures forall i :: 0 <= i < n ==> f(s[i])
    ensures n < |s| ==> !f(s[n])
  {
    if s == [] || !f(s[0]) then 0 else 1 + RunLength(s[1..], f)
  }

  lemma {:induction false} RunLengthOfConcat(a: string, b: string, f: char -> bool)
    requires forall i :: 0 <= i < |a| ==> f(a[i])
    requires b == [] || !f(b[0])
    ensures RunLength(a + b, f) == |a|
  {
    if a != [] {
      assert (a + b)[1..] == a[1..] + b;
      RunLengthOfConcat(a[1..], b, f);
    }
  }

  /** The regular-expression text of a pattern's body. */
  function Body(p: Pattern): string
  {
    if p == [] then []
    else (match p[0] case Lit(l) => l case Digits => "\\d+") + Body(p[1..])
  }

  /** The regular-expression text of an anchored pattern, as the table writes it. */
  function Source(p: Pattern): string
  {
    "^" + Body(p) + "$"
  }

  /** Compile a body made of plain literal runs and `\d+`; anything else is outside the model. */
  function CompileBody(b: string): Option<Pattern>
    decreases |b|
  {
    if b == [] then Some([])
    else if |b| >= 3 && b[..3] == "\\d+" then
      match CompileBody(b[3..])
      case Some(rest) => Some([Digits] + rest)
      case None => None
    else if PlainChar(b[0]) then
      var n := RunLength(b, PlainChar);
      match CompileBody(b[n..])
      case Some(rest) => Some([Lit(b[..n])] + rest)
      case None => None
    else None
  }

  /** `new RegExp(src)` for an anchored source `^body$`. */
  function Compile(src: string): Option<Pattern>
  {
    if |src| >= 2 && src[0] == '^' && src[|src| - 1] == '$' then CompileBody(src[1..|src| - 1])
    else None
  }

  /** Segment `i` is in the form the compiler produces: a literal is non-empty and plain, and a `\\d+` follows it. */
  predicate NormalAt(p: Pattern, i: nat)
    requires i < |p|
  {
    match p[i]
    case Lit(l) =>
      |l| > 0 && (forall k :: 0 <= k < |l| ==> PlainChar(l[k])) && (i + 1 < |p| ==> p[i + 1] == Digits)
    case Digits => true
  }

  /** A pattern in the form the compiler produces. */
  predicate Normal(p: Pattern)
  {
    forall i :: 0 <= i < |p| ==> NormalAt(p, i)
  }

  lemma NormalTail(p: Pattern)
    requires p != [] && Normal(p)
    ensures Normal(p[1..])
  {
    forall i | 0 <= i < |p| - 1 ensures NormalAt(p[1..], i) {
      assert NormalAt(p, i + 1);
      assert p[1..][i] == p[i + 1];
      if i + 1 < |p| - 1 { assert p[1..][i + 1] == p[i + 2]; }
    }
  }

  lemma {:induction false} CompileBodyRoundTrip(p: Pattern)
    requires Normal(p)
    ensures CompileBody(Body(p)) == Some(p)
  {
    if p != [] {
      NormalTail(p);
      CompileBodyRoundTrip(p[1..]);
      match p[0]
      case Digits => {
        var b, tail := Body(p), Body(p[1..]);
        assert b == "\\d+" + tail;
        assert b[..3] == "\\d+" && b[3..] == tail;
        assert [Digits] + p[1..] == p;
      }
      case Lit(l) => {
        assert NormalAt(p, 0);
        assert [Lit(l)] + p[1..] == p;
        CompileBodyLit(l, p[1..]);
      }
    }
  }

  /** The step of CompileBodyRoundTrip for a pattern that starts with a literal. */
  lemma CompileBodyLit(l: string, rest: Pattern)
    requires |l| > 0 && forall k :: 0 <= k < |l| ==> PlainChar(l[k])
    requires rest == [] || rest[0] == Digits
    requires CompileBody(Body(rest)) == Some(rest)
    ensures CompileBody(Body([Lit(l)] + rest)) == Some([Lit(l)] + rest)
  {
    var p := [Lit(l)] + rest;
    assert p[1..] == rest;
    var b, tail := Body(p), Body(rest);
    assert b == l + tail;
    assert b[0] == l[0];
    assert !(|b| >= 3 && b[..3] == "\\d+") by {
      assert PlainChar(b[0]);
    }
    if rest != [] {
      assert tail == "\\d+" + Body(rest[1..]);
      assert !PlainChar(tail[0]);
    }
    RunLengthOfConcat(l, tail, PlainChar);
    assert b[..|l|] == l && b[|l|..] == tail;
  }

  /** Compiling the printed form of a normal pattern gives the pattern back. */
  lemma CompileRoundTrip(p: Pattern)
    requires Normal(p)
    ensures Compile(Source(p)) == Some(p)
  {
    var src := Source(p);
    assert src[1..|src| - 1] == Body(p);
    CompileBodyRoundTrip(p);
  }

  // ---- table keys ------------------------------------------------------------

  /** A line terminator: `.` in a regular expression does not match one. */
  predicate LineTerminator(c: char)
  {
    c == '\n' || c == '\r' || c == '\U{2028}' || c == '\U{2029}'
  }

  predicate NoLineTerminator(s: string)
  {
    forall i :: 0 <= i < |s| ==> !LineTerminator(s[i])
  }

  predicate IsSpace(c: char)
  {
    c == ' '
  }

  /**
   * `/^([A-Z]+) +(.*)$/.exec(key)`: the two capture groups, or `None` for `null`.
   * Both repetitions are greedy and nothing can follow them but the rest, so
   * the first group is the whole leading run of capitals and the second group
   * starts after the whole run of spaces.
   */
  function ParseKey(key: string): Option<(string, string)>
  {
    var m := RunLength(key, IsUpperLetter);
    var sp := RunLength(key[m..], IsSpace);
    var rest := key[m + sp..];
    if m == 0 || sp == 0 || !NoLineTerminator(rest) then None
    else Some((key[..m], rest))
  }

  /** A key written as a method token, some spaces and a pattern source parses back into the two. */
  lemma ParseKeyRoundTrip(verb: string, spaces: string, src: string)
    requires |verb| > 0 && forall i :: 0 <= i < |verb| ==> IsUpperLetter(verb[i])
    requires |spaces| > 0 && forall i :: 0 <= i < |spaces| ==> IsSpace(spaces[i])
    requires NoLineTerminator(src) && (src == [] || src[0] != ' ')
    ensures ParseKey(verb + spaces + src) == Some((verb, src))
  {
    var key := verb + spaces + src;
    assert key == verb + (spaces + src);
    RunLengthOfConcat(verb, spaces + src, IsUpperLetter);
    assert key[|verb|..] == spaces + src;
    RunLengthOfConcat(spaces, src, IsSpace);
    assert key[|verb| + |spaces|..] == src;
    assert key[..|verb|] == verb;
  }

  /** The upper-cased method token and the compiled pattern of a key. */
  function ParseRule(key: string): Option<(string, Pattern)>
  {
    match ParseKey(key)
    case None => None
    case Some(parts) =>
      match Compile(parts.1)
      case None => None
      case Some(pattern) => Some((Upper(parts.0), pattern))
  }

  /** A key built from an upper-case verb, spaces and a normal pattern's source yields both. */
  lemma ParseRuleRoundTrip(verb: string, spaces: string, p: Pattern)
    requires |verb| > 0 && forall i :: 0 <= i < |verb| ==> IsUpperLetter(verb[i])
    requires |spaces| > 0 && forall i :: 0 <= i < |spaces| ==> IsSpace(spaces[i])
    requires Normal(p)
    ensures ParseRule(verb + spaces + Source(p)) == Some((verb, p))
  {
    var src := Source(p);
    assert NoLineTerminator(src) by {
      forall i | 0 <= i < |src| ensures !LineTerminator(src[i]) {
        NormalBodyPlain(p, i - 1);
      }
    }
    ParseKeyRoundTrip(verb, spaces, src);
    CompileRoundTrip(p);
    UpperOfUpperLetters(verb);
  }

  /** No character of a normal pattern's body is a line terminator. */
  lemma {:induction false} NormalBodyPlain(p: Pattern, i: int)
    requires Normal(p)
    ensures 0 <= i < |Body(p)| ==> !LineTerminator(Body(p)[i])
  {
    if p != [] && 0 <= i < |Body(p)| {
      var head := match p[0] case Lit(l) => l case Digits => "\\d+";
      assert Body(p) == head + Body(p[1..]);
      if i < |head| {
        assert Body(p)[i] == head[i];
        assert NormalAt(p, 0);
        if p[0].Lit? { assert PlainChar(head[i]); }
      } else {
        NormalTail(p);
        NormalBodyPlain(p[1..], i - |head|);
        assert Body(p)[i] == Body(p[1..])[i - |head|];
      }
    }
  }
}
