/**
 * The renderer's `$trans(str, vars)`: look `str` up in the catalog of the
 * active language, falling back to `str` itself, then substitute every
 * `:name` placeholder by the value of `name` in `vars`, one variable at a time.
 */
module Translator {
  import opened Text

  /** One language's catalog: message key to template. */
  type Catalog = map<string, string>

  /** The loaded catalogs by language code, and the store's active language. */
  datatype Translations = Translations(catalogs: map<string, Catalog>, language: string)

  /** The source indexes the active language's catalog without a guard; it must exist. */
  predicate HasActiveCatalog(tr: Translations)
  {
    tr.language in tr.catalogs
  }

  /** The variables of a call, in `Object.keys` order: (name, value) pairs. */
  type Vars = seq<(string, string)>

  /** The placeholder a variable name stands for in a template. */
  function Placeholder(name: string): (p: string)
    ensures |p| > 0 && p[0] == ':'
  {
    ":" + name
  }

  /** The template a key resolves to: its catalog entry, or the key itself. */
  function Template(tr: Translations, str: string): string
    requires HasActiveCatalog(tr)
  {
    var catalog := tr.catalogs[tr.language];
    if str in catalog then catalog[str] else str
  }

  /** Replace each variable's placeholder everywhere, first variable first. */
  function Substitute(t: string, vars: Vars): string
    decreases |vars|
  {
    if vars == [] then t
    else Substitute(ReplaceAll(t, Placeholder(vars[0].0), vars[0].1), vars[1..])
  }

  /** What `$trans(str, vars)` returns. */
  function Translate(tr: Translations, str: string, vars: Vars): string
    requires HasActiveCatalog(tr)
  {
    Substitute(Template(tr, str), vars)
  }

  /** `$trans(str, vars)`: the lookup, then one global replacement per variable. */
  method Trans(tr: Translations, str: string, vars: Vars) returns (translation: string)
    requires HasActiveCatalog(tr)
    ensures translation == Translate(tr, str, vars)
    ensures vars == [] ==> translation == Template(tr, str)
    ensures str in tr.catalogs[tr.language] && vars == [] ==> translation == tr.catalogs[tr.language][str]
    ensures str !in tr.catalogs[tr.language] && vars == [] ==> translation == str
  {
    var catalog := tr.catalogs[tr.language];
    if str in catalog {
      translation := catalog[str];
    } else {
      translation := str;
    }
    var i := 0;
    while i < |vars|
      invariant 0 <= i <= |vars|
      invariant Substitute(translation, vars[i..]) == Translate(tr, str, vars)
      invariant i == 0 ==> translation == Template(tr, str)
    {
      assert vars[i..][1..] == vars[i + 1..];
      translation := ReplaceAll(translation, Placeholder(vars[i].0), vars[i].1);
      i := i + 1;
    }
  }

  /** A template holding none of the variables' placeholders comes back unchanged. */
  lemma {:induction false} SubstituteUnchanged(t: string, vars: Vars)
    requires forall i :: 0 <= i < |vars| ==> !Contains(t, Placeholder(vars[i].0))
    ensures Substitute(t, vars) == t
  {
    if vars != [] {
      ReplaceAllIdentity(t, Placeholder(vars[0].0), vars[0].1);
      SubstituteUnchanged(t, vars[1..]);
    }
  }

  /**
   * Values that are non-empty and share no character with the placeholder `q`
   * never bring `q` back once it is gone.
   */
  lemma {:induction false} SubstituteKeepsAbsent(t: string, vars: Vars, q: string)
    requires |q| > 0 && !Contains(t, q)
    requires forall i :: 0 <= i < |vars| ==> |vars[i].1| > 0 && SharesNoChar(vars[i].1, q)
    ensures !Contains(Substitute(t, vars), q)
    decreases |vars|
  {
    if vars != [] {
      NoOccurrenceAfterReplaceAll(t, Placeholder(vars[0].0), vars[0].1, q);
      SubstituteKeepsAbsent(ReplaceAll(t, Placeholder(vars[0].0), vars[0].1), vars[1..], q);
    }
  }

  /** Safe values: non-empty, and sharing no character with any variable's placeholder. */
  ghost predicate SafeValues(vars: Vars)
  {
    forall i, j :: 0 <= i < |vars| && 0 <= j < |vars| ==>
      |vars[i].1| > 0 && SharesNoChar(vars[i].1, Placeholder(vars[j].0))
  }

  lemma {:induction false} SubstituteResolvesOne(t: string, vars: Vars, k: nat)
    requires k < |vars| && SafeValues(vars)
    ensures !Contains(Substitute(t, vars), Placeholder(vars[k].0))
    decreases k
  {
    var t' := ReplaceAll(t, Placeholder(vars[0].0), vars[0].1);
    if k == 0 {
      var q := Placeholder(vars[0].0);
      NoOccurrenceAfterReplaceAll(t, q, vars[0].1, q);
      forall i | 0 <= i < |vars[1..]| ensures |vars[1..][i].1| > 0 && SharesNoChar(vars[1..][i].1, q) {
        assert vars[1..][i] == vars[i + 1];
      }
      SubstituteKeepsAbsent(t', vars[1..], q);
    } else {
      assert vars[1..][k - 1] == vars[k];
      SubstituteResolvesOne(t', vars[1..], k - 1);
    }
  }

  /**
   * With safe values, no placeholder of any variable is left in the result.
   * The condition cannot be weakened to "no value contains a placeholder":
   * see PlaceholderSurvives.
   */
  lemma SubstituteResolvesAll(t: string, vars: Vars)
    requires SafeValues(vars)
    ensures forall k :: 0 <= k < |vars| ==> !Contains(Substitute(t, vars), Placeholder(vars[k].0))
  {
    forall k | 0 <= k < |vars| ensures !Contains(Substitute(t, vars), Placeholder(vars[k].0)) {
      SubstituteResolvesOne(t, vars, k);
    }
  }

  /**
   * The substitution is a single left-to-right pass, so a placeholder can be
   * assembled from text around a replaced one: with `ab` set to `b`, the
   * template `:a:ab` becomes `:ab`, whose `:ab` is never resolved.
   */
  lemma PlaceholderSurvives()
    ensures Substitute(":a:ab", [("ab", "b")]) == ":ab"
    ensures Contains(Substitute(":a:ab", [("ab", "b")]), Placeholder("ab"))
  {
    var p := Placeholder("ab");
    assert ":a:ab"[..3][2] != p[2];
    assert ":a:ab"[1..] == "a:ab";
    assert "a:ab"[..3][0] != p[0];
    assert "a:ab"[1..] == ":ab";
    assert ":ab"[..3] == p;
    assert ReplaceAll(":ab", p, "b") == "b";
    assert ReplaceAll(":a:ab", p, "b") == ":ab";
    assert OccursAt(":ab", p, 0);
  }
}
