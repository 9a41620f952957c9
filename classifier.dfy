/**
 * `getErrorMessage(requestUrl, requestMethod)`: the table of failed-request
 * messages, tried in order; the first rule whose method token equals the
 * request's method and whose anchored pattern matches the request's path gives
 * the message, with its first `:url` replaced by the path.
 */
module Classifier {
  import opened Wrappers
  import opened Text
  import opened Patterns
  import opened Translator

  /**
   * The table as the source writes it: a key holding a method token, spaces
   * and a pattern, and the message key handed to the translator.
   */
  const ErrorMessages: seq<(string, string)> := [
    ("DELETE ^timesheets/\\d+$", "Failed to delete the timesheet!"),
    ("PATCH  ^timesheets/\\d+/stop$", "Failed to stop the active timesheet!"),
    ("PATCH  ^timesheets/\\d+$", "Failed to modify the active timesheet!"),
    ("GET    ^timesheets/active$", "Failed to fetch the active timesheet!"),
    ("GET    ^timesheets$", "Failed to load the timesheets!"),
    ("POST   ^timesheets$", "Failed to start recording!"),
    ("GET    ^projects$", "Failed to load the projects!"),
    ("GET    ^activities$", "Failed to load the activities!"),
    ("GET    ^customers/\\d+$", "Failed to load the details of the customer!"),
    ("GET    ^customers$", "Failed to load customers!")
  ]

  /** The message key used when no rule matches. */
  const Fallback: string := "An error occured during the request! (:url)"

  /** The placeholder a message's request path goes into. */
  const UrlPlaceholder: string := ":url"

  /** A table key once parsed: the method token and the compiled pattern. */
  datatype Rule = Rule(verb: string, pattern: Pattern)

  /** What each key of ErrorMessages parses into, in the same order (see TableParses). */
  const Rules: seq<Rule> := [
    Rule("DELETE", [Lit("timesheets/"), Digits]),
    Rule("PATCH", [Lit("timesheets/"), Digits, Lit("/stop")]),
    Rule("PATCH", [Lit("timesheets/"), Digits]),
    Rule("GET", [Lit("timesheets/active")]),
    Rule("GET", [Lit("timesheets")]),
    Rule("POST", [Lit("timesheets")]),
    Rule("GET", [Lit("projects")]),
    Rule("GET", [Lit("activities")]),
    Rule("GET", [Lit("customers/"), Digits]),
    Rule("GET", [Lit("customers")])
  ]

  /** `method === requestMethod && regexp.test(requestUrl)` */
  predicate RuleApplies(rule: Rule, url: string, verb: string)
  {
    rule.verb == verb && Matches(rule.pattern, url)
  }

  /** Parsing `key` gives the method token and the pattern of `rule`. */
  predicate KeyReadsAs(key: string, rule: Rule)
  {
    ParseRule(key) == Some((rule.verb, rule.pattern))
  }

  /** The index of the first rule that applies, or None when none does (see FirstMatchSound). */
  function FirstMatch(rules: seq<Rule>, url: string, verb: string): (r: Option<nat>)
    ensures r.Some? ==> r.value < |rules|
  {
    if rules == [] then None
    else if RuleApplies(rules[0], url, verb) then Some(0)
    else match FirstMatch(rules[1..], url, verb)
      case None => None
      case Some(i) => Some(i + 1)
  }

  /** FirstMatch gives a rule that applies with none before it, or None when none applies at all. */
  lemma {:induction false} FirstMatchSound(rules: seq<Rule>, url: string, verb: string)
    ensures FirstMatch(rules, url, verb).Some? ==>
      var i := FirstMatch(rules, url, verb).value;
      RuleApplies(rules[i], url, verb) && forall j :: 0 <= j < i ==> !RuleApplies(rules[j], url, verb)
    ensures FirstMatch(rules, url, verb).None? ==>
      forall j :: 0 <= j < |rules| ==> !RuleApplies(rules[j], url, verb)
  {
    if rules != [] && !RuleApplies(rules[0], url, verb) {
      FirstMatchSound(rules[1..], url, verb);
      forall j | 1 <= j < |rules| ensures rules[1..][j - 1] == rules[j] { }
    }
  }

  /** The rule at `i` applies and none before it does: FirstMatch picks it. */
  lemma {:induction false} FirstApplicable(rules: seq<Rule>, url: string, verb: string, i: nat)
    requires i < |rules| && RuleApplies(rules[i], url, verb)
    requires forall j :: 0 <= j < i ==> !RuleApplies(rules[j], url, verb)
    ensures FirstMatch(rules, url, verb) == Some(i)
  {
    if i > 0 {
      assert !RuleApplies(rules[0], url, verb);
      assert rules[1..][i - 1] == rules[i];
      forall j | 0 <= j < i - 1 ensures !RuleApplies(rules[1..][j], url, verb) {
        assert rules[1..][j] == rules[j + 1];
      }
      FirstApplicable(rules[1..], url, verb, i - 1);
    }
  }

  /** No rule applies: FirstMatch finds none. */
  lemma {:induction false} NoneApplicable(rules: seq<Rule>, url: string, verb: string)
    requires forall j :: 0 <= j < |rules| ==> !RuleApplies(rules[j], url, verb)
    ensures FirstMatch(rules, url, verb) == None
  {
    if rules != [] {
      assert !RuleApplies(rules[0], url, verb);
      forall j | 0 <= j < |rules| - 1 ensures !RuleApplies(rules[1..][j], url, verb) {
        assert rules[1..][j] == rules[j + 1];
      }
      NoneApplicable(rules[1..], url, verb);
    }
  }

  /** Trying one more rule that does not apply still finds none. */
  lemma NoneExtend(rules: seq<Rule>, url: string, verb: string, i: nat)
    requires i < |rules| && FirstMatch(rules[..i], url, verb) == None
    requires !RuleApplies(rules[i], url, verb)
    ensures FirstMatch(rules[..i + 1], url, verb) == None
  {
    var before, upto := rules[..i], rules[..i + 1];
    FirstMatchSound(before, url, verb);
    forall j | 0 <= j < i + 1 ensures !RuleApplies(upto[j], url, verb) {
      if j < i {
        assert upto[j] == before[j];
      }
    }
    NoneApplicable(upto, url, verb);
  }

  /** The first rule to apply after a prefix where none does is what FirstMatch picks. */
  lemma FirstHit(rules: seq<Rule>, url: string, verb: string, i: nat)
    requires i < |rules| && FirstMatch(rules[..i], url, verb) == None
    requires RuleApplies(rules[i], url, verb)
    ensures FirstMatch(rules, url, verb) == Some(i)
  {
    FirstMatchSound(rules[..i], url, verb);
    forall j | 0 <= j < i ensures !RuleApplies(rules[j], url, verb) {
      assert rules[j] == rules[..i][j];
    }
    FirstApplicable(rules, url, verb, i);
  }

  /**
   * The message for a failed request under a table of message keys and the
   * rules its keys parse into: the first applicable rule's translated
   * message, or the translated fallback, with the path in place of `:url`.
   */
  function MessageFor(tr: Translations, table: seq<(string, string)>, rules: seq<Rule>, url: string, verb: string): string
    requires HasActiveCatalog(tr) && |rules| == |table|
  {
    match FirstMatch(rules, url, verb)
    case Some(i) => ReplaceFirst(Translate(tr, table[i].1, []), UrlPlaceholder, url)
    case None => ReplaceFirst(Translate(tr, Fallback, []), UrlPlaceholder, url)
  }

  /** What `getErrorMessage(url, verb)` returns. */
  function ErrorMessage(tr: Translations, url: string, verb: string): string
    requires HasActiveCatalog(tr)
  {
    MessageFor(tr, ErrorMessages, Rules, url, verb)
  }

  /** A key spelled as an upper-case method, spaces and a normal pattern's source parses into both. */
  lemma KeyParsesAs(key: string, verb: string, spaces: string, p: Pattern)
    requires key == verb + spaces + Source(p)
    requires |verb| > 0 && forall i :: 0 <= i < |verb| ==> IsUpperLetter(verb[i])
    requires |spaces| > 0 && forall i :: 0 <= i < |spaces| ==> IsSpace(spaces[i])
    requires Normal(p)
    ensures ParseRule(key) == Some((verb, p))
  {
    ParseRuleRoundTrip(verb, spaces, p);
  }

  /** The table key of a one-literal pattern. */
  lemma LitKeyParses(key: string, verb: string, spaces: string, a: string)
    requires key == verb + spaces + "^" + a + "$"
    requires |verb| > 0 && forall i :: 0 <= i < |verb| ==> IsUpperLetter(verb[i])
    requires |spaces| > 0 && forall i :: 0 <= i < |spaces| ==> IsSpace(spaces[i])
    requires |a| > 0 && forall i :: 0 <= i < |a| ==> PlainChar(a[i])
    ensures ParseRule(key) == Some((verb, [Lit(a)]))
  {
    var p := [Lit(a)];
    assert Body(p) == a + Body([]);
    assert NormalAt(p, 0);
    KeyParsesAs(key, verb, spaces, p);
  }

  /** The table key of a literal followed by a digit run. */
  lemma LitDigitsKeyParses(key: string, verb: string, spaces: string, a: string)
    requires key == verb + spaces + "^" + a + "\\d+" + "$"
    requires |verb| > 0 && forall i :: 0 <= i < |verb| ==> IsUpperLetter(verb[i])
    requires |spaces| > 0 && forall i :: 0 <= i < |spaces| ==> IsSpace(spaces[i])
    requires |a| > 0 && forall i :: 0 <= i < |a| ==> PlainChar(a[i])
    ensures ParseRule(key) == Some((verb, [Lit(a), Digits]))
  {
    var p := [Lit(a), Digits];
    assert p[1..] == [Digits];
    assert Body([Digits]) == "\\d+" + Body([]);
    assert Body(p) == a + "\\d+";
    assert NormalAt(p, 0) && NormalAt(p, 1);
    KeyParsesAs(key, verb, spaces, p);
  }

  /** The table key of a literal, a digit run and a literal. */
  lemma LitDigitsLitKeyParses(key: string, verb: string, spaces: string, a: string, b: string)
    requires key == verb + spaces + "^" + a + "\\d+" + b + "$"
    requires |verb| > 0 && forall i :: 0 <= i < |verb| ==> IsUpperLetter(verb[i])
    requires |spaces| > 0 && forall i :: 0 <= i < |spaces| ==> IsSpace(spaces[i])
    requires |a| > 0 && forall i :: 0 <= i < |a| ==> PlainChar(a[i])
    requires |b| > 0 && forall i :: 0 <= i < |b| ==> PlainChar(b[i])
    ensures ParseRule(key) == Some((verb, [Lit(a), Digits, Lit(b)]))
  {
    var p := [Lit(a), Digits, Lit(b)];
    assert p[1..] == [Digits, Lit(b)] && p[1..][1..] == [Lit(b)];
    assert Body([Lit(b)]) == b + Body([]);
    assert Body([Digits, Lit(b)]) == "\\d+" + b;
    assert Body(p) == a + "\\d+" + b;
    assert NormalAt(p, 0) && NormalAt(p, 1) && NormalAt(p, 2);
    KeyParsesAs(key, verb, spaces, p);
  }

  // One pair of lemmas per row of the table: the key spelled out as method,
  // spaces and pattern, and what it parses into.

  lemma DeleteTimesheetSpelling()
    ensures ErrorMessages[0].0 == "DELETE" + " " + "^" + "timesheets/" + "\\d+" + "$"
  {
  }

  lemma DeleteTimesheetKey()
    ensures KeyReadsAs(ErrorMessages[0].0, Rules[0])
  {
    DeleteTimesheetSpelling();
    LitDigitsKeyParses(ErrorMessages[0].0, "DELETE", " ", "timesheets/");
  }

  lemma StopTimesheetSpelling()
    ensures ErrorMessages[1].0 == "PATCH" + "  " + "^" + "timesheets/" + "\\d+" + "/stop" + "$"
  {
  }

  lemma StopTimesheetKey()
    ensures KeyReadsAs(ErrorMessages[1].0, Rules[1])
  {
    StopTimesheetSpelling();
    LitDigitsLitKeyParses(ErrorMessages[1].0, "PATCH", "  ", "timesheets/", "/stop");
  }

  lemma ModifyTimesheetSpelling()
    ensures ErrorMessages[2].0 == "PATCH" + "  " + "^" + "timesheets/" + "\\d+" + "$"
  {
  }

  lemma ModifyTimesheetKey()
    ensures KeyReadsAs(ErrorMessages[2].0, Rules[2])
  {
    ModifyTimesheetSpelling();
    LitDigitsKeyParses(ErrorMessages[2].0, "PATCH", "  ", "timesheets/");
  }

  lemma ActiveTimesheetSpelling()
    ensures ErrorMessages[3].0 == "GET" + "    " + "^" + "timesheets/active" + "$"
  {
  }

  lemma ActiveTimesheetKey()
    ensures KeyReadsAs(ErrorMessages[3].0, Rules[3])
  {
    ActiveTimesheetSpelling();
    LitKeyParses(ErrorMessages[3].0, "GET", "    ", "timesheets/active");
  }

  lemma TimesheetsSpelling()
    ensures ErrorMessages[4].0 == "GET" + "    " + "^" + "timesheets" + "$"
  {
  }

  lemma TimesheetsKey()
    ensures KeyReadsAs(ErrorMessages[4].0, Rules[4])
  {
    TimesheetsSpelling();
    LitKeyParses(ErrorMessages[4].0, "GET", "    ", "timesheets");
  }

  lemma StartRecordingSpelling()
    ensures ErrorMessages[5].0 == "POST" + "   " + "^" + "timesheets" + "$"
  {
  }

  lemma StartRecordingKey()
    ensures KeyReadsAs(ErrorMessages[5].0, Rules[5])
  {
    StartRecordingSpelling();
    LitKeyParses(ErrorMessages[5].0, "POST", "   ", "timesheets");
  }

  lemma ProjectsSpelling()
    ensures ErrorMessages[6].0 == "GET" + "    " + "^" + "projects" + "$"
  {
  }

  lemma ProjectsKey()
    ensures KeyReadsAs(ErrorMessages[6].0, Rules[6])
  {
    ProjectsSpelling();
    LitKeyParses(ErrorMessages[6].0, "GET", "    ", "projects");
  }

  lemma ActivitiesSpelling()
    ensures ErrorMessages[7].0 == "GET" + "    " + "^" + "activities" + "$"
  {
  }

  lemma ActivitiesKey()
    ensures KeyReadsAs(ErrorMessages[7].0, Rules[7])
  {
    ActivitiesSpelling();
    LitKeyParses(ErrorMessages[7].0, "GET", "    ", "activities");
  }

  lemma CustomerSpelling()
    ensures ErrorMessages[8].0 == "GET" + "    " + "^" + "customers/" + "\\d+" + "$"
  {
  }

  lemma CustomerKey()
    ensures KeyReadsAs(ErrorMessages[8].0, Rules[8])
  {
    CustomerSpelling();
    LitDigitsKeyParses(ErrorMessages[8].0, "GET", "    ", "customers/");
  }

  lemma CustomersSpelling()
    ensures ErrorMessages[9].0 == "GET" + "    " + "^" + "customers" + "$"
  {
  }

  lemma CustomersKey()
    ensures KeyReadsAs(ErrorMessages[9].0, Rules[9])
  {
    CustomersSpelling();
    LitKeyParses(ErrorMessages[9].0, "GET", "    ", "customers");
  }

  /** Every key of the table parses, into the rule at the same position. */
  lemma TableParses()
    ensures |Rules| == |ErrorMessages|
    ensures forall i :: 0 <= i < |Rules| ==> KeyReadsAs(ErrorMessages[i].0, Rules[i])
  {
    forall i | 0 <= i < |Rules| ensures KeyReadsAs(ErrorMessages[i].0, Rules[i]) {
      if i == 0 {
        DeleteTimesheetKey();
      } else if i == 1 {
        StopTimesheetKey();
      } else if i == 2 {
        ModifyTimesheetKey();
      } else if i == 3 {
        ActiveTimesheetKey();
      } else if i == 4 {
        TimesheetsKey();
      } else if i == 5 {
        StartRecordingKey();
      } else if i == 6 {
        ProjectsKey();
      } else if i == 7 {
        ActivitiesKey();
      } else if i == 8 {
        CustomerKey();
      } else {
        CustomersKey();
      }
    }
  }

  /**
   * `getErrorMessage`: try the keys of the table in order, parsing each as the
   * source does, and on the first hit put the path into its message.
   */
  method GetErrorMessage(tr: Translations, requestUrl: string, requestMethod: string) returns (message: string)
    requires HasActiveCatalog(tr)
    ensures message == ErrorMessage(tr, requestUrl, requestMethod)
  {
    TableParses();
    message := FirstRuleMessage(tr, ErrorMessages, Rules, requestUrl, requestMethod);
  }

  /**
   * The `for…in` loop of `getErrorMessage` over a table whose keys parse into
   * `rules`, with its early return and the fallback after it.
   */
  method FirstRuleMessage(tr: Translations, table: seq<(string, string)>, rules: seq<Rule>,
                          requestUrl: string, requestMethod: string) returns (message: string)
    requires HasActiveCatalog(tr) && |rules| == |table|
    requires forall i :: 0 <= i < |table| ==> KeyReadsAs(table[i].0, rules[i])
    ensures message == MessageFor(tr, table, rules, requestUrl, requestMethod)
  {
    var i := 0;
    while i < |table|
      invariant 0 <= i <= |table|
      invariant FirstMatch(rules[..i], requestUrl, requestMethod) == None
    {
      var parts := ParseRule(table[i].0);
      var verb, regexp := parts.value.0, parts.value.1;
      if verb == requestMethod && Matches(regexp, requestUrl) {
        message := ReplaceFirst(Translate(tr, table[i].1, []), UrlPlaceholder, requestUrl);
        FirstHit(rules, requestUrl, requestMethod, i);
        return;
      }
      NoneExtend(rules, requestUrl, requestMethod, i);
      i := i + 1;
    }
    message := ReplaceFirst(Translate(tr, Fallback, []), UrlPlaceholder, requestUrl);
    assert rules[..i] == rules;
  }

  /** The fallback key is the text around one `:url` placeholder. */
  lemma FallbackSpelling()
    ensures Fallback == "An error occured during the request! (" + UrlPlaceholder + ")"
    ensures UrlPlaceholder[0] !in "An error occured during the request! ("
  {
  }

  /** When rule `i` is the first to apply, the message is its key's template with the path in. */
  lemma RuleMessage(tr: Translations, url: string, verb: string, i: nat)
    requires HasActiveCatalog(tr) && FirstMatch(Rules, url, verb) == Some(i)
    ensures ErrorMessage(tr, url, verb) == ReplaceFirst(Template(tr, ErrorMessages[i].1), UrlPlaceholder, url)
  {
  }

  /** When no rule applies, the message is the fallback's template with the path in. */
  lemma FallbackTemplate(tr: Translations, url: string, verb: string)
    requires HasActiveCatalog(tr) && FirstMatch(Rules, url, verb) == None
    ensures ErrorMessage(tr, url, verb) == ReplaceFirst(Template(tr, Fallback), UrlPlaceholder, url)
  {
  }

  /**
   * With no rule applying and the fallback left untranslated, the message is
   * the fallback with the path in place of its one `:url`.
   */
  lemma FallbackMessage(tr: Translations, url: string, verb: string)
    requires HasActiveCatalog(tr) && Template(tr, Fallback) == Fallback
    requires FirstMatch(Rules, url, verb) == None
    ensures ErrorMessage(tr, url, verb) == "An error occured during the request! (" + url + ")"
  {
    FallbackTemplate(tr, url, verb);
    FallbackSpelling();
    ReplaceFirstAfter("An error occured during the request! (", UrlPlaceholder, ")", url);
  }

  /** `timesheets/<id>` does not end in `/stop`, so the stop rule passes over it. */
  lemma StopRuleNeedsSuffix(id: string, verb: string)
    requires Accepts(Digits, id)
    ensures !RuleApplies(Rules[1], "timesheets/" + id, verb)
  {
    var url := "timesheets/" + id;
    MatchEndsWithLit(Rules[1].pattern, url, "/stop");
    assert url[|url| - 1] == id[|id| - 1];
    assert url[|url| - 5..][4] != "/stop"[4];
  }

  /** `timesheets/<id>/stop` ends in a letter, so the modify rule passes over it. */
  lemma ModifyRuleNeedsTrailingDigit(id: string, verb: string)
    ensures !RuleApplies(Rules[2], "timesheets/" + id + "/stop", verb)
  {
    var url := "timesheets/" + id + "/stop";
    MatchEndsWithDigit(Rules[2].pattern, url);
    assert url[|url| - 1] == 'p';
  }

  /** `PATCH timesheets/<id>/stop` hits the stop rule, the second of the table. */
  lemma StopRuleFirst(id: string)
    requires Accepts(Digits, id)
    ensures FirstMatch(Rules, "timesheets/" + id + "/stop", "PATCH") == Some(1)
  {
    var url := "timesheets/" + id + "/stop";
    LitDigitsLitMatches("timesheets/", id, "/stop");
    assert RuleApplies(Rules[1], url, "PATCH");
    assert !RuleApplies(Rules[0], url, "PATCH");
    FirstApplicable(Rules, url, "PATCH", 1);
  }

  /** `PATCH timesheets/<id>` passes over the stop rule and hits the modify rule, the third. */
  lemma ModifyRuleFirst(id: string)
    requires Accepts(Digits, id)
    ensures FirstMatch(Rules, "timesheets/" + id, "PATCH") == Some(2)
  {
    var url := "timesheets/" + id;
    LitDigitsMatches("timesheets/", id);
    assert RuleApplies(Rules[2], url, "PATCH");
    StopRuleNeedsSuffix(id, "PATCH");
    assert !RuleApplies(Rules[0], url, "PATCH");
    forall j | 0 <= j < 2 ensures !RuleApplies(Rules[j], url, "PATCH") {
      if j == 0 {
        assert Rules[0].verb == "DELETE";
      } else {
        assert Rules[1] == Rules[j];
      }
    }
    FirstApplicable(Rules, url, "PATCH", 2);
  }

  /** Rule order decides: stopping a timesheet is not reported as modifying it, and vice versa. */
  lemma StopBeforeModify(id: string)
    requires Accepts(Digits, id)
    ensures FirstMatch(Rules, "timesheets/" + id + "/stop", "PATCH") == Some(1)
    ensures FirstMatch(Rules, "timesheets/" + id, "PATCH") == Some(2)
    ensures !RuleApplies(Rules[2], "timesheets/" + id + "/stop", "PATCH")
  {
    StopRuleFirst(id);
    ModifyRuleFirst(id);
    ModifyRuleNeedsTrailingDigit(id, "PATCH");
  }

  /** `DELETE timesheets/<id>` hits the delete rule, the first of the table. */
  lemma DeleteRuleFirst(id: string)
    requires Accepts(Digits, id)
    ensures FirstMatch(Rules, "timesheets/" + id, "DELETE") == Some(0)
  {
    LitDigitsMatches("timesheets/", id);
    assert RuleApplies(Rules[0], "timesheets/" + id, "DELETE");
    FirstApplicable(Rules, "timesheets/" + id, "DELETE", 0);
  }

  lemma DeleteMessageSpelling()
    ensures !Contains("Failed to delete the timesheet!", UrlPlaceholder)
  {
    NotContainsFirstChar("Failed to delete the timesheet!", UrlPlaceholder);
  }

  /** Failed `DELETE timesheets/<id>`, with the message untranslated: it has no `:url` to fill. */
  lemma DeleteTimesheetMessage(tr: Translations, id: string)
    requires HasActiveCatalog(tr)
    requires Accepts(Digits, id)
    requires Template(tr, "Failed to delete the timesheet!") == "Failed to delete the timesheet!"
    ensures ErrorMessage(tr, "timesheets/" + id, "DELETE") == "Failed to delete the timesheet!"
  {
    DeleteRuleFirst(id);
    RuleMessage(tr, "timesheets/" + id, "DELETE", 0);
    DeleteMessageSpelling();
    ReplaceFirstIdentity("Failed to delete the timesheet!", UrlPlaceholder, "timesheets/" + id);
  }

  /** `GET customers/<id>` passes over the other GET rules and hits the customer rule, the ninth. */
  lemma CustomerRuleFirst(id: string)
    requires Accepts(Digits, id)
    ensures FirstMatch(Rules, "customers/" + id, "GET") == Some(8)
  {
    var url := "customers/" + id;
    LitDigitsMatches("customers/", id);
    assert RuleApplies(Rules[8], url, "GET");
    forall j | 0 <= j < 8 ensures !RuleApplies(Rules[j], url, "GET") {
      if j == 3 {
        FirstCharMismatch(Rules[3].pattern, url);
      } else if j == 4 {
        FirstCharMismatch(Rules[4].pattern, url);
      } else if j == 6 {
        FirstCharMismatch(Rules[6].pattern, url);
      } else if j == 7 {
        FirstCharMismatch(Rules[7].pattern, url);
      }
    }
    FirstApplicable(Rules, url, "GET", 8);
  }

  lemma CustomerMessageSpelling()
    ensures "Failed to load the details of the customer! (:url)"
         == "Failed to load the details of the customer! (" + UrlPlaceholder + ")"
    ensures UrlPlaceholder[0] !in "Failed to load the details of the customer! ("
  {
    assert "Failed to load the details of the customer! (" == "Failed to load the details" + " of the customer! (";
    assert ':' !in "Failed to load the details" && ':' !in " of the customer! (";
  }

  /** The customer message with its `:url` placeholder filled in. */
  lemma CustomerTemplateFilled(tr: Translations, url: string)
    requires HasActiveCatalog(tr)
    requires Template(tr, "Failed to load the details of the customer!")
          == "Failed to load the details of the customer! (:url)"
    ensures ReplaceFirst(Template(tr, ErrorMessages[8].1), UrlPlaceholder, url)
         == "Failed to load the details of the customer! (" + url + ")"
  {
    assert ErrorMessages[8].1 == "Failed to load the details of the customer!";
    CustomerMessageSpelling();
    ReplaceFirstAfter("Failed to load the details of the customer! (", UrlPlaceholder, ")", url);
  }

  /** Failed `GET customers/<id>`, with a catalog whose message has a `:url` placeholder. */
  lemma CustomerDetailsMessage(tr: Translations, id: string)
    requires HasActiveCatalog(tr)
    requires Accepts(Digits, id)
    requires Template(tr, "Failed to load the details of the customer!")
          == "Failed to load the details of the customer! (:url)"
    ensures ErrorMessage(tr, "customers/" + id, "GET")
         == "Failed to load the details of the customer! (" + ("customers/" + id) + ")"
  {
    CustomerRuleFirst(id);
    RuleMessage(tr, "customers/" + id, "GET", 8);
    CustomerTemplateFilled(tr, "customers/" + id);
  }

  /** Every pattern of the table starts with a literal whose first letter is `t`, `p`, `a` or `c`. */
  lemma TableFirstLetters()
    ensures forall j :: 0 <= j < |Rules| ==>
      Rules[j].pattern != [] && Rules[j].pattern[0].Lit? && |Rules[j].pattern[0].text| > 0 &&
      Rules[j].pattern[0].text[0] in "tpac"
  {
  }

  /** So a path starting with any other character matches no rule whatever the method. */
  lemma UnknownPathFallsBack(url: string, verb: string)
    requires |url| > 0 && url[0] !in "tpac"
    ensures FirstMatch(Rules, url, verb) == None
  {
    TableFirstLetters();
    forall j | 0 <= j < |Rules| ensures !RuleApplies(Rules[j], url, verb) {
      FirstCharMismatch(Rules[j].pattern, url);
    }
    NoneApplicable(Rules, url, verb);
  }

  /** A failed request to such a path gets the fallback message, here untranslated. */
  lemma UnknownRequestMessage(tr: Translations, url: string, verb: string)
    requires HasActiveCatalog(tr) && Template(tr, Fallback) == Fallback
    requires |url| > 0 && url[0] !in "tpac"
    ensures ErrorMessage(tr, url, verb) == "An error occured during the request! (" + url + ")"
  {
    UnknownPathFallsBack(url, verb);
    FallbackMessage(tr, url, verb);
  }

  /** Only the first rule of the table is about DELETE. */
  lemma OnlyFirstRuleDeletes()
    ensures forall j :: 1 <= j < |Rules| ==> Rules[j].verb != "DELETE"
  {
  }

  /** The delete rule's pattern ends in a digit run. */
  lemma DeleteRuleNeedsTrailingDigit(url: string, verb: string)
    requires url == [] || !IsDigit(url[|url| - 1])
    ensures !RuleApplies(Rules[0], url, verb)
  {
    MatchEndsWithDigit(Rules[0].pattern, url);
  }

  /** So a DELETE of a path that does not end in a digit falls back. */
  lemma DeleteNeedsTrailingDigit(url: string)
    requires |url| > 0 && !IsDigit(url[|url| - 1])
    ensures FirstMatch(Rules, url, "DELETE") == None
  {
    DeleteRuleNeedsTrailingDigit(url, "DELETE");
    OnlyFirstRuleDeletes();
    forall j | 0 <= j < |Rules| ensures !RuleApplies(Rules[j], url, "DELETE") {
      if j == 0 {
        assert !RuleApplies(Rules[0], url, "DELETE");
      } else {
        assert Rules[j].verb != "DELETE";
      }
    }
    NoneApplicable(Rules, url, "DELETE");
  }

  /**
   * The patterns are anchored: a path with anything after the timesheet id,
   * `timesheets/42/x` for one, is not a timesheet deletion and falls back.
   */
  lemma AnchoredPatterns(tr: Translations, id: string, suffix: string)
    requires HasActiveCatalog(tr) && Template(tr, Fallback) == Fallback
    requires |suffix| > 0 && !IsDigit(suffix[|suffix| - 1])
    ensures FirstMatch(Rules, "timesheets/" + id + suffix, "DELETE") == None
    ensures ErrorMessage(tr, "timesheets/" + id + suffix, "DELETE")
         == "An error occured during the request! (" + ("timesheets/" + id + suffix) + ")"
  {
    var url := "timesheets/" + id + suffix;
    assert url[|url| - 1] == suffix[|suffix| - 1];
    DeleteNeedsTrailingDigit(url);
    FallbackMessage(tr, url, "DELETE");
  }
}
