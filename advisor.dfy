/** The client-side email advisor: a structural check followed by seven advisory rules
    over three reference tables, a confidence score and a one-line summary. */
module Advisor {
  import opened Wrappers
  import opened JsString
  import opened EmailShape

  // ---------------------------------------------------------------------------
  // Messages, results and tables.

  /** The messages the advisor can push. Each stands for the exact text `Text` gives it;
      only the typo suggestion carries data, the address rebuilt around the correction. */
  datatype Message =
    | InvalidInput
    | EmptyInput
    | FormatHint
    | DidYouMean(localPart: string, corrected: string)
    | TypoWarning
    | DisposableWarning
    | ProfessionalHint
    | GmailHint
    | LongLocalWarning
    | LongDomainWarning
    | PlusAliasHint
    | LooksGood

  /** The text the source pushes for each message. */
  function Text(m: Message): string {
    match m
    case InvalidInput => "Invalid input: email must be a non-empty string"
    case EmptyInput => "Email cannot be empty"
    case FormatHint => "Please enter a valid email address format (user@domain.com)"
    case DidYouMean(localPart, corrected) => "Did you mean " + localPart + "@" + corrected + "?"
    case TypoWarning => "Possible typo detected in domain name"
    case DisposableWarning => "This appears to be a temporary email address. Consider using a permanent email for important communications."
    case ProfessionalHint => "Consider using a more professional email address for business communications"
    case GmailHint => "Gmail addresses work best when they are concise and memorable"
    case LongLocalWarning => "Local part of email is very long, which may cause delivery issues"
    case LongDomainWarning => "Domain name is very long, which may cause delivery issues"
    case PlusAliasHint => "Gmail supports + aliases (e.g., user+tag@gmail.com) for organization"
    case LooksGood => "Email looks good!"
  }

  /** The advisor's answer. `confidence` is in tenths: 9 stands for 0.9. */
  datatype EmailValidationResult = EmailValidationResult(
    isValid: bool,
    suggestions: seq<Message>,
    warnings: seq<Message>,
    confidence: int,
    errors: seq<Message>)

  /** The three reference tables the rules consult: misspelled domain -> intended domain,
      throw-away mailbox domains, and substrings that look unprofessional. */
  datatype Tables = Tables(typos: map<string, string>, disposable: seq<string>, keywords: seq<string>)

  /** The tables as the advisor ships them. */
  const SourceTables: Tables := Tables(
    map[
      "gmial.com" := "gmail.com",
      "gamil.com" := "gmail.com",
      "gmeil.com" := "gmail.com",
      "hotmal.com" := "hotmail.com",
      "hotmai.com" := "hotmail.com",
      "yahooo.com" := "yahoo.com",
      "yaho.com" := "yahoo.com",
      "outlok.com" := "outlook.com",
      "outllok.com" := "outlook.com",
      "gmai.com" := "gmail.com",
      "gmal.com" := "gmail.com",
      "hotmil.com" := "hotmail.com",
      "yhoo.com" := "yahoo.com"
    ],
    [
      "tempmail.com", "10minutemail.com", "guerrillamail.com",
      "mailinator.com", "throwawaymail.com", "temp-mail.org",
      "sharklasers.com", "getairmail.com", "mailnesia.com",
      "trashmail.com", "spam4.me", "bccto.me"
    ],
    ["test", "123", "demo", "temp", "fake", "example"])

  // ---------------------------------------------------------------------------
  // The rules. Each is a condition on the local part and the domain.

  /** `commonEmailTypos[domain]` is truthy: the domain is a key with a non-empty value. */
  predicate IsKnownTypo(tables: Tables, domain: string) {
    domain in tables.typos && tables.typos[domain] != ""
  }

  predicate IsDisposable(tables: Tables, domain: string) {
    domain in tables.disposable
  }

  /** `keywords.some(k => s.includes(k.toLowerCase()))`. */
  predicate SomeKeywordIncluded(s: string, keywords: seq<string>) {
    exists i :: 0 <= i < |keywords| && Includes(s, ToLowerCase(keywords[i]))
  }

  predicate LooksUnprofessional(tables: Tables, localPart: string) {
    SomeKeywordIncluded(ToLowerCase(localPart), tables.keywords) || |localPart| < 3
  }

  predicate IsLongGmail(localPart: string, domain: string) {
    domain == "gmail.com" && |localPart| > 20
  }

  predicate LocalPartTooLong(localPart: string) {
    |localPart| > 64
  }

  predicate DomainTooLong(domain: string) {
    |domain| > 253
  }

  /** `localPart.includes('+') && !localPart.includes('+', localPart.indexOf('+') + 1)`. */
  predicate HasSinglePlus(localPart: string) {
    '+' in localPart && !IncludesFrom(localPart, '+', IndexOf(localPart, '+') + 1)
  }

  /** Some advisory rule fires. */
  predicate AnyRuleFires(tables: Tables, localPart: string, domain: string) {
    IsKnownTypo(tables, domain) || IsDisposable(tables, domain)
    || LooksUnprofessional(tables, localPart) || IsLongGmail(localPart, domain)
    || LocalPartTooLong(localPart) || DomainTooLong(domain) || HasSinglePlus(localPart)
  }

  // ---------------------------------------------------------------------------
  // The specification of one call, rule by rule.

  /** One message when the rule fires, none otherwise. */
  function Emit(fires: bool, message: Message): seq<Message> {
    if fires then [message] else []
  }

  /** The suggestions the rules add to a well-shaped address, in rule order. */
  function RuleSuggestions(tables: Tables, localPart: string, domain: string): seq<Message> {
    (if IsKnownTypo(tables, domain) then [DidYouMean(localPart, tables.typos[domain])] else [])
    + Emit(LooksUnprofessional(tables, localPart), ProfessionalHint)
    + Emit(IsLongGmail(localPart, domain), GmailHint)
    + Emit(HasSinglePlus(localPart), PlusAliasHint)
  }

  /** The warnings the rules add to a well-shaped address, in rule order. */
  function RuleWarnings(tables: Tables, localPart: string, domain: string): seq<Message> {
    Emit(IsKnownTypo(tables, domain), TypoWarning)
    + Emit(IsDisposable(tables, domain), DisposableWarning)
    + Emit(LocalPartTooLong(localPart), LongLocalWarning)
    + Emit(DomainTooLong(domain), LongDomainWarning)
  }

  /** The local part: what `split('@')` puts first. */
  function LocalPart(trimmed: string): string {
    Split(trimmed, '@')[0]
  }

  /** The domain: what `split('@')` puts second (empty when there is no '@'). */
  function Domain(trimmed: string): string {
    var parts := Split(trimmed, '@');
    if |parts| > 1 then parts[1] else ""
  }

  /** `!email || typeof email !== 'string'`, or a string that trims to nothing. */
  predicate IsBlank(email: JsValue) {
    email.OtherValue? || AllWhitespace(email.s)
  }

  /** A rejected input: nothing but the given suggestions or errors. */
  function Rejected(suggestions: seq<Message>, errors: seq<Message>): EmailValidationResult {
    EmailValidationResult(false, suggestions, [], 0, errors)
  }

  /** What `smartEmailValidation` answers for `email`. */
  function Expected(tables: Tables, email: JsValue): EmailValidationResult {
    if email.OtherValue? || email.s == "" then Rejected([], [InvalidInput])
    else
      var trimmed := Trim(email.s);
      if trimmed == "" then Rejected([], [EmptyInput])
      else if !HasEmailShape(trimmed) then Rejected([FormatHint], [])
      else Accepted(tables, LocalPart(trimmed), Domain(trimmed))
  }

  /** The answer for a well-shaped address with the given local part and domain. */
  function Accepted(tables: Tables, localPart: string, domain: string): EmailValidationResult {
    var suggestions := RuleSuggestions(tables, localPart, domain);
    var warnings := RuleWarnings(tables, localPart, domain);
    EmailValidationResult(
      true,
      if suggestions == [] && warnings == [] then [LooksGood] else suggestions,
      warnings,
      ConfidenceScore(|warnings|, false),
      [])
  }

  // ---------------------------------------------------------------------------
  // The operations.

  /** `smartEmailValidation`. The result's three lists are pushed onto as the checks and
      rules run; they are kept in local variables and the record is assembled on return. */
  method SmartEmailValidation(tables: Tables, email: JsValue) returns (result: EmailValidationResult)
    ensures result == Expected(tables, email)
  {
    var suggestions: seq<Message>, warnings: seq<Message>, errors: seq<Message> := [], [], [];
    if email.OtherValue? || email.s == "" {
      errors := errors + [InvalidInput];
      assert errors == [InvalidInput];
      return EmailValidationResult(false, suggestions, warnings, 0, errors);
    }
    var trimmed := Trim(email.s);
    if trimmed == "" {
      errors := errors + [EmptyInput];
      assert errors == [EmptyInput];
      return EmailValidationResult(false, suggestions, warnings, 0, errors);
    }
    if !HasEmailShape(trimmed) {
      suggestions := suggestions + [FormatHint];
      assert suggestions == [FormatHint];
      return EmailValidationResult(false, suggestions, warnings, 0, errors);
    }
    result := AdviseWellShaped(tables, trimmed);
    assert Expected(tables, email) == Accepted(tables, LocalPart(trimmed), Domain(trimmed));
  }

  /** The part of `smartEmailValidation` after the shape check: split at the '@', run the
      rules, mark the result valid, score it, and fall back to "looks good". */
  method AdviseWellShaped(tables: Tables, trimmed: string) returns (result: EmailValidationResult)
    requires HasEmailShape(trimmed)
    ensures result == Accepted(tables, LocalPart(trimmed), Domain(trimmed))
  {
    var parts := Split(trimmed, '@');
    var localPart, domain := parts[0], parts[1];
    assert localPart == LocalPart(trimmed) && domain == Domain(trimmed);

    var suggestions, warnings := ApplyAdvisoryRules(tables, localPart, domain);

    result := EmailValidationResult(true, suggestions, warnings, 0, []);
    var confidence := CalculateConfidence(result);
    result := result.(confidence := confidence);
    if |suggestions| == 0 && |warnings| == 0 {
      suggestions := suggestions + [LooksGood];
      result := result.(suggestions := suggestions);
    }
  }

  /** The seven advisory rules of `smartEmailValidation`, run in order on the local part
      and the domain of a well-shaped address; each rule that fires pushes one message
      onto the result's (still empty) suggestions or warnings. */
  method ApplyAdvisoryRules(tables: Tables, localPart: string, domain: string)
    returns (suggestions: seq<Message>, warnings: seq<Message>)
    ensures suggestions == RuleSuggestions(tables, localPart, domain)
    ensures warnings == RuleWarnings(tables, localPart, domain)
  {
    suggestions, warnings := [], [];
    if IsKnownTypo(tables, domain) {
      suggestions := suggestions + [DidYouMean(localPart, tables.typos[domain])];
      warnings := warnings + [TypoWarning];
    }
    ghost var s1, w1 := suggestions, warnings;
    assert s1 == if IsKnownTypo(tables, domain) then [DidYouMean(localPart, tables.typos[domain])] else [];
    assert w1 == Emit(IsKnownTypo(tables, domain), TypoWarning);
    if IsDisposable(tables, domain) {
      warnings := warnings + [DisposableWarning];
    }
    ghost var w2 := warnings;
    assert w2 == w1 + Emit(IsDisposable(tables, domain), DisposableWarning);
    var hasUnprofessionalKeywords := SomeKeywordIncluded(ToLowerCase(localPart), tables.keywords);
    if hasUnprofessionalKeywords || |localPart| < 3 {
      suggestions := suggestions + [ProfessionalHint];
    }
    ghost var s2 := suggestions;
    assert s2 == s1 + Emit(LooksUnprofessional(tables, localPart), ProfessionalHint);
    if IsLongGmail(localPart, domain) {
      suggestions := suggestions + [GmailHint];
    }
    ghost var s3 := suggestions;
    assert s3 == s2 + Emit(IsLongGmail(localPart, domain), GmailHint);
    if LocalPartTooLong(localPart) {
      warnings := warnings + [LongLocalWarning];
    }
    ghost var w3 := warnings;
    assert w3 == w2 + Emit(LocalPartTooLong(localPart), LongLocalWarning);
    if DomainTooLong(domain) {
      warnings := warnings + [LongDomainWarning];
    }
    assert warnings == w3 + Emit(DomainTooLong(domain), LongDomainWarning);
    if HasSinglePlus(localPart) {
      suggestions := suggestions + [PlusAliasHint];
    }
    assert suggestions == s3 + Emit(HasSinglePlus(localPart), PlusAliasHint);
  }

  /** 0.9 less 0.1 per warning, less 0.3 when there are errors, clamped to [0, 1]; in tenths. */
  function ConfidenceScore(warnings: nat, hasErrors: bool): (c: int)
    ensures 0 <= c <= 10
    ensures var raw := 9 - warnings - (if hasErrors then 3 else 0);
            (raw >= 0 ==> c == raw) && (raw < 0 ==> c == 0)
  {
    var raw := 9 - warnings - (if hasErrors then 3 else 0);
    if raw < 0 then 0 else if raw > 10 then 10 else raw
  }

  /** `calculateConfidence`: starts at 0.9 and lowers a local score step by step. */
  method CalculateConfidence(result: EmailValidationResult) returns (confidence: int)
    ensures confidence == ConfidenceScore(|result.warnings|, |result.errors| > 0)
  {
    confidence := 9;
    confidence := confidence - |result.warnings|;
    if |result.errors| > 0 {
      confidence := confidence - 3;
    }
    confidence := if 10 < confidence then 10 else confidence;
    confidence := if 0 > confidence then 0 else confidence;
  }

  const FailedSummary := "Email validation failed"
  const PerfectSummary := "Email is perfect!"

  /** The template literal `${n} noun${n > 1 ? 's' : ''}`. */
  function CountPhrase(n: nat, noun: string): (p: string)
    ensures |p| > 0 && '0' <= p[0] <= '9'
  {
    DecimalString(n) + " " + noun + (if n > 1 then "s" else "")
  }

  /** What `getValidationSummary` answers, by case. */
  function Summary(result: EmailValidationResult): string {
    var sc, wc := |result.suggestions|, |result.warnings|;
    if !result.isValid then FailedSummary
    else if sc == 0 && wc == 0 then PerfectSummary
    else if wc == 0 then CountPhrase(sc, "suggestion")
    else if sc == 0 then CountPhrase(wc, "warning")
    else CountPhrase(sc, "suggestion") + ", " + CountPhrase(wc, "warning")
  }

  /** `getValidationSummary`: grows the summary text part by part. */
  method GetValidationSummary(result: EmailValidationResult) returns (summary: string)
    ensures summary == Summary(result)
  {
    if !result.isValid {
      return FailedSummary;
    }
    var suggestionCount := |result.suggestions|;
    var warningCount := |result.warnings|;
    if suggestionCount == 0 && warningCount == 0 {
      return PerfectSummary;
    }
    summary := "";
    if suggestionCount > 0 {
      summary := summary + CountPhrase(suggestionCount, "suggestion");
    }
    if warningCount > 0 {
      if summary != "" {
        summary := summary + ", ";
      }
      summary := summary + CountPhrase(warningCount, "warning");
    }
  }

  // ---------------------------------------------------------------------------
  // What one call answers.

  /** A non-string, empty or blank input is rejected with exactly one error and nothing
      else: the non-string message for a non-string or empty input, the blank message
      for whitespace; any other input gets no error at all. */
  lemma BlankInputRejected(tables: Tables, email: JsValue)
    ensures var r := Expected(tables, email);
      (r.errors != [] <==> IsBlank(email))
      && (IsBlank(email) ==>
            !r.isValid && r.confidence == 0 && r.suggestions == [] && r.warnings == []
            && r.errors == [if email.OtherValue? || email.s == "" then InvalidInput else EmptyInput])
  {
    if email.StringValue? {
      TrimEmptyIff(email.s);
    }
  }

  /** A non-blank string whose trimmed form does not match the pattern gets the format
      hint as its only entry. */
  lemma MalformedRejected(tables: Tables, email: JsValue)
    requires !IsBlank(email) && !MatchesPattern(Trim(email.s))
    ensures Expected(tables, email) == Rejected([FormatHint], [])
  {
    TrimEmptyIff(email.s);
    ShapeMatchesPattern(Trim(email.s));
  }

  /** The advisor accepts exactly the strings whose trimmed form matches the pattern. */
  lemma ValidIffMatches(tables: Tables, email: JsValue)
    ensures Expected(tables, email).isValid <==> email.StringValue? && MatchesPattern(Trim(email.s))
  {
    if email.StringValue? {
      ShapeMatchesPattern(Trim(email.s));
    }
  }

  /** On acceptance the trimmed input has exactly one '@', the local part and the domain
      the rules see rebuild it around that '@', the local part is non-empty and the domain
      has an inner '.'. */
  lemma AcceptedSplitsAtTheAt(tables: Tables, email: JsValue)
    requires Expected(tables, email).isValid
    ensures email.StringValue?
    ensures var trimmed := Trim(email.s);
      multiset(trimmed)['@'] == 1
      && LocalPart(trimmed) + "@" + Domain(trimmed) == trimmed
      && LocalPart(trimmed) != "" && HasInnerDot(Domain(trimmed))
      && Expected(tables, email) == Accepted(tables, LocalPart(trimmed), Domain(trimmed))
  {
    ShapeSplit(Trim(email.s));
  }

  /** An input that trims to `l@b.c`, with each part a match of `[^\s@]+`, is accepted,
      and the rules see `l` as the local part and `b.c` as the domain. */
  lemma AcceptedAs(tables: Tables, email: JsValue, l: string, b: string, c: string)
    requires email.StringValue? && SplitsAs(Trim(email.s), l, b, c)
    ensures Expected(tables, email) == Accepted(tables, l, b + "." + c)
  {
    var trimmed := Trim(email.s);
    PatternGivesShape(trimmed, l, b, c);
    PatternSplit(trimmed, l, b, c);
  }

  // ---------------------------------------------------------------------------
  // What the rules contribute to an accepted address.

  /** The warnings are exactly those of the warning rules that fire. */
  lemma AcceptedWarnings(tables: Tables, localPart: string, domain: string)
    ensures var w := Accepted(tables, localPart, domain).warnings;
      (TypoWarning in w <==> IsKnownTypo(tables, domain))
      && (DisposableWarning in w <==> IsDisposable(tables, domain))
      && (LongLocalWarning in w <==> |localPart| > 64)
      && (LongDomainWarning in w <==> |domain| > 253)
  {
  }

  /** The typo rule suggests the address with the corrected domain, and nothing else
      suggests a correction. */
  lemma AcceptedTypoSuggestion(tables: Tables, localPart: string, domain: string)
    ensures var s := Accepted(tables, localPart, domain).suggestions;
      (IsKnownTypo(tables, domain) ==> DidYouMean(localPart, tables.typos[domain]) in s)
      && (forall m :: m in s && m.DidYouMean? ==>
            IsKnownTypo(tables, domain) && m == DidYouMean(localPart, tables.typos[domain]))
  {
  }

  /** Each hint is suggested exactly when its rule fires. */
  lemma AcceptedHints(tables: Tables, localPart: string, domain: string)
    ensures var s := Accepted(tables, localPart, domain).suggestions;
      (ProfessionalHint in s <==> LooksUnprofessional(tables, localPart))
      && (GmailHint in s <==> IsLongGmail(localPart, domain))
      && (PlusAliasHint in s <==> HasSinglePlus(localPart))
  {
    var typo: seq<Message> :=
      if IsKnownTypo(tables, domain) then [DidYouMean(localPart, tables.typos[domain])] else [];
    var rules := RuleSuggestions(tables, localPart, domain);
    assert rules == typo + Emit(LooksUnprofessional(tables, localPart), ProfessionalHint)
      + Emit(IsLongGmail(localPart, domain), GmailHint) + Emit(HasSinglePlus(localPart), PlusAliasHint);
    assert ProfessionalHint !in typo && GmailHint !in typo && PlusAliasHint !in typo;
    var s := Accepted(tables, localPart, domain).suggestions;
    assert s == rules || s == [LooksGood];
  }

  /** The plus-alias hint is suggested exactly when the local part has one '+': never for
      none, never for two or more. */
  lemma PlusAliasForOnePlus(tables: Tables, localPart: string, domain: string)
    ensures PlusAliasHint in Accepted(tables, localPart, domain).suggestions
            <==> multiset(localPart)['+'] == 1
  {
    AcceptedHints(tables, localPart, domain);
    HasSinglePlusIff(localPart);
  }

  /** "Email looks good!" is suggested, and then alone, exactly when no rule fires. */
  lemma AcceptedLooksGood(tables: Tables, localPart: string, domain: string)
    ensures var s := Accepted(tables, localPart, domain).suggestions;
      (LooksGood in s <==> !AnyRuleFires(tables, localPart, domain))
      && (LooksGood in s ==> s == [LooksGood])
  {
  }

  /** When no rule fires, the answer is exactly "looks good", without warnings, at 0.9. */
  lemma AcceptedQuiet(tables: Tables, localPart: string, domain: string)
    requires !AnyRuleFires(tables, localPart, domain)
    ensures Accepted(tables, localPart, domain) == EmailValidationResult(true, [LooksGood], [], 9, [])
  {
  }

  /** An accepted address always carries an entry: a rule's message or "looks good". The
      suggestions alone can be empty, when the only rules that fire are warning rules. */
  lemma AcceptedNeverBare(tables: Tables, localPart: string, domain: string)
    ensures var r := Accepted(tables, localPart, domain); r.suggestions != [] || r.warnings != []
  {
  }

  /** `includes('+')` and not again after the first: exactly one '+'. */
  lemma HasSinglePlusIff(localPart: string)
    ensures HasSinglePlus(localPart) <==> multiset(localPart)['+'] == 1
  {
    if '+' in localPart {
      var k := IndexOf(localPart, '+');
      assert localPart == localPart[..k] + [localPart[k]] + localPart[k + 1..];
      assert multiset(localPart) == multiset(localPart[..k]) + multiset{'+'} + multiset(localPart[k + 1..]);
    }
  }

  /** The keyword rule ignores case: a local part and its lower-cased form are judged
      alike. */
  lemma UnprofessionalIgnoresCase(tables: Tables, localPart: string)
    ensures LooksUnprofessional(tables, localPart) <==> LooksUnprofessional(tables, ToLowerCase(localPart))
  {
    ToLowerCaseIdempotent(localPart);
  }

  /** The position of each warning's rule among the warning rules; -1 for other messages. */
  function WarningRank(m: Message): int {
    match m
    case TypoWarning => 0
    case DisposableWarning => 1
    case LongLocalWarning => 2
    case LongDomainWarning => 3
    case _ => -1
  }

  /** The position of each suggestion's rule among the suggestion rules, the fallback last;
      -1 for other messages. */
  function SuggestionRank(m: Message): int {
    match m
    case DidYouMean(_, _) => 0
    case ProfessionalHint => 1
    case GmailHint => 2
    case PlusAliasHint => 3
    case LooksGood => 4
    case _ => -1
  }

  /** Only messages `rank` places, each place at most once, in increasing order. */
  predicate InRuleOrder(ms: seq<Message>, rank: Message -> int) {
    (forall i :: 0 <= i < |ms| ==> rank(ms[i]) >= 0)
    && forall i, j :: 0 <= i < j < |ms| ==> rank(ms[i]) < rank(ms[j])
  }

  /** Pushing a message ranked above everything already there keeps the order, and that
      message's rank bounds the result. */
  lemma PushKeepsOrder(ms: seq<Message>, rank: Message -> int, fires: bool, m: Message)
    requires InRuleOrder(ms, rank) && rank(m) >= 0
    requires forall i :: 0 <= i < |ms| ==> rank(ms[i]) < rank(m)
    ensures InRuleOrder(ms + Emit(fires, m), rank)
    ensures forall i :: 0 <= i < |ms + Emit(fires, m)| ==> rank((ms + Emit(fires, m))[i]) <= rank(m)
  {
    var r := ms + Emit(fires, m);
    forall i | 0 <= i < |r| ensures rank(r[i]) >= 0 && rank(r[i]) <= rank(m) {
      if i < |ms| { assert r[i] == ms[i]; } else { assert r[i] == m; }
    }
    forall i, j | 0 <= i < j < |r| ensures rank(r[i]) < rank(r[j]) {
      if j < |ms| {
        assert r[i] == ms[i] && r[j] == ms[j];
      } else {
        assert r[i] == ms[i] && r[j] == m;
      }
    }
  }

  /** In a list in rule order the i-th message has rank i or more. */
  lemma {:induction false} RankAtLeastIndex(ms: seq<Message>, rank: Message -> int, i: int)
    requires InRuleOrder(ms, rank) && 0 <= i < |ms|
    ensures rank(ms[i]) >= i
    decreases i
  {
    if i > 0 {
      RankAtLeastIndex(ms, rank, i - 1);
    }
  }

  /** There are four warning rules, so a list of warnings in rule order has at most four
      entries. */
  lemma WarningsBound(w: seq<Message>)
    requires InRuleOrder(w, WarningRank)
    ensures |w| <= 4
  {
    if |w| > 0 {
      RankAtLeastIndex(w, WarningRank, |w| - 1);
    }
  }

  /** The four warning rules, whichever of them fire, push their warnings in rule order. */
  lemma WarningPushesInOrder(typo: bool, disposable: bool, longLocal: bool, longDomain: bool)
    ensures InRuleOrder(Emit(typo, TypoWarning) + Emit(disposable, DisposableWarning)
                        + Emit(longLocal, LongLocalWarning) + Emit(longDomain, LongDomainWarning),
                        WarningRank)
  {
    var w1 := Emit(typo, TypoWarning);
    assert forall i :: 0 <= i < |w1| ==> WarningRank(w1[i]) == 0;
    PushKeepsOrder(w1, WarningRank, disposable, DisposableWarning);
    var w2 := w1 + Emit(disposable, DisposableWarning);
    PushKeepsOrder(w2, WarningRank, longLocal, LongLocalWarning);
    var w3 := w2 + Emit(longLocal, LongLocalWarning);
    PushKeepsOrder(w3, WarningRank, longDomain, LongDomainWarning);
  }

  /** The four suggestion rules, whichever of them fire, push their suggestions in rule
      order; `typo` is what the typo rule pushed (nothing, or one correction). */
  lemma SuggestionPushesInOrder(typo: seq<Message>, professional: bool, gmail: bool, plus: bool)
    requires |typo| <= 1 && forall i :: 0 <= i < |typo| ==> typo[i].DidYouMean?
    ensures InRuleOrder(typo + Emit(professional, ProfessionalHint) + Emit(gmail, GmailHint)
                        + Emit(plus, PlusAliasHint),
                        SuggestionRank)
  {
    assert forall i :: 0 <= i < |typo| ==> SuggestionRank(typo[i]) == 0;
    PushKeepsOrder(typo, SuggestionRank, professional, ProfessionalHint);
    var s2 := typo + Emit(professional, ProfessionalHint);
    PushKeepsOrder(s2, SuggestionRank, gmail, GmailHint);
    var s3 := s2 + Emit(gmail, GmailHint);
    PushKeepsOrder(s3, SuggestionRank, plus, PlusAliasHint);
  }

  /** Only the four warning rules add warnings, each at most one, in rule order; hence at
      most four warnings. */
  lemma AcceptedWarningOrder(tables: Tables, localPart: string, domain: string)
    ensures InRuleOrder(Accepted(tables, localPart, domain).warnings, WarningRank)
    ensures |Accepted(tables, localPart, domain).warnings| <= 4
  {
    WarningPushesInOrder(IsKnownTypo(tables, domain), IsDisposable(tables, domain),
                         LocalPartTooLong(localPart), DomainTooLong(domain));
    WarningsBound(RuleWarnings(tables, localPart, domain));
  }

  /** Each suggestion rule adds at most one suggestion, in rule order, and the fallback
      comes only on its own. */
  lemma AcceptedSuggestionOrder(tables: Tables, localPart: string, domain: string)
    ensures InRuleOrder(Accepted(tables, localPart, domain).suggestions, SuggestionRank)
  {
    var typo: seq<Message> :=
      if IsKnownTypo(tables, domain) then [DidYouMean(localPart, tables.typos[domain])] else [];
    SuggestionPushesInOrder(typo, LooksUnprofessional(tables, localPart),
                            IsLongGmail(localPart, domain), HasSinglePlus(localPart));
    assert InRuleOrder(RuleSuggestions(tables, localPart, domain), SuggestionRank);
    assert InRuleOrder([LooksGood], SuggestionRank);
  }

  /** On acceptance no error is recorded, so the score is 0.9 less 0.1 per warning, between
      0.5 and 0.9. */
  lemma AcceptedConfidence(tables: Tables, localPart: string, domain: string)
    ensures var r := Accepted(tables, localPart, domain);
      r.errors == [] && r.confidence == 9 - |r.warnings| && 5 <= r.confidence <= 9
  {
    AcceptedWarningOrder(tables, localPart, domain);
  }

  /** More warnings, or errors, never raise the score. */
  lemma ConfidenceMonotone(w1: nat, w2: nat, e1: bool, e2: bool)
    requires w1 <= w2 && (e1 ==> e2)
    ensures ConfidenceScore(w2, e2) <= ConfidenceScore(w1, e1)
  {
  }

  // ---------------------------------------------------------------------------
  // What the summary says.

  /** "Email validation failed" exactly for an invalid result. */
  lemma SummaryFailedIff(result: EmailValidationResult)
    ensures Summary(result) == FailedSummary <==> !result.isValid
  {
    assert FailedSummary[0] == 'E' && PerfectSummary[6] == 'i' && FailedSummary[6] == 'v';
  }

  /** "Email is perfect!" exactly for a valid result without suggestions or warnings. */
  lemma SummaryPerfectIff(result: EmailValidationResult)
    ensures Summary(result) == PerfectSummary
            <==> result.isValid && result.suggestions == [] && result.warnings == []
  {
    assert PerfectSummary[0] == 'E' && PerfectSummary[6] == 'i' && FailedSummary[6] == 'v';
  }

  /** An answer of the advisor never summarises as perfect: an accepted address always
      carries an entry, if only "looks good". */
  lemma NeverPerfect(tables: Tables, email: JsValue)
    ensures Summary(Expected(tables, email)) != PerfectSummary
  {
    var r := Expected(tables, email);
    SummaryPerfectIff(r);
    if r.isValid {
      AcceptedSplitsAtTheAt(tables, email);
      var trimmed := Trim(email.s);
      AcceptedNeverBare(tables, LocalPart(trimmed), Domain(trimmed));
    }
  }

  /** The noun takes an "s" exactly when the count is above one. */
  lemma CountPhrasePlural(n: nat, noun: string)
    requires noun != [] && noun[|noun| - 1] != 's'
    ensures var p := CountPhrase(n, noun); p[|p| - 1] == 's' <==> n > 1
  {
  }

  /** The longest prefix of decimal digits. */
  function LeadingDigits(s: string): (r: string)
    ensures IsDigits(r) && |r| <= |s| && r == s[..|r|]
    ensures |r| < |s| ==> !('0' <= s[|r|] <= '9')
    decreases |s|
  {
    if s != [] && '0' <= s[0] <= '9' then [s[0]] + LeadingDigits(s[1..]) else []
  }

  /** The number a text starts with. */
  function LeadingCount(s: string): nat {
    DecimalValue(LeadingDigits(s))
  }

  /** Digits followed by something that does not start with a digit: the digits are the
      leading ones. */
  lemma {:induction false} LeadingDigitsOfDigits(d: string, rest: string)
    requires IsDigits(d) && (rest == [] || !('0' <= rest[0] <= '9'))
    ensures LeadingDigits(d + rest) == d
    decreases |d|
  {
    if d != [] {
      assert (d + rest)[1..] == d[1..] + rest;
      LeadingDigitsOfDigits(d[1..], rest);
    }
  }

  /** A count phrase, whatever follows it, reads back as its count. */
  lemma CountPhraseReadsBack(n: nat, noun: string, tail: string)
    ensures LeadingCount(CountPhrase(n, noun) + tail) == n
  {
    var rest := " " + noun + (if n > 1 then "s" else "") + tail;
    assert CountPhrase(n, noun) + tail == DecimalString(n) + rest;
    LeadingDigitsOfDigits(DecimalString(n), rest);
    DecimalRoundTrip(n);
  }

  /** The summary of a valid result with entries starts with the number of suggestions,
      or with the number of warnings when there are no suggestions. */
  lemma SummaryCounts(result: EmailValidationResult)
    requires result.isValid && (result.suggestions != [] || result.warnings != [])
    ensures LeadingCount(Summary(result))
            == if result.suggestions != [] then |result.suggestions| else |result.warnings|
  {
    var sc, wc := |result.suggestions|, |result.warnings|;
    if sc > 0 && wc > 0 {
      var phrase, tail := CountPhrase(sc, "suggestion"), ", " + CountPhrase(wc, "warning");
      assert Summary(result) == phrase + tail;
      CountPhraseReadsBack(sc, "suggestion", tail);
    } else if sc > 0 {
      CountPhraseReadsBack(sc, "suggestion", "");
      assert CountPhrase(sc, "suggestion") + "" == CountPhrase(sc, "suggestion");
    } else {
      CountPhraseReadsBack(wc, "warning", "");
      assert CountPhrase(wc, "warning") + "" == CountPhrase(wc, "warning");
    }
  }

  /** With both suggestions and warnings, the summary is the suggestion phrase, ", ", and a
      text that reads back as the number of warnings. */
  lemma SummaryWarningCount(result: EmailValidationResult)
    requires result.isValid && result.suggestions != [] && result.warnings != []
    ensures var k := |CountPhrase(|result.suggestions|, "suggestion")|;
      |Summary(result)| > k + 2
      && Summary(result)[..k + 2] == CountPhrase(|result.suggestions|, "suggestion") + ", "
      && LeadingCount(Summary(result)[k + 2..]) == |result.warnings|
  {
    var phrase := CountPhrase(|result.suggestions|, "suggestion");
    var last := CountPhrase(|result.warnings|, "warning");
    assert Summary(result) == phrase + ", " + last;
    assert Summary(result)[|phrase| + 2..] == last + "";
    CountPhraseReadsBack(|result.warnings|, "warning", "");
  }

  /** Two suggestions and one warning read "2 suggestions, 1 warning". */
  lemma SummaryExample(result: EmailValidationResult)
    requires result.isValid && |result.suggestions| == 2 && |result.warnings| == 1
    ensures Summary(result) == "2 suggestions, 1 warning"
  {
    assert Summary(result) == CountPhrase(2, "suggestion") + ", " + CountPhrase(1, "warning");
    TwoSuggestions();
    OneWarning();
    assert "2 suggestions" + ", " + "1 warning" == "2 suggestions, 1 warning";
  }

  lemma TwoSuggestions()
    ensures CountPhrase(2, "suggestion") == "2 suggestions"
  {
    assert DecimalString(2) == "2";
  }

  lemma OneWarning()
    ensures CountPhrase(1, "warning") == "1 warning"
  {
    assert DecimalString(1) == "1";
  }

  // ---------------------------------------------------------------------------
  // The shipped tables on sample addresses.

  /** "user@gmial.com" is accepted with the correction "user@gmail.com" and a typo
      warning. */
  lemma TypoExample(tables: Tables, email: JsValue)
    requires tables == SourceTables && email == StringValue("user@gmial.com")
    ensures var r := Expected(tables, email);
      r.isValid && DidYouMean("user", "gmail.com") in r.suggestions && TypoWarning in r.warnings
  {
    TypoSampleAccepted(tables, email);
    GmialIsKnownTypo(tables, "gmial" + "." + "com");
    AcceptedWarnings(tables, "user", "gmial" + "." + "com");
    AcceptedTypoSuggestion(tables, "user", "gmial" + "." + "com");
  }

  lemma TypoSampleAccepted(tables: Tables, email: JsValue)
    requires email == StringValue("user@gmial.com")
    ensures Expected(tables, email) == Accepted(tables, "user", "gmial" + "." + "com")
  {
    SampleParts();
    TypoSampleAtoms();
    TrimOfTrimmed(email.s);
    AcceptedAs(tables, email, "user", "gmial", "com");
  }

  /** The shipped typo table corrects gmial.com to gmail.com. */
  lemma GmialIsKnownTypo(tables: Tables, domain: string)
    requires tables == SourceTables && domain == "gmial" + "." + "com"
    ensures IsKnownTypo(tables, domain) && tables.typos[domain] == "gmail.com"
  {
    assert domain == "gmial.com";
  }

  /** "a@tempmail.com" is accepted with the disposable-domain warning. */
  lemma DisposableExample(tables: Tables, email: JsValue)
    requires tables == SourceTables && email == StringValue("a@tempmail.com")
    ensures var r := Expected(tables, email); r.isValid && DisposableWarning in r.warnings
  {
    DisposableSampleAccepted(tables, email);
    TempmailIsDisposable(tables, "tempmail" + "." + "com");
    AcceptedWarnings(tables, "a", "tempmail" + "." + "com");
  }

  lemma DisposableSampleAccepted(tables: Tables, email: JsValue)
    requires email == StringValue("a@tempmail.com")
    ensures Expected(tables, email) == Accepted(tables, "a", "tempmail" + "." + "com")
  {
    SampleParts();
    DisposableSampleAtoms();
    TrimOfTrimmed(email.s);
    AcceptedAs(tables, email, "a", "tempmail", "com");
  }

  /** The shipped disposable list has tempmail.com. */
  lemma TempmailIsDisposable(tables: Tables, domain: string)
    requires tables == SourceTables && domain == "tempmail" + "." + "com"
    ensures IsDisposable(tables, domain)
  {
    assert domain == tables.disposable[0];
  }

  /** "test@example.org" is accepted with the professional-address hint (it contains the
      keyword "test") and without the disposable-domain warning. */
  lemma ProfessionalExample(tables: Tables, email: JsValue)
    requires tables == SourceTables && email == StringValue("test@example.org")
    ensures var r := Expected(tables, email);
      r.isValid && ProfessionalHint in r.suggestions && DisposableWarning !in r.warnings
  {
    ProfessionalSampleAccepted(tables, email);
    TestIsUnprofessional(tables, "test");
    ExampleOrgIsNotDisposable(tables, "example" + "." + "org");
    AcceptedHints(tables, "test", "example" + "." + "org");
    AcceptedWarnings(tables, "test", "example" + "." + "org");
  }

  lemma ProfessionalSampleAccepted(tables: Tables, email: JsValue)
    requires email == StringValue("test@example.org")
    ensures Expected(tables, email) == Accepted(tables, "test", "example" + "." + "org")
  {
    SampleParts();
    ProfessionalSampleAtoms();
    TrimOfTrimmed(email.s);
    AcceptedAs(tables, email, "test", "example", "org");
  }

  /** The shipped keyword list flags a local part "test". */
  lemma TestIsUnprofessional(tables: Tables, localPart: string)
    requires tables == SourceTables && localPart == "test"
    ensures LooksUnprofessional(tables, localPart)
  {
    assert OccursAt(ToLowerCase(localPart), ToLowerCase(tables.keywords[0]), 0);
  }

  /** example.org is not on the shipped disposable list. */
  lemma ExampleOrgIsNotDisposable(tables: Tables, domain: string)
    requires tables == SourceTables && domain == "example" + "." + "org"
    ensures !IsDisposable(tables, domain)
  {
    assert domain == "example.org";
  }

  /** "john.smith@tempmail.com" gets the disposable-domain warning and no suggestion at
      all: the fallback is not pushed, because the warning list is not empty. */
  lemma WarningOnlyExample(tables: Tables, email: JsValue)
    requires tables == SourceTables && email == StringValue("john.smith@tempmail.com")
    ensures var r := Expected(tables, email);
      r.isValid && r.suggestions == [] && r.warnings == [DisposableWarning]
  {
    WarningOnlySampleAccepted(tables, email);
    JohnSmithIsWarnedOnly(tables, "john.smith", "tempmail" + "." + "com");
  }

  lemma WarningOnlySampleAccepted(tables: Tables, email: JsValue)
    requires email == StringValue("john.smith@tempmail.com")
    ensures Expected(tables, email) == Accepted(tables, "john.smith", "tempmail" + "." + "com")
  {
    WarningOnlySampleParts();
    TrimOfTrimmed(email.s);
    AcceptedAs(tables, email, "john.smith", "tempmail", "com");
  }

  /** For "john.smith" at tempmail.com only the disposable rule fires. */
  lemma JohnSmithIsWarnedOnly(tables: Tables, localPart: string, domain: string)
    requires tables == SourceTables && localPart == "john.smith" && domain == "tempmail" + "." + "com"
    ensures Accepted(tables, localPart, domain).suggestions == []
    ensures Accepted(tables, localPart, domain).warnings == [DisposableWarning]
  {
    TempmailIsDisposable(tables, domain);
    TempmailIsNoTypo(tables, domain);
    JohnSmithLooksProfessional(tables, localPart);
    assert !HasSinglePlus(localPart) && !IsLongGmail(localPart, domain);
    assert !LocalPartTooLong(localPart) && !DomainTooLong(domain);
    assert RuleSuggestions(tables, localPart, domain) == [];
    assert RuleWarnings(tables, localPart, domain) == [DisposableWarning];
  }

  /** tempmail.com is not a key of the shipped typo table. */
  lemma TempmailIsNoTypo(tables: Tables, domain: string)
    requires tables == SourceTables && domain == "tempmail" + "." + "com"
    ensures !IsKnownTypo(tables, domain)
  {
    assert domain == "tempmail.com";
  }

  /** No shipped keyword occurs in "john.smith", which is long enough. A 't' occurs, but
      too late for "test" or "temp" to fit after it. */
  lemma JohnSmithLooksProfessional(tables: Tables, localPart: string)
    requires tables == SourceTables && localPart == "john.smith"
    ensures !LooksUnprofessional(tables, localPart)
  {
    var lower := ToLowerCase(localPart);
    assert lower == localPart;
    forall i | 0 <= i < |tables.keywords| ensures !Includes(lower, ToLowerCase(tables.keywords[i])) {
      AbsentFirstChar(lower, ToLowerCase(tables.keywords[i]));
    }
  }

  /** The parts of "john.smith@tempmail.com" around the '@' and the '.', each a match of
      `[^\s@]+`. */
  lemma WarningOnlySampleParts()
    ensures "john.smith@tempmail.com" == "john.smith" + "@" + "tempmail" + "." + "com"
    ensures IsAtom("john.smith") && IsAtom("tempmail") && IsAtom("com")
  {
  }

  /** "jane.doe@gmail.com" sets off no rule: the only suggestion is "Email looks good!",
      there is no warning, and the confidence is 0.9. */
  lemma LooksGoodExample(tables: Tables, email: JsValue)
    requires tables == SourceTables && email == StringValue("jane.doe@gmail.com")
    ensures Expected(tables, email) == EmailValidationResult(true, [LooksGood], [], 9, [])
  {
    LooksGoodSampleAccepted(tables, email);
    JaneDoeIsQuiet(tables, "jane.doe", "gmail" + "." + "com");
  }

  /** No rule fires for "jane.doe" at gmail.com, so the answer is "looks good". */
  lemma JaneDoeIsQuiet(tables: Tables, localPart: string, domain: string)
    requires tables == SourceTables && localPart == "jane.doe" && domain == "gmail" + "." + "com"
    ensures Accepted(tables, localPart, domain) == EmailValidationResult(true, [LooksGood], [], 9, [])
  {
    GmailIsNeitherTypoNorDisposable(tables, domain);
    JaneDoeLooksProfessional(tables, localPart);
    JaneDoeIsPlain(localPart, domain);
    AcceptedQuiet(tables, localPart, domain);
  }

  /** The local part "jane.doe" is short, has no '+', and is not a long Gmail address. */
  lemma JaneDoeIsPlain(localPart: string, domain: string)
    requires localPart == "jane.doe" && domain == "gmail" + "." + "com"
    ensures !HasSinglePlus(localPart) && !IsLongGmail(localPart, domain)
    ensures !LocalPartTooLong(localPart) && !DomainTooLong(domain)
  {
  }

  lemma LooksGoodSampleAccepted(tables: Tables, email: JsValue)
    requires email == StringValue("jane.doe@gmail.com")
    ensures Expected(tables, email) == Accepted(tables, "jane.doe", "gmail" + "." + "com")
  {
    SampleParts();
    LooksGoodSampleAtoms();
    TrimOfTrimmed(email.s);
    AcceptedAs(tables, email, "jane.doe", "gmail", "com");
  }

  /** gmail.com is neither a key of the shipped typo table nor a disposable domain. */
  lemma GmailIsNeitherTypoNorDisposable(tables: Tables, domain: string)
    requires tables == SourceTables && domain == "gmail" + "." + "com"
    ensures !IsKnownTypo(tables, domain) && !IsDisposable(tables, domain)
  {
    assert domain == "gmail.com";
  }

  /** No shipped keyword occurs in "jane.doe", which is long enough. */
  lemma JaneDoeLooksProfessional(tables: Tables, localPart: string)
    requires tables == SourceTables && localPart == "jane.doe"
    ensures !LooksUnprofessional(tables, localPart)
  {
    var lower := ToLowerCase(localPart);
    assert lower == localPart;
    forall i | 0 <= i < |tables.keywords| ensures !Includes(lower, ToLowerCase(tables.keywords[i])) {
      AbsentFirstChar(lower, ToLowerCase(tables.keywords[i]));
    }
  }

  /** A non-empty search string whose first character appears at no possible start is not
      included. */
  lemma AbsentFirstChar(s: string, sub: string)
    requires sub != [] && forall i :: 0 <= i <= |s| - |sub| ==> s[i] != sub[0]
    ensures !Includes(s, sub)
  {
    forall i | 0 <= i <= |s| - |sub| ensures !OccursAt(s, sub, i) {
      assert s[i..i + |sub|][0] == s[i];
    }
  }

  /** The sample addresses are their parts around the '@' and the '.'. */
  lemma SampleParts()
    ensures "user@gmial.com" == "user" + "@" + "gmial" + "." + "com"
    ensures "a@tempmail.com" == "a" + "@" + "tempmail" + "." + "com"
    ensures "test@example.org" == "test" + "@" + "example" + "." + "org"
    ensures "jane.doe@gmail.com" == "jane.doe" + "@" + "gmail" + "." + "com"
  {
  }

  /** The parts of the sample addresses match `[^\s@]+`. */
  lemma TypoSampleAtoms()
    ensures IsAtom("user") && IsAtom("gmial") && IsAtom("com")
  {
  }

  lemma DisposableSampleAtoms()
    ensures IsAtom("a") && IsAtom("tempmail") && IsAtom("com")
  {
  }

  lemma ProfessionalSampleAtoms()
    ensures IsAtom("test") && IsAtom("example") && IsAtom("org")
  {
  }

  lemma LooksGoodSampleAtoms()
    ensures IsAtom("jane.doe") && IsAtom("gmail") && IsAtom("com")
  {
  }
}
