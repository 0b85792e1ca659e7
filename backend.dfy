/** The backend's input check for the email it is asked to store, and the normalised form
    in which an accepted email is stored. */
module Backend {
  import opened Wrappers
  import opened JsString
  import opened EmailShape
  import Advisor

  /** The four ways the backend refuses an email, in the order it tests for them. */
  datatype ValidationError = NotAString | Blank | BadFormat | TooLong

  /** The text the backend reports for each refusal. */
  function ErrorText(e: ValidationError): string {
    match e
    case NotAString => "Email must be a non-empty string"
    case Blank => "Email cannot be empty"
    case BadFormat => "Invalid email format"
    case TooLong => "Email is too long"
  }

  /** `{ isValid, error? }`. */
  datatype ValidationResult = ValidationResult(isValid: bool, error: Option<ValidationError>)

  /** The longest trimmed email the backend accepts. */
  const MaxEmailLength := 254

  /** `validateEmail`: four ordered early returns, then acceptance. A result is valid
      exactly when it carries no error. */
  function ValidateEmail(email: JsValue): (r: ValidationResult)
    ensures r.isValid <==> r.error.None?
  {
    if email.OtherValue? || email.s == "" then ValidationResult(false, Some(NotAString))
    else
      var trimmed := Trim(email.s);
      if trimmed == "" then ValidationResult(false, Some(Blank))
      else if !HasEmailShape(trimmed) then ValidationResult(false, Some(BadFormat))
      else if |trimmed| > MaxEmailLength then ValidationResult(false, Some(TooLong))
      else ValidationResult(true, None)
  }

  /** Each error is reported exactly for the inputs that pass every earlier test and fail
      its own. */
  lemma ValidationErrorOrder(email: JsValue)
    ensures var e := ValidateEmail(email).error;
      (e == Some(NotAString) <==> email.OtherValue? || email.s == "")
      && (e == Some(Blank) <==> email.StringValue? && email.s != "" && AllWhitespace(email.s))
      && (e == Some(BadFormat) <==>
            email.StringValue? && !AllWhitespace(email.s) && !MatchesPattern(Trim(email.s)))
      && (e == Some(TooLong) <==>
            email.StringValue? && MatchesPattern(Trim(email.s)) && |Trim(email.s)| > MaxEmailLength)
  {
    if email.StringValue? {
      TrimEmptyIff(email.s);
      ShapeMatchesPattern(Trim(email.s));
      if email.s == "" {
        assert !MatchesPattern(Trim(email.s)) by { assert Trim(email.s) == ""; }
      }
    }
  }

  /** The backend accepts exactly the strings whose trim matches the pattern and is at most
      254 characters long. */
  lemma ValidIff(email: JsValue)
    ensures ValidateEmail(email).isValid
            <==> email.StringValue? && MatchesPattern(Trim(email.s)) && |Trim(email.s)| <= MaxEmailLength
  {
    if email.StringValue? {
      ShapeMatchesPattern(Trim(email.s));
    }
  }

  /** The shape test comes before the length test: a malformed email that is also too long
      is reported as malformed. */
  lemma MalformedBeforeTooLong(s: string)
    requires !AllWhitespace(s) && !MatchesPattern(Trim(s)) && |Trim(s)| > MaxEmailLength
    ensures ValidateEmail(StringValue(s)).error == Some(BadFormat)
  {
    ValidationErrorOrder(StringValue(s));
  }

  /** Backend and client use the same pattern, so up to the backend's length limit they
      accept the same inputs; the backend's only extra refusal is the length. */
  lemma BackendAgreesWithClient(tables: Advisor.Tables, email: JsValue)
    ensures ValidateEmail(email).isValid
            <==> email.StringValue? && Advisor.Expected(tables, email).isValid
                 && |Trim(email.s)| <= MaxEmailLength
    ensures email.StringValue? && |Trim(email.s)| <= MaxEmailLength ==>
              ValidateEmail(email).isValid == Advisor.Expected(tables, email).isValid
  {
    ValidIff(email);
    Advisor.ValidIffMatches(tables, email);
  }

  // ---------------------------------------------------------------------------
  // The stored form of an accepted email.

  /** `email.trim().toLowerCase()`. */
  function Normalize(s: string): string {
    ToLowerCase(Trim(s))
  }

  /** Lower-casing keeps a string trimmed. */
  lemma LowerOfTrimmed(t: string)
    requires Trim(t) == t
    ensures Trim(ToLowerCase(t)) == ToLowerCase(t)
  {
    var u := ToLowerCase(t);
    if u != [] {
      LowerCharKeepsClasses(t[0]);
      LowerCharKeepsClasses(t[|t| - 1]);
    }
    TrimOfTrimmed(u);
  }

  /** Normalising an already normalised email changes nothing. */
  lemma NormalizeIdempotent(s: string)
    ensures Normalize(Normalize(s)) == Normalize(s)
  {
    TrimIdempotent(s);
    LowerOfTrimmed(Trim(s));
    ToLowerCaseIdempotent(Trim(s));
  }

  /** Two strings of one length that have a character `c` at the same positions have the
      same number of `c`s and the same first `c`. */
  lemma {:induction false} SamePositions(s: string, u: string, c: char)
    requires |s| == |u| && forall i :: 0 <= i < |s| ==> (s[i] == c <==> u[i] == c)
    ensures multiset(s)[c] == multiset(u)[c]
    ensures IndexOf(s, c) == IndexOf(u, c)
    decreases |s|
  {
    if s != [] {
      SamePositions(s[1..], u[1..], c);
      assert s == [s[0]] + s[1..] && u == [u[0]] + u[1..];
      assert multiset(s) == multiset{s[0]} + multiset(s[1..]);
      assert multiset(u) == multiset{u[0]} + multiset(u[1..]);
    }
  }

  /** Lower-casing neither makes nor breaks the email shape. */
  lemma ShapeOfLower(t: string)
    ensures HasEmailShape(ToLowerCase(t)) <==> HasEmailShape(t)
  {
    var u := ToLowerCase(t);
    forall i | 0 <= i < |t| ensures (IsWhitespace(t[i]) <==> IsWhitespace(u[i]))
      && (t[i] == '@' <==> u[i] == '@') && (t[i] == '.' <==> u[i] == '.')
    {
      LowerCharKeepsClasses(t[i]);
    }
    SamePositions(t, u, '@');
    var k := IndexOf(t, '@');
    if k >= 0 {
      var d, e := t[k + 1..], u[k + 1..];
      forall j | 0 <= j < |d| ensures (d[j] == '.' <==> e[j] == '.') {
        assert d[j] == t[k + 1 + j] && e[j] == u[k + 1 + j];
      }
      assert HasInnerDot(d) <==> HasInnerDot(e);
    }
  }

  /** Normalisation keeps the backend's verdict: a normalised email is accepted exactly
      when the original was. */
  lemma NormalizeKeepsValidity(s: string)
    ensures ValidateEmail(StringValue(Normalize(s))).isValid <==> ValidateEmail(StringValue(s)).isValid
  {
    var t := Trim(s);
    var u := ToLowerCase(t);
    TrimIdempotent(s);
    LowerOfTrimmed(t);
    ShapeOfLower(t);
    ValidIffShape(s);
    ValidIffShape(u);
  }

  /** On strings, the verdict is the shape test and the length test of the trim. */
  lemma ValidIffShape(s: string)
    ensures ValidateEmail(StringValue(s)).isValid
            <==> HasEmailShape(Trim(s)) && |Trim(s)| <= MaxEmailLength
  {
    if s == "" {
      assert Trim(s) == "";
    }
  }

  // ---------------------------------------------------------------------------
  // What `saveRamenPreference` decides before it writes.

  /** Either a refusal with the message to report, or the email to store. */
  datatype SaveDecision = Refuse(message: string) | Store(email: string)

  /** The message reported for an invalid result: its error, or a generic fallback. */
  function RefusalMessage(v: ValidationResult): string {
    if v.error.Some? then ErrorText(v.error.value) else "Invalid email provided"
  }

  /** Lines 69-77 of `saveRamenPreference`: validate the `email` field, report the error
      of a refused email, and otherwise store it normalised. */
  function DecideSave(email: JsValue): SaveDecision {
    var validation := ValidateEmail(email);
    if !validation.isValid then Refuse(RefusalMessage(validation))
    else Store(Normalize(email.s))
  }

  /** A refusal always reports the validator's own error, never the fallback text; what is
      stored is the normalised input, which is itself valid and already normalised. */
  lemma SaveDecisionSound(email: JsValue)
    ensures DecideSave(email).Refuse? <==> !ValidateEmail(email).isValid
    ensures DecideSave(email).Refuse? ==>
              DecideSave(email).message == ErrorText(ValidateEmail(email).error.value)
    ensures DecideSave(email).Store? ==>
              email.StringValue? && DecideSave(email).email == Normalize(email.s)
              && ValidateEmail(StringValue(DecideSave(email).email)).isValid
              && Normalize(DecideSave(email).email) == DecideSave(email).email
  {
    if email.StringValue? {
      NormalizeKeepsValidity(email.s);
      NormalizeIdempotent(email.s);
    }
  }
}
