# Email validation: a verified model

This project models, in Dafny, the reasoning parts of a small "remember my email" application:

- the client-side **heuristic email advisor**: `smartEmailValidation`, `calculateConfidence` and `getValidationSummary` in `src/aiValidationService.ts`, with its three reference tables;
- the backend's **input check** `validateEmail` and the **normalised form** that `saveRamenPreference` stores (`functions/src/index.ts`);
- the two **folds** of `getEmailStats`: the per-domain tally and the latest update time.

Modules:

| file | module | what it holds |
|---|---|---|
| `wrappers.dfy` | `Wrappers` | `Option`, and `JsValue`, an input that is either a string or some other JavaScript value |
| `js_string.dfy` | `JsString` | the ECMAScript string built-ins the code calls: `trim`, `indexOf`, `includes`, `split`, `toLowerCase`, and decimal rendering of counts |
| `email_shape.dfy` | `EmailShape` | the pattern `/^[^\s@]+@[^\s@]+\.[^\s@]+$/` as a language (`MatchesPattern`), a direct test (`HasEmailShape`), and a proof that the two agree |
| `advisor.dfy` | `Advisor` | the advisor's messages, result record and tables, the seven rules, the three operations as methods, and what they promise |
| `backend.dfy` | `Backend` | `validateEmail`, normalisation, the save decision, and agreement with the client |
| `email_stats.dfy` | `EmailStats` | the domain tally (a method that updates a map in a loop), the latest-update fold, and their properties |

Modelling choices:

- **Messages.** The advisor pushes fixed texts, and one text built from data. The model pushes values of the datatype `Advisor.Message`. `Advisor.Text` maps each value to the exact source string.
- **Backend errors.** These use the datatype `Backend.ValidationError`, and `Backend.ErrorText` gives each one its source text.
- **Tables.** The rules take their three tables as a parameter of type `Advisor.Tables`. `Advisor.SourceTables` holds the tables the advisor ships. Every general property holds for any tables. The sample-address lemmas use the shipped tables.
- **Confidence.** It is an integer number of tenths: 9 stands for 0.9.
- **Timestamps.** They are integers. An absent `email` field is the empty string, which is falsy in the source.
- **Strings.** They are sequences of characters. The one whitespace predicate `JsString.IsWhitespace` serves both `trim()` and the pattern class `\s`. `toLowerCase` maps ASCII letters only.

## Model

| member | source | states |
|---|---|---|
| JsString.Trim | src/aiValidationService.ts:53 | the trim is no longer than the input and neither starts nor ends with whitespace |
| JsString.TrimStart | src/aiValidationService.ts:53 | the leading whitespace removed |
| JsString.TrimEnd | src/aiValidationService.ts:53 | the trailing whitespace removed |
| JsString.IsWhitespace | src/aiValidationService.ts:53-60 | the ECMAScript WhiteSpace and LineTerminator code points, which both `trim` and `\s` use |
| JsString.TrimIsInfix | src/aiValidationService.ts:53 | the trim is the infix of the input left once whitespace-only ends are cut off |
| JsString.TrimEmptyIff | src/aiValidationService.ts:53-54 | a string trims to nothing exactly when it is all whitespace |
| JsString.TrimIdempotent | functions/src/index.ts:37 | trimming twice is trimming once |
| JsString.IndexOf | src/aiValidationService.ts:103 | the result is -1 exactly when the character is absent, and otherwise the position of its first occurrence |
| JsString.IncludesFrom | src/aiValidationService.ts:103 | `includes(c, position)`: `c` occurs at or after the position clamped to the string's bounds |
| JsString.Includes | src/aiValidationService.ts:81 | `includes(sub)`: `sub` occurs at some position |
| JsString.OccursAt | src/aiValidationService.ts:81 | `sub` occurs starting at the given index |
| JsString.Split | src/aiValidationService.ts:66 | `split(c)` gives one more piece than there are `c`s, and no piece contains `c` |
| JsString.JoinSplit | src/aiValidationService.ts:66 | joining the pieces of a split with the separator gives the string back |
| JsString.SplitJoin | src/aiValidationService.ts:66 | splitting a join of separator-free pieces gives the pieces back |
| JsString.Join | src/aiValidationService.ts:66 | the reverse of `split`: the pieces with the separator between neighbours |
| JsString.ToLowerCase | src/aiValidationService.ts:81 | length is kept, and each character is lower-cased on its own |
| JsString.LowerChar | src/aiValidationService.ts:81 | 'A'..'Z' become 'a'..'z'; every other character is kept |
| JsString.ToLowerCaseIdempotent | functions/src/index.ts:77 | lower-casing twice is lower-casing once |
| JsString.LowerCharKeepsClasses | functions/src/index.ts:77 | lower-casing keeps whitespace, '@' and '.' where they are |
| JsString.DecimalString | src/aiValidationService.ts:168 | a count renders as decimal digits with no leading zero |
| JsString.DecimalRoundTrip | src/aiValidationService.ts:168 | reading the rendered digits back gives the count |
| EmailShape.ShapeMatchesPattern | src/aiValidationService.ts:60-61 | the direct test accepts exactly the strings that read as `a@b.c` with each part in `[^\s@]+` |
| EmailShape.MatchesPattern | src/aiValidationService.ts:60 | the language of the pattern: the string is `a@b.c` with each of `a`, `b` and `c` a match of `[^\s@]+` |
| EmailShape.HasEmailShape | src/aiValidationService.ts:60-61 | no whitespace, exactly one '@', a non-empty local part, and a '.' strictly inside the domain |
| EmailShape.IsAtom | src/aiValidationService.ts:60 | a match of `[^\s@]+`: non-empty, with no whitespace and no '@' |
| EmailShape.ShapeGivesPattern | src/aiValidationService.ts:60-61 | a string with no whitespace, one '@', a non-empty local part and an inner '.' after the '@' matches the pattern |
| EmailShape.PatternGivesShape | src/aiValidationService.ts:60-61 | every match of the pattern passes the direct test |
| EmailShape.PatternSplit | src/aiValidationService.ts:66 | `a@b.c` splits at its '@' into `a` and `b.c` |
| EmailShape.ShapeSplit | src/aiValidationService.ts:66 | a well-shaped string splits into two pieces that rebuild it around its one '@': a non-empty local part, and a domain with an inner '.' |
| Advisor.Text | src/aiValidationService.ts:49-111 | each message code stands for the exact text the source pushes; a correction reads "Did you mean local@corrected?" |
| Advisor.SourceTables | src/aiValidationService.ts:12-35 | the shipped tables: thirteen misspelled domains with their corrections, twelve disposable domains, and six keywords |
| Advisor.IsKnownTypo | src/aiValidationService.ts:69 | `commonEmailTypos[domain]` is truthy: the domain is a key whose correction is not the empty string |
| Advisor.IsDisposable | src/aiValidationService.ts:75 | the domain is on the disposable list |
| Advisor.SomeKeywordIncluded | src/aiValidationService.ts:80-82 | some keyword, lower-cased, occurs in the given text |
| Advisor.LooksUnprofessional | src/aiValidationService.ts:80-84 | the lower-cased local part includes a keyword, or the local part has fewer than 3 characters |
| Advisor.IsLongGmail | src/aiValidationService.ts:89 | the domain is exactly gmail.com and the local part has more than 20 characters |
| Advisor.LocalPartTooLong | src/aiValidationService.ts:94 | the local part has more than 64 characters |
| Advisor.DomainTooLong | src/aiValidationService.ts:98 | the domain has more than 253 characters |
| Advisor.HasSinglePlus | src/aiValidationService.ts:103 | the local part includes '+', and does not include it again from the position after the first '+' |
| Advisor.AnyRuleFires | src/aiValidationService.ts:69-105 | at least one of the seven rules fires |
| Advisor.RuleSuggestions | src/aiValidationService.ts:69-105 | the suggestions the rules push, in source order: the correction, the professional hint, the Gmail hint, the plus-alias hint, each only when its rule fires |
| Advisor.RuleWarnings | src/aiValidationService.ts:69-100 | the warnings the rules push, in source order: typo, disposable domain, long local part, long domain, each only when its rule fires |
| Advisor.LocalPart | src/aiValidationService.ts:66 | the first piece of `split('@')` |
| Advisor.Domain | src/aiValidationService.ts:66 | the second piece of `split('@')`, or the empty string when there is none |
| Advisor.Expected | src/aiValidationService.ts:37-120 | the whole answer by case: a non-string or "" gets the non-string error; a blank string the blank error; a trim failing the pattern the format hint; otherwise `Accepted` on the split parts |
| Advisor.Accepted | src/aiValidationService.ts:66-112 | a well-shaped address is valid, carries the rules' suggestions and warnings, no error, the score of its warnings, and "looks good" only when both lists are empty |
| Advisor.SmartEmailValidation | src/aiValidationService.ts:37-120 | the result pushed step by step equals `Expected`: the input checks, the shape check, and otherwise `Accepted` on the split parts |
| Advisor.AdviseWellShaped | src/aiValidationService.ts:66-112 | a well-shaped address gets the rule messages, is marked valid, is scored before the fallback is pushed, and gets "looks good" only when nothing was pushed |
| Advisor.ApplyAdvisoryRules | src/aiValidationService.ts:68-105 | the seven rules push, in order, exactly the messages of `RuleSuggestions` and `RuleWarnings` |
| Advisor.ConfidenceScore | src/aiValidationService.ts:122-135 | the score is 0.9 less 0.1 per warning, less 0.3 when there are errors, floored at 0, and always within [0, 1] |
| Advisor.CalculateConfidence | src/aiValidationService.ts:122-135 | the local score, lowered step by step and clamped, equals `ConfidenceScore` |
| Advisor.CountPhrase | src/aiValidationService.ts:168 | a count phrase is non-empty and starts with a digit |
| Advisor.GetValidationSummary | src/aiValidationService.ts:154-176 | the summary grown part by part equals `Summary` |
| Advisor.Summary | src/aiValidationService.ts:154-176 | the summary by case: the failure text, the perfect text, one count phrase, or the suggestion phrase and the warning phrase joined by ", " |
| Advisor.BlankInputRejected | src/aiValidationService.ts:38-57 | a non-string, empty or blank input is invalid, scores 0, and has no suggestions or warnings; its one error is the non-string text for a non-string or "" and the blank text for whitespace; no other input has an error |
| Advisor.MalformedRejected | src/aiValidationService.ts:59-64 | a non-blank input whose trim fails the pattern gets exactly the format suggestion, no warning, no error, and a score of 0 |
| Advisor.ValidIffMatches | src/aiValidationService.ts:60-107 | the answer is valid exactly when the input is a string whose trim matches the pattern, whichever rules fire |
| Advisor.AcceptedSplitsAtTheAt | src/aiValidationService.ts:60-66 | on acceptance the trim has exactly one '@', and local part + "@" + domain rebuilds it; the local part is non-empty and the domain has an inner '.' |
| Advisor.AcceptedAs | src/aiValidationService.ts:60-66 | an input that trims to `l@b.c` is accepted with local part `l` and domain `b.c` |
| Advisor.AcceptedWarnings | src/aiValidationService.ts:69-100 | each warning is present exactly when its rule fires: typo-map key, disposable domain, local part over 64, domain over 253 |
| Advisor.AcceptedTypoSuggestion | src/aiValidationService.ts:69-72 | a typo-map domain gets "Did you mean local@corrected?", and no other correction is ever suggested |
| Advisor.AcceptedHints | src/aiValidationService.ts:80-105 | each hint is suggested exactly when its rule fires: keyword or short local part, long Gmail local part, single '+' |
| Advisor.PlusAliasForOnePlus | src/aiValidationService.ts:103-105 | the plus-alias hint is suggested exactly when the local part has one '+'; never for none, never for two or more |
| Advisor.HasSinglePlusIff | src/aiValidationService.ts:103 | "includes '+' and not again after the first" means exactly one '+' |
| Advisor.UnprofessionalIgnoresCase | src/aiValidationService.ts:80-84 | the keyword rule judges a local part and its lower-cased form alike |
| Advisor.AcceptedLooksGood | src/aiValidationService.ts:110-112 | "Email looks good!" is suggested exactly when no rule fires, and then it is the only suggestion |
| Advisor.AcceptedQuiet | src/aiValidationService.ts:107-112 | when no rule fires the answer is valid, with only "looks good", no warnings, a score of 0.9, and no errors |
| Advisor.AcceptedNeverBare | src/aiValidationService.ts:110-112 | an accepted answer always has a suggestion or a warning |
| Advisor.PushKeepsOrder | src/aiValidationService.ts:69-105 | pushing a message that ranks above everything already there keeps the list in rule order |
| Advisor.RankAtLeastIndex | src/aiValidationService.ts:69-105 | in a list in rule order, the i-th message has rank at least i |
| Advisor.WarningsBound | src/aiValidationService.ts:71-99 | a warning list in rule order has at most four entries |
| Advisor.WarningPushesInOrder | src/aiValidationService.ts:71-99 | the four warning rules, whichever fire, push their warnings in rule order |
| Advisor.SuggestionPushesInOrder | src/aiValidationService.ts:70-104 | the four suggestion rules, whichever fire, push their suggestions in rule order |
| Advisor.AcceptedWarningOrder | src/aiValidationService.ts:69-100 | warnings come only from the four warning rules, at most one each, in rule order, so there are at most four |
| Advisor.AcceptedSuggestionOrder | src/aiValidationService.ts:69-112 | suggestions come only from the suggestion rules and the fallback, at most one each, in rule order |
| Advisor.AcceptedConfidence | src/aiValidationService.ts:122-135 | on acceptance there is no error, and the score is 0.9 less 0.1 per warning, between 0.5 and 0.9 |
| Advisor.ConfidenceMonotone | src/aiValidationService.ts:122-135 | more warnings, or errors where there were none, never raise the score |
| Advisor.SummaryFailedIff | src/aiValidationService.ts:155-157 | the summary is "Email validation failed" exactly for an invalid result |
| Advisor.SummaryPerfectIff | src/aiValidationService.ts:159-164 | the summary is "Email is perfect!" exactly for a valid result with no suggestions and no warnings |
| Advisor.NeverPerfect | src/aiValidationService.ts:162-164 | no answer of the advisor is summarised as "Email is perfect!" |
| Advisor.CountPhrasePlural | src/aiValidationService.ts:168-173 | the noun takes an "s" exactly when the count is above one |
| Advisor.LeadingDigits | src/aiValidationService.ts:168 | the result is the longest prefix of decimal digits |
| Advisor.LeadingDigitsOfDigits | src/aiValidationService.ts:168 | digits followed by a non-digit read back as those digits |
| Advisor.CountPhraseReadsBack | src/aiValidationService.ts:168-173 | a count phrase, whatever follows it, reads back as its count |
| Advisor.SummaryCounts | src/aiValidationService.ts:166-176 | a valid result with entries has a summary that starts with the suggestion count, or with the warning count when there are no suggestions |
| Advisor.SummaryWarningCount | src/aiValidationService.ts:166-173 | with suggestions and warnings, the summary is the suggestion phrase, then ", ", then a text that reads back as the number of warnings |
| Advisor.SummaryExample | src/aiValidationService.ts:166-176 | two suggestions and one warning read "2 suggestions, 1 warning" |
| Advisor.TypoExample | src/aiValidationService.ts:69-72 | "user@gmial.com" is valid, is offered "user@gmail.com", and gets the typo warning |
| Advisor.DisposableExample | src/aiValidationService.ts:75-77 | "a@tempmail.com" is valid and gets the disposable-domain warning |
| Advisor.ProfessionalExample | src/aiValidationService.ts:80-86 | "test@example.org" gets the professional hint and no disposable warning |
| Advisor.LooksGoodExample | src/aiValidationService.ts:107-112 | "jane.doe@gmail.com" gets exactly "Email looks good!", no warning, and a score of 0.9 |
| Advisor.WarningOnlyExample | src/aiValidationService.ts:107-112 | "john.smith@tempmail.com" is valid, gets the disposable-domain warning as its only warning, and gets no suggestion at all |
| Advisor.JohnSmithIsWarnedOnly | src/aiValidationService.ts:69-112 | for "john.smith" at tempmail.com the suggestions are empty and the warnings are exactly the disposable-domain warning |
| Advisor.AbsentFirstChar | src/aiValidationService.ts:81 | a search string whose first character occurs at no possible start is not included |
| Backend.ValidateEmail | functions/src/index.ts:32-54 | a result is valid exactly when it carries no error |
| Backend.ErrorText | functions/src/index.ts:33-51 | the text reported for each of the four refusals |
| Backend.ValidationErrorOrder | functions/src/index.ts:33-51 | each error is reported exactly when every earlier test passes and its own fails: non-string or "", blank, no pattern match, trim over 254 |
| Backend.ValidIff | functions/src/index.ts:32-54 | an input is valid exactly when it is a string whose trim matches the pattern and has at most 254 characters |
| Backend.MalformedBeforeTooLong | functions/src/index.ts:43-51 | a malformed, non-blank input longer than 254 is reported as malformed, not as too long |
| Backend.BackendAgreesWithClient | functions/src/index.ts:43-44 | the backend accepts exactly what the client accepts and is at most 254 characters long once trimmed; within that length the two verdicts agree |
| Backend.Normalize | functions/src/index.ts:77 | `email.trim().toLowerCase()` |
| Backend.LowerOfTrimmed | functions/src/index.ts:77 | lower-casing a trimmed string leaves it trimmed |
| Backend.NormalizeIdempotent | functions/src/index.ts:77 | normalising a normalised email changes nothing |
| Backend.SamePositions | functions/src/index.ts:77 | two strings with a character at the same positions have the same count of it and the same first position |
| Backend.ShapeOfLower | functions/src/index.ts:77 | lower-casing neither makes nor breaks the email shape |
| Backend.NormalizeKeepsValidity | functions/src/index.ts:70-77 | a normalised email is valid exactly when the original was |
| Backend.RefusalMessage | functions/src/index.ts:73 | the validator's error text, or "Invalid email provided" when there is none |
| Backend.DecideSave | functions/src/index.ts:69-77 | refuse an invalid email with its message; otherwise store the normalised email |
| Backend.SaveDecisionSound | functions/src/index.ts:69-77 | a save is refused exactly for an invalid email, with the validator's own error, never the fallback text; the stored email is the normalised input, which is itself valid and already normalised |
| EmailStats.DomainKey | functions/src/index.ts:147 | the key is never empty and never contains '@' |
| EmailStats.TallyStep | functions/src/index.ts:146-150 | a record with a non-empty email adds one to its domain key's count, starting from 0; other records leave the tally alone |
| EmailStats.DomainTally | functions/src/index.ts:145-151 | the `domains` reduce from `{}`, one `TallyStep` per record in order |
| EmailStats.Occurrences | functions/src/index.ts:146-148 | the number of records with a non-empty email whose domain key is the given key, counted on its own |
| EmailStats.CountDomains | functions/src/index.ts:145-151 | the map updated in the loop is the fold; its keys are exactly the domain keys of records with a non-empty email; each count is the number of such records; the counts sum to the number of such records |
| EmailStats.TallyCounts | functions/src/index.ts:145-151 | the tally's keys are exactly the domain keys that occur, and each count is the number of records with that key |
| EmailStats.TallyKeys | functions/src/index.ts:146-148 | there is no empty key, and every count is at least one |
| EmailStats.SumValuesRemove | functions/src/index.ts:148 | removing one key takes that key's value off the sum |
| EmailStats.SumValuesUpdate | functions/src/index.ts:148 | setting one key's value changes the sum by the difference |
| EmailStats.TallySum | functions/src/index.ts:145-151 | the counts add up to the number of records with a non-empty email |
| EmailStats.LatestStep | functions/src/index.ts:153-157 | a record's timestamp replaces the running value when there is none yet or when it is strictly later |
| EmailStats.LastUpdated | functions/src/index.ts:152-158 | the `lastUpdated` reduce from `null`, one `LatestStep` per record in order |
| EmailStats.LastUpdatedIsLatest | functions/src/index.ts:152-158 | the fold gives null exactly when no record has a timestamp, and otherwise the greatest timestamp |
| EmailStats.LatestUnique | functions/src/index.ts:152-158 | a greatest timestamp is unique |
| EmailStats.LastUpdatedOrderFree | functions/src/index.ts:152-158 | the latest update does not depend on the order of the records |
| EmailStats.ComputeStats | functions/src/index.ts:140-159 | the statistics hold the record count, the domain tally and the latest update, and the tallied counts never exceed the record count |
| EmailStats.TalliedAtMostTotal | functions/src/index.ts:140-151 | at most as many records are tallied as there are |

Rule order. The typo rule is the only one that pushes onto both lists. `WarningRank` and `SuggestionRank` number the other rules by their position in the source. "Rule order" means that the ranks strictly increase along a list.

An accepted address need not have a suggestion. The fallback at `src/aiValidationService.ts:110-112` pushes "Email looks good!" only when there are no suggestions *and* no warnings. So an address that only warning rules flag has an empty suggestion list: `Advisor.WarningOnlyExample` proves that `john.smith@tempmail.com` gets the disposable warning and no suggestion. The model proves the property that does hold, in `Advisor.AcceptedNeverBare`: there is always a suggestion or a warning. From that, `Advisor.NeverPerfect` follows.

Why the typo map is a plain map. `commonEmailTypos[domain]` also looks up keys that objects inherit, such as `constructor` and `toString`. None of those names contains a '.'. The shape check guarantees an inner '.' in every domain the rules see. So, on that domain, the plain map in the model answers exactly as the object lookup does.

## Left out

- `createDebouncedValidator` (`src/aiValidationService.ts:138-151`) is left out: it is timers and callbacks, not sequential logic.
- Firestore reads and writes, `admin.initializeApp`, the `onCall` wrappers and their promise chains are left out: they are I/O through libraries outside this model. Also left out:
  - `loadRamenPreference` and the delete endpoint;
  - the `then`/`catch` responses;
  - the server timestamps.
- `createResponse` reads the clock, and the `console` calls write logs. Both are left out.
- `src/emailService.ts` is not part of this model: it is an HTTP client. `src/firebase.ts` is not part of this model: it is configuration.
- `src/messages.ts` and `src/types.ts` are not part of this model: they declare constants and interfaces. The result record is reused as `Advisor.EmailValidationResult`.
- Advisor.SmartEmailValidation: leaves out the `try/catch` at `src/aiValidationService.ts:114-117`. Nothing in the body throws on a string input, so the branch is unreachable here.
- Advisor.ConfidenceScore: counts whole tenths instead of IEEE doubles. So it does not model the rounding error of `0.9 - n * 0.1` in double arithmetic.
- JsString.ToLowerCase: maps only the ASCII letters A-Z. Full Unicode case mapping can change a string's length; the ASCII mapping does not. The normalisation lemmas rely on this.
- JsString.IsWhitespace: is a fixed list of the ECMAScript whitespace and line-terminator code points. A Dafny `char` is a Unicode scalar value. So `length` counts a character outside the Basic Multilingual Plane once, where JavaScript counts two UTF-16 code units. Also, lone surrogates cannot be written.
- Advisor.Text: the model pushes message codes, which `Advisor.Text` renders. The properties are stated about the codes, not about the rendered strings. In particular, that different codes render as different texts is not proved: facts about the characters of long string literals are beyond the solver's budget here.
- EmailStats.CountDomains: treats the accumulator `{}` as a dictionary with no entries. It does not model names that `{}` inherits. A stored email whose domain key is one of them gives a different result in JavaScript. For `constructor`, `acc[domain]` is the inherited function, so `(acc[domain] || 0) + 1` makes a string. For `__proto__`, `acc['__proto__']` reads `Object.prototype`, so `+ 1` gives the string "[object Object]1"; the `__proto__` setter ignores a value that is not an object, so the assignment does nothing and those records never appear in `domains`. The model captures neither. Domain keys come from stored emails, and only normalised, well-shaped emails are stored; their domain keys contain a '.', which no inherited name does.
- EmailStats.LastUpdated: timestamps are integers. Invalid `Date`s (NaN, which compares false both ways) are not modelled. When two timestamps are equal, the fold keeps the earlier record's `Date` object. Object identity is not observable once the result is serialised, so the model keeps only the value.
- EmailStats.ComputeStats: `totalEmails` is taken as the number of records, which is `snapshot.size` for a query without a limit.
- Object key order in the returned `domains` dictionary is not modelled: a Dafny `map` has none.
