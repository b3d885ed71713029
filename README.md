# Marketplace agents: moderation rules and condition adjustment

This project models, in Dafny, the two deterministic pieces of a small
FastAPI service with two endpoints.

- `/moderate` classifies a chat message with a chain of rules, in a fixed
  order where the first rule that fires wins. The message starts out as
  "Safe" with reason "Message is clean.". If the lowercased text contains
  "abuse", "scam" or "fraud", it becomes "Abusive/Spam" with reason
  "Contains suspicious or abusive words.". Otherwise, if the raw text holds
  a digit and also a '+' or an '@', it becomes "Sensitive" with reason
  "Message contains phone number or email.".
- `/negotiate` scales a depreciated price estimate by a factor chosen from
  the listing's condition string. The string "Like New" multiplies it by
  1.1 and "Fair" by 0.8. Every other string leaves it unchanged. The
  comparison is exact.

The files:

- `text.dfy` (module `Text`): lowercasing, the digit scan and the
  substring search, each with a lemma tying it to a plain quantified
  definition.
- `moderation.dfy` (module `Moderation`): statuses, verdicts, the
  classifier `Classify` and the handler body `Moderate`, which assigns the
  defaults and then overwrites them. It also holds the lemmas on
  precedence, exhaustiveness, reasons and case-insensitivity.
- `pricing.dfy` (module `Pricing`): the condition dispatch, its factor,
  the `*=` update as a method, and the ordering of the factors.

The reply of the outbound language-model call is an opaque string. The
model takes it as the parameter `aiReasoning` of `Moderate` and copies it
into the reply unchanged. The rule verdict never depends on it.

## Model

| member | source | states |
|---|---|---|
| `Text.LowerChar` | main.py:111 | ASCII uppercase letters go to their lowercase form (code point plus 32); every other character is unchanged; the result is never uppercase |
| `Text.ToLower` | main.py:111 | the ASCII lowercasing that stands for `text.lower()` keeps the length and lowercases each position independently |
| `Text.HasDigit` | main.py:114 | `any(char.isdigit() for char in text)` as a front-to-back scan; characterised by `Text.HasDigitIff` |
| `Text.ContainsSubstring` | main.py:111 | Python's `word in text`, tried at successive start positions; characterised by `Text.ContainsSubstringIff` |
| `Text.ToLowerIdempotent` | main.py:111 | lowercasing an already lowercased text changes nothing |
| `Text.ToLowerAppend` | main.py:111 | lowercasing a concatenation is the concatenation of the lowercased parts |
| `Text.HasDigitIff` | main.py:114 | the front-to-back digit scan succeeds exactly when some position of the raw text holds '0'..'9' |
| `Text.ContainsSubstringIff` | main.py:111 | the substring search tried at successive start positions succeeds exactly when the word occurs contiguously at some position |
| `Text.MissingCharExcludes` | main.py:111 | a text lacking one of a word's characters does not contain the word |
| `Text.LetterAbsentFromLower` | main.py:111 | no character lowercases to a given lowercase letter exactly when the letter is absent from the lowercased text, and exactly when the raw text lacks it in both cases |
| `Text.SameLowerKeepsNonLetters` | main.py:111-114 | two texts that lowercase alike agree at every position holding a non-letter, such as a digit, '+' or '@' |
| `Moderation.StatusName` | main.py:108-115 | the status string of the JSON reply; the three names are pairwise distinct by `Moderation.StatusNameInjective` |
| `Moderation.ReasonFor` | main.py:109-116 | the fixed reason of each status; the reasons are pairwise distinct by `Moderation.ReasonDeterminedByStatus` |
| `Moderation.HasBannedWord` | main.py:111 | some banned word is a substring of the lowercased text; characterised by `Moderation.AbusiveIffBannedWord` |
| `Moderation.HasContactMark` | main.py:114 | '+' or '@' occurs in the raw text; compared across case by `Moderation.SameLowerSameContactMark` |
| `Moderation.Classify` | main.py:108-116 | the verdict of the default-then-overwrite chain, whose reason is always that of its status; characterised by `Moderation.AbusiveIffBannedWord`, `Moderation.SensitiveIff` and `Moderation.SafeOtherwise` |
| `Moderation.Moderate` | main.py:104-130 | the handler's default-then-overwrite assignments produce one of the three status names, equal to the classifier's verdict, with its reason; the model's reasoning string is passed through untouched |
| `Moderation.AbusiveIffBannedWord` | main.py:111-113 | the verdict is "Abusive/Spam" exactly when one of "abuse", "scam", "fraud" occurs at some position of the lowercased text, and its reason is then "Contains suspicious or abusive words." |
| `Moderation.BannedWordTakesPrecedence` | main.py:111-116 | a text with a banned word and also a digit and '+' or '@' is "Abusive/Spam", never "Sensitive" |
| `Moderation.SensitiveIff` | main.py:114-116 | the verdict is "Sensitive" exactly when there is no banned word, some position holds a digit, and '+' or '@' occurs; its reason is then "Message contains phone number or email." |
| `Moderation.SafeOtherwise` | main.py:108-116 | the verdict is "Safe" exactly when no banned word occurs and the text lacks either a digit or both '+' and '@'; its reason is then "Message is clean." |
| `Moderation.ReasonDeterminedByStatus` | main.py:108-116 | every verdict's reason is the fixed reason of its status, the status is one of the three names, and two verdicts have the same status exactly when they have the same reason |
| `Moderation.StatusNameInjective` | main.py:108-115 | the three status strings are pairwise distinct |
| `Moderation.SameLowerSameDigits` | main.py:111-114 | two texts that lowercase alike agree on the raw-text digit test |
| `Moderation.SameLowerSameContactMark` | main.py:111-114 | two texts that lowercase alike agree on the raw-text '+'/'@' test |
| `Moderation.ClassifyIgnoresCase` | main.py:111-116 | two texts that differ only in the case of letters get the same verdict, although the digit and '+'/'@' tests read the raw text |
| `Moderation.ClassifyOfLowercase` | main.py:111-116 | a text and its lowercase form get the same verdict |
| `Moderation.AbusiveSurvivesExtension` | main.py:111-113 | adding text before or after an "Abusive/Spam" message keeps it "Abusive/Spam" |
| `Moderation.NoBannedWordWhenLettersMissing` | main.py:111 | a text in which no character lowercases to some letter of each banned word has no banned word |
| `Moderation.SafeWhenLettersAndDigitsMissing` | main.py:108-116 | such a text with no digit is "Safe" |
| `Moderation.SensitiveWhenLettersMissing` | main.py:114-116 | such a text with a digit and a '+' or '@' is "Sensitive" |
| `Moderation.BannedWordAloneIsAbusive` | main.py:111-113 | each banned word on its own is "Abusive/Spam" |
| `Moderation.ScamInAnyCase` | main.py:111-113 | "SCAM", "Scam" and "scam" get the same verdict, "Abusive/Spam" |
| `Moderation.ExampleBannedAndContact` | main.py:111-116 | "scam me at a1@b" is "Abusive/Spam" |
| `Moderation.ExampleContact` | main.py:114-116 | "call me on +91 98" is "Sensitive" |
| `Moderation.ExampleEmailAndNumber` | main.py:114-116 | "call me 12345 or a@b.com" is "Sensitive" |
| `Moderation.ExampleClean` | main.py:108-116 | "Still there?" is "Safe" |
| `Moderation.ExampleQuestion` | main.py:108-116 | "Is this still available?" is "Safe" |
| `Pricing.ClassOf` | main.py:78-81 | the condition string takes the "Like New" branch exactly when it equals "Like New", the "Fair" branch exactly when it equals "Fair", and no branch otherwise |
| `Pricing.Factor` | main.py:79-81 | the multiplier of each branch, always positive: 11/10 for "Like New", 8/10 for "Fair", 1 otherwise; ordered by `Pricing.FactorsOrdered` |
| `Pricing.ConditionFactor` | main.py:78-81 | the selected factor is 11/10 for "Like New", 8/10 for "Fair", 1 for every other string, and always positive |
| `Pricing.ApplyCondition` | main.py:78-81 | the in-place update leaves the estimate multiplied by the selected factor, and untouched for an unrecognised condition |
| `Pricing.FactorsOrdered` | main.py:78-81 | the "Like New" factor exceeds the neutral factor, which exceeds the "Fair" factor |
| `Pricing.AdjustedValueOrdered` | main.py:78-81 | for a positive estimate, "Like New" gives more than any unrecognised condition, which gives more than "Fair"; zero stays zero; a negative estimate is ordered the other way |
| `Pricing.MatchIsExact` | main.py:78-81 | "like new", "fair" and "Like New " get factor 1, not an adjustment |

## Left out

- `call_groq` (main.py:39-64): an HTTPS request, JSON decoding and a lookup of the reply text. It is I/O. Only the lookup at main.py:61 sits inside the `try`, so only a JSON reply without `choices[0].message.content` falls back to the sentinel "Error from Groq API". A failed POST (main.py:54-58) or a body that is not JSON (main.py:59) raises out of `call_groq`, and then out of `moderate` (main.py:124) and `negotiate` (main.py:94), so no status or reason is returned at all. The reply appears only as the opaque parameter `aiReasoning` of `Moderate`.
- `Moderation.Moderate`: models only the runs where the outbound call returns a string. It does not capture the runs where that call raises and the handler returns no reply.
- Prompt construction (main.py:89-93, 119-123): string templates that only feed the outbound call.
- Depreciation and the price range (main.py:74-76, 83-86): a floating-point power `0.95 ** (age/12)` and Python's `round` on doubles. They have no exact counterpart without a model of IEEE floating point. Hence `ApplyCondition` takes the depreciated estimate as a parameter.
- `Pricing.ApplyCondition`: multiplies exact rationals, so the rounding of the floating-point `*= 1.1` and `*= 0.8` is not modelled. So `Pricing.AdjustedValueOrdered` holds of the exact factors, not always of the doubles. For a tiny positive estimate the strict order can collapse. For example, the smallest subnormal double 2^-1074 times 1.1 and times 0.8 both round back to 2^-1074. The estimate gets that small for `asking_price = 1` and `age_months` around 174000, which the integer schema allows.
- The `negotiate` response assembly (main.py:96-99): it only packages the range and the outbound reply.
- Application wiring (main.py:1-35): FastAPI creation, CORS middleware, the `Product` and `Message` schemas and their validation.
- Reading the API key from the environment (main.py:9-10).
- `Text.ToLower`: uses ASCII lowercasing ('A'..'Z' to 'a'..'z'), not Python's full Unicode `str.lower()`. No non-ASCII character lowercases to a string containing any of the letters a, b, c, d, e, f, m, r, s, u of the banned words. So this simplification does not change the banned-word verdict. The digit test also reads the raw text. The only simplification that can change a verdict is the next one.
- `Text.HasDigitIff`: digits are '0'..'9' only, not every character Python's `str.isdigit()` accepts (such as superscripts or other scripts' digits).
