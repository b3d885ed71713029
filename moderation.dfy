/** The rule-based message classifier of the `/moderate` endpoint.
    The rules run in a fixed order and the first one that fires decides:
    a banned word (case ignored) makes the message "Abusive/Spam";
    otherwise a digit together with '+' or '@' makes it "Sensitive";
    otherwise it is "Safe". */
module Moderation {
  import opened Text

  /** The closed set of statuses the rules can produce. */
  datatype Status = Safe | AbusiveSpam | Sensitive

  /** A status together with the fixed human-readable reason for it. */
  datatype Verdict = Verdict(status: Status, reason: string)

  /** The status as it appears in the JSON reply. */
  function StatusName(s: Status): string {
    match s
    case Safe => "Safe"
    case AbusiveSpam => "Abusive/Spam"
    case Sensitive => "Sensitive"
  }

  /** The reason string that goes with each status. */
  function ReasonFor(s: Status): string {
    match s
    case Safe => "Message is clean."
    case AbusiveSpam => "Contains suspicious or abusive words."
    case Sensitive => "Message contains phone number or email."
  }

  const BannedWords: seq<string> := ["abuse", "scam", "fraud"]

  /** Some banned word is a substring of the lowercased text. */
  predicate HasBannedWord(text: string) {
    exists w | w in BannedWords :: ContainsSubstring(ToLower(text), w)
  }

  /** The raw text holds a '+' or an '@'. */
  predicate HasContactMark(text: string) {
    '+' in text || '@' in text
  }

  /** The verdict of the rules: the default, then the if/elif chain. */
  function Classify(text: string): (v: Verdict)
    ensures v.reason == ReasonFor(v.status)
  {
    if HasBannedWord(text) then Verdict(AbusiveSpam, ReasonFor(AbusiveSpam))
    else if HasDigit(text) && HasContactMark(text) then Verdict(Sensitive, ReasonFor(Sensitive))
    else Verdict(Safe, ReasonFor(Safe))
  }

  /** The JSON body returned by `/moderate`. */
  datatype ModerationReply = ModerationReply(status: string, reason: string, aiReasoning: string)

  /** The handler body: defaults assigned first, then overwritten by the
      first rule that fires. The model's answer `aiReasoning` comes from the
      outbound API call, which is not modelled; it is passed in and copied
      into the reply unchanged, and the rule verdict does not depend on it. */
  method Moderate(text: string, aiReasoning: string) returns (reply: ModerationReply)
    ensures reply.status in {"Safe", "Abusive/Spam", "Sensitive"}
    ensures reply.status == StatusName(Classify(text).status)
    ensures reply.reason == Classify(text).reason
    ensures reply.aiReasoning == aiReasoning
  {
    var status := "Safe";
    var reason := "Message is clean.";
    if HasBannedWord(text) {
      status := "Abusive/Spam";
      reason := "Contains suspicious or abusive words.";
    } else if HasDigit(text) && HasContactMark(text) {
      status := "Sensitive";
      reason := "Message contains phone number or email.";
    }
    reply := ModerationReply(status, reason, aiReasoning);
  }

  /** The three status names are distinct, so the reply's status string
      determines the status. */
  lemma StatusNameInjective(s: Status, t: Status)
    ensures StatusName(s) == StatusName(t) <==> s == t
  {
    if s != t {
      assert StatusName(s)[0] != StatusName(t)[0] || |StatusName(s)| != |StatusName(t)|;
    }
  }

  /** A banned word anywhere in the lowercased text, at any position, makes
      the message "Abusive/Spam" with the abusive-words reason, and nothing
      else does. */
  lemma AbusiveIffBannedWord(text: string)
    ensures Classify(text).status == AbusiveSpam
        <==> exists w, i :: w in BannedWords && OccursAt(ToLower(text), w, i)
    ensures Classify(text).status == AbusiveSpam
        ==> Classify(text).reason == "Contains suspicious or abusive words."
  {
    var lower := ToLower(text);
    ContainsSubstringIff(lower, "abuse");
    ContainsSubstringIff(lower, "scam");
    ContainsSubstringIff(lower, "fraud");
  }

  /** The banned-word rule comes first: a text with a banned word is
      "Abusive/Spam" even when it also holds a digit and '+' or '@'. */
  lemma BannedWordTakesPrecedence(text: string, w: string, i: int)
    requires w in BannedWords && OccursAt(ToLower(text), w, i)
    requires HasDigit(text) && HasContactMark(text)
    ensures Classify(text).status == AbusiveSpam
    ensures Classify(text).status != Sensitive
  {
    ContainsSubstringIff(ToLower(text), w);
  }

  /** A text is "Sensitive" exactly when it has no banned word, some
      position holds a digit, and '+' or '@' occurs in it. */
  lemma SensitiveIff(text: string)
    ensures Classify(text).status == Sensitive
        <==> && !HasBannedWord(text)
             && (exists i :: 0 <= i < |text| && IsDigit(text[i]))
             && ('+' in text || '@' in text)
    ensures Classify(text).status == Sensitive
        ==> Classify(text).reason == "Message contains phone number or email."
  {
    HasDigitIff(text);
  }

  /** Every other text is "Safe" with the clean-message reason: no banned
      word occurs in the lowercased text, and the raw text either has no
      digit or has neither '+' nor '@'. */
  lemma SafeOtherwise(text: string)
    ensures Classify(text).status == Safe
        <==> && (forall w, i :: w in BannedWords ==> !OccursAt(ToLower(text), w, i))
             && ((forall i :: 0 <= i < |text| ==> !IsDigit(text[i])) || ('+' !in text && '@' !in text))
    ensures Classify(text).status == Safe ==> Classify(text).reason == "Message is clean."
  {
    AbusiveIffBannedWord(text);
    HasDigitIff(text);
  }

  /** Every verdict carries the reason of its status, and the three reasons
      are distinct, so the status and the reason determine each other. */
  lemma ReasonDeterminedByStatus(a: string, b: string)
    ensures Classify(a).reason == ReasonFor(Classify(a).status)
    ensures StatusName(Classify(a).status) in {"Safe", "Abusive/Spam", "Sensitive"}
    ensures Classify(a).status == Classify(b).status <==> Classify(a).reason == Classify(b).reason
  {
    var r, q := ReasonFor(Classify(a).status), ReasonFor(Classify(b).status);
    if Classify(a).status != Classify(b).status {
      assert |r| != |q|;
    }
  }

  /** Lowercasing only touches letters, so the digit test agrees on two
      texts that lowercase alike. */
  lemma SameLowerSameDigits(a: string, b: string)
    requires ToLower(a) == ToLower(b)
    ensures HasDigit(a) == HasDigit(b)
  {
    HasDigitIff(a);
    HasDigitIff(b);
    if HasDigit(a) {
      var i :| 0 <= i < |a| && IsDigit(a[i]);
      SameLowerKeepsNonLetters(a, b, i);
    }
    if HasDigit(b) {
      var i :| 0 <= i < |b| && IsDigit(b[i]);
      SameLowerKeepsNonLetters(b, a, i);
    }
  }

  /** Likewise for the '+'/'@' test. */
  lemma SameLowerSameContactMark(a: string, b: string)
    requires ToLower(a) == ToLower(b)
    ensures HasContactMark(a) == HasContactMark(b)
  {
    forall c | c == '+' || c == '@'
      ensures c in a <==> c in b
    {
      if c in a {
        var i :| 0 <= i < |a| && a[i] == c;
        SameLowerKeepsNonLetters(a, b, i);
      }
      if c in b {
        var i :| 0 <= i < |b| && b[i] == c;
        SameLowerKeepsNonLetters(b, a, i);
      }
    }
  }

  /** Case does not matter to the classifier: two texts that differ only in
      the case of their letters get the same verdict. The banned-word test
      reads the lowercased text; the digit and '+'/'@' tests read the raw
      text, but lowercasing leaves those characters alone. */
  lemma ClassifyIgnoresCase(a: string, b: string)
    requires ToLower(a) == ToLower(b)
    ensures Classify(a) == Classify(b)
  {
    SameLowerSameDigits(a, b);
    SameLowerSameContactMark(a, b);
  }

  /** In particular a text and its lowercase form get the same verdict. */
  lemma ClassifyOfLowercase(text: string)
    ensures Classify(ToLower(text)) == Classify(text)
  {
    ToLowerIdempotent(text);
    ClassifyIgnoresCase(ToLower(text), text);
  }

  /** Text added before or after an "Abusive/Spam" message cannot make it
      less so: the banned word is still a substring. */
  lemma AbusiveSurvivesExtension(a: string, b: string, c: string)
    requires Classify(b).status == AbusiveSpam
    ensures Classify(a + b + c).status == AbusiveSpam
  {
    AbusiveIffBannedWord(b);
    var w, i :| w in BannedWords && OccursAt(ToLower(b), w, i);
    ToLowerAppend(a, b);
    ToLowerAppend(a + b, c);
    OccursInExtension(ToLower(a), ToLower(b), ToLower(c), w, i);
    AbusiveIffBannedWord(a + b + c);
  }

  /** "SCAM", "Scam" and "scam" classify alike, as "Abusive/Spam". */
  lemma ScamInAnyCase()
    ensures Classify("SCAM") == Classify("Scam") == Classify("scam")
    ensures Classify("scam").status == AbusiveSpam
  {
    assert ToLower("SCAM") == "scam" == ToLower("Scam");
    BannedWordAloneIsAbusive("scam");
  }

  /** A banned word that is the whole text. */
  lemma BannedWordAloneIsAbusive(w: string)
    requires w in BannedWords
    ensures Classify(w).status == AbusiveSpam
  {
    assert OccursAt(ToLower(w), w, 0);
    AbusiveIffBannedWord(w);
  }

  /** A text none of whose characters lowercases to some letter of each
      banned word has no banned word. */
  lemma NoBannedWordWhenLettersMissing(text: string, a: char, s: char, f: char)
    requires a in "abuse" && LacksLetter(text, a)
    requires s in "scam" && LacksLetter(text, s)
    requires f in "fraud" && LacksLetter(text, f)
    ensures !HasBannedWord(text)
  {
    var lower := ToLower(text);
    var ka :| 0 <= ka < 5 && "abuse"[ka] == a;
    var ks :| 0 <= ks < 4 && "scam"[ks] == s;
    var kf :| 0 <= kf < 5 && "fraud"[kf] == f;
    LetterAbsentFromLower(text, a);
    LetterAbsentFromLower(text, s);
    LetterAbsentFromLower(text, f);
    MissingCharExcludes(lower, "abuse", ka);
    MissingCharExcludes(lower, "scam", ks);
    MissingCharExcludes(lower, "fraud", kf);
  }

  /** A banned word wins over a digit next to an '@'. */
  lemma ExampleBannedAndContact()
    ensures Classify("scam me at a1@b").status == AbusiveSpam
  {
    BannedWordAloneIsAbusive("scam");
    AbusiveSurvivesExtension("", "scam", " me at a1@b");
    assert "" + "scam" + " me at a1@b" == "scam me at a1@b";
  }

  /** A text that misses a letter of each banned word and holds no digit
      is "Safe". */
  lemma SafeWhenLettersAndDigitsMissing(text: string, a: char, s: char, f: char)
    requires a in "abuse" && LacksLetter(text, a)
    requires s in "scam" && LacksLetter(text, s)
    requires f in "fraud" && LacksLetter(text, f)
    requires forall i :: 0 <= i < |text| ==> !IsDigit(text[i])
    ensures Classify(text).status == Safe
  {
    NoBannedWordWhenLettersMissing(text, a, s, f);
    HasDigitIff(text);
  }

  /** A text that misses a letter of each banned word and holds a digit and
      a '+' or '@' is "Sensitive". */
  lemma SensitiveWhenLettersMissing(text: string, a: char, s: char, f: char, d: int, m: int)
    requires a in "abuse" && LacksLetter(text, a)
    requires s in "scam" && LacksLetter(text, s)
    requires f in "fraud" && LacksLetter(text, f)
    requires 0 <= d < |text| && IsDigit(text[d])
    requires 0 <= m < |text| && (text[m] == '+' || text[m] == '@')
    ensures Classify(text).status == Sensitive
  {
    NoBannedWordWhenLettersMissing(text, a, s, f);
    HasDigitIff(text);
  }

  /** A digit and a '+' without a banned word are "Sensitive". */
  lemma ExampleContact()
    ensures Classify("call me on +91 98").status == Sensitive
  {
    SensitiveWhenLettersMissing("call me on +91 98", 's', 's', 'f', 12, 11);
  }

  /** Digits and an '@' without a banned word are "Sensitive". */
  lemma ExampleEmailAndNumber()
    ensures Classify("call me 12345 or a@b.com").status == Sensitive
  {
    SensitiveWhenLettersMissing("call me 12345 or a@b.com", 's', 's', 'f', 8, 18);
  }

  /** A text with neither banned word nor contact detail is "Safe". */
  lemma ExampleClean()
    ensures Classify("Still there?").status == Safe
  {
    SafeWhenLettersAndDigitsMissing("Still there?", 'u', 'c', 'f');
  }

  /** A plain question about the listing is "Safe". */
  lemma ExampleQuestion()
    ensures Classify("Is this still available?").status == Safe
  {
    SafeWhenLettersAndDigitsMissing("Is this still available?", 'u', 'c', 'f');
  }
}
