/** Character and string tests used by the moderation rules.
    Python's `str.lower()` and `str.isdigit()` are modelled on ASCII only:
    lowercasing maps 'A'..'Z' to 'a'..'z' and leaves every other character
    alone, and a digit is one of '0'..'9'. */
module Text {

  predicate IsUpper(c: char) {
    'A' <= c <= 'Z'
  }

  predicate IsDigit(c: char) {
    '0' <= c <= '9'
  }

  /** The lowercase form of one character. */
  function LowerChar(c: char): (d: char)
    ensures IsUpper(c) ==> d as int == c as int + 32
    ensures !IsUpper(c) ==> d == c
    ensures !IsUpper(d)
  {
    if IsUpper(c) then (c as int + 32) as char else c
  }

  /** `text.lower()`: every character lowercased, position by position. */
  function ToLower(s: string): (r: string)
    ensures |r| == |s|
    ensures forall i :: 0 <= i < |s| ==> r[i] == LowerChar(s[i])
  {
    if s == [] then [] else [LowerChar(s[0])] + ToLower(s[1..])
  }

  /** `any(char.isdigit() for char in text)`, scanning from the front. */
  function HasDigit(s: string): bool {
    if s == [] then false
    else if IsDigit(s[0]) then true
    else HasDigit(s[1..])
  }

  /** The scan finds a digit exactly when some position holds one. */
  lemma {:induction false} HasDigitIff(s: string)
    ensures HasDigit(s) <==> exists i :: 0 <= i < |s| && IsDigit(s[i])
    decreases |s|
  {
    if s != [] && !IsDigit(s[0]) {
      HasDigitIff(s[1..]);
      assert forall i :: 1 <= i < |s| ==> s[i] == s[1..][i - 1];
    }
  }

  /** `w` stands in `s` starting at position `i`. */
  predicate OccursAt(s: string, w: string, i: int) {
    0 <= i && i + |w| <= |s| && s[i..i + |w|] == w
  }

  /** Python's `w in s` for strings, tried at each start position in turn
      (the empty string is a substring of every string). */
  function ContainsSubstring(s: string, w: string): bool
    decreases |s|
  {
    if |w| > |s| then false
    else if s[..|w|] == w then true
    else ContainsSubstring(s[1..], w)
  }

  /** The search succeeds exactly when `w` occurs somewhere in `s`. */
  lemma {:induction false} ContainsSubstringIff(s: string, w: string)
    ensures ContainsSubstring(s, w) <==> exists i :: OccursAt(s, w, i)
    decreases |s|
  {
    if |w| > |s| {
      assert forall i :: !OccursAt(s, w, i);
    } else if s[..|w|] == w {
      assert OccursAt(s, w, 0);
    } else {
      ContainsSubstringIff(s[1..], w);
      assert !OccursAt(s, w, 0);
      ShiftOccurrence(s, w);
    }
  }

  /** An occurrence in `s` past the front is an occurrence in `s[1..]`, one place earlier. */
  lemma ShiftOccurrence(s: string, w: string)
    requires s != []
    ensures forall i :: 1 <= i ==> (OccursAt(s, w, i) <==> OccursAt(s[1..], w, i - 1))
    ensures forall j :: OccursAt(s[1..], w, j) ==> OccursAt(s, w, j + 1)
  {
    forall i | 1 <= i
      ensures OccursAt(s, w, i) <==> OccursAt(s[1..], w, i - 1)
    {
      if i + |w| <= |s| {
        assert s[1..][i - 1..i - 1 + |w|] == s[i..i + |w|];
      }
    }
  }

  /** Lowercasing twice is lowercasing once. */
  lemma ToLowerIdempotent(s: string)
    ensures ToLower(ToLower(s)) == ToLower(s)
  {
    var t := ToLower(s);
    assert forall i :: 0 <= i < |t| ==> ToLower(t)[i] == t[i];
  }

  /** Lowercasing distributes over concatenation. */
  lemma ToLowerAppend(a: string, b: string)
    ensures ToLower(a + b) == ToLower(a) + ToLower(b)
  {
    var l, r := ToLower(a + b), ToLower(a) + ToLower(b);
    assert |l| == |r|;
    forall i | 0 <= i < |l| ensures l[i] == r[i] {
      if i < |a| {
        assert (a + b)[i] == a[i];
      } else {
        assert (a + b)[i] == b[i - |a|];
      }
    }
  }

  /** An occurrence of `w` in `b` is still an occurrence once text is added around `b`. */
  lemma OccursInExtension(a: string, b: string, c: string, w: string, i: int)
    requires OccursAt(b, w, i)
    ensures OccursAt(a + b + c, w, |a| + i)
  {
    assert (a + b + c)[|a| + i..|a| + i + |w|] == b[i..i + |w|];
  }

  /** Two strings that lowercase alike have the same characters wherever
      one of them holds a character that lowercasing leaves fixed and that
      no uppercase letter lowercases to (digits, '+', '@'). */
  lemma SameLowerKeepsNonLetters(a: string, b: string, i: int)
    requires ToLower(a) == ToLower(b)
    requires 0 <= i < |a|
    requires !('a' <= a[i] <= 'z') && !IsUpper(a[i])
    ensures i < |b| && b[i] == a[i]
  {
    assert ToLower(a)[i] == ToLower(b)[i];
  }

  /** A string that lacks one of the characters of `w` cannot contain `w`. */
  lemma MissingCharExcludes(s: string, w: string, k: int)
    requires 0 <= k < |w| && w[k] !in s
    ensures !ContainsSubstring(s, w)
  {
    ContainsSubstringIff(s, w);
  }

  /** Text with no uppercase letter is its own lowercase form. */
  lemma ToLowerOfLowercase(s: string)
    requires forall i :: 0 <= i < |s| ==> !IsUpper(s[i])
    ensures ToLower(s) == s
  {
  }

  /** No character of `s` lowercases to `c`. */
  predicate LacksLetter(s: string, c: char) {
    forall i :: 0 <= i < |s| ==> LowerChar(s[i]) != c
  }

  /** A lowercase letter that no character lowercases to is absent from the
      lowercased text; for a letter that means the raw text lacks it in both
      cases. */
  lemma LetterAbsentFromLower(s: string, c: char)
    requires 'a' <= c <= 'z'
    ensures LacksLetter(s, c) <==> c !in ToLower(s)
    ensures LacksLetter(s, c) <==> c !in s && (c as int - 32) as char !in s
  {
  }
}
