/** The string operations the point-of-sale code relies on: `Trim`,
    `ToLower`, `ToUpper`, `string.IsNullOrWhiteSpace`, `string.Contains`,
    `char.IsLetterOrDigit` and ordinal case-insensitive equality.
    Characters are treated as ASCII: the culture-specific and Unicode parts
    of the .NET versions are not modelled.

    The functions carry no postconditions of their own; what they guarantee
    is stated by the lemmas below, which callers invoke where they need
    them. This keeps every other proof from unfolding string internals. */
module Text {

  /** Space and the ASCII control whitespace characters tab, line feed,
      vertical tab, form feed and carriage return (code points 9 to 13). */
  predicate IsWhite(c: char) {
    c == ' ' || 9 <= c as int <= 13
  }

  /** `string.IsNullOrWhiteSpace`: every character is whitespace. */
  predicate IsBlank(s: string) {
    forall i :: 0 <= i < |s| ==> IsWhite(s[i])
  }

  predicate IsUpper(c: char) { 'A' <= c <= 'Z' }

  predicate IsLower(c: char) { 'a' <= c <= 'z' }

  predicate IsDigit(c: char) { '0' <= c <= '9' }

  /** `char.IsLetterOrDigit`, restricted to ASCII. */
  predicate IsLetterOrDigit(c: char) {
    IsUpper(c) || IsLower(c) || IsDigit(c)
  }

  function LowerChar(c: char): char {
    if IsUpper(c) then (c as int + 32) as char else c
  }

  function UpperChar(c: char): char {
    if IsLower(c) then (c as int - 32) as char else c
  }

  /** Drops leading whitespace. */
  function TrimStart(s: string): string {
    if |s| > 0 && IsWhite(s[0]) then TrimStart(s[1..]) else s
  }

  /** Drops trailing whitespace. */
  function TrimEnd(s: string): string {
    if |s| > 0 && IsWhite(s[|s| - 1]) then TrimEnd(s[..|s| - 1]) else s
  }

  /** `string.Trim`. */
  function Trim(s: string): string {
    TrimEnd(TrimStart(s))
  }

  /** `string.ToLower` on ASCII letters. */
  function ToLower(s: string): string {
    if s == [] then [] else [LowerChar(s[0])] + ToLower(s[1..])
  }

  /** `string.ToUpper` on ASCII letters. */
  function ToUpper(s: string): string {
    if s == [] then [] else [UpperChar(s[0])] + ToUpper(s[1..])
  }

  /** The barcode key used throughout the program: `s.Trim().ToLower()`. */
  function Normalize(s: string): string {
    ToLower(Trim(s))
  }

  /** `string.Equals(a, b, StringComparison.OrdinalIgnoreCase)`. */
  predicate EqualsIgnoreCase(a: string, b: string) {
    ToUpper(a) == ToUpper(b)
  }

  /** `new string(s.Where(char.IsLetterOrDigit).ToArray())`. */
  function KeepLettersAndDigits(s: string): string {
    if s == [] then []
    else if IsLetterOrDigit(s[0]) then [s[0]] + KeepLettersAndDigits(s[1..])
    else KeepLettersAndDigits(s[1..])
  }

  /** `needle` occurs in `hay` starting at `at`. */
  predicate OccursAt(hay: string, needle: string, at: int) {
    0 <= at && at + |needle| <= |hay| && hay[at..at + |needle|] == needle
  }

  /** Ordinal `string.Contains`, scanning left to right. */
  function Contains(hay: string, needle: string): bool {
    if |needle| <= |hay| && hay[..|needle|] == needle then true
    else if |hay| <= |needle| then false
    else Contains(hay[1..], needle)
  }

  /** `TrimStart` removes a whitespace prefix and nothing else. */
  lemma {:induction false} TrimStartSpec(s: string)
    ensures |TrimStart(s)| <= |s| && TrimStart(s) == s[|s| - |TrimStart(s)|..]
    ensures forall i :: 0 <= i < |s| - |TrimStart(s)| ==> IsWhite(s[i])
    ensures TrimStart(s) == [] || !IsWhite(TrimStart(s)[0])
  {
    if |s| > 0 && IsWhite(s[0]) {
      TrimStartSpec(s[1..]);
    }
  }

  /** `TrimEnd` removes a whitespace suffix and nothing else. */
  lemma {:induction false} TrimEndSpec(s: string)
    ensures |TrimEnd(s)| <= |s| && TrimEnd(s) == s[..|TrimEnd(s)|]
    ensures forall i :: |TrimEnd(s)| <= i < |s| ==> IsWhite(s[i])
    ensures TrimEnd(s) == [] || !IsWhite(TrimEnd(s)[|TrimEnd(s)| - 1])
  {
    if |s| > 0 && IsWhite(s[|s| - 1]) {
      TrimEndSpec(s[..|s| - 1]);
    }
  }

  /** `Trim` cuts only whitespace from both ends, its result neither starts
      nor ends with whitespace, and it is empty exactly for blank text. */
  lemma TrimSpec(s: string)
    ensures |Trim(s)| <= |s|
    ensures Trimmed(Trim(s))
    ensures Trim(s) == [] <==> IsBlank(s)
  {
    var a := TrimStart(s);
    TrimStartSpec(s);
    TrimEndSpec(a);
    if TrimEnd(a) != [] {
      assert TrimEnd(a)[0] == a[0];
    } else {
      assert |a| == 0;
    }
  }

  /** `ToLower` maps each character through `LowerChar`. */
  lemma {:induction false} ToLowerSpec(s: string)
    ensures |ToLower(s)| == |s|
    ensures forall i :: 0 <= i < |s| ==> ToLower(s)[i] == LowerChar(s[i])
  {
    if s != [] {
      ToLowerSpec(s[1..]);
    }
  }

  /** `ToUpper` maps each character through `UpperChar`. */
  lemma {:induction false} ToUpperSpec(s: string)
    ensures |ToUpper(s)| == |s|
    ensures forall i :: 0 <= i < |s| ==> ToUpper(s)[i] == UpperChar(s[i])
  {
    if s != [] {
      ToUpperSpec(s[1..]);
    }
  }

  /** A normalised barcode has no upper-case letter, is no longer than the
      input, and is empty exactly when the input is blank. */
  lemma NormalizeSpec(s: string)
    ensures |Normalize(s)| <= |s|
    ensures forall i :: 0 <= i < |Normalize(s)| ==> !IsUpper(Normalize(s)[i])
    ensures Normalize(s) == [] <==> IsBlank(s)
  {
    TrimSpec(s);
    ToLowerSpec(Trim(s));
  }

  /** Normalising twice is normalising once, so a stored key normalises
      to itself. */
  lemma NormalizeIdempotent(s: string)
    ensures Normalize(Normalize(s)) == Normalize(s)
  {
    var t := Trim(s);
    var l := ToLower(t);
    TrimSpec(s);
    ToLowerSpec(t);
    ToLowerSpec(l);
    TrimOfTrimmed(l);
  }

  /** Trimming first changes nothing about the normalised form. */
  lemma NormalizeOfTrim(s: string)
    ensures Normalize(Trim(s)) == Normalize(s)
  {
    TrimSpec(s);
    TrimOfTrimmed(Trim(s));
  }

  /** Neither starts nor ends with whitespace. */
  predicate Trimmed(s: string) {
    s == [] || (!IsWhite(s[0]) && !IsWhite(s[|s| - 1]))
  }

  /** Trimming is idempotent. */
  lemma TrimTwice(s: string)
    ensures Trim(Trim(s)) == Trim(s)
  {
    TrimSpec(s);
    TrimOfTrimmed(Trim(s));
  }

  /** A string that neither starts nor ends with whitespace is its own trim. */
  lemma TrimOfTrimmed(s: string)
    requires Trimmed(s)
    ensures Trim(s) == s
  {
  }

  /** Ordinal case-insensitive equality agrees with comparing lower-cased
      forms on ASCII. */
  lemma EqualsIgnoreCaseIffLower(a: string, b: string)
    ensures EqualsIgnoreCase(a, b) <==> ToLower(a) == ToLower(b)
  {
    ToUpperSpec(a); ToUpperSpec(b); ToLowerSpec(a); ToLowerSpec(b);
    if EqualsIgnoreCase(a, b) {
      forall i | 0 <= i < |a| ensures ToLower(a)[i] == ToLower(b)[i] {
        assert UpperChar(a[i]) == UpperChar(b[i]);
      }
    }
    if ToLower(a) == ToLower(b) {
      forall i | 0 <= i < |a| ensures ToUpper(a)[i] == ToUpper(b)[i] {
        assert LowerChar(a[i]) == LowerChar(b[i]);
      }
    }
  }

  /** The filtered barcode keeps exactly the letters and digits of the
      input, in order, and nothing else. */
  lemma {:induction false} KeepLettersAndDigitsSpec(s: string)
    ensures |KeepLettersAndDigits(s)| <= |s|
    ensures forall i :: 0 <= i < |KeepLettersAndDigits(s)| ==> IsLetterOrDigit(KeepLettersAndDigits(s)[i])
    ensures forall c :: c in KeepLettersAndDigits(s) <==> c in s && IsLetterOrDigit(c)
    ensures (forall i :: 0 <= i < |s| ==> IsLetterOrDigit(s[i])) ==> KeepLettersAndDigits(s) == s
  {
    if s != [] {
      KeepLettersAndDigitsSpec(s[1..]);
      assert s == [s[0]] + s[1..];
    }
  }

  /** `Contains` is true exactly when the needle occurs somewhere in the
      haystack; the empty needle occurs everywhere. */
  lemma {:induction false} ContainsSpec(hay: string, needle: string)
    ensures Contains(hay, needle) <==> exists at :: OccursAt(hay, needle, at)
    decreases |hay|
  {
    if |needle| <= |hay| && hay[..|needle|] == needle {
      assert hay[0..0 + |needle|] == hay[..|needle|];
      assert OccursAt(hay, needle, 0);
    } else if |hay| <= |needle| {
      assert forall at :: !OccursAt(hay, needle, at) by {
        if |needle| <= |hay| {
          assert hay[..|needle|] == hay[0..0 + |needle|];
        }
      }
    } else {
      ContainsSpec(hay[1..], needle);
      ContainsShift(hay, needle);
    }
  }

  /** An occurrence past the first position is an occurrence in the tail. */
  lemma ContainsShift(hay: string, needle: string)
    requires |hay| > 0
    requires !(|needle| <= |hay| && hay[..|needle|] == needle)
    ensures (exists at :: OccursAt(hay, needle, at)) <==> (exists at :: OccursAt(hay[1..], needle, at))
  {
    if at :| OccursAt(hay, needle, at) {
      if |needle| <= |hay| {
        assert hay[..|needle|] == hay[0..0 + |needle|];
      }
      assert at != 0;
      assert hay[1..][at - 1..at - 1 + |needle|] == hay[at..at + |needle|];
      assert OccursAt(hay[1..], needle, at - 1);
    }
    if at :| OccursAt(hay[1..], needle, at) {
      assert hay[1..][at..at + |needle|] == hay[at + 1..at + 1 + |needle|];
      assert OccursAt(hay, needle, at + 1);
    }
  }
}
