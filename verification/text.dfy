/** Character classes and string helpers shared by the validators and the
    email normaliser. Case mapping is ASCII only. */
module Text {

  predicate IsUpper(c: char) { 'A' <= c <= 'Z' }

  predicate IsLower(c: char) { 'a' <= c <= 'z' }

  predicate IsLetter(c: char) { IsUpper(c) || IsLower(c) }

  /** Ruby's `\d`: the ASCII digits only. */
  predicate IsDigit(c: char) { '0' <= c <= '9' }

  /** A string with no ASCII upper-case letter. */
  predicate IsLowercase(s: string)
  {
    forall i :: 0 <= i < |s| ==> !IsUpper(s[i])
  }

  /** The POSIX class `[[:space:]]` on Unicode strings, which is what
      ActiveSupport's `String#blank?` matches: the Unicode White_Space characters. */
  predicate IsSpace(c: char)
  {
    || '\t' <= c <= '\r'
    || c == ' '
    || c == '\U{85}'
    || c == '\U{A0}'
    || c == '\U{1680}'
    || '\U{2000}' <= c <= '\U{200A}'
    || c == '\U{2028}'
    || c == '\U{2029}'
    || c == '\U{202F}'
    || c == '\U{205F}'
    || c == '\U{3000}'
  }

  /** `blank?` on a string: empty or made of white space only. A `presence`
      validation fails exactly on blank values. */
  predicate IsBlank(s: string)
  {
    forall i :: 0 <= i < |s| ==> IsSpace(s[i])
  }

  /** Lower-cases one ASCII letter and leaves every other character alone. */
  function Lower(c: char): (d: char)
    ensures !IsUpper(d)
    ensures !IsUpper(c) ==> d == c
    ensures IsUpper(c) ==> IsLower(d) && d as int - 'a' as int == c as int - 'A' as int
  {
    if IsUpper(c) then (c as int - 'A' as int + 'a' as int) as char else c
  }

  /** `String#downcase`, restricted to ASCII letters. */
  function Downcase(s: string): (r: string)
    ensures |r| == |s|
    ensures IsLowercase(r)
    ensures forall i :: 0 <= i < |s| && !IsUpper(s[i]) ==> r[i] == s[i]
    ensures forall i :: 0 <= i < |s| && IsUpper(s[i]) ==>
      IsLower(r[i]) && r[i] as int - 'a' as int == s[i] as int - 'A' as int
  {
    if |s| == 0 then [] else [Lower(s[0])] + Downcase(s[1..])
  }

  /** Downcasing a string that has no upper-case letter changes nothing. */
  lemma DowncaseFixesLowercase(s: string)
    requires IsLowercase(s)
    ensures Downcase(s) == s
  {
  }

  /** Downcasing is idempotent. */
  lemma DowncaseIdempotent(s: string)
    ensures Downcase(Downcase(s)) == Downcase(s)
  {
  }

  /** Downcasing maps a character to `Lower` of it, position by position. */
  lemma DowncaseIsPointwise(s: string)
    ensures forall i :: 0 <= i < |s| ==> Downcase(s)[i] == Lower(s[i])
  {
  }

  /** White space has no case, so downcasing keeps a string blank or non-blank. */
  lemma DowncasePreservesBlank(s: string)
    ensures IsBlank(Downcase(s)) <==> IsBlank(s)
  {
  }
}
