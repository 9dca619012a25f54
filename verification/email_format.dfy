/** The email format rule of the User model,
    `VALID_EMAIL_REGEX = /\A[\w+\-.]+@[a-z\d\-.]+\.[a-z]+\z/i`,
    as a reference predicate shaped like the regex, a checker that can run,
    and the facts that tie them together. */
module EmailFormat {
  import opened Wrappers
  import opened Text

  /** `\w` in a Ruby regex: ASCII letters, digits and underscore. */
  predicate IsWordChar(c: char) { IsLetter(c) || IsDigit(c) || c == '_' }

  /** `[\w+\-.]`, the characters of the part before the `@`. */
  predicate IsLocalChar(c: char) { IsWordChar(c) || c == '+' || c == '-' || c == '.' }

  /** `[a-z\d\-.]` under the `/i` flag, the characters of the domain. */
  predicate IsDomainChar(c: char) { IsLetter(c) || IsDigit(c) || c == '-' || c == '.' }

  /** `s` splits as `L @ X . Y` with the `@` at index `a` and the final `.` at
      index `b`: `L` is one or more local characters, `X` one or more domain
      characters and `Y` one or more letters running to the end of the string. */
  predicate RegexSplit(s: string, a: int, b: int)
  {
    && 0 < a && a + 1 < b && b + 1 < |s|
    && s[a] == '@' && s[b] == '.'
    && (forall k :: 0 <= k < a ==> IsLocalChar(s[k]))
    && (forall k :: a < k < b ==> IsDomainChar(s[k]))
    && (forall k :: b < k < |s| ==> IsLetter(s[k]))
  }

  /** The whole string matches the regex (it is anchored by `\A` and `\z`). */
  ghost predicate RegexMatch(s: string)
  {
    exists a, b :: RegexSplit(s, a, b)
  }

  /** Index of the first occurrence of `c` in `s`. */
  function IndexOf(s: string, c: char): (r: Option<nat>)
    ensures r.None? <==> forall k :: 0 <= k < |s| ==> s[k] != c
    ensures r.Some? ==> r.value < |s| && s[r.value] == c
    ensures r.Some? ==> forall k :: 0 <= k < r.value ==> s[k] != c
  {
    if |s| == 0 then None
    else if s[0] == c then Some(0)
    else match IndexOf(s[1..], c)
      case None => None
      case Some(i) => Some(i + 1)
  }

  /** Index of the last occurrence of `c` in `s`. */
  function LastIndexOf(s: string, c: char): (r: Option<nat>)
    ensures r.None? <==> forall k :: 0 <= k < |s| ==> s[k] != c
    ensures r.Some? ==> r.value < |s| && s[r.value] == c
    ensures r.Some? ==> forall k :: r.value < k < |s| ==> s[k] != c
  {
    if |s| == 0 then None
    else if s[|s| - 1] == c then Some(|s| - 1)
    else LastIndexOf(s[..|s| - 1], c)
  }

  /** The format check: locate the first `@` and the last `.`, then check
      the three character runs between them. */
  function ValidEmailFormat(s: string): bool
  {
    match IndexOf(s, '@')
    case None => false
    case Some(a) =>
      match LastIndexOf(s, '.')
      case None => false
      case Some(b) => RegexSplit(s, a, b)
  }

  /** The checker accepts exactly the strings the regex matches. */
  lemma ValidEmailFormatMatchesRegex(s: string)
    ensures ValidEmailFormat(s) <==> RegexMatch(s)
  {
  }

  /** The regex in words: exactly one `@`; before it, a non-empty run of
      `[\w+\-.]`; after it, a run of `[a-z\d\-.]` that contains a `.` with
      something before it and a non-empty run of letters after it to the end. */
  ghost predicate EmailShape(s: string)
  {
    exists a ::
      && 0 <= a < |s| && s[a] == '@'
      && (forall k :: 0 <= k < |s| && k != a ==> s[k] != '@')
      && 0 < a && (forall k :: 0 <= k < a ==> IsLocalChar(s[k]))
      && (forall k :: a < k < |s| ==> IsDomainChar(s[k]))
      && DottedDomain(s, a)
  }

  /** After index `a` there is a `.` at some `b`, with at least one character
      between `a` and `b` and one or more letters from `b` to the end. */
  ghost predicate DottedDomain(s: string, a: int)
  {
    exists b :: 0 <= a < b - 1 && b < |s| - 1 && s[b] == '.' && forall k :: b < k < |s| ==> IsLetter(s[k])
  }

  /** The regex and its description in words accept the same strings. */
  lemma RegexMatchIffShape(s: string)
    ensures RegexMatch(s) <==> EmailShape(s)
  {
    if RegexMatch(s) {
      var a, b :| RegexSplit(s, a, b);
      assert DottedDomain(s, a);
      forall k | 0 <= k < |s| && k != a
        ensures s[k] != '@'
      {
        if k < a { assert IsLocalChar(s[k]); }
        else if k < b { assert IsDomainChar(s[k]); }
        else if k > b { assert IsLetter(s[k]); }
      }
      forall k | a < k < |s|
        ensures IsDomainChar(s[k])
      {
        if k > b { assert IsLetter(s[k]); }
      }
    }
    if EmailShape(s) {
      var a :| && 0 <= a < |s| && s[a] == '@'
               && (forall k :: 0 <= k < |s| && k != a ==> s[k] != '@')
               && 0 < a && (forall k :: 0 <= k < a ==> IsLocalChar(s[k]))
               && (forall k :: a < k < |s| ==> IsDomainChar(s[k]))
               && DottedDomain(s, a);
      var b :| a + 1 < b < |s| - 1 && s[b] == '.' && forall k :: b < k < |s| ==> IsLetter(s[k]);
      assert RegexSplit(s, a, b);
    }
  }

  /** Every character class of the regex is case-insensitive (the `/i` flag),
      and `Lower` never turns anything into or out of `@` or `.`. */
  lemma LowerPreservesClasses(c: char)
    ensures IsLocalChar(Lower(c)) <==> IsLocalChar(c)
    ensures IsDomainChar(Lower(c)) <==> IsDomainChar(c)
    ensures IsLetter(Lower(c)) <==> IsLetter(c)
    ensures Lower(c) == '@' <==> c == '@'
    ensures Lower(c) == '.' <==> c == '.'
  {
  }

  /** A split of `s` is a split of its downcased form and vice versa. */
  lemma DowncasePreservesSplit(s: string, a: int, b: int)
    ensures RegexSplit(Downcase(s), a, b) <==> RegexSplit(s, a, b)
  {
    var d := Downcase(s);
    DowncaseIsPointwise(s);
    forall k | 0 <= k < |s|
      ensures IsLocalChar(d[k]) <==> IsLocalChar(s[k])
      ensures IsDomainChar(d[k]) <==> IsDomainChar(s[k])
      ensures IsLetter(d[k]) <==> IsLetter(s[k])
      ensures d[k] == '@' <==> s[k] == '@'
      ensures d[k] == '.' <==> s[k] == '.'
    {
      LowerPreservesClasses(s[k]);
    }
  }

  /** Because the regex carries `/i`, downcasing an email never changes
      whether it passes the format check. */
  lemma DowncasePreservesFormat(s: string)
    ensures ValidEmailFormat(Downcase(s)) <==> ValidEmailFormat(s)
  {
    ValidEmailFormatMatchesRegex(s);
    ValidEmailFormatMatchesRegex(Downcase(s));
    if RegexMatch(s) {
      var a, b :| RegexSplit(s, a, b);
      DowncasePreservesSplit(s, a, b);
    }
    if RegexMatch(Downcase(s)) {
      var a, b :| RegexSplit(Downcase(s), a, b);
      DowncasePreservesSplit(s, a, b);
    }
  }

  /** A well-formed email is never blank, so a blank email also fails the format rule. */
  lemma FormatImpliesPresent(s: string)
    ensures ValidEmailFormat(s) ==> !IsBlank(s)
  {
  }
}
