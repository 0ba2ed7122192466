/**
 * The two built-in field validators of src/validators.ts. A validator
 * receives the ambient context it was called in and the field's value, and
 * answers `true` (Pass) or an error message (Fail).
 */
module Validators {
  import opened Optional
  import opened Messages

  /** `true | string`: success, or the user-facing error message. */
  datatype Outcome = Pass | Fail(message: string)

  /** A field validator; it sees the value only, never the form. */
  type Validator = (Context, string) -> Outcome

  /** `requiredValidator`: `Boolean(v)` on a string, with no trimming. */
  function RequiredValidator(ctx: Context, v: string): (r: Outcome)
    ensures r.Pass? <==> |v| > 0
    ensures r.Fail? ==> r.message == Translate(ctx, FieldRequiredError)
  {
    if v != "" then Pass else Fail(Translate(ctx, FieldRequiredError))
  }

  /** The characters that `.` in a JavaScript regular expression does not match. */
  predicate IsLineTerminator(c: char)
  {
    c == '\n' || c == '\r' || c == '\U{2028}' || c == '\U{2029}'
  }

  /**
   * The meaning of `/^.+@.+\..+$/` without flags: no line terminator anywhere,
   * an `@` after at least one character, and a `.` after at least one more
   * character and followed by at least one.
   */
  ghost predicate EmailShape(v: string)
  {
    && (forall k :: 0 <= k < |v| ==> !IsLineTerminator(v[k]))
    && exists i, j :: 1 <= i && i + 2 <= j <= |v| - 2 && v[i] == '@' && v[j] == '.'
  }

  /** The first index at or after `from` holding `c`. */
  function FindFrom(s: string, c: char, from: nat): (r: Option<nat>)
    ensures r.Some? ==> from <= r.value < |s| && s[r.value] == c
    ensures r.Some? ==> forall k :: from <= k < r.value ==> s[k] != c
    ensures r.None? ==> forall k :: from <= k < |s| ==> s[k] != c
    decreases |s| - from
  {
    if from >= |s| then None
    else if s[from] == c then Some(from)
    else FindFrom(s, c, from + 1)
  }

  /** The last index before `end` holding `c`. */
  function FindLastBefore(s: string, c: char, end: nat): (r: Option<nat>)
    requires end <= |s|
    ensures r.Some? ==> r.value < end && s[r.value] == c
    ensures r.Some? ==> forall k :: r.value < k < end ==> s[k] != c
    ensures r.None? ==> forall k :: 0 <= k < end ==> s[k] != c
  {
    if end == 0 then None
    else if s[end - 1] == c then Some(end - 1)
    else FindLastBefore(s, c, end - 1)
  }

  /**
   * A scan deciding the e-mail pattern: the leftmost `@` that is not the
   * first character must lie at least two places before the rightmost `.`
   * that is not the last character.
   */
  predicate MatchesEmailPattern(v: string)
  {
    && (forall k :: 0 <= k < |v| ==> !IsLineTerminator(v[k]))
    && |v| > 0
    && match (FindFrom(v, '@', 1), FindLastBefore(v, '.', |v| - 1))
       case (Some(i), Some(j)) => i + 2 <= j
       case _ => false
  }

  lemma MatchesEmailPatternIffShape(v: string)
    ensures MatchesEmailPattern(v) <==> EmailShape(v)
  {
    if EmailShape(v) {
      var i, j :| 1 <= i && i + 2 <= j <= |v| - 2 && v[i] == '@' && v[j] == '.';
      var at := FindFrom(v, '@', 1);
      var dot := FindLastBefore(v, '.', |v| - 1);
      assert at.Some? && at.value <= i;
      assert dot.Some? && j <= dot.value;
    }
    if MatchesEmailPattern(v) {
      var i := FindFrom(v, '@', 1).value;
      var j := FindLastBefore(v, '.', |v| - 1).value;
      assert 1 <= i && i + 2 <= j <= |v| - 2 && v[i] == '@' && v[j] == '.';
    }
  }

  /** `emailValidator`: the pattern test, else the localized error. */
  function EmailValidator(ctx: Context, v: string): (r: Outcome)
    ensures r.Pass? <==> EmailShape(v)
    ensures r.Fail? ==> r.message == Translate(ctx, InvalidEmailError)
  {
    MatchesEmailPatternIffShape(v);
    if MatchesEmailPattern(v) then Pass else Fail(Translate(ctx, InvalidEmailError))
  }

  /** Every accepted e-mail address has at least five characters, so it also passes `requiredValidator`. */
  lemma EmailImpliesRequired(ctx: Context, v: string)
    requires EmailValidator(ctx, v).Pass?
    ensures |v| >= 5
    ensures RequiredValidator(ctx, v).Pass?
  {
    var i, j :| 1 <= i && i + 2 <= j <= |v| - 2 && v[i] == '@' && v[j] == '.';
  }

  /** `emailValidator("a@b.c")` is `true`; `emailValidator("a@b")` is the error message. */
  lemma EmailExamples(ctx: Context)
    ensures EmailValidator(ctx, "a@b.c") == Pass
    ensures EmailValidator(ctx, "a@b") == Fail(Translate(ctx, InvalidEmailError))
  {
    assert EmailShape("a@b.c") by {
      var v := "a@b.c";
      assert v[1] == '@' && v[3] == '.';
    }
    assert !EmailShape("a@b");
  }

  /** `requiredValidator("")` is the error message; any non-empty value, even a blank, passes. */
  lemma RequiredExamples(ctx: Context)
    ensures RequiredValidator(ctx, "") == Fail(Translate(ctx, FieldRequiredError))
    ensures RequiredValidator(ctx, " ") == Pass
    ensures RequiredValidator(ctx, "x") == Pass
  {
  }
}
