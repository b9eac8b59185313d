/** The part of Django's form-field cleaning the application's forms rely on. */
module FormFields {
  import opened Wrappers
  import opened Text

  const RequiredMessage := "This field is required."
  const NullCharactersMessage := "Null characters are not allowed."

  /** `MaxLengthValidator`'s message, naming the limit (in the singular for a
      limit of one) and the length of the value. */
  function TooLongMessage(limit: nat, length: nat): string
  {
    "Ensure this value has at most " + ShowNat(limit) + (if limit == 1 then " character" else " characters")
      + " (it has " + ShowNat(length) + ")."
  }

  /** A required text field (`CharField` with `strip`): the value is stripped of
      surrounding whitespace and must then be non-empty; otherwise the one error
      is that the field is required. A present value then runs the length
      validator and the null-character validator, in that order, and every
      message of those that fail is the field's error list. */
  function CleanCharField(raw: Option<string>, maxLength: nat): (r: Result<string, seq<string>>)
    ensures r.Ok? <==>
      raw.Some? && Strip(raw.value) != "" && |Strip(raw.value)| <= maxLength && '\0' !in Strip(raw.value)
    ensures r.Ok? ==> r.value == Strip(raw.value)
    ensures (raw.None? || Strip(raw.value) == "") ==> r == Err([RequiredMessage])
  {
    if raw.None? || Strip(raw.value) == "" then Err([RequiredMessage])
    else
      var v := Strip(raw.value);
      var errors := ValidatorErrors(v, maxLength);
      if errors == [] then Ok(v) else Err(errors)
  }

  /** The messages of the validators a present, stripped value fails: the length
      validator, then the null-character validator. */
  function ValidatorErrors(v: string, maxLength: nat): (errors: seq<string>)
    ensures errors == [] <==> |v| <= maxLength && '\0' !in v
  {
    (if |v| > maxLength then [TooLongMessage(maxLength, |v|)] else [])
      + (if '\0' in v then [NullCharactersMessage] else [])
  }

  /** The length error comes first when the value is too long, the null-character
      error last when it holds one, and there is nothing else. */
  lemma ValidatorErrorsSpec(v: string, maxLength: nat)
    ensures var errors := ValidatorErrors(v, maxLength);
      && (|v| > maxLength ==> |errors| > 0 && errors[0] == TooLongMessage(maxLength, |v|))
      && ('\0' in v ==> |errors| > 0 && errors[|errors| - 1] == NullCharactersMessage)
      && |errors| == (if |v| > maxLength then 1 else 0) + (if '\0' in v then 1 else 0)
      && (|v| > maxLength && '\0' !in v ==> errors == [TooLongMessage(maxLength, |v|)])
  {
    var long := if |v| > maxLength then [TooLongMessage(maxLength, |v|)] else [];
    var nul := if '\0' in v then [NullCharactersMessage] else [];
    assert ValidatorErrors(v, maxLength) == long + nul;
    assert long + [] == long;
  }

  /** Surrounding whitespace of any kind is stripped first and does not count against the
      length: `" AB "` fits a two-character field. */
  lemma CleanCharFieldSurrounded(w1: string, v: string, w2: string, maxLength: nat)
    requires AllSpace(w1) && AllSpace(w2)
    requires v != "" && !IsSpace(v[0]) && !IsSpace(v[|v| - 1])
    requires |v| <= maxLength && '\0' !in v
    ensures CleanCharField(Some(w1 + v + w2), maxLength) == Ok(v)
  {
    StripSurrounded(w1, v, w2);
  }

  /** Whitespace alone is no value: the field is required. */
  lemma CleanCharFieldBlank()
    ensures CleanCharField(Some("   "), 2) == Err([RequiredMessage])
  {
    assert TrimLeft("") == "";
    assert TrimLeft(" ") == "" by { assert " "[1..] == ""; }
    assert TrimLeft("  ") == "" by { assert "  "[1..] == " "; }
    assert TrimLeft("   ") == "" by { assert "   "[1..] == "  "; }
  }

  /** A unit separator alone is whitespace too, so the field is required. */
  lemma CleanCharFieldSeparator()
    ensures CleanCharField(Some("\U{1f}"), 100) == Err([RequiredMessage])
  {
    assert TrimLeft("\U{1f}") == "" by {
      assert "\U{1f}"[1..] == "";
    }
  }

  /** A present value's errors: the length error first when it is too long, the
      null-character error last when it holds one, and nothing else. */
  lemma CleanCharFieldErrors(raw: string, maxLength: nat)
    requires Strip(raw) != ""
    ensures var r := CleanCharField(Some(raw), maxLength);
      var v := Strip(raw);
      && (|v| > maxLength ==> r.Err? && |r.error| > 0 && r.error[0] == TooLongMessage(maxLength, |v|))
      && ('\0' in v ==> r.Err? && |r.error| > 0 && r.error[|r.error| - 1] == NullCharactersMessage)
      && (r.Err? ==> |r.error| == (if |v| > maxLength then 1 else 0) + (if '\0' in v then 1 else 0))
  {
    var v := Strip(raw);
    var errors := ValidatorErrors(v, maxLength);
    assert CleanCharField(Some(raw), maxLength) == if errors == [] then Ok(v) else Err(errors);
    ValidatorErrorsSpec(v, maxLength);
  }

  /** A value over the limit, with no null character, has exactly the length
      error, naming the limit and the stripped value's length. */
  lemma CleanCharFieldTooLong(raw: string, maxLength: nat)
    requires |Strip(raw)| > maxLength && '\0' !in Strip(raw)
    ensures CleanCharField(Some(raw), maxLength) == Err([TooLongMessage(maxLength, |Strip(raw)|)])
  {
    var v := Strip(raw);
    assert v != "";
    var errors := ValidatorErrors(v, maxLength);
    assert CleanCharField(Some(raw), maxLength) == if errors == [] then Ok(v) else Err(errors);
    ValidatorErrorsSpec(v, maxLength);
  }

  /** The wording for a limit of two and a value of three characters. */
  lemma TooLongMessagePlural()
    ensures TooLongMessage(2, 3) == "Ensure this value has at most 2 characters (it has 3)."
  {
    assert ShowNat(2) == "2" by { assert DigitChar(2) == '2'; }
    assert ShowNat(3) == "3" by { assert DigitChar(3) == '3'; }
  }

  /** A limit of one is worded in the singular. */
  lemma TooLongMessageSingular()
    ensures TooLongMessage(1, 2) == "Ensure this value has at most 1 character (it has 2)."
  {
    assert ShowNat(1) == "1" by { assert DigitChar(1) == '1'; }
    assert ShowNat(2) == "2" by { assert DigitChar(2) == '2'; }
  }
}
