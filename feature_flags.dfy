/**
 * Build-time feature switches: an environment variable read as a boolean, with
 * a default for an unset or unrecognised value.
 */
module FeatureFlags {
  import opened Wrappers
  import opened Text

  /** The spellings read as `true`, after trimming and lower-casing. */
  const TrueWords: set<string> := {"true", "1", "yes", "on"}
  /** The spellings read as `false`, after trimming and lower-casing. */
  const FalseWords: set<string> := {"false", "0", "no", "off"}

  /** `parseBooleanFlag(value, defaultValue)`; an unset variable is `None`. */
  function ParseBooleanFlag(value: Option<string>, defaultValue: bool): bool
  {
    match value
    case None => defaultValue
    case Some(v) =>
      var normalized := Lower(TrimJs(v));
      if normalized in TrueWords then true
      else if normalized in FalseWords then false
      else defaultValue
  }

  /**
   * An unset variable gives the default; a recognised word gives its value
   * whatever the default; the result departs from the default only for a
   * recognised word. No word is both.
   */
  lemma {:induction false} ParseBooleanFlagSpec(value: Option<string>, defaultValue: bool)
    ensures var r := ParseBooleanFlag(value, defaultValue);
      && (value.None? ==> r == defaultValue)
      && (value.Some? && Lower(TrimJs(value.value)) in TrueWords ==> r)
      && (value.Some? && Lower(TrimJs(value.value)) in FalseWords ==> !r)
      && (r != defaultValue ==> value.Some? && Lower(TrimJs(value.value)) in TrueWords + FalseWords)
    ensures TrueWords * FalseWords == {}
  {
    assert "true" != "false" && "1" != "0" && "yes" != "no" && "on" != "off";
  }

  /** Whitespace around the value does not matter. */
  lemma {:induction false} ParseBooleanFlagIgnoresPadding(pre: string, w: string, post: string, defaultValue: bool)
    requires AllSpace(pre, IsJsSpace) && AllSpace(post, IsJsSpace)
    requires w != [] && !IsJsSpace(w[0]) && !IsJsSpace(w[|w| - 1])
    ensures ParseBooleanFlag(Some(pre + w + post), defaultValue) == ParseBooleanFlag(Some(w), defaultValue)
  {
    TrimPadded(pre, w, post, IsJsSpace);
    TrimPadded([], w, [], IsJsSpace);
    assert [] + w + [] == w;
  }

  /** ASCII capitals do not matter: `"TRUE"` reads as `"true"`. */
  lemma {:induction false} ParseBooleanFlagIgnoresCase(v: string, defaultValue: bool)
    ensures ParseBooleanFlag(Some(v), defaultValue) == ParseBooleanFlag(Some(Lower(v)), defaultValue)
  {
    LowerTrimJs(v);
    LowerTrimJs(Lower(v));
    LowerIdempotent(v);
    LowerIdempotent(TrimJs(v));
    assert Lower(TrimJs(Lower(v))) == Lower(Lower(TrimJs(v)));
  }
}
