/** The few shapes of Java values the model needs: a reference that may be
    null, a call that may throw, and `String.endsWith`. */
module JavaLang {

  /** A Java reference that may be `null`. */
  datatype Option<T> = None | Some(value: T)

  /** The only exception the modelled code can raise itself: an unchecked cast
      of a node to a class it is not an instance of. */
  datatype Exception = ClassCastException

  /** The outcome of a Java call: a returned value or a thrown exception. */
  datatype Result<T> = Ok(value: T) | Thrown(exception: Exception)

  /** `s.endsWith(suffix)`: the last `|suffix|` characters of `s` are `suffix`. */
  predicate EndsWith(s: string, suffix: string)
  {
    |suffix| <= |s| && s[|s| - |suffix|..] == suffix
  }

  /** Appending the same text to both sides keeps a suffix a suffix. */
  lemma EndsWithExtended(s: string, suffix: string, tail: string)
    requires EndsWith(s, suffix)
    ensures EndsWith(s + tail, suffix + tail)
  {
  }

  /** A suffix of a suffix is a suffix. */
  lemma EndsWithTransitive(s: string, middle: string, suffix: string)
    requires EndsWith(s, middle) && EndsWith(middle, suffix)
    ensures EndsWith(s, suffix)
  {
    assert s[|s| - |suffix|..] == middle[|middle| - |suffix|..];
  }
}
