/**
 * The few `java.lang.String` and `commons-lang` operations the notifier relies on,
 * over Dafny strings. A Java reference that may be `null` is a `JString`.
 */
module JavaText {
  import opened Wrappers

  /** A Java `String` reference: `None` is `null`. */
  type JString = Option<string>

  /** `StringUtils.isEmpty`: true for `null` and for `""`. */
  predicate IsEmpty(s: JString)
  {
    s.None? || s.value == ""
  }

  /** `String.valueOf(Object)` on a string reference, as string concatenation also does it. */
  function ValueOf(s: JString): string
  {
    if s.None? then "null" else s.value
  }

  predicate StartsWith(s: string, prefix: string)
  {
    |prefix| <= |s| && s[..|prefix|] == prefix
  }

  predicate EndsWith(s: string, suffix: string)
  {
    |suffix| <= |s| && s[|s| - |suffix|..] == suffix
  }

  predicate IsUpper(c: char)
  {
    'A' <= c <= 'Z'
  }

  /** Lower-casing of one character, restricted to ASCII letters. */
  function LowerChar(c: char): (r: char)
    ensures !IsUpper(r)
    ensures IsUpper(c) ==> r as int == c as int + 32
    ensures !IsUpper(c) ==> r == c
  {
    if IsUpper(c) then (c as int + 32) as char else c
  }

  /** Upper-casing of one ASCII letter: the inverse of `LowerChar` on upper-case letters. */
  function UpperChar(c: char): char
  {
    if 'a' <= c <= 'z' then (c as int - 32) as char else c
  }

  /** `String.toLowerCase()`, restricted to ASCII letters. */
  function Lower(s: string): (r: string)
    ensures |r| == |s|
    ensures forall i :: 0 <= i < |s| ==> r[i] == LowerChar(s[i])
  {
    seq(|s|, i requires 0 <= i < |s| => LowerChar(s[i]))
  }

  /** Lower-casing leaves no upper-case letter behind, so doing it twice changes nothing. */
  lemma LowerIdempotent(s: string)
    ensures Lower(Lower(s)) == Lower(s)
    ensures forall i :: 0 <= i < |s| ==> !IsUpper(Lower(s)[i])
  {
  }
}
