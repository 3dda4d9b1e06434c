/** The few java.lang.String and commons-lang operations the core relies on.
    Case conversion is modelled for ASCII letters only. */
module JavaStrings {
  import opened Wrappers

  /** Character.isWhitespace: the Unicode space separators other than the
      no-break spaces, plus the ASCII control whitespace and U+001C..U+001F. */
  predicate IsJavaWhitespace(c: char) {
    || c == ' ' || c == '\t' || c == '\n' || c == '\U{B}' || c == '\U{C}' || c == '\r'
    || ('\U{1C}' <= c <= '\U{1F}')
    || c == '\U{1680}' || ('\U{2000}' <= c <= '\U{2006}') || ('\U{2008}' <= c <= '\U{200A}')
    || c == '\U{2028}' || c == '\U{2029}' || c == '\U{205F}' || c == '\U{3000}'
  }

  /** String.isBlank: empty or only whitespace. */
  predicate IsBlank(s: string) {
    forall i :: 0 <= i < |s| ==> IsJavaWhitespace(s[i])
  }

  /** StringUtils.isEmpty: null or the empty string (no trimming). */
  predicate IsEmptyStr(s: Option<string>) {
    s.None? || s.value == ""
  }

  function ToUpperChar(c: char): (u: char)
    ensures 'a' <= c <= 'z' ==> u as int == c as int - 32
    ensures !('a' <= c <= 'z') ==> u == c
  {
    if 'a' <= c <= 'z' then (c as int - 32) as char else c
  }

  function ToLowerChar(c: char): (l: char)
    ensures 'A' <= c <= 'Z' ==> l as int == c as int + 32
    ensures !('A' <= c <= 'Z') ==> l == c
  {
    if 'A' <= c <= 'Z' then (c as int + 32) as char else c
  }

  /** String.toUpperCase, letter by letter. */
  function ToUpper(s: string): (r: string)
    ensures |r| == |s|
    ensures forall i :: 0 <= i < |s| ==> r[i] == ToUpperChar(s[i])
  {
    seq(|s|, i requires 0 <= i < |s| => ToUpperChar(s[i]))
  }

  /** String.equalsIgnoreCase: same length and, position by position, equal
      characters or characters equal after upper- or lower-casing. */
  predicate EqualsIgnoreCase(a: string, b: string) {
    |a| == |b| &&
    forall i :: 0 <= i < |a| ==>
      a[i] == b[i] || ToUpperChar(a[i]) == ToUpperChar(b[i]) || ToLowerChar(a[i]) == ToLowerChar(b[i])
  }

  /** StringUtils.left(s, n) for n >= 0: the first n characters, null stays null. */
  function Left(s: Option<string>, n: nat): (r: Option<string>)
    ensures s.None? <==> r.None?
    ensures s.Some? ==> |r.value| == if |s.value| <= n then |s.value| else n
    ensures s.Some? ==> r.value <= s.value
  {
    match s
    case None => None
    case Some(t) => if |t| <= n then Some(t) else Some(t[..n])
  }
}
