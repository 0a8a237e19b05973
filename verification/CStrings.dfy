/** C strings as the IDE uses them: a `string` holds the bytes before the terminator,
    one `char` per byte, and `char` order is the order of unsigned bytes. */
module CStrings {

  /** `strcmp`, with the sign of the result as -1, 0 or 1. */
  function Strcmp(a: string, b: string): (r: int)
    ensures -1 <= r <= 1
  {
    if a == [] && b == [] then 0
    else if a == [] then -1
    else if b == [] then 1
    else if a[0] < b[0] then -1
    else if a[0] > b[0] then 1
    else Strcmp(a[1..], b[1..])
  }

  lemma {:induction false} StrcmpZeroIffEqual(a: string, b: string)
    ensures Strcmp(a, b) == 0 <==> a == b
  {
    if a != [] && b != [] && a[0] == b[0] {
      StrcmpZeroIffEqual(a[1..], b[1..]);
      assert a == [a[0]] + a[1..] && b == [b[0]] + b[1..];
    }
  }

  lemma {:induction false} StrcmpAntisymmetric(a: string, b: string)
    ensures Strcmp(a, b) == -Strcmp(b, a)
  {
    if a != [] && b != [] && a[0] == b[0] {
      StrcmpAntisymmetric(a[1..], b[1..]);
    }
  }

  lemma {:induction false} StrcmpTransitive(a: string, b: string, c: string)
    requires Strcmp(a, b) <= 0 && Strcmp(b, c) <= 0
    ensures Strcmp(a, c) <= 0
    ensures Strcmp(a, c) == 0 ==> Strcmp(a, b) == 0 && Strcmp(b, c) == 0
  {
    if a != [] && b != [] && c != [] && a[0] == b[0] == c[0] {
      StrcmpTransitive(a[1..], b[1..], c[1..]);
    }
  }

  /** `strncmp(s, prefix, strlen(prefix)) == 0`. */
  predicate StartsWith(s: string, prefix: string) {
    prefix <= s
  }

  predicate EndsWith(s: string, suffix: string) {
    |suffix| <= |s| && s[|s| - |suffix|..] == suffix
  }

  function ToLower(c: char): char {
    if 'A' <= c <= 'Z' then c - 'A' + 'a' else c
  }

  /** `has_ext`: a case-insensitive suffix test. */
  predicate HasExt(name: string, ext: string) {
    |ext| <= |name|
    && forall i :: 0 <= i < |ext| ==> ToLower(name[|name| - |ext| + i]) == ToLower(ext[i])
  }

  /** Index just past the last occurrence of `a` or `b`, or 0. */
  function AfterLast(s: string, a: char, b: char): (n: nat)
    ensures n <= |s|
    ensures n > 0 ==> s[n - 1] == a || s[n - 1] == b
    ensures forall i :: n <= i < |s| ==> s[i] != a && s[i] != b
  {
    if s == [] then 0
    else if s[|s| - 1] == a || s[|s| - 1] == b then |s|
    else AfterLast(s[..|s| - 1], a, b)
  }
}
