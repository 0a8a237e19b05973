/** `replaceToken` (run_build.c): left-to-right token substitution into a bounded buffer. */
module TokenSubstitution {

  /** The substitution without any bound. An empty token matches nothing. */
  function Substituted(src: string, token: string, replacement: string): string {
    if src == [] then []
    else if token != [] && token <= src then replacement + Substituted(src[|token|..], token, replacement)
    else [src[0]] + Substituted(src[1..], token, replacement)
  }

  function Longest(s: string, n: nat): string {
    if |s| <= n then s else s[..n]
  }

  /** The state of the loop: `done` is out and `rest` is still to be read, or the buffer is
      full with a prefix of the result. */
  ghost predicate OnTheWay(full: string, done: string, rest: string, token: string, replacement: string, room: nat) {
    full == done + Substituted(rest, token, replacement) || (|done| == room && done <= full)
  }

  lemma CopyToken(full: string, done: string, rest: string, token: string, replacement: string, room: nat, copy: nat)
    requires OnTheWay(full, done, rest, token, replacement, room) && |done| < room && token != "" && token <= rest
    requires copy == if |done| + |replacement| > room then room - |done| else |replacement|
    ensures OnTheWay(full, done + replacement[..copy], rest[|token|..], token, replacement, room)
  {
    var later := Substituted(rest[|token|..], token, replacement);
    assert full == done + (replacement + later);
    if copy == |replacement| {
      assert replacement[..copy] == replacement;
      assert full == done + replacement + later;
    } else {
      assert full[..room] == done + replacement[..copy];
    }
  }

  lemma CopyByte(full: string, done: string, rest: string, token: string, replacement: string, room: nat)
    requires OnTheWay(full, done, rest, token, replacement, room) && |done| < room && rest != ""
    requires token == "" || !(token <= rest)
    ensures OnTheWay(full, done + [rest[0]], rest[1..], token, replacement, room)
  {
    var later := Substituted(rest[1..], token, replacement);
    assert full == done + ([rest[0]] + later);
    assert full == done + [rest[0]] + later;
  }

  /** `memcpy` into the middle of the buffer. */
  method CopyInto(dst: array<char>, written: nat, text: string)
    requires written + |text| <= dst.Length
    modifies dst
    ensures dst[..written + |text|] == old(dst[..written]) + text
  {
    var k := 0;
    while k < |text|
      invariant k <= |text|
      invariant dst[..written + k] == old(dst[..written]) + text[..k]
    {
      dst[written + k] := text[k];
      assert text[..k + 1] == text[..k] + [text[k]];
      k := k + 1;
    }
    assert text[..k] == text;
  }

  /** Writes the longest prefix of the full substitution that leaves room for the terminator. */
  method ReplaceToken(src: string, token: string, replacement: string, dst: array<char>)
    modifies dst
    ensures dst.Length > 0 ==>
              var out := Longest(Substituted(src, token, replacement), dst.Length - 1);
              dst[..|out|] == out && dst[|out|] == '\0'
  {
    if dst.Length == 0 { return; }
    ghost var full := Substituted(src, token, replacement);
    var rest, written := src, 0;
    while rest != [] && written + 1 < dst.Length
      invariant written < dst.Length
      invariant OnTheWay(full, dst[..written], rest, token, replacement, dst.Length - 1)
      decreases |rest|
    {
      if token != [] && token <= rest {
        var copy := |replacement|;
        if written + copy >= dst.Length {
          copy := dst.Length - written - 1;
        }
        ghost var done := dst[..written];
        CopyToken(full, done, rest, token, replacement, dst.Length - 1, copy);
        CopyInto(dst, written, replacement[..copy]);
        written := written + copy;
        rest := rest[|token|..];
        assert dst[..written] == done + replacement[..copy];
      } else {
        CopyByte(full, dst[..written], rest, token, replacement, dst.Length - 1);
        ghost var before := dst[..written];
        dst[written] := rest[0];
        written := written + 1;
        assert dst[..written] == before + [rest[0]];
        rest := rest[1..];
      }
    }
    dst[written] := '\0';
  }

  /** Substituting a token by itself changes nothing. */
  lemma {:induction false} SubstitutingItself(src: string, token: string)
    ensures Substituted(src, token, token) == src
  {
    if src != [] {
      if token != [] && token <= src {
        SubstitutingItself(src[|token|..], token);
        assert src == token + src[|token|..];
      } else {
        SubstitutingItself(src[1..], token);
      }
    }
  }

  ghost predicate OccursAt(src: string, token: string, i: nat) {
    i <= |src| && token <= src[i..]
  }

  /** Text before the first occurrence is kept, the occurrence becomes the replacement, and the
      search goes on after it; the replacement is not searched. */
  lemma {:induction false} FirstOccurrence(a: string, token: string, b: string, replacement: string)
    requires token != "" && forall i :: 0 <= i < |a| ==> !OccursAt(a + (token + b), token, i)
    ensures Substituted(a + (token + b), token, replacement) == a + (replacement + Substituted(b, token, replacement))
  {
    var src := a + (token + b);
    if a == "" {
      assert src == token + b && src[|token|..] == b;
    } else {
      assert !OccursAt(src, token, 0) && src[0..] == src;
      assert src[1..] == a[1..] + (token + b);
      forall i | 0 <= i < |a| - 1
        ensures !OccursAt(a[1..] + (token + b), token, i)
      {
        assert !OccursAt(src, token, i + 1) && src[1..][i..] == src[i + 1..];
      }
      FirstOccurrence(a[1..], token, b, replacement);
    }
  }

  /** Without an occurrence, or with an empty token, nothing changes. */
  lemma {:induction false} NoOccurrence(src: string, token: string, replacement: string)
    requires token == "" || forall i :: 0 <= i < |src| ==> !OccursAt(src, token, i)
    ensures Substituted(src, token, replacement) == src
  {
    if src != "" {
      assert token != "" ==> !OccursAt(src, token, 0) && src[0..] == src;
      forall i | 0 <= i < |src| - 1 && token != ""
        ensures !OccursAt(src[1..], token, i)
      {
        assert !OccursAt(src, token, i + 1) && src[1..][i..] == src[i + 1..];
      }
      NoOccurrence(src[1..], token, replacement);
    }
  }
}
