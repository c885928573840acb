/** Byte strings as the driver sees them: `zend_string` contents and C strings. */
module Bytes {
  newtype Byte = b: int | 0 <= b < 256

  const NUL: Byte := 0
  const DQUOTE: Byte := 34
  const DOLLAR: Byte := 36
  const QUOTE: Byte := 39
  const COLON: Byte := 58

  /** The bytes that may start a placeholder name: a letter or an underscore. */
  predicate IsNameStart(b: Byte) {
    97 <= b <= 122 || 65 <= b <= 90 || b == 95
  }

  /** A placeholder name: a name start, then letters, digits and underscores. */
  predicate IsName(n: seq<Byte>) {
    |n| > 0 && IsNameStart(n[0]) && forall i :: 0 <= i < |n| ==> IsNameStart(n[i]) || 48 <= n[i] <= 57
  }

  predicate NulFree(s: seq<Byte>) {
    forall i :: 0 <= i < |s| ==> s[i] != NUL
  }

  /** What a C reader takes from a buffer: everything before the first NUL. */
  function CString(s: seq<Byte>): (r: seq<Byte>)
    ensures NulFree(r) && |r| <= |s| && r == s[..|r|] && (|r| < |s| ==> s[|r|] == NUL)
  {
    if s == [] || s[0] == NUL then [] else [s[0]] + CString(s[1..])
  }

  lemma {:induction false} CStringOfTerminated(s: seq<Byte>, rest: seq<Byte>)
    requires NulFree(s)
    ensures CString(s + [NUL] + rest) == s
  {
    var whole := s + [NUL] + rest;
    if s != [] {
      CStringOfTerminated(s[1..], rest);
      assert whole[1..] == s[1..] + [NUL] + rest;
      assert s == [s[0]] + s[1..];
    }
  }

  /** The string without its NUL bytes. */
  function Strip(s: seq<Byte>): (r: seq<Byte>)
    ensures NulFree(r) && |r| <= |s|
  {
    if s == [] then [] else
      var init := Strip(s[..|s| - 1]);
      if s[|s| - 1] == NUL then init else init + [s[|s| - 1]]
  }

  lemma {:induction false} StripConcat(a: seq<Byte>, b: seq<Byte>)
    ensures Strip(a + b) == Strip(a) + Strip(b)
    decreases |b|
  {
    if b == [] {
      assert a + b == a;
    } else {
      var b', last := b[..|b| - 1], [b[|b| - 1]];
      StripConcat(a, b');
      assert (a + b)[..|a + b| - 1] == a + b';
      assert Strip(a) + Strip(b') + last == Strip(a) + (Strip(b') + last);
    }
  }

  lemma {:induction false} StripIdentity(s: seq<Byte>)
    ensures Strip(s) == s <==> NulFree(s)
  {
    if s != [] {
      var init := s[..|s| - 1];
      StripIdentity(init);
      assert s == init + [s[|s| - 1]];
    }
  }
}
