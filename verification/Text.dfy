/** The few string operations of the standard library that the handlers use. */
module Text {

  /** Characters with the Unicode White_Space property. */
  predicate IsWhitespace(c: char) {
    var n := c as int;
    || 0x09 <= n <= 0x0D || n == 0x20 || n == 0x85 || n == 0xA0 || n == 0x1680
    || 0x2000 <= n <= 0x200A || n == 0x2028 || n == 0x2029 || n == 0x202F || n == 0x205F || n == 0x3000
  }

  predicate IsBlank(s: string) {
    forall i | 0 <= i < |s| :: IsWhitespace(s[i])
  }

  /** Of the ASCII characters, the blank and the five from the tab to the carriage return. */
  lemma AsciiWhitespace(c: char)
    requires c as int < 0x80
    ensures IsWhitespace(c) <==> c == ' ' || 9 <= c as int <= 13
  {
  }

  function TrimStart(s: string): string {
    if s != "" && IsWhitespace(s[0]) then TrimStart(s[1..]) else s
  }

  function TrimEnd(s: string): string {
    if s != "" && IsWhitespace(s[|s| - 1]) then TrimEnd(s[..|s| - 1]) else s
  }

  function Trim(s: string): string {
    TrimEnd(TrimStart(s))
  }

  /** Exactly the leading whitespace goes. */
  lemma {:induction false} TrimStartExactly(s: string)
    ensures var n := |s| - |TrimStart(s)|;
            && 0 <= n && TrimStart(s) == s[n..] && IsBlank(s[..n])
            && (n < |s| ==> !IsWhitespace(s[n]))
  {
    hide IsWhitespace;
    if s != "" && IsWhitespace(s[0]) {
      var rest := s[1..];
      TrimStartExactly(rest);
      var n := |rest| - |TrimStart(rest)|;
      assert s[..n + 1] == [s[0]] + rest[..n];
    }
  }

  /** Exactly the trailing whitespace goes. */
  lemma {:induction false} TrimEndExactly(s: string)
    ensures var n := |TrimEnd(s)|;
            && n <= |s| && TrimEnd(s) == s[..n] && IsBlank(s[n..])
            && (n > 0 ==> !IsWhitespace(s[n - 1]))
  {
    hide IsWhitespace;
    if s != "" && IsWhitespace(s[|s| - 1]) {
      var rest := s[..|s| - 1];
      TrimEndExactly(rest);
      var n := |TrimEnd(rest)|;
      assert s[n..] == rest[n..] + [s[|s| - 1]];
    }
  }

  /** The first position of a character, or the length. */
  function IndexOf(s: string, c: char): (n: nat)
    ensures n <= |s|
    ensures n < |s| ==> s[n] == c
    ensures c !in s[..n]
  {
    if s == "" || s[0] == c then 0
    else
      var n := 1 + IndexOf(s[1..], c);
      assert s[..n] == [s[0]] + s[1..][..n - 1];
      n
  }

  lemma {:induction false} IndexIsFirst(s: string, c: char, k: nat)
    requires k < |s| && s[k] == c && c !in s[..k]
    ensures IndexOf(s, c) == k
    decreases k
  {
    if k > 0 {
      assert s[..k] == [s[0]] + s[1..][..k - 1];
      IndexIsFirst(s[1..], c, k - 1);
    }
  }

  function Remove(s: string, c: char): string {
    if s == "" then "" else (if s[0] == c then "" else [s[0]]) + Remove(s[1..], c)
  }

  /** What is left is the characters other than `c`, in order. */
  lemma {:induction false} RemoveConcat(a: string, b: string, c: char)
    ensures Remove(a + [c] + b, c) == Remove(a, c) + Remove(b, c)
    ensures c !in a ==> Remove(a, c) == a
  {
    if a == "" {
      assert a + [c] + b == [c] + b && ([c] + b)[1..] == b;
    } else {
      var rest := a[1..];
      assert (a + [c] + b)[1..] == rest + [c] + b;
      RemoveConcat(rest, b, c);
      assert a == [a[0]] + rest;
    }
  }

  function ToLower(c: char): char {
    if 'A' <= c <= 'Z' then (c as int + 32) as char else c
  }

  function Lower(s: string): string {
    seq(|s|, i requires 0 <= i < |s| => ToLower(s[i]))
  }

  /** Texts are the same without regard to case if they differ at most in the case of ASCII
      letters. */
  lemma LowerExactly(a: string, b: string)
    ensures Lower(a) == Lower(b) <==>
            && |a| == |b|
            && forall i | 0 <= i < |a| ::
                 || a[i] == b[i]
                 || ('A' <= a[i] <= 'Z' && b[i] as int == a[i] as int + 32)
                 || ('A' <= b[i] <= 'Z' && a[i] as int == b[i] as int + 32)
  {
    if Lower(a) == Lower(b) {
      assert |a| == |Lower(a)| == |Lower(b)| == |b|;
      forall i | 0 <= i < |a|
        ensures ToLower(a[i]) == ToLower(b[i])
      {
        assert Lower(a)[i] == Lower(b)[i];
      }
    }
  }
}
