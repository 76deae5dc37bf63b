/**
 * The `String.escaped` extension property shared by the three engine copies:
 * a backslash is put before every character that the MarkdownV2 style of the
 * Telegram Bot API reserves, using the 18-character class
 * `_*[]()~`>#+-=|{}.!` of the source's regular expression.
 */
module Markdown {

  const ReservedChars: string := "_*[]()~`>#+-=|{}.!"

  predicate IsReserved(c: char)
  {
    c in ReservedChars
  }

  /** How many characters of `s` are reserved. */
  function ReservedCount(s: string): nat
  {
    if s == [] then 0 else (if IsReserved(s[0]) then 1 else 0) + ReservedCount(s[1..])
  }

  function EscapeChar(c: char): string
  {
    if IsReserved(c) then ['\\', c] else [c]
  }

  /** `s.escaped`: each reserved character gets one backslash in front of it,
      every other character is copied. */
  function Escaped(s: string): (r: string)
    ensures |r| == |s| + ReservedCount(s)
    ensures s == [] <==> r == []
    ensures r != [] ==> !IsReserved(r[0])
  {
    if s == [] then [] else EscapeChar(s[0]) + Escaped(s[1..])
  }

  /** Reads an escaped string back: a backslash followed by a reserved
      character stands for that character. */
  function Unescaped(r: string): string
  {
    if |r| >= 2 && r[0] == '\\' && IsReserved(r[1]) then [r[1]] + Unescaped(r[2..])
    else if r == [] then []
    else [r[0]] + Unescaped(r[1..])
  }

  /** Escaping loses nothing: it is undone by `Unescaped`. */
  lemma {:induction false} UnescapedEscaped(s: string)
    ensures Unescaped(Escaped(s)) == s
  {
    if s != [] {
      var rest := Escaped(s[1..]);
      UnescapedEscaped(s[1..]);
      var r := EscapeChar(s[0]) + rest;
      if IsReserved(s[0]) {
        assert r[0] == '\\' && r[1] == s[0] && r[2..] == rest;
      } else {
        assert r[0] == s[0] && r[1..] == rest;
        assert !(|r| >= 2 && r[0] == '\\' && IsReserved(r[1]));
      }
    }
  }

  /** Every reserved character of an escaped string is preceded by a
      backslash, so the result is safe to send as MarkdownV2. */
  lemma {:induction false} EscapedIsSafe(s: string, i: nat)
    requires i < |Escaped(s)| && IsReserved(Escaped(s)[i])
    ensures i > 0 && Escaped(s)[i - 1] == '\\'
  {
    var e := EscapeChar(s[0]);
    var rest := Escaped(s[1..]);
    assert Escaped(s) == e + rest;
    if i >= |e| {
      assert Escaped(s)[i] == rest[i - |e|];
      if i - |e| > 0 {
        EscapedIsSafe(s[1..], i - |e|);
      }
    }
  }

  /** A string without reserved characters is left as it is. */
  lemma {:induction false} EscapedPlain(s: string)
    requires forall i :: 0 <= i < |s| ==> !IsReserved(s[i])
    ensures Escaped(s) == s
  {
    if s != [] {
      assert !IsReserved(s[0]);
      EscapedPlain(s[1..]);
    }
  }

  /** Escaping distributes over concatenation. */
  lemma {:induction false} EscapedAppend(a: string, b: string)
    ensures Escaped(a + b) == Escaped(a) + Escaped(b)
  {
    if a == [] {
      assert a + b == b;
    } else {
      assert (a + b)[0] == a[0] && (a + b)[1..] == a[1..] + b;
      EscapedAppend(a[1..], b);
    }
  }
}
