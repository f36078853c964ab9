/** json_escape in c-test-binaries/common/test_framework.c and the line of output it is for: bytes are numbers below
256, a C string is the part of a buffer before its first zero byte. */
module JsonEscape {
  import opened Common

  const QUOTE: byte := 34
  const BACKSLASH: byte := 92
  const NEWLINE: byte := 10
  const TAB: byte := 9
  const LETTER_B: byte := 98
  const LETTER_F: byte := 102
  const LETTER_N: byte := 110
  const LETTER_R: byte := 114
  const LETTER_T: byte := 116
  const LETTER_U: byte := 117

  // ---- C strings ----

  function Text(b: seq<byte>): seq<byte> {
    if b == [] || b[0] == 0 then [] else [b[0]] + Text(b[1..])
  }

  lemma {:induction false} TextEnds(b: seq<byte>)
    requires 0 in b
    ensures |Text(b)| < |b| && Text(b) == b[..|Text(b)|] && b[|Text(b)|] == 0 && 0 !in Text(b)
  {
    if b[0] != 0 {
      TextEnds(b[1..]);
    }
  }

  lemma {:induction false} TextIs(b: seq<byte>, n: nat)
    requires n < |b| && 0 !in b[..n] && b[n] == 0
    ensures Text(b) == b[..n]
  {
    if n > 0 {
      assert b[0] == b[..n][0];
      assert b[1..][..n - 1] == b[..n][1..];
      TextIs(b[1..], n - 1);
    }
  }

  // ---- escaping ----

  function EscapeByte(c: byte): seq<byte> {
    if c == QUOTE then [BACKSLASH, QUOTE]
    else if c == BACKSLASH then [BACKSLASH, BACKSLASH]
    else if c == NEWLINE then [BACKSLASH, LETTER_N]
    else if c == TAB then [BACKSLASH, LETTER_T]
    else [c]
  }

  function Escape(s: seq<byte>): seq<byte> {
    if s == [] then [] else EscapeByte(s[0]) + Escape(s[1..])
  }

  lemma {:induction false} EscapeAppend(s: seq<byte>, c: byte)
    ensures Escape(s + [c]) == Escape(s) + EscapeByte(c)
  {
    if s == [] {
      assert s + [c] == [c];
    } else {
      assert (s + [c])[1..] == s[1..] + [c];
      EscapeAppend(s[1..], c);
    }
  }

  lemma {:induction false} EscapeSize(s: seq<byte>)
    ensures |s| <= |Escape(s)| <= 2 * |s|
  {
    if s != [] {
      EscapeSize(s[1..]);
    }
  }

  lemma {:induction false} EscapeNoZero(s: seq<byte>)
    requires 0 !in s
    ensures 0 !in Escape(s)
  {
    if s != [] {
      EscapeNoZero(s[1..]);
      assert s[0] != 0;
    }
  }

  lemma EscapePrefix(s: seq<byte>, i: nat)
    requires i < |s|
    ensures Escape(s[..i + 1]) == Escape(s[..i]) + EscapeByte(s[i])
  {
    assert s[..i + 1] == s[..i] + [s[i]];
    EscapeAppend(s[..i], s[i]);
  }

  lemma {:induction false} EscapeGrows(s: seq<byte>, i: nat, k: nat)
    requires i < k <= |s|
    ensures |Escape(s[..i])| < |Escape(s[..k])|
  {
    EscapePrefix(s, k - 1);
    if i < k - 1 {
      EscapeGrows(s, i, k - 1);
    }
  }

  // ---- how much fits ----

  /** n is where escaping s into a buffer of this size stops: the first point at which fewer than two bytes and the
      terminator are left, or the end of s. */
  ghost predicate Cut(s: seq<byte>, n: nat, size: nat) {
    && n <= |s|
    && (n < |s| ==> |Escape(s[..n])| >= size - 2)
    && (n > 0 ==> |Escape(s[..n - 1])| < size - 2)
  }

  lemma CutUnique(s: seq<byte>, m: nat, n: nat, size: nat)
    requires Cut(s, m, size) && Cut(s, n, size)
    ensures m == n
  {
    if m < n - 1 {
      EscapeGrows(s, m, n - 1);
    }
    if n < m - 1 {
      EscapeGrows(s, n, m - 1);
    }
  }

  /** Nothing is lost exactly when all but the last byte leaves room for a two-byte escape. */
  lemma WholeIff(s: seq<byte>, n: nat, size: nat)
    requires Cut(s, n, size)
    ensures n == |s| <==> s == [] || |Escape(s[..|s| - 1])| < size - 2
  {
    if s != [] && |Escape(s[..|s| - 1])| < size - 2 {
      CutUnique(s, n, |s|, size);
    }
  }

  /** A TestResult message (at most 511 bytes before its terminator) is never shortened by the 1024-byte buffer. */
  lemma MessageFits(s: seq<byte>, n: nat)
    requires |s| <= 511 && Cut(s, n, 1024)
    ensures n == |s|
  {
    WholeIff(s, n, 1024);
    if s != [] {
      EscapeSize(s[..|s| - 1]);
    }
  }

  /** The loop of json_escape: it stays inside the buffer, ends it with a zero byte, never leaves half an escape, and
      writes the escaped form of the longest prefix it has room for. */
  method EscapeInto(s: seq<byte>, out: array<byte>)
    requires 0 in s
    requires out.Length >= 2
    modifies out
    ensures 0 in out[..]
    ensures exists n: nat :: Cut(Text(s), n, out.Length) && Text(out[..]) == Escape(Text(s)[..n])
  {
    ghost var t := Text(s);
    TextEnds(s);
    var i, j := 0, 0;
    while s[i] != 0 && j < out.Length - 2
      invariant i <= |t| && j <= out.Length - 1
      invariant out[..j] == Escape(t[..i])
      invariant i > 0 ==> |Escape(t[..i - 1])| < out.Length - 2
      decreases |t| - i
    {
      ghost var written := out[..j];
      assert s[i] == t[i];
      EscapePrefix(t, i);
      if s[i] == QUOTE {
        out[j], out[j + 1] := BACKSLASH, QUOTE;
        j := j + 2;
      } else if s[i] == BACKSLASH {
        out[j], out[j + 1] := BACKSLASH, BACKSLASH;
        j := j + 2;
      } else if s[i] == NEWLINE {
        out[j], out[j + 1] := BACKSLASH, LETTER_N;
        j := j + 2;
      } else if s[i] == TAB {
        out[j], out[j + 1] := BACKSLASH, LETTER_T;
        j := j + 2;
      } else {
        out[j] := s[i];
        j := j + 1;
      }
      assert out[..j] == written + EscapeByte(s[i]);
      i := i + 1;
    }
    out[j] := 0;
    assert out[..][j] == 0 && out[..][..j] == Escape(t[..i]);
    EscapeNoZero(t[..i]);
    TextIs(out[..], j);
    assert Cut(t, i, out.Length);
  }

  // ---- what a JSON reader makes of it ----

  function Cons(c: nat, rest: Option<seq<nat>>): Option<seq<nat>> {
    match rest
    case None => None
    case Some(tail) => Some([c] + tail)
  }

  function Hex(c: byte): Option<nat> {
    if 48 <= c <= 57 then Some(c - 48)
    else if 65 <= c <= 70 then Some(c - 55)
    else if 97 <= c <= 102 then Some(c - 87)
    else None
  }

  function FourHex(x: seq<byte>): Option<nat>
    requires |x| == 4
  {
    match (Hex(x[0]), Hex(x[1]), Hex(x[2]), Hex(x[3]))
    case (Some(a), Some(b), Some(c), Some(d)) => Some(a * 4096 + b * 256 + c * 16 + d)
    case _ => None
  }

  /** The escapes of section 7 of RFC 8259 that are one byte after the backslash. */
  function ShortEscape(c: byte): Option<nat> {
    if c == QUOTE || c == BACKSLASH || c == 47 then Some(c)
    else if c == LETTER_B then Some(8)
    else if c == LETTER_F then Some(12)
    else if c == LETTER_N then Some(10)
    else if c == LETTER_R then Some(13)
    else if c == LETTER_T then Some(9)
    else None
  }

  /** The contents of a JSON string, by section 7 of RFC 8259; None if the grammar does not allow them. */
  function Decode(x: seq<byte>): Option<seq<nat>> {
    if x == [] then Some([])
    else if x[0] == QUOTE || x[0] < 32 then None
    else if x[0] != BACKSLASH then Cons(x[0], Decode(x[1..]))
    else if |x| < 2 then None
    else if ShortEscape(x[1]).Some? then Cons(ShortEscape(x[1]).value, Decode(x[2..]))
    else if x[1] != LETTER_U || |x| < 6 || FourHex(x[2..6]).None? then None
    else Cons(FourHex(x[2..6]).value, Decode(x[6..]))
  }

  /** No control byte other than newline and tab. */
  predicate Plain(s: seq<byte>) {
    forall i :: 0 <= i < |s| ==> s[i] >= 32 || s[i] == NEWLINE || s[i] == TAB
  }

  lemma DecodeByte(c: byte, y: seq<byte>)
    ensures Decode(EscapeByte(c) + y) == if c >= 32 || c == NEWLINE || c == TAB then Cons(c, Decode(y)) else None
  {
    var x := EscapeByte(c) + y;
    assert x[|EscapeByte(c)|..] == y;
  }

  /** A JSON reader gets back every message without other control bytes, and rejects every message with one. */
  lemma {:induction false} DecodeEscape(s: seq<byte>)
    ensures Decode(Escape(s)) == if Plain(s) then Some(s) else None
  {
    if s != [] {
      DecodeByte(s[0], Escape(s[1..]));
      DecodeEscape(s[1..]);
      assert Plain(s) <==> Plain([s[0]]) && Plain(s[1..]);
      assert s == [s[0]] + s[1..];
    }
  }

  /** What follows the backslash tells the escapes apart, and no other byte is written as a backslash. */
  lemma HeadsAgree(c: byte, x: seq<byte>, d: byte, y: seq<byte>)
    requires EscapeByte(c) + x == EscapeByte(d) + y
    ensures c == d && x == y
  {
    var z := EscapeByte(c) + x;
    assert z[0] == EscapeByte(c)[0] == EscapeByte(d)[0];
    assert |EscapeByte(c)| == 2 ==> z[1] == EscapeByte(c)[1] == EscapeByte(d)[1];
    assert x == z[|EscapeByte(c)|..] == y;
  }

  /** So distinct messages are never printed alike. */
  lemma {:induction false} EscapeInjective(s: seq<byte>, t: seq<byte>)
    requires Escape(s) == Escape(t)
    ensures s == t
  {
    if s != [] && t != [] {
      HeadsAgree(s[0], Escape(s[1..]), t[0], Escape(t[1..]));
      EscapeInjective(s[1..], t[1..]);
      assert s == [s[0]] + s[1..] && t == [t[0]] + t[1..];
    }
  }

  /** The record of a failed test is a readable JSON string, holding the whole message, if and only if the message
      has no control byte other than newline and tab; a carriage return is the simplest one that breaks it. */
  lemma MessageReadable(message: seq<byte>, n: nat)
    requires |message| <= 512 && 0 in message && Cut(Text(message), n, 1024)
    ensures Decode(Escape(Text(message)[..n])) == Some(Text(message)) <==> Plain(Text(message))
    ensures Decode(Escape(Text(message)[..n])) == None <==> !Plain(Text(message))
  {
    var t := Text(message);
    TextEnds(message);
    MessageFits(t, n);
    assert t[..n] == t;
    DecodeEscape(t);
  }

  lemma CarriageReturnBreaks()
    ensures Decode(Escape([13])) == None
  {
    var s: seq<byte> := [13];
    assert s[0] == 13;
    DecodeEscape(s);
  }
}
