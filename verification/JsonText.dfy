// JSON string literals: the run-copying writer of the OSON decoder, the byte-at-a-time
// writer for object columns, and a reader of JSON strings (RFC 8259, section 7).
module JsonText {
  import opened Bytes

  const QUOTE: byte := 0x22
  const BACKSLASH: byte := 0x5c

  function HexDigit(n: int): byte
    requires 0 <= n < 16
  {
    if n < 10 then 0x30 + n else 0x61 + n - 10
  }

  /** What one byte contributes to a literal. */
  function Escape(c: byte): (e: seq<byte>)
    ensures e != []
  {
    if c == QUOTE || c == BACKSLASH then [BACKSLASH, c]
    else if c == 0x0a then [BACKSLASH, 0x6e]
    else if c == 0x0d then [BACKSLASH, 0x72]
    else if c == 0x09 then [BACKSLASH, 0x74]
    else if c < 0x20 then [BACKSLASH, 0x75, 0x30, 0x30, HexDigit(c / 16), HexDigit(c % 16)]
    else [c]
  }

  function Escaped(s: seq<byte>): seq<byte> {
    if s == [] then [] else Escaped(s[..|s| - 1]) + Escape(s[|s| - 1])
  }

  /** The literal for s. */
  function Literal(s: seq<byte>): seq<byte> {
    [QUOTE] + Escaped(s) + [QUOTE]
  }

  lemma {:induction false} EscapedConcat(a: seq<byte>, b: seq<byte>)
    ensures Escaped(a + b) == Escaped(a) + Escaped(b)
  {
    hide Escape;
    if b == [] {
      assert a + b == a;
    } else {
      assert (a + b)[..|a + b| - 1] == a + b[..|b| - 1];
      EscapedConcat(a, b[..|b| - 1]);
      Associate(Escaped(a), Escaped(b[..|b| - 1]), Escape(b[|b| - 1]));
    }
  }

  predicate Plain(c: byte) {
    c >= 0x20 && c != QUOTE && c != BACKSLASH
  }

  lemma {:induction false} PlainEscapesToItself(s: seq<byte>)
    requires forall k :: 0 <= k < |s| ==> Plain(s[k])
    ensures Escaped(s) == s
  {
    if s != [] {
      PlainEscapesToItself(s[..|s| - 1]);
      assert s == s[..|s| - 1] + [s[|s| - 1]];
    }
  }

  predicate Continuation(c: byte) {
    0x80 <= c < 0xc0
  }

  /** The size utf8.DecodeRune reports at the front of s: that of a well-formed sequence, else 1. */
  function RuneSize(s: seq<byte>): (n: nat)
    requires s != []
    ensures 1 <= n <= |s| && n <= 4
    ensures s[0] >= 0x80 ==> forall k :: 0 <= k < n ==> s[k] >= 0x80
  {
    var c := s[0];
    if 0xc2 <= c <= 0xdf && |s| >= 2 && Continuation(s[1]) then 2
    else if 0xe0 <= c <= 0xef && |s| >= 3 && Continuation(s[1]) && Continuation(s[2])
         && (c == 0xe0 ==> s[1] >= 0xa0) && (c == 0xed ==> s[1] < 0xa0) then 3
    else if 0xf0 <= c <= 0xf4 && |s| >= 4 && Continuation(s[1]) && Continuation(s[2]) && Continuation(s[3])
         && (c == 0xf0 ==> s[1] >= 0x90) && (c == 0xf4 ==> s[1] < 0x90) then 4
    else 1
  }

  /** The output once the first n bytes of s are written. */
  function Written(out0: seq<byte>, s: seq<byte>, n: nat): seq<byte>
    requires n <= |s|
  {
    out0 + ([QUOTE] + Escaped(s[..n]))
  }

  /** A run of plain bytes is written by copying it. */
  lemma WriteRun(out0: seq<byte>, s: seq<byte>, start: nat, i: nat)
    requires start <= i <= |s| && forall k :: start <= k < i ==> Plain(s[k])
    ensures Written(out0, s, i) == Written(out0, s, start) + s[start..i]
  {
    assert s[..i] == s[..start] + s[start..i];
    EscapedConcat(s[..start], s[start..i]);
    PlainEscapesToItself(s[start..i]);
    Associate([QUOTE], Escaped(s[..start]), s[start..i]);
    Associate(out0, [QUOTE] + Escaped(s[..start]), s[start..i]);
  }

  lemma WriteOne(out0: seq<byte>, s: seq<byte>, i: nat)
    requires i < |s|
    ensures Written(out0, s, i + 1) == Written(out0, s, i) + Escape(s[i])
  {
    assert s[..i + 1][..i] == s[..i];
    Associate([QUOTE], Escaped(s[..i]), Escape(s[i]));
    Associate(out0, [QUOTE] + Escaped(s[..i]), Escape(s[i]));
  }

  lemma WriteAll(out0: seq<byte>, s: seq<byte>)
    ensures Written(out0, s, |s|) + [QUOTE] == out0 + Literal(s)
  {
    assert s[..|s|] == s;
    Associate(out0, [QUOTE] + Escaped(s), [QUOTE]);
  }

  lemma NothingWritten(out0: seq<byte>, s: seq<byte>)
    ensures Written(out0, s, 0) == out0 + [QUOTE]
  {
    assert [QUOTE] + Escaped(s[..0]) == [QUOTE];
  }

  /** A rune that is copied whole has no byte to escape. */
  lemma RuneIsPlain(s: seq<byte>, i: nat)
    requires i < |s| && s[i] >= 0x80
    ensures i + RuneSize(s[i..]) <= |s|
    ensures forall k :: i <= k < i + RuneSize(s[i..]) ==> Plain(s[k])
  {
    assert forall k :: i <= k < i + RuneSize(s[i..]) ==> s[k] == s[i..][k - i];
  }

  /** appendStringBytes: copies runs of plain bytes and whole runes, escapes between them. */
  method AppendStringBytes(out0: seq<byte>, s: seq<byte>) returns (out: seq<byte>)
    ensures out == out0 + Literal(s)
  {
    hide Written, Literal, Escape;
    out := out0 + [QUOTE];
    NothingWritten(out0, s);
    var start := 0;
    var i := 0;
    while i < |s|
      invariant 0 <= start <= i <= |s|
      invariant forall k :: start <= k < i ==> Plain(s[k])
      invariant out == Written(out0, s, start)
    {
      var c := s[i];
      if c >= 0x80 {
        var size := RuneSize(s[i..]);
        RuneIsPlain(s, i);
        i := i + size;
      } else if c >= 0x20 && c != QUOTE && c != BACKSLASH {
        i := i + 1;
      } else {
        WriteRun(out0, s, start, i);
        WriteOne(out0, s, i);
        out := EscapeAfterRun(out, s[start..i], c);
        i := i + 1;
        start := i;
      }
    }
    WriteRun(out0, s, start, |s|);
    WriteAll(out0, s);
    out := out + s[start..] + [QUOTE];
  }

  /** Copies the pending run, then escapes a byte that is not plain. */
  method EscapeAfterRun(out0: seq<byte>, run: seq<byte>, c: byte) returns (out: seq<byte>)
    requires !Plain(c)
    ensures out == out0 + run + Escape(c)
  {
    out := out0 + run;
    if c == QUOTE || c == BACKSLASH {
      out := out + [BACKSLASH, c];
    } else if c == 0x0a {
      out := out + [BACKSLASH, 0x6e];
    } else if c == 0x0d {
      out := out + [BACKSLASH, 0x72];
    } else if c == 0x09 {
      out := out + [BACKSLASH, 0x74];
    } else {
      out := out + [BACKSLASH, 0x75, 0x30, 0x30, HexDigit(c / 16), HexDigit(c % 16)];
    }
  }

  /** jsonWriter.strBytes: one byte at a time. */
  method StrBytes(out0: seq<byte>, s: seq<byte>) returns (out: seq<byte>)
    ensures out == out0 + Literal(s)
  {
    out := out0 + [QUOTE];
    assert [QUOTE] + Escaped(s[..0]) == [QUOTE];
    var i := 0;
    while i < |s|
      invariant 0 <= i <= |s|
      invariant out == Written(out0, s, i)
    {
      var c := s[i];
      ghost var before := out;
      if c == QUOTE || c == BACKSLASH {
        out := out + [BACKSLASH, c];
      } else if c == 0x0a {
        out := out + [BACKSLASH, 0x6e];
      } else if c == 0x0d {
        out := out + [BACKSLASH, 0x72];
      } else if c == 0x09 {
        out := out + [BACKSLASH, 0x74];
      } else if c < 0x20 {
        out := out + [BACKSLASH, 0x75, 0x30, 0x30, HexDigit(c / 16), HexDigit(c % 16)];
      } else {
        out := out + [c];
      }
      assert out == before + Escape(c);
      WriteOne(out0, s, i);
      i := i + 1;
    }
    WriteAll(out0, s);
    out := out + [QUOTE];
  }

  /** The two writers agree on every byte string, valid UTF-8 or not. */
  method BothWriters(s: seq<byte>) returns (fast: seq<byte>, slow: seq<byte>)
    ensures fast == slow == Literal(s)
  {
    fast := AppendStringBytes([], s);
    slow := StrBytes([], s);
    assert [] + Literal(s) == Literal(s);
  }

  // ---- reading string literals ----

  function HexVal(c: byte): (r: Option<int>)
    ensures r.Some? ==> 0 <= r.value < 16
  {
    if 0x30 <= c <= 0x39 then Some(c - 0x30)
    else if 0x61 <= c <= 0x66 then Some(c - 0x61 + 10)
    else if 0x41 <= c <= 0x46 then Some(c - 0x41 + 10)
    else None
  }

  /** Four hexadecimal digits at the front of s. */
  function Hex4(s: seq<byte>): (r: Option<int>)
    ensures r.Some? ==> |s| >= 4 && 0 <= r.value < 0x1_0000
  {
    if |s| < 4 then None
    else match (HexVal(s[0]), HexVal(s[1]), HexVal(s[2]), HexVal(s[3]))
      case (Some(a), Some(b), Some(c), Some(d)) => Some(a * 4096 + b * 256 + c * 16 + d)
      case _ => None
  }

  /** UTF-8 (RFC 3629) of a code point. */
  function Utf8(p: int): seq<byte>
    requires 0 <= p < 0x11_0000
  {
    if p < 0x80 then [p]
    else if p < 0x800 then [0xc0 + p / 64, 0x80 + p % 64]
    else if p < 0x1_0000 then [0xe0 + p / 4096, 0x80 + p / 64 % 64, 0x80 + p % 64]
    else [0xf0 + p / 262144, 0x80 + p / 4096 % 64, 0x80 + p / 64 % 64, 0x80 + p % 64]
  }

  /** One character of a string: plain, a two-character escape, \uXXXX, or a surrogate pair of those. */
  function ReadChar(s: seq<byte>): (r: Option<(seq<byte>, seq<byte>)>)
    ensures r.Some? ==> |r.value.1| < |s|
  {
    if s == [] then None
    else if s[0] != BACKSLASH then (if Plain(s[0]) then Some(([s[0]], s[1..])) else None)
    else if |s| < 2 then None
    else
      var c := s[1];
      if c == QUOTE || c == BACKSLASH || c == 0x2f then Some(([c], s[2..]))
      else if c == 0x62 then Some(([8], s[2..]))
      else if c == 0x66 then Some(([12], s[2..]))
      else if c == 0x6e then Some(([10], s[2..]))
      else if c == 0x72 then Some(([13], s[2..]))
      else if c == 0x74 then Some(([9], s[2..]))
      else if c != 0x75 then None
      else match Hex4(s[2..])
        case None => None
        case Some(hi) =>
          if hi < 0xd800 || hi > 0xdfff then Some((Utf8(hi), s[6..]))
          else if hi > 0xdbff || |s| < 12 || s[6] != BACKSLASH || s[7] != 0x75 then None
          else match Hex4(s[8..])
            case None => None
            case Some(lo) =>
              if lo < 0xdc00 || lo > 0xdfff then None
              else Some((Utf8(0x1_0000 + (hi - 0xd800) * 1024 + (lo - 0xdc00)), s[12..]))
  }

  /** Characters up to the closing quote; the bytes they denote and what follows the literal. */
  function ReadChars(acc: seq<byte>, s: seq<byte>): Option<(seq<byte>, seq<byte>)>
    decreases |s|
  {
    if s == [] then None
    else if s[0] == QUOTE then Some((acc, s[1..]))
    else match ReadChar(s)
      case None => None
      case Some((bs, rest)) => ReadChars(acc + bs, rest)
  }

  function ReadString(s: seq<byte>): Option<(seq<byte>, seq<byte>)> {
    if s == [] || s[0] != QUOTE then None else ReadChars([], s[1..])
  }

  lemma HexDigitsRead(n: int)
    requires 0 <= n < 16
    ensures HexVal(HexDigit(n)) == Some(n)
  {
  }

  lemma ReadEscaped(c: byte, rest: seq<byte>)
    ensures var s := Escape(c) + rest;
            s[0] != QUOTE && ReadChar(s) == Some(([c], rest))
  {
    var s := Escape(c) + rest;
    assert s[|Escape(c)|..] == rest;
    if c < 0x20 && c != 0x0a && c != 0x0d && c != 0x09 {
      HexDigitsRead(c / 16);
      HexDigitsRead(c % 16);
      var h := s[2..];
      assert h[0] == 0x30 && h[1] == 0x30 && h[2] == HexDigit(c / 16) && h[3] == HexDigit(c % 16);
      assert Hex4(h) == Some(c);
    }
  }

  lemma EscapedHead(s: seq<byte>)
    requires s != []
    ensures Escaped(s) == Escape(s[0]) + Escaped(s[1..])
  {
    assert Escaped([s[0]]) == Escape(s[0]) by {
      assert [s[0]][..0] == [];
      assert [] + Escape(s[0]) == Escape(s[0]);
    }
    EscapedConcat([s[0]], s[1..]);
    assert [s[0]] + s[1..] == s;
  }

  /** Reading past the first byte's escape. */
  lemma ReadCharsStep(acc: seq<byte>, c: byte, more: seq<byte>)
    ensures ReadChars(acc, Escape(c) + more) == ReadChars(acc + [c], more)
  {
    ReadEscaped(c, more);
  }

  lemma {:induction false} CharsReadBack(acc: seq<byte>, s: seq<byte>, tail: seq<byte>)
    requires tail != [] && tail[0] == QUOTE
    ensures ReadChars(acc, Escaped(s) + tail) == Some((acc + s, tail[1..]))
    decreases |s|
  {
    hide ReadChar, Escape;
    if s == [] {
      assert Escaped(s) + tail == tail;
      assert acc + s == acc;
    } else {
      EscapedHead(s);
      Associate(Escape(s[0]), Escaped(s[1..]), tail);
      ReadCharsStep(acc, s[0], Escaped(s[1..]) + tail);
      CharsReadBack(acc + [s[0]], s[1..], tail);
      assert acc + [s[0]] + s[1..] == acc + s;
    }
  }

  /** A standard reader recovers every byte string from its literal, and reads not one byte more. */
  lemma LiteralReadsBack(s: seq<byte>, rest: seq<byte>)
    ensures ReadString(Literal(s) + rest) == Some((s, rest))
  {
    var t := Literal(s) + rest;
    assert t[1..] == Escaped(s) + ([QUOTE] + rest);
    CharsReadBack([], s, [QUOTE] + rest);
    assert [] + s == s && ([QUOTE] + rest)[1..] == rest;
  }
}
