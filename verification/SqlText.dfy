// Question-mark placeholders: which ones stand in code, and their rewriting to numbered binds.
module SqlText {
  import opened Bytes

  // ---- decimal numerals ----

  function Digit(d: nat): char
    requires d < 10
  {
    "0123456789"[d]
  }

  function Dec(n: nat): (s: string)
    ensures s != ""
  {
    if n < 10 then [Digit(n)] else Dec(n / 10) + [Digit(n % 10)]
  }

  lemma {:induction false} DecInjective(a: nat, b: nat)
    requires Dec(a) == Dec(b)
    ensures a == b
  {
    assert Digit(a % 10) == Dec(a)[|Dec(a)| - 1] && Digit(b % 10) == Dec(b)[|Dec(b)| - 1];
    if a >= 10 && b >= 10 {
      assert Dec(a)[..|Dec(a)| - 1] == Dec(a / 10) && Dec(b)[..|Dec(b)| - 1] == Dec(b / 10);
      DecInjective(a / 10, b / 10);
    }
  }

  // ---- the rewriting, one character at a time ----

  datatype Mode = Code | Single | Double | Line | Block

  /** The mode behind a character of code other than a placeholder. */
  function Enter(s: string): Mode
    requires s != ""
  {
    if s[0] == '\'' then Single
    else if s[0] == '"' then Double
    else if s[0] == '-' && |s| > 1 && s[1] == '-' then Line
    else if s[0] == '/' && |s| > 1 && s[1] == '*' then Block
    else Code
  }

  /** The rest of a text in mode m, its placeholders numbered from n + 1. */
  function Rewrite(m: Mode, n: nat, s: string): string
    decreases |s|
  {
    if s == "" then ""
    else match m
      case Line => [s[0]] + Rewrite(if s[0] == '\n' then Code else Line, n, s[1..])
      case Block =>
        if s[0] == '*' && |s| > 1 && s[1] == '/' then "*/" + Rewrite(Code, n, s[2..])
        else [s[0]] + Rewrite(Block, n, s[1..])
      case Single => [s[0]] + Rewrite(if s[0] == '\'' then Code else Single, n, s[1..])
      case Double => [s[0]] + Rewrite(if s[0] == '"' then Code else Double, n, s[1..])
      case Code =>
        if s[0] == '?' then (":" + Dec(n + 1)) + Rewrite(Code, n + 1, s[1..])
        else [s[0]] + Rewrite(Enter(s), n, s[1..])
  }

  /** How many placeholders stand in code. */
  function Marks(m: Mode, s: string): nat
    decreases |s|
  {
    if s == "" then 0
    else match m
      case Line => Marks(if s[0] == '\n' then Code else Line, s[1..])
      case Block => if s[0] == '*' && |s| > 1 && s[1] == '/' then Marks(Code, s[2..]) else Marks(Block, s[1..])
      case Single => Marks(if s[0] == '\'' then Code else Single, s[1..])
      case Double => Marks(if s[0] == '"' then Code else Double, s[1..])
      case Code => if s[0] == '?' then 1 + Marks(Code, s[1..]) else Marks(Enter(s), s[1..])
  }

  lemma {:induction false} NoneToRewrite(m: Mode, n: nat, s: string)
    requires '?' !in s
    ensures Rewrite(m, n, s) == s
    decreases |s|
  {
    if s != "" {
      assert s == [s[0]] + s[1..];
      if m == Block && s[0] == '*' && |s| > 1 && s[1] == '/' {
        assert s == "*/" + s[2..];
        NoneToRewrite(Code, n, s[2..]);
      } else {
        forall next: Mode
          ensures Rewrite(next, n, s[1..]) == s[1..]
        {
          NoneToRewrite(next, n, s[1..]);
        }
      }
    }
  }

  method RewriteQmark(sql: string) returns (out: string)
    ensures out == Rewrite(Code, 0, sql)
  {
    if '?' !in sql {
      NoneToRewrite(Code, 0, sql);
      return sql;
    }
    out := "";
    var n := 0;
    var inSingle, inDouble, inLine, inBlock := false, false, false, false;
    ghost var mode := Code;
    var i := 0;
    assert sql[0..] == sql && "" + Rewrite(Code, 0, sql) == Rewrite(Code, 0, sql);
    while i < |sql|
      invariant 0 <= i <= |sql|
      invariant inLine == (mode == Line) && inBlock == (mode == Block) && inSingle == (mode == Single) && inDouble == (mode == Double)
      invariant out + Rewrite(mode, n, sql[i..]) == Rewrite(Code, 0, sql)
      decreases |sql| - i
    {
      ghost var rest := sql[i..];
      assert rest[0] == sql[i] && rest[1..] == sql[i + 1..];
      var c := sql[i];
      if inBlock && c == '*' && i + 1 < |sql| && sql[i + 1] == '/' {
        assert rest[1] == sql[i + 1] && rest[2..] == sql[i + 2..];
        Associate(out, "*/", Rewrite(Code, n, rest[2..]));
        inBlock, mode := false, Code;
        out := out + "*/";
        i := i + 2;
      } else if !inLine && !inBlock && !inSingle && !inDouble && c == '?' {
        Associate(out, ":" + Dec(n + 1), Rewrite(Code, n + 1, rest[1..]));
        n := n + 1;
        out := out + (":" + Dec(n));
        i := i + 1;
      } else {
        assert i + 1 < |sql| ==> rest[1] == sql[i + 1];
        if inLine {
          inLine := c != '\n';
          mode := if c == '\n' then Code else Line;
        } else if inSingle {
          inSingle := c != '\'';
          mode := if c == '\'' then Code else Single;
        } else if inDouble {
          inDouble := c != '"';
          mode := if c == '"' then Code else Double;
        } else if !inBlock {
          inSingle, inDouble := c == '\'', c == '"';
          inLine := c == '-' && i + 1 < |sql| && sql[i + 1] == '-';
          inBlock := c == '/' && i + 1 < |sql| && sql[i + 1] == '*';
          mode := Enter(rest);
        }
        Associate(out, [c], Rewrite(mode, n, rest[1..]));
        out := out + [c];
        i := i + 1;
      }
    }
  }

  // ---- what "in code" means: a text as a list of pieces ----

  /**
    * Quoted is a delimiter, text without it, and the delimiter again (a doubled delimiter reads as two pieces).
    * A line comment ends with its newline. A block comment's text starts with the opening's asterisk and ends
    * at the first asterisk and slash. Open is a quotation or comment that the text ends in.
    */
  datatype Piece =
    | Question
    | Plain(c: char)
    | Quoted(q: char, body: string)
    | LineComment(body: string)
    | BlockComment(body: string)
    | Open(mode: Mode, text: string)

  function Spell(p: Piece): string {
    match p
    case Question => "?"
    case Plain(c) => [c]
    case Quoted(q, body) => [q] + body + [q]
    case LineComment(body) => "-" + body + "\n"
    case BlockComment(body) => "/" + body + "*/"
    case Open(_, text) => text
  }

  function SpellAll(ps: seq<Piece>): string {
    if ps == [] then "" else Spell(ps[0]) + SpellAll(ps[1..])
  }

  /** The same pieces with the placeholders, and only those, replaced by :n+1, :n+2, ... */
  function SpellNumbered(ps: seq<Piece>, n: nat): string {
    if ps == [] then ""
    else if ps[0].Question? then (":" + Dec(n + 1)) + SpellNumbered(ps[1..], n + 1)
    else Spell(ps[0]) + SpellNumbered(ps[1..], n)
  }

  function Questions(ps: seq<Piece>): nat {
    if ps == [] then 0 else (if ps[0].Question? then 1 else 0) + Questions(ps[1..])
  }

  /** No asterisk and slash in a row. */
  predicate NoClose(s: string) {
    |s| < 2 || (!(s[0] == '*' && s[1] == '/') && NoClose(s[1..]))
  }

  /** The piece is what it says, given the text behind it. */
  predicate Delimited(p: Piece, rest: string) {
    match p
    case Question => true
    case Plain(c) => c != '?' && Enter([c] + rest) == Code
    case Quoted(q, body) => (q == '\'' || q == '"') && q !in body
    case LineComment(body) => '\n' !in body && body != "" && body[0] == '-'
    case BlockComment(body) => NoClose(body + "*") && (body == "" || body[0] == '*')
    case Open(mode, text) =>
      rest == "" && text != "" && mode != Code && Enter(text) == mode && text[0] != '?' && Unclosed(mode, text[1..])
  }

  predicate Unclosed(m: Mode, s: string) {
    match m
    case Code => s == ""
    case Single => '\'' !in s
    case Double => '"' !in s
    case Line => '\n' !in s
    case Block => NoClose(s)
  }

  predicate AllDelimited(ps: seq<Piece>) {
    ps == [] || (Delimited(ps[0], SpellAll(ps[1..])) && AllDelimited(ps[1..]))
  }

  function Closer(m: Mode): char {
    if m == Single then '\'' else if m == Double then '"' else '\n'
  }

  /** A quotation or line comment is copied up to its end. */
  lemma {:induction false} RunIsCopied(m: Mode, n: nat, body: string, rest: string)
    requires m == Single || m == Double || m == Line
    requires Closer(m) !in body
    ensures Rewrite(m, n, body + [Closer(m)] + rest) == body + [Closer(m)] + Rewrite(Code, n, rest)
    ensures Marks(m, body + [Closer(m)] + rest) == Marks(Code, rest)
  {
    var s := body + [Closer(m)] + rest;
    if body == "" {
      assert s[1..] == rest;
    } else {
      assert s[1..] == body[1..] + [Closer(m)] + rest;
      RunIsCopied(m, n, body[1..], rest);
      assert body == [body[0]] + body[1..];
    }
  }

  lemma {:induction false} BlockIsCopied(n: nat, body: string, rest: string)
    requires NoClose(body + "*")
    ensures Rewrite(Block, n, body + "*/" + rest) == body + "*/" + Rewrite(Code, n, rest)
    ensures Marks(Block, body + "*/" + rest) == Marks(Code, rest)
  {
    var s := body + "*/" + rest;
    if body == "" {
      assert s[2..] == rest;
    } else {
      assert s[1..] == body[1..] + "*/" + rest && s[0] == body[0];
      assert s[1] == (body + "*")[1];
      assert (body + "*")[1..] == body[1..] + "*";
      BlockIsCopied(n, body[1..], rest);
      Associate([body[0]], body[1..] + "*/", Rewrite(Code, n, rest));
      assert [body[0]] + (body[1..] + "*/") == body + "*/";
    }
  }

  lemma {:induction false} OpenIsCopied(m: Mode, n: nat, s: string)
    requires m != Code && Unclosed(m, s)
    ensures Rewrite(m, n, s) == s
    ensures Marks(m, s) == 0
  {
    if s != "" {
      assert s == [s[0]] + s[1..];
      OpenIsCopied(m, n, s[1..]);
    }
  }

  lemma QuotedIsCopied(q: char, body: string, n: nat, rest: string)
    requires Delimited(Quoted(q, body), rest)
    ensures Rewrite(Code, n, [q] + body + [q] + rest) == [q] + body + [q] + Rewrite(Code, n, rest)
    ensures Marks(Code, [q] + body + [q] + rest) == Marks(Code, rest)
  {
    var s, m, tail := [q] + body + [q] + rest, if q == '\'' then Single else Double, Rewrite(Code, n, rest);
    assert s[1..] == body + [q] + rest && s[0] == q;
    RunIsCopied(m, n, body, rest);
    assert [q] + (body + [q] + tail) == [q] + body + [q] + tail;
  }

  lemma LineIsCopied(body: string, n: nat, rest: string)
    requires Delimited(LineComment(body), rest)
    ensures Rewrite(Code, n, "-" + body + "\n" + rest) == "-" + body + "\n" + Rewrite(Code, n, rest)
    ensures Marks(Code, "-" + body + "\n" + rest) == Marks(Code, rest)
  {
    var s, tail := "-" + body + "\n" + rest, Rewrite(Code, n, rest);
    assert s[1..] == body + "\n" + rest && s[0] == '-' && s[1] == body[0];
    RunIsCopied(Line, n, body, rest);
    assert "-" + (body + "\n" + tail) == "-" + body + "\n" + tail;
  }

  lemma CommentIsCopied(body: string, n: nat, rest: string)
    requires Delimited(BlockComment(body), rest)
    ensures Rewrite(Code, n, "/" + body + "*/" + rest) == "/" + body + "*/" + Rewrite(Code, n, rest)
    ensures Marks(Code, "/" + body + "*/" + rest) == Marks(Code, rest)
  {
    var s, tail := "/" + body + "*/" + rest, Rewrite(Code, n, rest);
    assert s[1..] == body + "*/" + rest && s[0] == '/';
    assert s[1] == if body == "" then '*' else body[0];
    BlockIsCopied(n, body, rest);
    assert "/" + (body + "*/" + tail) == "/" + body + "*/" + tail;
  }

  lemma PieceIsCopied(p: Piece, n: nat, rest: string)
    requires !p.Question? && Delimited(p, rest)
    ensures Rewrite(Code, n, Spell(p) + rest) == Spell(p) + Rewrite(Code, n, rest)
    ensures Marks(Code, Spell(p) + rest) == Marks(Code, rest)
  {
    var s := Spell(p) + rest;
    match p
    case Plain(c) =>
      assert s[1..] == rest && s == [c] + rest;
    case Quoted(q, body) => QuotedIsCopied(q, body, n, rest);
    case LineComment(body) => LineIsCopied(body, n, rest);
    case BlockComment(body) => CommentIsCopied(body, n, rest);
    case Open(mode, text) =>
      assert s == text && text == [text[0]] + text[1..];
      OpenIsCopied(mode, n, text[1..]);
  }

  /** The rewriting replaces exactly the placeholders in code, by :1, :2, ... in order, and changes nothing else. */
  lemma {:induction false} RewriteNumbersQuestions(ps: seq<Piece>, n: nat)
    requires AllDelimited(ps)
    ensures Rewrite(Code, n, SpellAll(ps)) == SpellNumbered(ps, n)
    ensures Marks(Code, SpellAll(ps)) == Questions(ps)
  {
    if ps != [] {
      var rest := SpellAll(ps[1..]);
      if ps[0].Question? {
        RewriteNumbersQuestions(ps[1..], n + 1);
        assert ("?" + rest)[1..] == rest;
      } else {
        RewriteNumbersQuestions(ps[1..], n);
        PieceIsCopied(ps[0], n, rest);
      }
    }
  }

  // ---- every text is such a list ----

  lemma {:induction false} FirstOf(c: char, s: string) returns (k: nat)
    requires c in s
    ensures k < |s| && s[k] == c && c !in s[..k]
  {
    if s[0] == c {
      k := 0;
    } else {
      assert s == [s[0]] + s[1..];
      var j := FirstOf(c, s[1..]);
      k := j + 1;
      assert s[..k] == [s[0]] + s[1..][..j];
    }
  }

  /** Where a block comment ends: its text up to the first asterisk and slash. */
  lemma {:induction false} FirstClose(s: string) returns (k: nat)
    requires !NoClose(s)
    ensures k + 2 <= |s| && s[k] == '*' && s[k + 1] == '/' && NoClose(s[..k + 1])
  {
    if s[0] == '*' && s[1] == '/' {
      k := 0;
    } else {
      var j := FirstClose(s[1..]);
      k := j + 1;
      assert s[..k + 1][1..] == s[1..][..j + 1];
    }
  }

  lemma FirstBlock(s: string) returns (p: Piece, rest: string)
    requires s != "" && Enter(s) == Block && !NoClose(s[1..])
    ensures s == Spell(p) + rest && Delimited(p, rest) && |rest| < |s|
  {
    var t := s[1..];
    var k := FirstClose(t);
    p, rest := BlockComment(t[..k]), t[k + 2..];
    assert t[..k + 1] == t[..k] + "*";
    assert t == t[..k] + "*/" + rest && t[0] == '*';
    assert s == "/" + t;
    assert "/" + (t[..k] + "*/" + rest) == "/" + t[..k] + "*/" + rest;
  }

  lemma FirstRun(s: string) returns (p: Piece, rest: string)
    requires s != "" && Enter(s) != Code && Enter(s) != Block && Closer(Enter(s)) in s[1..]
    ensures s == Spell(p) + rest && Delimited(p, rest) && |rest| < |s|
  {
    var t, c := s[1..], Closer(Enter(s));
    var k := FirstOf(c, t);
    rest := t[k + 1..];
    assert t == t[..k] + [c] + rest && s == [s[0]] + t;
    if Enter(s) == Line {
      assert t[0] == '-';
      p := LineComment(t[..k]);
    } else {
      p := Quoted(s[0], t[..k]);
    }
    assert [s[0]] + (t[..k] + [c] + rest) == [s[0]] + t[..k] + [c] + rest;
  }

  /** The first piece of a text. */
  lemma FirstPiece(s: string) returns (p: Piece, rest: string)
    requires s != ""
    ensures s == Spell(p) + rest && Delimited(p, rest) && |rest| < |s|
  {
    var m, t := Enter(s), s[1..];
    if s[0] == '?' || m == Code {
      p, rest := if s[0] == '?' then Question else Plain(s[0]), t;
      assert s == [s[0]] + t;
    } else if Unclosed(m, t) {
      p, rest := Open(m, s), "";
      assert s + "" == s;
    } else if m == Block {
      p, rest := FirstBlock(s);
    } else {
      p, rest := FirstRun(s);
    }
  }

  lemma {:induction false} EveryTextHasPieces(s: string) returns (ps: seq<Piece>)
    ensures SpellAll(ps) == s && AllDelimited(ps)
    decreases |s|
  {
    if s == "" {
      ps := [];
    } else {
      var p, rest := FirstPiece(s);
      var more := EveryTextHasPieces(rest);
      ps := [p] + more;
      assert ps[1..] == more;
    }
  }
}
