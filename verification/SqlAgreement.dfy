// The two SQL scanners agree: the placeholders one numbers are the binds the other lists.
module SqlAgreement {
  import opened Bytes
  import opened SqlText
  import opened SqlScan

  /**
    * The rest of a text holds nothing that the scanners delimit differently: no colon in code, no q-quoted literal,
    * no comment opening directly followed by a slash.
    */
  predicate Clear(u: Classes, lastQ: bool, afterString: bool, s: string)
    decreases |s|
  {
    s == ""
    || (s[0] != ':'
        && (s[0] == '\'' ==> !lastQ)
        && (s[0] == '/' && |s| > 2 && s[1] == '*' ==> s[2] != '/')
        && var j := Jump(u, lastQ, afterString, s);
           Clear(u, j.last == 'q' || j.last == 'Q', j.afterString, j.rest))
  }

  /** No placeholder in code stands directly before a digit, and none behind a string literal and blanks only. */
  predicate Apart(u: Classes, lastQ: bool, afterString: bool, s: string)
    decreases |s|
  {
    s == ""
    || ((s[0] == '?' ==> !afterString && (|s| > 1 ==> !u.digit(s[1])))
        && var j := Jump(u, lastQ, afterString, s);
           Apart(u, j.last == 'q' || j.last == 'Q', j.afterString, j.rest))
  }

  predicate Clean(u: Classes, lastQ: bool, afterString: bool, s: string) {
    Clear(u, lastQ, afterString, s) && Apart(u, lastQ, afterString, s)
  }

  /** The names 1, 2, ..., n. */
  function Names(n: nat): seq<string> {
    if n == 0 then [] else Names(n - 1) + [Dec(n)]
  }

  lemma {:induction false} NextIsNew(n: nat, k: nat)
    requires k > n
    ensures Dec(k) !in Names(n)
  {
    if n > 0 {
      NextIsNew(n - 1, k);
      if Dec(k) == Dec(n) {
        DecInjective(k, n);
      }
    }
  }

  lemma {:induction false} DecIsDigits(u: Classes, n: nat)
    requires Ascii(u)
    ensures forall i :: 0 <= i < |Dec(n)| ==> u.digit(Dec(n)[i]) && !u.space(Dec(n)[i]) && Dec(n)[i] != '"'
  {
    assert Digit(n % 10) in "0123456789";
    if n >= 10 {
      DecIsDigits(u, n / 10);
      assert Digit(n / 10 % 10) in "0123456789";
    }
  }

  /** The first character of what is left: placeholders start with a colon, everything else is copied. */
  lemma Head(m: Mode, n: nat, s: string)
    requires s != ""
    ensures Rewrite(m, n, s) != ""
    ensures Rewrite(m, n, s)[0] == if m == Code && s[0] == '?' then ':' else s[0]
  {
  }

  /** A numbered placeholder is read as the bind of that name, and of all digits that follow. */
  lemma NumberRunIsBind(u: Classes, n: nat, rest: string)
    requires Ascii(u)
    ensures var more := Take(u.digit, rest);
            BindName(u, Dec(n) + rest) == Named(Dec(n) + more, rest[|more|..])
  {
    hide Take, Dec;
    var t, more := Dec(n) + rest, Take(u.digit, rest);
    var k := |Dec(n)| + |more|;
    DecIsDigits(u, n);
    assert t[0] == Dec(n)[0];
    TakeIsRun(u.space, t, 0);
    assert t[0..] == t;
    TakeIsMaximal(u.digit, rest);
    TakeIsRun(u.digit, t, k);
    assert t[..k] == Dec(n) + more && t[k..] == rest[|more|..];
  }

  lemma {:induction false} TakeIsMaximal(p: char -> bool, s: string)
    ensures var k := |Take(p, s)|; k <= |s| && (forall i :: 0 <= i < k ==> p(s[i])) && (k < |s| ==> !p(s[k]))
  {
    if s != "" && p(s[0]) {
      TakeIsMaximal(p, s[1..]);
      forall i | 0 <= i < |Take(p, s)|
        ensures p(s[i])
      {
        assert i > 0 ==> s[i] == s[1..][i - 1];
      }
    }
  }

  lemma NumberIsBind(u: Classes, n: nat, rest: string)
    requires Ascii(u) && (rest != "" ==> !u.digit(rest[0]))
    ensures BindName(u, Dec(n) + rest) == Named(Dec(n), rest)
  {
    hide BindName, Dec;
    NumberRunIsBind(u, n, rest);
    TakeIsRun(u.digit, rest, 0);
    assert Dec(n) + "" == Dec(n) && rest[0..] == rest;
  }

  // ---- regions both skip ----

  lemma {:induction false} QuoteAgrees(m: Mode, q: char, n: nat, t: string)
    requires (m == Single && q == '\'') || (m == Double && q == '"')
    ensures AfterQuote(Rewrite(m, n, t), q) == Rewrite(Code, n, AfterQuote(t, q))
    ensures Marks(m, t) == Marks(Code, AfterQuote(t, q))
    decreases |t|
  {
    if t != "" {
      var r := Rewrite(m, n, t);
      if t[0] != q {
        assert r == [t[0]] + Rewrite(m, n, t[1..]) && r[1..] == Rewrite(m, n, t[1..]);
        QuoteAgrees(m, q, n, t[1..]);
      } else {
        var code := Rewrite(Code, n, t[1..]);
        assert r == [q] + code && r[1..] == code;
        if |t| > 1 {
          assert t[1..][0] == t[1] && t[1..][1..] == t[2..];
          Head(Code, n, t[1..]);
          if t[1] == q {
            assert code == [q] + Rewrite(m, n, t[2..]);
            assert r[2..] == Rewrite(m, n, t[2..]);
            QuoteAgrees(m, q, n, t[2..]);
          }
        }
      }
    }
  }

  lemma {:induction false} LineAgrees(n: nat, t: string)
    ensures AfterNewline(Rewrite(Line, n, t)) == Rewrite(Code, n, AfterNewline(t))
    ensures Marks(Line, t) == Marks(Code, AfterNewline(t))
  {
    if t != "" {
      var r, next := Rewrite(Line, n, t), if t[0] == '\n' then Code else Line;
      assert r[1..] == Rewrite(next, n, t[1..]);
      if t[0] != '\n' {
        LineAgrees(n, t[1..]);
      }
    }
  }

  lemma {:induction false} BlockAgrees(n: nat, t: string)
    ensures AfterBlock(Rewrite(Block, n, t)) == Rewrite(Code, n, AfterBlock(t))
    ensures Marks(Block, t) == Marks(Code, AfterBlock(t))
  {
    var r := Rewrite(Block, n, t);
    if |t| == 1 {
      assert t[1..] == "" && r == [t[0]] + "";
      assert Marks(Block, t) == Marks(Block, t[1..]) == 0;
    } else if |t| > 1 {
      if t[0] == '*' && t[1] == '/' {
        assert r[2..] == Rewrite(Code, n, t[2..]);
      } else {
        Head(Block, n, t[1..]);
        assert r[1..] == Rewrite(Block, n, t[1..]);
        BlockAgrees(n, t[1..]);
      }
    }
  }

  /** A step over anything but a placeholder consumes the same of both texts. */
  lemma JumpAgrees(u: Classes, lastQ: bool, afterString: bool, n: nat, s: string)
    requires Ascii(u) && s != "" && s[0] != '?' && Clear(u, lastQ, afterString, s)
    ensures var j, k := Jump(u, lastQ, afterString, s), Jump(u, lastQ, afterString, Rewrite(Code, n, s));
            k == j.(rest := Rewrite(Code, n, j.rest)) && Marks(Code, s) == Marks(Code, j.rest)
  {
    hide AfterQuote, AfterBlock, Clear;
    var r, t := Rewrite(Code, n, s), s[1..];
    var tail := Rewrite(Enter(s), n, t);
    assert r == [s[0]] + tail && r[1..] == tail && r[0] == s[0];
    if t != "" {
      Head(Enter(s), n, t);
    }
    if s[0] == '\'' {
      assert !lastQ by { NoQString(u, lastQ, afterString, s); }
      QuoteAgrees(Single, '\'', n, t);
    } else if s[0] == '"' {
      QuoteAgrees(Double, '"', n, t);
    } else if Enter(s) == Line {
      LineAgrees(n, t);
      assert AfterNewline(r) == AfterNewline(tail) && AfterNewline(s) == AfterNewline(t);
    } else if Enter(s) == Block {
      NoShortComment(u, lastQ, afterString, s);
      var v := s[2..];
      assert t == ['*'] + v;
      assert tail == ['*'] + Rewrite(Block, n, v) && Marks(Block, t) == Marks(Block, v) by {
        assert t[1..] == v;
      }
      assert r[2..] == Rewrite(Block, n, v);
      BlockAgrees(n, v);
    }
  }

  lemma NoQString(u: Classes, lastQ: bool, afterString: bool, s: string)
    requires s != "" && s[0] == '\'' && Clear(u, lastQ, afterString, s)
    ensures !lastQ
  {
  }

  lemma NoShortComment(u: Classes, lastQ: bool, afterString: bool, s: string)
    requires s != "" && Enter(s) == Block && Clear(u, lastQ, afterString, s)
    ensures |s| > 2 ==> s[2] != '/'
  {
  }

  // ---- the scans agree ----

  /** Equal but for the binds. */
  predicate Alike(a: State, b: State) {
    a.(binds := b.binds) == b
  }

  lemma {:induction false} ScansAgree(u: Classes, a: State, b: State, n: nat, s: string)
    requires Ascii(u) && Alike(a, b) && a.binds == Names(n) && Clean(u, a.lastQ, a.afterString, s)
    requires !b.found ==> b.kind == Unknown
    ensures var x, y := Scan(u, a, Rewrite(Code, n, s)), Scan(u, b, s);
            Alike(x, y) && y.binds == b.binds && (y.kind != Ddl ==> x.binds == Names(n + Marks(Code, s))) && (!y.found ==> y.kind == Unknown)
    decreases |s|
  {
    hide BindName, DetermineKind, Jump, BindAt, Rewrite, Marks, Clear, Apart, Names, Dec, Scan, EndWord;
    if s == "" {
      Nothing(u, a, b, n);
    } else {
      var r := Rewrite(Code, n, s);
      Head(Code, n, s);
      var a1, b1 := EndWord(u, a, r[0]), EndWord(u, b, s[0]);
      WordsAlike(u, a, b, r[0], s[0]);
      if !Stops(b, b1) {
        var j := Jump(u, b1.lastQ, b1.afterString, s);
        CleanRest(u, b1.lastQ, b1.afterString, s);
        if s[0] == '?' {
          PlaceholderIsSkipped(u, b1.lastQ, b1.afterString, s);
          PlaceholderIsBound(u, a1, n, s);
          NextIsNew(n, n + 1);
          OneMore(n, s);
          ScanBind(u, a, r);
          NoBindAt(u, b1, s);
          ScanJump(u, b, s);
          ScansAgree(u, AddBind(a1, Dec(n + 1)), After(u, b1, '?', j), n + 1, s[1..]);
        } else {
          JumpAgrees(u, b1.lastQ, b1.afterString, n, s);
          var k := Jump(u, a1.lastQ, a1.afterString, r);
          NoBindAt(u, a1, r);
          NoBindAt(u, b1, s);
          ScanJump(u, a, r);
          ScanJump(u, b, s);
          ScansAgree(u, After(u, a1, r[0], k), After(u, b1, s[0], j), n, j.rest);
        }
      } else {
        ScanStops(u, a, r);
        ScanStops(u, b, s);
      }
    }
  }

  lemma Nothing(u: Classes, a: State, b: State, n: nat)
    ensures Scan(u, a, Rewrite(Code, n, "")) == a && Scan(u, b, "") == b && Marks(Code, "") == 0
  {
  }

  lemma OneMore(n: nat, s: string)
    requires s != "" && s[0] == '?'
    ensures Names(n + 1) == Names(n) + [Dec(n + 1)] && Marks(Code, s) == 1 + Marks(Code, s[1..]) && Dec(n + 1) != ""
  {
  }

  /** A word ends alike before the same character, and before the two that stand for a placeholder. */
  lemma WordsAlike(u: Classes, a: State, b: State, c: char, d: char)
    requires Ascii(u) && Alike(a, b) && (c == d || (c == ':' && d == '?')) && (!b.found ==> b.kind == Unknown)
    ensures var a1, b1 := EndWord(u, a, c), EndWord(u, b, d);
            Alike(a1, b1) && Stops(a, a1) == Stops(b, b1) && a1.binds == a.binds && b1.binds == b.binds
            && b1.lastQ == b.lastQ && b1.afterString == b.afterString && (!b1.found ==> b1.kind == Unknown)
  {
  }

  lemma NoBindAt(u: Classes, st: State, s: string)
    requires s != "" && s[0] != ':'
    ensures BindAt(u, st, s).name == ""
  {
  }

  lemma CleanRest(u: Classes, lastQ: bool, afterString: bool, s: string)
    requires s != "" && Clear(u, lastQ, afterString, s)
    ensures var j := Jump(u, lastQ, afterString, s);
            Clear(u, j.last == 'q' || j.last == 'Q', j.afterString, j.rest)
            && (Apart(u, lastQ, afterString, s) ==> Clean(u, j.last == 'q' || j.last == 'Q', j.afterString, j.rest))
    ensures s[0] != ':'
  {
  }

  /** One placeholder on the one side: an ordinary character. */
  lemma PlaceholderIsSkipped(u: Classes, lastQ: bool, afterString: bool, s: string)
    requires Ascii(u) && s != "" && s[0] == '?' && Clear(u, lastQ, afterString, s)
    ensures Jump(u, lastQ, afterString, s) == Jumped(s[1..], '?', false) && Clear(u, false, false, s[1..])
    ensures Apart(u, lastQ, afterString, s)
            <==> !afterString && (|s| > 1 ==> !u.digit(s[1])) && Apart(u, false, false, s[1..])
  {
    hide AfterQuote, AfterBlock, AfterNewline;
  }

  /** And on the other side: a new bind. */
  lemma PlaceholderIsBound(u: Classes, a: State, n: nat, s: string)
    requires Ascii(u) && s != "" && s[0] == '?' && !a.afterString && (|s| > 1 ==> !u.digit(s[1]))
    ensures BindAt(u, a, Rewrite(Code, n, s)) == Named(Dec(n + 1), Rewrite(Code, n + 1, s[1..]))
  {
    hide BindName, Dec;
    var rest := Rewrite(Code, n + 1, s[1..]);
    var r := Rewrite(Code, n, s);
    assert r == ":" + Dec(n + 1) + rest && r[1..] == Dec(n + 1) + rest;
    if s[1..] != "" {
      Head(Code, n + 1, s[1..]);
    }
    NumberIsBind(u, n + 1, rest);
  }

  // ---- and disagree where a placeholder is not apart ----

  lemma {:induction false} BindsGrow(u: Classes, st: State, s: string)
    ensures st.binds <= Scan(u, st, s).binds
    decreases |s|
  {
    hide BindAt, Jump, EndWord;
    if s != "" {
      WordKeepsBinds(u, st, s[0]);
      var st1 := EndWord(u, st, s[0]);
      if !Stops(st, st1) {
        var b := BindAt(u, st1, s);
        if b.name != "" {
          BindsGrow(u, AddBind(st1, b.name), b.rest);
        } else {
          var j := Jump(u, st1.lastQ, st1.afterString, s);
          BindsGrow(u, After(u, st1, s[0], j), j.rest);
        }
      }
    }
  }

  lemma WordKeepsBinds(u: Classes, st: State, c: char)
    ensures var st1 := EndWord(u, st, c);
            st1.binds == st.binds && st1.lastQ == st.lastQ && st1.afterString == st.afterString
    ensures Stops(st, EndWord(u, st, c)) ==> EndWord(u, st, c).kind == Ddl
  {
  }

  lemma DigitIsPlain(u: Classes, t: string)
    requires Ascii(u) && t != "" && u.digit(t[0])
    ensures t[0] != '?' && t[0] != ':' && Enter(t) == Code
    ensures Jump(u, false, false, t) == Jumped(t[1..], t[0], false) && t[0] != 'q' && t[0] != 'Q'
  {
  }

  lemma DigitIsCopied(u: Classes, n: nat, t: string)
    requires Ascii(u) && t != "" && u.digit(t[0]) && Clear(u, false, false, t)
    ensures var r := Rewrite(Code, n, t); r != "" && r[0] == t[0] && r[1..] == Rewrite(Code, n, t[1..])
    ensures Marks(Code, t) == Marks(Code, t[1..]) && Clear(u, false, false, t[1..])
  {
    hide Jump;
    DigitIsPlain(u, t);
    CleanRest(u, false, false, t);
    assert Rewrite(Code, n, t) == [t[0]] + Rewrite(Code, n, t[1..]);
  }

  lemma NothingLeft(n: nat)
    ensures Rewrite(Code, n, "") == ""
  {
  }

  lemma TakeOne(p: char -> bool, t: string)
    ensures t == "" || !p(t[0]) ==> Take(p, t) == ""
    ensures t != "" && p(t[0]) ==> Take(p, t) == [t[0]] + Take(p, t[1..]) && t[|Take(p, t)|..] == t[1..][|Take(p, t[1..])|..]
  {
  }

  /** Digits are copied, and neither hold a placeholder nor start anything. */
  lemma {:induction false} DigitsAgree(u: Classes, n: nat, t: string)
    requires Ascii(u) && Clear(u, false, false, t)
    ensures var k, r := |Take(u.digit, t)|, Rewrite(Code, n, t);
            Take(u.digit, r) == Take(u.digit, t) && r[k..] == Rewrite(Code, n, t[k..])
            && Marks(Code, t) == Marks(Code, t[k..]) && Clear(u, false, false, t[k..])
    decreases |t|
  {
    hide Jump, Rewrite, Marks, Clear, Take;
    var r := Rewrite(Code, n, t);
    TakeOne(u.digit, t);
    TakeOne(u.digit, r);
    assert t[0..] == t && r[0..] == r;
    if t == "" {
      NothingLeft(n);
    } else if u.digit(t[0]) {
      DigitIsCopied(u, n, t);
      DigitsAgree(u, n, t[1..]);
    } else {
      Head(Code, n, t);
    }
  }

  /** A placeholder that is seen becomes the bind of its number and of any digits behind it. */
  lemma PlaceholderRunsOn(u: Classes, a: State, n: nat, s: string)
    requires Ascii(u) && s != "" && s[0] == '?' && !a.afterString && Clear(u, false, false, s[1..])
    ensures var more := Take(u.digit, s[1..]);
            BindAt(u, a, Rewrite(Code, n, s)) == Named(Dec(n + 1) + more, Rewrite(Code, n + 1, s[1..][|more|..]))
  {
    hide BindName, Dec, Take, Clear;
    var rest := Rewrite(Code, n + 1, s[1..]);
    var r := Rewrite(Code, n, s);
    assert r == ":" + Dec(n + 1) + rest && r[1..] == Dec(n + 1) + rest;
    NumberRunIsBind(u, n + 1, rest);
    DigitsAgree(u, n + 1, s[1..]);
  }

  /** Digits outside a bind change nothing. */
  lemma {:induction false} NumberIsSkipped(u: Classes, st: State, ds: string, rest: string)
    requires Ascii(u) && st.word == "" && !st.lastQ && !st.afterString
    requires forall i :: 0 <= i < |ds| ==> ds[i] in "0123456789"
    ensures Scan(u, st, ds + rest) == Scan(u, st, rest)
    decreases |ds|
  {
    hide Jump, Scan;
    if ds == "" {
      assert ds + rest == rest;
    } else {
      var t := ds + rest;
      assert t[0] == ds[0] && t[1..] == ds[1..] + rest;
      DigitIsPlain(u, t);
      ScanJump(u, st, t);
      NumberIsSkipped(u, st, ds[1..], rest);
    }
  }

  lemma {:induction false} DecIsAscii(n: nat)
    ensures forall i :: 0 <= i < |Dec(n)| ==> Dec(n)[i] in "0123456789"
  {
    assert Digit(n % 10) in "0123456789";
    if n >= 10 {
      DecIsAscii(n / 10);
    }
  }

  /** A placeholder behind a string is passed over, colon and number. */
  lemma PlaceholderIsHidden(u: Classes, a: State, n: nat, s: string) returns (b: State)
    requires Ascii(u) && s != "" && s[0] == '?' && a.afterString && !Stops(a, EndWord(u, a, ':'))
    ensures Scan(u, a, Rewrite(Code, n, s)) == Scan(u, b, Rewrite(Code, n + 1, s[1..]))
    ensures b.binds == a.binds && !b.lastQ && !b.afterString
  {
    hide Dec, Jump, Scan, EndWord;
    var rest := Rewrite(Code, n + 1, s[1..]);
    var r := Rewrite(Code, n, s);
    assert r == ":" + Dec(n + 1) + rest && r[1..] == Dec(n + 1) + rest;
    WordKeepsBinds(u, a, ':');
    var a1 := EndWord(u, a, ':');
    ScanJump(u, a, r);
    ColonIsPlain(u, a.lastQ, r);
    b := After(u, a1, ':', Jump(u, a.lastQ, true, r));
    DecIsAscii(n + 1);
    NumberIsSkipped(u, b, Dec(n + 1), rest);
  }

  lemma ColonIsPlain(u: Classes, lastQ: bool, r: string)
    requires Ascii(u) && r != "" && r[0] == ':'
    ensures Jump(u, lastQ, true, r) == Jumped(r[1..], ':', false)
  {
  }

  lemma Fewer(a: State, name: string, u: Classes)
    ensures |AddBind(a, name).binds| <= |a.binds| + 1 && !AddBind(a, name).lastQ && !AddBind(a, name).afterString
  {
  }

  /** However placeholders stand, there are never more binds than placeholders. */
  lemma {:induction false} AtMostMarks(u: Classes, a: State, n: nat, s: string)
    requires Ascii(u) && Clear(u, a.lastQ, a.afterString, s)
    ensures |Scan(u, a, Rewrite(Code, n, s)).binds| <= |a.binds| + Marks(Code, s)
    decreases |s|
  {
    hide BindName, DetermineKind, Jump, BindAt, Rewrite, Marks, Clear, Dec, Scan, EndWord, AddBind, Take;
    if s == "" {
      Nothing(u, a, a, n);
    } else {
      var r := Rewrite(Code, n, s);
      Head(Code, n, s);
      WordKeepsBinds(u, a, r[0]);
      var a1 := EndWord(u, a, r[0]);
      if Stops(a, a1) {
        ScanStops(u, a, r);
      } else if s[0] == '?' {
        PlaceholderIsSkipped(u, a.lastQ, a.afterString, s);
        OneMore(n, s);
        if a.afterString {
          var b := PlaceholderIsHidden(u, a, n, s);
          AtMostMarks(u, b, n + 1, s[1..]);
        } else {
          var more := Take(u.digit, s[1..]);
          PlaceholderRunsOn(u, a1, n, s);
          DigitsAgree(u, n + 1, s[1..]);
          ScanBind(u, a, r);
          Fewer(a1, Dec(n + 1) + more, u);
          AtMostMarks(u, AddBind(a1, Dec(n + 1) + more), n + 1, s[1..][|more|..]);
        }
      } else {
        CleanRest(u, a.lastQ, a.afterString, s);
        JumpAgrees(u, a.lastQ, a.afterString, n, s);
        NoBindAt(u, a1, r);
        ScanJump(u, a, r);
        var k := Jump(u, a1.lastQ, a1.afterString, r);
        AtMostMarks(u, After(u, a1, r[0], k), n, Jump(u, a.lastQ, a.afterString, s).rest);
      }
    }
  }

  lemma {:induction false} DecGrows(m: nat, n: nat)
    requires m <= n
    ensures |Dec(m)| <= |Dec(n)|
  {
    if m >= 10 {
      DecGrows(m / 10, n / 10);
    }
  }

  lemma {:induction false} LongNameIsNew(n: nat, name: string)
    requires |name| > |Dec(n)|
    ensures name !in Names(n)
    decreases n
  {
    if n > 0 {
      DecGrows(n - 1, n);
      LongNameIsNew(n - 1, name);
    }
  }

  lemma {:induction false} NamesAt(n: nat, k: nat)
    requires k < n
    ensures |Names(n)| == n && Names(n)[k] == Dec(k + 1)
  {
    if k < n - 1 {
      NamesAt(n - 1, k);
    } else if n > 1 {
      NamesAt(n - 1, 0);
    }
  }

  /** A placeholder before a digit spoils its own entry for good. */
  lemma RunOnDiffers(u: Classes, a: State, n: nat, s: string)
    requires Ascii(u) && a.binds == Names(n) && Clear(u, a.lastQ, a.afterString, s) && !Stops(a, EndWord(u, a, ':'))
    requires |s| > 1 && s[0] == '?' && !a.afterString && u.digit(s[1])
    ensures Scan(u, a, Rewrite(Code, n, s)).binds != Names(n + Marks(Code, s))
  {
    hide BindName, DetermineKind, Jump, BindAt, Rewrite, Marks, Clear, Names, Dec, Scan, EndWord;
    var r, more := Rewrite(Code, n, s), Take(u.digit, s[1..]);
    Head(Code, n, s);
    WordKeepsBinds(u, a, ':');
    var a1 := EndWord(u, a, ':');
    PlaceholderIsSkipped(u, a.lastQ, a.afterString, s);
    PlaceholderRunsOn(u, a1, n, s);
    ScanBind(u, a, r);
    var name := Dec(n + 1) + more;
    DecGrows(n, n + 1);
    LongNameIsNew(n, name);
    OneMore(n, s);
    NamesAt(n + Marks(Code, s), n);
    if n > 0 { NamesAt(n, 0); } else { NoNames(); }
    BindsGrow(u, AddBind(a1, name), Rewrite(Code, n + 1, s[1..][|more|..]));
    assert AddBind(a1, name).binds[n] == name;
  }

  lemma NoNames()
    ensures Names(0) == []
  {
  }

  /** A hidden placeholder leaves the list short. */
  lemma HiddenDiffers(u: Classes, a: State, n: nat, s: string)
    requires Ascii(u) && a.binds == Names(n) && Clear(u, a.lastQ, a.afterString, s) && !Stops(a, EndWord(u, a, ':'))
    requires s != "" && s[0] == '?' && a.afterString
    ensures Scan(u, a, Rewrite(Code, n, s)).binds != Names(n + Marks(Code, s))
  {
    hide Clear, Names, Dec, Scan, EndWord, Rewrite, Marks, Jump;
    PlaceholderIsSkipped(u, a.lastQ, a.afterString, s);
    var b := PlaceholderIsHidden(u, a, n, s);
    AtMostMarks(u, b, n + 1, s[1..]);
    OneMore(n, s);
    NamesAt(n + Marks(Code, s), n);
    if n > 0 { NamesAt(n, 0); } else { NoNames(); }
  }

  lemma {:induction false} ScansDiffer(u: Classes, a: State, b: State, n: nat, s: string)
    requires Ascii(u) && Alike(a, b) && a.binds == Names(n) && Clear(u, a.lastQ, a.afterString, s)
    requires !b.found ==> b.kind == Unknown
    requires !Apart(u, a.lastQ, a.afterString, s) && Scan(u, b, s).kind != Ddl
    ensures Scan(u, a, Rewrite(Code, n, s)).binds != Names(n + Marks(Code, s))
    decreases |s|
  {
    hide BindName, DetermineKind, Jump, BindAt, Rewrite, Marks, Clear, Names, Dec, Scan, EndWord;
    var r := Rewrite(Code, n, s);
    Head(Code, n, s);
    var a1, b1 := EndWord(u, a, r[0]), EndWord(u, b, s[0]);
    WordsAlike(u, a, b, r[0], s[0]);
    WordKeepsBinds(u, b, s[0]);
    if Stops(b, b1) {
      ScanStops(u, b, s);
    } else {
      CleanRest(u, b1.lastQ, b1.afterString, s);
      NoBindAt(u, b1, s);
      ScanJump(u, b, s);
      var j := Jump(u, b1.lastQ, b1.afterString, s);
      if s[0] != '?' {
        JumpAgrees(u, b1.lastQ, b1.afterString, n, s);
        var k := Jump(u, a1.lastQ, a1.afterString, r);
        NoBindAt(u, a1, r);
        ScanJump(u, a, r);
        ScansDiffer(u, After(u, a1, r[0], k), After(u, b1, s[0], j), n, j.rest);
      } else if a.afterString {
        HiddenDiffers(u, a, n, s);
      } else if |s| > 1 && u.digit(s[1]) {
        RunOnDiffers(u, a, n, s);
      } else {
        PlaceholderIsSkipped(u, b1.lastQ, b1.afterString, s);
        PlaceholderIsBound(u, a1, n, s);
        NextIsNew(n, n + 1);
        OneMore(n, s);
        ScanBind(u, a, r);
        ScansDiffer(u, AddBind(a1, Dec(n + 1)), After(u, b1, '?', j), n + 1, s[1..]);
      }
    }
  }

  /** Without a leading keyword the kind stays unknown. */
  lemma {:induction false} UnfoundIsUnknown(u: Classes, st: State, s: string)
    requires !st.found ==> st.kind == Unknown
    ensures !Scan(u, st, s).found ==> Scan(u, st, s).kind == Unknown
    decreases |s|
  {
    hide BindAt, Jump, DetermineKind;
    if s != "" {
      var st1 := EndWord(u, st, s[0]);
      if !Stops(st, st1) {
        var b := BindAt(u, st1, s);
        if b.name != "" {
          UnfoundIsUnknown(u, AddBind(st1, b.name), b.rest);
        } else {
          var j := Jump(u, st1.lastQ, st1.afterString, s);
          UnfoundIsUnknown(u, After(u, st1, s[0], j), j.rest);
        }
      }
    }
  }

  /**
    * On text that both delimit alike and that is no DDL, the scan of the rewritten text lists exactly 1..n exactly when
    * no placeholder stands before a digit or behind a string literal and blanks.
    */
  lemma PlaceholdersBecomeBindsIff(u: Classes, sql: string)
    requires Ascii(u) && Clear(u, false, false, sql) && Parse(u, sql).kind != Ddl
    ensures Parse(u, Rewrite(Code, 0, sql)).bindNames == Names(Marks(Code, sql)) <==> Apart(u, false, false, sql)
  {
    hide Clear, Apart, Scan, Marks, Rewrite, DetermineKind;
    if Apart(u, false, false, sql) {
      PlaceholdersBecomeBinds(u, sql);
    } else {
      NoNames();
      UnfoundIsUnknown(u, START, sql);
      ScansDiffer(u, START, START, 0, sql);
    }
  }

  /** On clean text that is no DDL, the scan of the rewritten text lists exactly 1..n, and is otherwise the scan of the text itself. */
  lemma PlaceholdersBecomeBinds(u: Classes, sql: string)
    requires Ascii(u) && Clean(u, false, false, sql) && Parse(u, sql).kind != Ddl
    ensures Parse(u, sql).bindNames == []
    ensures Parse(u, Rewrite(Code, 0, sql)) == Parse(u, sql).(bindNames := Names(Marks(Code, sql)))
  {
    hide Clear, Apart, Scan, Marks, Rewrite, DetermineKind;
    assert Names(0) == [];
    ScansAgree(u, START, START, 0, sql);
  }

  /** The driver's use of both: rewrite, then scan. */
  method RewriteAndParse(u: Classes, sql: string) returns (text: string, p: Parsed)
    requires Ascii(u)
    ensures text == Rewrite(Code, 0, sql)
    ensures Clean(u, false, false, sql) && Parse(u, sql).kind != Ddl ==> p == Parse(u, sql).(bindNames := Names(Marks(Code, sql)))
  {
    text := RewriteQmark(sql);
    p := ParseSQL(u, text);
    if Clean(u, false, false, sql) && Parse(u, sql).kind != Ddl {
      PlaceholdersBecomeBinds(u, sql);
    }
  }

  // ---- the exclusions are needed ----

  /** A placeholder directly before a digit: ?5 becomes the bind 15. */
  lemma DigitRunsOn(u: Classes)
    requires Ascii(u)
    ensures Rewrite(Code, 0, "?5") == ":15" && Parse(u, ":15").bindNames == ["15"]
  {
    assert Rewrite(Code, 1, "5") == "5" + Rewrite(Code, 1, "");
    assert Dec(1) == "1" && "?5"[1..] == "5";
    assert Dec(15) == Dec(1) + "5";
    NumberIsBind(u, 15, "");
    assert ":15"[1..] == Dec(15) + "" && Dec(15) == "15";
    ScanBind(u, START, ":15");
  }

  /** A placeholder behind a string literal and blanks only is not seen: the colon is taken for part of a constant. */
  lemma StringHidesPlaceholder(u: Classes)
    requires Ascii(u)
    ensures Rewrite(Code, 0, "''?") == "'':1" && Parse(u, "'':1").bindNames == []
  {
    assert Dec(1) == "1" && "''?"[1..] == "'?" && "'?"[1..] == "?" && "?"[1..] == "";
    assert Rewrite(Code, 0, "?") == ":1" && Rewrite(Single, 0, "'?") == "':1";
    var s, one := "'':1", "1";
    assert s[1..] == "':1" && "':1"[1..] == ":1" && ":1"[1..] == one && one[1..] == "";
    assert Jump(u, false, false, s) == Jumped(":1", '\'', true);
    var st := After(u, START, '\'', Jump(u, false, false, s));
    ScanJump(u, START, s);
    assert Jump(u, false, true, ":1") == Jumped(one, ':', false);
    assert Scan(u, st, ":1") == Scan(u, After(u, st, ':', Jump(u, false, true, ":1")), one);
    var last := After(u, st, ':', Jump(u, false, true, ":1"));
    ScanJump(u, last, one);
  }

  /** What one scanner takes for a whole comment opens one for the other. */
  lemma ShortCommentHidesPlaceholder(u: Classes)
    requires Ascii(u)
    ensures Rewrite(Code, 0, "/*/?") == "/*/:1" && Parse(u, "/*/:1").bindNames == []
  {
    assert Dec(1) == "1" && "/*/?"[1..] == "*/?" && "*/?"[2..] == "?" && "?"[1..] == "";
    assert Rewrite(Code, 0, "?") == ":1" && Rewrite(Block, 0, "*/?") == "*/:1";
    var s := "/*/:1";
    assert s[2..] == "/:1" && "/:1"[1..] == ":1" && ":1"[1..] == "1";
    assert AfterBlock("/:1") == AfterBlock(":1") == AfterBlock("1") == "";
    ScanJump(u, START, s);
  }
}
