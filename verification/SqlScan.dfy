// The SQL scanner: statement kind and bind names.
module SqlScan {
  import opened Bytes

  // ---- character classes ----

  /** Letters, digits and spaces as the Unicode tables have them, and upper-casing. */
  datatype Classes = Classes(letter: char -> bool, digit: char -> bool, space: char -> bool, upper: string -> string)

  /** What is used of the tables on ASCII. */
  ghost predicate Ascii(u: Classes) {
    (forall c :: c in "0123456789" ==> u.digit(c) && !u.letter(c) && !u.space(c))
    && (forall c :: c in "'\"-/*:?" ==> !u.digit(c) && !u.letter(c) && !u.space(c))
    && !u.letter('\n') && !u.digit('q') && !u.digit('Q')
  }

  // ---- what is skipped ----

  /** Behind a quoted text; s starts behind the opening quote. A doubled quote does not close. */
  function AfterQuote(s: string, q: char): (r: string)
    ensures |r| <= |s|
    decreases |s|
  {
    if s == "" then ""
    else if s[0] != q then AfterQuote(s[1..], q)
    else if |s| > 1 && s[1] == q then AfterQuote(s[2..], q)
    else s[1..]
  }

  function Separator(c: char): char {
    if c == '[' then ']' else if c == '{' then '}' else if c == '<' then '>' else if c == '(' then ')' else c
  }

  function AfterSeparator(s: string, sep: char): (r: string)
    ensures |r| <= |s|
  {
    if |s| < 2 then "" else if s[0] == sep && s[1] == '\'' then s[2..] else AfterSeparator(s[1..], sep)
  }

  /** Behind a q-quoted literal; s starts behind its quote. */
  function AfterQString(s: string): (r: string)
    ensures |r| <= |s|
  {
    if s == "" then "" else AfterSeparator(s[1..], Separator(s[0]))
  }

  function AfterNewline(s: string): (r: string)
    ensures |r| <= |s| && (s != "" ==> |r| < |s|)
  {
    if s == "" then "" else if s[0] == '\n' then s[1..] else AfterNewline(s[1..])
  }

  function AfterBlock(s: string): (r: string)
    ensures |r| <= |s|
  {
    if |s| < 2 then "" else if s[0] == '*' && s[1] == '/' then s[2..] else AfterBlock(s[1..])
  }

  /** What one step of the scan consumes, other than a bind: the rest, the last character, and whether it leaves a string behind. */
  datatype Jumped = Jumped(rest: string, last: char, afterString: bool)

  function Jump(u: Classes, lastQ: bool, afterString: bool, s: string): (j: Jumped)
    requires s != ""
    ensures |j.rest| < |s|
  {
    if s[0] == '\'' then Jumped(if lastQ then AfterQString(s[1..]) else AfterQuote(s[1..], '\''), '\'', true)
    else if u.space(s[0]) then Jumped(s[1..], s[0], afterString)
    else if s[0] == '-' && |s| > 1 && s[1] == '-' then Jumped(AfterNewline(s), '\n', false)
    else if s[0] == '/' && |s| > 1 && s[1] == '*' then Jumped(AfterBlock(s[2..]), '/', false)
    else if s[0] == '"' then Jumped(AfterQuote(s[1..], '"'), '"', false)
    else Jumped(s[1..], s[0], false)
  }

  // ---- bind names ----

  function Take(p: char -> bool, s: string): (r: string)
    ensures r <= s
  {
    if s == "" || !p(s[0]) then "" else
      assert s == [s[0]] + s[1..];
      [s[0]] + Take(p, s[1..])
  }

  predicate NameChar(u: Classes, c: char) {
    u.letter(c) || u.digit(c) || c == '_' || c == '$' || c == '#'
  }

  /** A name and the text behind it. */
  datatype Named = Named(name: string, rest: string)

  /** The bind name behind a colon; "" if there is none. */
  function BindName(u: Classes, s: string): (b: Named)
    ensures |b.rest| <= |s|
  {
    var t := s[|Take(u.space, s)|..];
    if t == "" then Named("", s)
    else if t[0] == '"' then
      var name := Take(c => c != '"', t[1..]);
      Named(name, if |name| + 1 < |t| then t[|name| + 2..] else "")
    else if u.digit(t[0]) then
      var name := Take(u.digit, t);
      Named(name, t[|name|..])
    else if u.letter(t[0]) then
      var name := Take(c => NameChar(u, c), t);
      Named(u.upper(name), t[|name|..])
    else Named("", s)
  }

  // ---- the scan ----

  datatype Kind = Unknown | Query | Dml | Ddl | Plsql

  function DetermineKind(keyword: string): Kind {
    if keyword in ["DECLARE", "BEGIN", "CALL"] then Plsql
    else if keyword in ["SELECT", "WITH"] then Query
    else if keyword in ["INSERT", "UPDATE", "DELETE", "MERGE"] then Dml
    else if keyword in ["CREATE", "ALTER", "DROP", "GRANT", "REVOKE", "ANALYZE", "AUDIT", "COMMENT", "TRUNCATE"] then Ddl
    else Unknown
  }

  /** word is the run of letters that ends here; found says that the leading keyword has been seen. */
  datatype State = State(kind: Kind, found: bool, returning: bool, isReturning: bool,
                         afterString: bool, word: string, lastQ: bool, binds: seq<string>)

  const START := State(Unknown, false, false, false, false, "", false, [])

  /** A word ends in front of a character that is no letter. */
  function EndWord(u: Classes, st: State, c: char): State {
    if u.letter(c) || st.word == "" then st
    else
      var word := u.upper(st.word);
      if !st.found then st.(kind := DetermineKind(word), found := true)
      else if st.kind == Dml && !st.returning && word == "RETURNING" then st.(returning := true)
      else if st.returning && word == "INTO" then st.(isReturning := true)
      else st
  }

  predicate Stops(before: State, after: State) {
    !before.found && after.found && after.kind == Ddl
  }

  function AddBind(st: State, name: string): State {
    st.(binds := if st.kind == Plsql && name in st.binds then st.binds else st.binds + [name],
        afterString := false, word := "", lastQ := false)
  }

  function BindAt(u: Classes, st: State, s: string): (b: Named)
    requires s != ""
    ensures b.name != "" ==> |b.rest| < |s|
  {
    if s[0] == ':' && !u.space(s[0]) && !st.afterString then BindName(u, s[1..]) else Named("", s)
  }

  function After(u: Classes, st: State, c: char, j: Jumped): State {
    st.(afterString := j.afterString, lastQ := j.last == 'q' || j.last == 'Q', word := if u.letter(c) then st.word + [c] else "")
  }

  function Scan(u: Classes, st: State, s: string): State
    decreases |s|
  {
    if s == "" then st
    else
      var st1 := EndWord(u, st, s[0]);
      if Stops(st, st1) then st1
      else
        var b := BindAt(u, st1, s);
        if b.name != "" then Scan(u, AddBind(st1, b.name), b.rest)
        else
          var j := Jump(u, st1.lastQ, st1.afterString, s);
          Scan(u, After(u, st1, s[0], j), j.rest)
  }

  datatype Parsed = Parsed(kind: Kind, bindNames: seq<string>, isReturning: bool)

  /** A text of one word is its own keyword. */
  function Finish(u: Classes, st: State): Parsed {
    Parsed(if !st.found && st.word != "" then DetermineKind(u.upper(st.word)) else st.kind, st.binds, st.isReturning)
  }

  function Parse(u: Classes, sql: string): Parsed {
    Finish(u, Scan(u, START, sql))
  }

  // ---- one step at a time ----

  lemma ScanBind(u: Classes, st: State, s: string)
    requires s != "" && !Stops(st, EndWord(u, st, s[0])) && BindAt(u, EndWord(u, st, s[0]), s).name != ""
    ensures var b := BindAt(u, EndWord(u, st, s[0]), s);
            Scan(u, st, s) == Scan(u, AddBind(EndWord(u, st, s[0]), b.name), b.rest)
  {
  }

  lemma ScanJump(u: Classes, st: State, s: string)
    requires s != "" && !Stops(st, EndWord(u, st, s[0])) && BindAt(u, EndWord(u, st, s[0]), s).name == ""
    ensures var st1 := EndWord(u, st, s[0]);
            var j := Jump(u, st1.lastQ, st1.afterString, s);
            Scan(u, st, s) == Scan(u, After(u, st1, s[0], j), j.rest)
  {
  }

  lemma ScanStops(u: Classes, st: State, s: string)
    requires s != "" && Stops(st, EndWord(u, st, s[0]))
    ensures Scan(u, st, s) == EndWord(u, st, s[0])
  {
  }

  /** A word that ends has been looked at: from then on the leading keyword is known. */
  lemma WordEnds(u: Classes, st: State, c: char)
    ensures !u.letter(c) && st.word != "" ==> EndWord(u, st, c).found
    ensures EndWord(u, st, c).word == st.word && EndWord(u, st, c).lastQ == st.lastQ
  {
  }

  // ---- the scanner ----

  /** skipQuoted: the index of the closing quote, or the length. */
  method SkipQuoted(rs: string, pos: nat, q: char) returns (next: nat)
    requires pos < |rs|
    ensures pos < next <= |rs|
    ensures AfterQuote(rs[pos + 1..], q) == if next < |rs| then rs[next + 1..] else ""
    ensures next < |rs| ==> rs[next] == q
  {
    next := pos + 1;
    while next < |rs|
      invariant pos < next <= |rs| && AfterQuote(rs[next..], q) == AfterQuote(rs[pos + 1..], q)
    {
      ghost var s := rs[next..];
      assert s[0] == rs[next] && s[1..] == rs[next + 1..];
      if rs[next] == q {
        if next + 1 < |rs| && rs[next + 1] == q {
          assert s[1] == q && s[2..] == rs[next + 2..];
          next := next + 2;
        } else {
          assert |s| > 1 ==> s[1] == rs[next + 1];
          return;
        }
      } else {
        next := next + 1;
      }
    }
    assert rs[next..] == "";
  }

  method SkipQString(rs: string, pos: nat) returns (next: nat)
    requires pos < |rs|
    ensures pos < next <= |rs|
    ensures AfterQString(rs[pos + 1..]) == if next < |rs| then rs[next + 1..] else ""
    ensures next < |rs| ==> rs[next] == '\''
  {
    if pos + 1 >= |rs| {
      return |rs|;
    }
    var sep := Separator(rs[pos + 1]);
    var at := pos + 2;
    assert rs[pos + 1..][1..] == rs[at..] && rs[pos + 1..][0] == rs[pos + 1];
    while at + 1 < |rs|
      invariant pos + 2 <= at <= |rs| && AfterSeparator(rs[at..], sep) == AfterQString(rs[pos + 1..])
    {
      assert rs[at..][1..] == rs[at + 1..] && rs[at..][0] == rs[at] && rs[at..][1] == rs[at + 1];
      if rs[at] == sep && rs[at + 1] == '\'' {
        assert rs[at..][2..] == rs[at + 2..];
        return at + 1;
      }
      at := at + 1;
    }
    next := |rs|;
  }

  /** A line comment: the index of its newline, or the length. */
  method SkipLine(rs: string, pos: nat) returns (next: nat)
    requires pos < |rs|
    ensures pos <= next <= |rs|
    ensures AfterNewline(rs[pos..]) == if next < |rs| then rs[next + 1..] else ""
    ensures next < |rs| ==> rs[next] == '\n'
  {
    next := pos;
    while next < |rs| && rs[next] != '\n'
      invariant pos <= next <= |rs| && AfterNewline(rs[next..]) == AfterNewline(rs[pos..])
    {
      assert rs[next..][1..] == rs[next + 1..];
      next := next + 1;
    }
    assert next < |rs| ==> rs[next..][1..] == rs[next + 1..];
  }

  /** A block comment: the index of its closing slash, or the length. */
  method SkipBlock(rs: string, pos: nat) returns (next: nat)
    requires pos + 1 < |rs|
    ensures pos < next <= |rs|
    ensures AfterBlock(rs[pos + 2..]) == if next < |rs| then rs[next + 1..] else ""
    ensures next < |rs| ==> rs[next] == '/'
  {
    var at := pos + 2;
    while at + 1 < |rs|
      invariant pos + 2 <= at <= |rs| && AfterBlock(rs[at..]) == AfterBlock(rs[pos + 2..])
    {
      assert rs[at..][1..] == rs[at + 1..] && rs[at..][0] == rs[at] && rs[at..][1] == rs[at + 1];
      if rs[at] == '*' && rs[at + 1] == '/' {
        assert rs[at..][2..] == rs[at + 2..];
        return at + 1;
      }
      at := at + 1;
    }
    next := |rs|;
  }

  lemma {:induction false} TakeIsRun(p: char -> bool, s: string, k: nat)
    requires k <= |s| && (forall i :: 0 <= i < k ==> p(s[i])) && (k < |s| ==> !p(s[k]))
    ensures Take(p, s) == s[..k]
  {
    if k > 0 {
      TakeIsRun(p, s[1..], k - 1);
      assert s[..k] == [s[0]] + s[1..][..k - 1];
    }
  }

  /** The end of a run of characters. */
  method RunEnd(p: char -> bool, rs: string, pos: nat) returns (next: nat)
    requires pos <= |rs|
    ensures pos <= next <= |rs| && rs[pos..next] == Take(p, rs[pos..])
  {
    hide Take;
    next := pos;
    while next < |rs| && p(rs[next])
      invariant pos <= next <= |rs| && forall i :: pos <= i < next ==> p(rs[i])
    {
      next := next + 1;
    }
    TakeIsRun(p, rs[pos..], next - pos);
    assert rs[pos..][..next - pos] == rs[pos..next];
  }

  /** parseBindName: the name, and the index behind its last character (that of the colon if there is none). */
  method ParseBindName(u: Classes, rs: string, pos: nat) returns (name: string, next: nat)
    requires pos < |rs|
    ensures name == BindName(u, rs[pos + 1..]).name
    ensures name != "" ==> pos < next && BindName(u, rs[pos + 1..]).rest == if next < |rs| then rs[next..] else ""
  {
    hide Take;
    var i := RunEnd(u.space, rs, pos + 1);
    ghost var s := rs[pos + 1..];
    ghost var t := s[|Take(u.space, s)|..];
    assert t == rs[i..];
    if i >= |rs| {
      return "", pos;
    }
    if rs[i] == '"' {
      var j := RunEnd(c => c != '"', rs, i + 1);
      assert t[1..] == rs[i + 1..];
      name := rs[i + 1..j];
      next := j + 1;
      assert j < |rs| ==> t[|name| + 2..] == rs[next..];
    } else if u.digit(rs[i]) {
      next := RunEnd(u.digit, rs, i);
      name := rs[i..next];
      assert t[|name|..] == rs[next..];
    } else if u.letter(rs[i]) {
      next := RunEnd(c => NameChar(u, c), rs, i);
      name := u.upper(rs[i..next]);
      assert t[|rs[i..next]|..] == rs[next..];
    } else {
      return "", pos;
    }
  }

  /** What one step jumps over, in terms of positions. */
  lemma JumpAt(u: Classes, rs: string, pos: nat, lastQ: bool, afterString: bool)
    requires pos < |rs|
    ensures var j, c, two := Jump(u, lastQ, afterString, rs[pos..]), rs[pos], pos + 1 < |rs|;
            j == if c == '\'' then Jumped(if lastQ then AfterQString(rs[pos + 1..]) else AfterQuote(rs[pos + 1..], '\''), '\'', true)
                 else if u.space(c) then Jumped(rs[pos + 1..], c, afterString)
                 else if c == '-' && two && rs[pos + 1] == '-' then Jumped(AfterNewline(rs[pos..]), '\n', false)
                 else if c == '/' && two && rs[pos + 1] == '*' then Jumped(AfterBlock(rs[pos + 2..]), '/', false)
                 else if c == '"' then Jumped(AfterQuote(rs[pos + 1..], '"'), '"', false)
                 else Jumped(rs[pos + 1..], c, false)
  {
    hide AfterQuote, AfterQString, AfterNewline, AfterBlock;
    var s := rs[pos..];
    assert s[0] == rs[pos] && s[1..] == rs[pos + 1..] && (|s| > 1 ==> s[1] == rs[pos + 1] && s[2..] == rs[pos + 2..]);
  }

  /** The switch of the scanning loop, other than a bind: the index of the last character consumed, or the length. */
  method Skip(u: Classes, rs: string, pos: nat, lastQ: bool, afterString: bool) returns (next: nat, string': bool)
    requires pos < |rs|
    ensures pos <= next <= |rs|
    ensures var j := Jump(u, lastQ, afterString, rs[pos..]);
            string' == j.afterString
            && (if next < |rs| then j.rest == rs[next + 1..] && j.last == rs[next]
                else j.rest == "" && j.last != 'q' && j.last != 'Q' && rs[pos] in "'-/\"")
  {
    hide AfterQuote, AfterQString, AfterNewline, AfterBlock, Jump;
    ghost var s := rs[pos..];
    JumpAt(u, rs, pos, lastQ, afterString);
    var ch := rs[pos];
    next, string' := pos, false;
    if ch == '\'' {
      string' := true;
      if lastQ {
        next := SkipQString(rs, pos);
      } else {
        next := SkipQuoted(rs, pos, '\'');
      }
    } else if u.space(ch) {
      string' := afterString;
    } else if ch == '-' {
      if pos + 1 < |rs| && rs[pos + 1] == '-' {
        next := SkipLine(rs, pos);
      }
    } else if ch == '/' {
      if pos + 1 < |rs| && rs[pos + 1] == '*' {
        next := SkipBlock(rs, pos);
      }
    } else if ch == '"' {
      next := SkipQuoted(rs, pos, '"');
    }
  }

  /** The current run of letters, from alphaStart. */
  predicate InWord(word: string, rs: string, alphaStart: nat, lastWasAlpha: bool, pos: nat) {
    lastWasAlpha == (word != "") && (lastWasAlpha ==> alphaStart <= pos <= |rs| && word == rs[alphaStart..pos])
  }

  /** A step that is no bind. The word is kept as its start alone, and taken from the text. */
  method StepOver(u: Classes, rs: string, pos: nat, alphaStart: nat, st: State, lastWasAlpha: bool)
    returns (st': State, next: nat, alpha: bool)
    requires Ascii(u) && pos < |rs|
    requires u.letter(rs[pos]) ==> alphaStart <= pos && st.word == rs[alphaStart..pos]
    requires !u.letter(rs[pos]) && lastWasAlpha ==> st.found
    ensures pos <= next <= |rs|
    ensures var j := Jump(u, st.lastQ, st.afterString, rs[pos..]);
            j.rest == (if next < |rs| then rs[next + 1..] else "") && st' == After(u, st, rs[pos], j)
    ensures next < |rs| || !st.found ==>
              InWord(st'.word, rs, alphaStart, alpha, if next < |rs| then next + 1 else |rs|)
  {
    hide Jump;
    ghost var s := rs[pos..];
    assert s[0] == rs[pos] && s[1..] == rs[pos + 1..];
    var string';
    next, string' := Skip(u, rs, pos, st.lastQ, st.afterString);
    if u.letter(rs[pos]) {
      LetterIsOneStep(u, st.lastQ, st.afterString, s);
      assert rs[alphaStart..pos + 1] == rs[alphaStart..pos] + [rs[pos]];
    } else {
      NoLetterIsLast(u, st.lastQ, st.afterString, s);
    }
    alpha := lastWasAlpha;
    st' := st.(afterString := string', lastQ := false, word := "");
    if next < |rs| {
      alpha := u.letter(rs[next]);
      st' := st'.(lastQ := rs[next] == 'q' || rs[next] == 'Q', word := if alpha then rs[alphaStart..next + 1] else "");
    }
  }

  /** What is left of the text, or nothing past its end. */
  function Left(rs: string, pos: nat): string {
    if pos < |rs| then rs[pos..] else ""
  }

  /** One round of the loop; `stop` is the break behind a leading DDL keyword. */
  method Round(u: Classes, rs: string, pos: nat, alphaStart: nat, st: State, lastWasAlpha: bool)
    returns (stop: bool, st': State, pos': nat, alphaStart': nat, alpha: bool)
    requires Ascii(u) && pos < |rs| && InWord(st.word, rs, alphaStart, lastWasAlpha, pos)
    ensures stop ==> Scan(u, st, rs[pos..]) == st' && st'.found
    ensures !stop ==> pos < pos' && Scan(u, st, rs[pos..]) == Scan(u, st', Left(rs, pos'))
    ensures !stop && (pos' < |rs| || !st'.found) ==>
              InWord(st'.word, rs, alphaStart', alpha, if pos' < |rs| then pos' else |rs|)
  {
    hide Jump, BindName, EndWord, Scan, AddBind;
    ghost var s := rs[pos..];
    var ch := rs[pos];
    assert s[0] == ch && s[1..] == rs[pos + 1..];
    WordEnds(u, st, ch);
    alphaStart' := if u.letter(ch) && !lastWasAlpha then pos else alphaStart;
    stop, pos', alpha := false, pos, lastWasAlpha;
    st' := EndWord(u, st, ch);
    if Stops(st, st') {
      ScanStops(u, st, s);
      stop := true;
      return;
    }
    if ch == ':' && !st'.afterString {
      var name, next := ParseBindName(u, rs, pos);
      if name != "" {
        ScanBind(u, st, s);
        NoWordInBind(st', name);
        return false, AddBind(st', name), next, alphaStart', false;
      }
    }
    ScanJump(u, st, s);
    var next;
    st', next, alpha := StepOver(u, rs, pos, alphaStart', st', lastWasAlpha);
    pos' := next + 1;
  }

  lemma NoWordInBind(st: State, name: string)
    ensures AddBind(st, name).word == ""
  {
  }

  method ParseSQL(u: Classes, sql: string) returns (p: Parsed)
    requires Ascii(u)
    ensures p == Parse(u, sql)
  {
    hide EndWord;
    var rs := sql;
    var pos, alphaStart := 0, 0;
    var lastWasAlpha, stop := false, false;
    var st := START;
    assert rs[0..] == rs;
    while pos < |rs| && !stop
      invariant !stop && (pos < |rs| || !st.found) ==> InWord(st.word, rs, alphaStart, lastWasAlpha, if pos < |rs| then pos else |rs|)
      invariant Scan(u, START, sql) == if stop then st else Scan(u, st, Left(rs, pos))
      decreases !stop, |rs| - pos
    {
      stop, st, pos, alphaStart, lastWasAlpha := Round(u, rs, pos, alphaStart, st, lastWasAlpha);
    }
    p := Finish(u, st);
  }

  lemma NoLetterIsLast(u: Classes, lastQ: bool, afterString: bool, s: string)
    requires Ascii(u) && s != "" && !u.letter(s[0])
    ensures !u.letter(Jump(u, lastQ, afterString, s).last)
  {
  }

  lemma LetterIsOneStep(u: Classes, lastQ: bool, afterString: bool, s: string)
    requires Ascii(u) && s != "" && u.letter(s[0])
    ensures Jump(u, lastQ, afterString, s).rest == s[1..] && Jump(u, lastQ, afterString, s).last == s[0]
  {
  }
}
