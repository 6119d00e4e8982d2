// SQL text as delimited pieces, and what a scan of it must find.
module SqlPieces {
  import opened Bytes
  import opened SqlScan

  // ---- pieces ----

  /** A bind name as written. */
  datatype Name =
    | InQuotes(body: string)   // "body"
    | Unclosed(body: string)   // "body, up to the end of the text
    | Numeral(digits: string)
    | Identifier(first: char, more: string)

  datatype Piece =
    | Plain(c: char)                             // one character of code
    | Quoted(q: char, body: string)              // between two q; a q inside is written twice
    | QQuoted(open: char, body: string)          // behind a q: 'open body close'
    | LineComment(body: string)
    | BlockComment(body: string)
    | Bind(blanks: string, name: Name)
    | Cut(text: string)                          // a quotation or comment that the text does not close

  function Doubled(body: string, q: char): string {
    if body == "" then "" else (if body[0] == q then [q, q] else [body[0]]) + Doubled(body[1..], q)
  }

  /** Brackets close with their partner, any other delimiter with itself. */
  function Closing(open: char): char {
    match open
    case '[' => ']'
    case '{' => '}'
    case '<' => '>'
    case '(' => ')'
    case _ => open
  }

  function NameText(n: Name): string {
    match n
    case InQuotes(body) => "\"" + body + "\""
    case Unclosed(body) => "\"" + body
    case Numeral(digits) => digits
    case Identifier(first, more) => [first] + more
  }

  /** What the bind is called: identifiers in upper case. */
  function Called(u: Classes, n: Name): string {
    match n
    case InQuotes(body) => body
    case Unclosed(body) => body
    case Numeral(digits) => digits
    case Identifier(first, more) => u.upper([first] + more)
  }

  function Spell(p: Piece): string {
    match p
    case Plain(c) => [c]
    case Quoted(q, body) => [q] + Doubled(body, q) + [q]
    case QQuoted(open, body) => "'" + [open] + body + [Closing(open)] + "'"
    case LineComment(body) => "--" + body + "\n"
    case BlockComment(body) => "/*" + body + "*/"
    case Bind(blanks, name) => ":" + blanks + NameText(name)
    case Cut(text) => text
  }

  function SpellAll(ps: seq<Piece>): string {
    if ps == [] then "" else Spell(ps[0]) + SpellAll(ps[1..])
  }

  // ---- when pieces are told apart ----

  predicate StartsWith(s: string, c: char) {
    s != "" && s[0] == c
  }

  /** The two characters stand next to each other somewhere in s. */
  predicate HasPair(s: string, a: char, b: char) {
    |s| > 1 && ((s[0] == a && s[1] == b) || HasPair(s[1..], a, b))
  }

  ghost predicate All(p: char -> bool, s: string) {
    forall k :: 0 <= k < |s| ==> p(s[k])
  }

  /** The name ends where the text behind it begins. */
  ghost predicate NameEnds(u: Classes, n: Name, rest: string) {
    match n
    case InQuotes(body) => body != "" && '"' !in body
    case Unclosed(body) => body != "" && '"' !in body && rest == ""
    case Numeral(digits) => digits != "" && All(u.digit, digits) && (rest != "" ==> !u.digit(rest[0]))
    case Identifier(first, more) =>
      u.letter(first)
      && (forall c <- more :: u.letter(c) || u.digit(c) || c == '_' || c == '$' || c == '#')
      && (rest != "" ==> !(u.letter(rest[0]) || u.digit(rest[0]) || rest[0] == '_' || rest[0] == '$' || rest[0] == '#'))
  }

  /** No name follows: behind blanks stands nothing, something that starts no name, or an empty name in quotes. */
  ghost predicate NoName(u: Classes, rest: string) {
    exists n: nat :: n <= |rest| && All(u.space, rest[..n]) && StartsNoName(u, rest[n..])
  }

  predicate StartsNoName(u: Classes, t: string) {
    t == "" || (!u.space(t[0]) && if t[0] == '"' then |t| == 1 || t[1] == '"' else !u.digit(t[0]) && !u.letter(t[0]))
  }

  /** A text that opens a quotation or comment and does not close it. */
  ghost predicate IsCut(lastQ: bool, text: string) {
    || (!lastQ && exists body :: text == "'" + Doubled(body, '\''))
    || (exists body :: text == "\"" + Doubled(body, '"'))
    || (lastQ && text == "'")
    || (lastQ && |text| >= 2 && text[0] == '\'' && !HasPair(text[2..], Closing(text[1]), '\''))
    || ("--" <= text && '\n' !in text)
    || ("/*" <= text && !HasPair(text[2..], '*', '/'))
  }

  /** Where the scan stands: whether the character before was a q, and whether only blanks came since a string. */
  datatype Before = Before(lastQ: bool, afterString: bool)

  function Behind(u: Classes, b: Before, p: Piece): Before {
    match p
    case Plain(c) => Before(c == 'q' || c == 'Q', if u.space(c) then b.afterString else false)
    case Quoted(q, _) => Before(false, q == '\'')
    case QQuoted(_, _) => Before(false, true)
    case _ => Before(false, false)
  }

  /** The piece is what it claims to be, in front of `rest`. */
  ghost predicate Delimited(u: Classes, b: Before, p: Piece, rest: string) {
    match p
    case Plain(c) =>
      c != '\'' && c != '"'
      && (c == '-' ==> !StartsWith(rest, '-')) && (c == '/' ==> !StartsWith(rest, '*'))
      && (c == ':' ==> b.afterString || NoName(u, rest))
    case Quoted(q, _) => (q == '"' || (q == '\'' && !b.lastQ)) && !StartsWith(rest, q)
    case QQuoted(open, body) => b.lastQ && !HasPair(body + [Closing(open)], Closing(open), '\'')
    case LineComment(body) => '\n' !in body
    case BlockComment(body) => !HasPair(body + "*", '*', '/')
    case Bind(blanks, name) => !b.afterString && All(u.space, blanks) && NameEnds(u, name, rest)
    case Cut(text) => rest == "" && IsCut(b.lastQ, text)
  }

  ghost predicate AllDelimited(u: Classes, b: Before, ps: seq<Piece>)
    decreases |ps|
  {
    ps == [] || (Delimited(u, b, ps[0], SpellAll(ps[1..])) && AllDelimited(u, Behind(u, b, ps[0]), ps[1..]))
  }

  /** The character tables: no character is in two classes, and upper-casing loses no word. */
  ghost predicate Tables(u: Classes) {
    Ascii(u)
    && (forall c :: !(u.letter(c) && u.digit(c)) && !(u.letter(c) && u.space(c)) && !(u.digit(c) && u.space(c)))
    && forall s: string :: s != "" ==> u.upper(s) != ""
  }

  // ---- one piece at a time ----

  lemma {:induction false} DoubledSkipped(body: string, q: char, rest: string)
    requires !StartsWith(rest, q)
    ensures AfterQuote(Doubled(body, q) + ([q] + rest), q) == rest
    ensures AfterQuote(Doubled(body, q), q) == ""
  {
    var s := Doubled(body, q) + ([q] + rest);
    if body == "" {
      assert s == [q] + rest && s[1..] == rest;
      assert |s| > 1 ==> s[1] == rest[0];
    } else {
      DoubledSkipped(body[1..], q, rest);
      var more := Doubled(body[1..], q);
      if body[0] == q {
        assert s == [q, q] + (more + ([q] + rest));
        assert s[2..] == more + ([q] + rest);
        assert Doubled(body, q)[2..] == more;
      } else {
        assert s == [body[0]] + (more + ([q] + rest));
        assert s[1..] == more + ([q] + rest);
        assert Doubled(body, q)[1..] == more;
      }
    }
  }

  lemma {:induction false} NewlineFound(body: string, rest: string)
    requires '\n' !in body
    ensures AfterNewline(body + ("\n" + rest)) == rest && AfterNewline(body) == ""
  {
    var s := body + ("\n" + rest);
    if body == "" {
      assert s == "\n" + rest && s[1..] == rest;
    } else {
      NewlineFound(body[1..], rest);
      assert s[1..] == body[1..] + ("\n" + rest);
    }
  }

  lemma {:induction false} SeparatorFound(body: string, sep: char, rest: string)
    requires !HasPair(body + [sep], sep, '\'')
    ensures AfterSeparator(body + ([sep] + ("'" + rest)), sep) == rest
  {
    var s := body + ([sep] + ("'" + rest));
    if body == "" {
      assert s == [sep, '\''] + rest && s[2..] == rest;
    } else {
      assert (body + [sep])[1..] == body[1..] + [sep];
      SeparatorFound(body[1..], sep, rest);
      assert s[1..] == body[1..] + ([sep] + ("'" + rest));
      assert s[0] == (body + [sep])[0] && s[1] == (body + [sep])[1];
    }
  }

  lemma {:induction false} SeparatorMissing(s: string, sep: char)
    requires !HasPair(s, sep, '\'')
    ensures AfterSeparator(s, sep) == ""
  {
    if |s| >= 2 {
      SeparatorMissing(s[1..], sep);
    }
  }

  lemma {:induction false} BlockFound(body: string, rest: string)
    requires !HasPair(body + "*", '*', '/')
    ensures AfterBlock(body + ("*/" + rest)) == rest
  {
    var s := body + ("*/" + rest);
    if body == "" {
      assert s == "*/" + rest && s[2..] == rest;
    } else {
      assert (body + "*")[1..] == body[1..] + "*";
      BlockFound(body[1..], rest);
      assert s[1..] == body[1..] + ("*/" + rest);
      assert s[0] == (body + "*")[0] && s[1] == (body + "*")[1];
    }
  }

  lemma {:induction false} BlockMissing(s: string)
    requires !HasPair(s, '*', '/')
    ensures AfterBlock(s) == ""
  {
    if |s| >= 2 {
      BlockMissing(s[1..]);
    }
  }

  /** What stands behind blanks is what the scanner looks at. */
  lemma BlanksSkipped(u: Classes, blanks: string, t: string)
    requires All(u.space, blanks) && (t != "" ==> !u.space(t[0]))
    ensures Take(u.space, blanks + t) == blanks && (blanks + t)[|Take(u.space, blanks + t)|..] == t
  {
    var s := blanks + t;
    TakeIsRun(u.space, s, |blanks|);
    assert s[..|blanks|] == blanks && s[|blanks|..] == t;
  }

  lemma NameFound(u: Classes, n: Name, rest: string)
    requires Tables(u) && NameEnds(u, n, rest)
    ensures NameText(n) != "" && !u.space(NameText(n)[0]) && Called(u, n) != ""
    ensures BindName(u, NameText(n) + rest) == Named(Called(u, n), rest)
  {
    hide Take;
    var t := NameText(n) + rest;
    assert t[0] == NameText(n)[0];
    TakeIsRun(u.space, t, 0);
    assert t[0..] == t;
    match n
    case InQuotes(body) => QuotedFound(u, body, rest);
    case Unclosed(body) =>
      TakeIsRun(c => c != '"', t[1..], |body|);
      assert t[1..] == body && body[..|body|] == body;
    case Numeral(digits) =>
      TakeIsRun(u.digit, t, |digits|);
      assert t[..|digits|] == digits && t[|digits|..] == rest;
    case Identifier(first, more) => IdentifierFound(u, first, more, rest);
  }

  lemma QuotedFound(u: Classes, body: string, rest: string)
    requires '"' !in body
    ensures var t := "\"" + body + "\"" + rest;
            var name := Take(c => c != '"', t[1..]);
            name == body && |name| + 1 < |t| && t[|name| + 2..] == rest
  {
    hide Take;
    var t := "\"" + body + "\"" + rest;
    var w := t[1..];
    assert w == body + ("\"" + rest);
    TakeIsRun(c => c != '"', w, |body|);
    assert w[..|body|] == body;
  }

  lemma IdentifierFound(u: Classes, first: char, more: string, rest: string)
    requires NameEnds(u, Identifier(first, more), rest)
    ensures var id := [first] + more;
            Take(c => NameChar(u, c), id + rest) == id && (id + rest)[|id|..] == rest
  {
    hide Take;
    var id := [first] + more;
    var t := id + rest;
    forall i | 0 <= i < |id|
      ensures NameChar(u, t[i])
    {
      assert i > 0 ==> t[i] == more[i - 1];
    }
    TakeIsRun(c => NameChar(u, c), t, |id|);
    assert t[..|id|] == id;
  }

  lemma BehindBlanks(u: Classes, blanks: string, t: string)
    requires All(u.space, blanks) && t != "" && !u.space(t[0]) && BindName(u, t).name != ""
    ensures BindName(u, blanks + t) == BindName(u, t)
  {
    hide Take;
    BlanksSkipped(u, blanks, t);
    BlanksSkipped(u, "", t);
    assert "" + t == t;
  }

  /** A bind is found, with its name, whatever blanks are in between. */
  lemma BindFound(u: Classes, blanks: string, name: Name, rest: string)
    requires Tables(u) && All(u.space, blanks) && NameEnds(u, name, rest)
    ensures BindName(u, blanks + (NameText(name) + rest)) == Named(Called(u, name), rest) && Called(u, name) != ""
  {
    hide BindName, NameEnds, NameText, Called, Tables;
    NameFound(u, name, rest);
    BehindBlanks(u, blanks, NameText(name) + rest);
  }

  lemma NoNameFound(u: Classes, rest: string)
    requires NoName(u, rest)
    ensures BindName(u, rest).name == ""
  {
    hide Take;
    var n: nat :| n <= |rest| && All(u.space, rest[..n]) && StartsNoName(u, rest[n..]);
    var t := rest[n..];
    assert rest == rest[..n] + t;
    BlanksSkipped(u, rest[..n], t);
    if t != "" && t[0] == '"' {
      TakeIsRun(c => c != '"', t[1..], 0);
    }
  }

  /** A piece that is no bind is jumped over, and leaves behind what it should. */
  ghost predicate Jumps(u: Classes, b: Before, p: Piece, rest: string) {
    var s := Spell(p) + rest;
    s != "" && Spell(p) != "" && s[0] == Spell(p)[0] &&
    var j := Jump(u, b.lastQ, b.afterString, s);
    j.rest == rest && Behind(u, b, p) == Before(j.last == 'q' || j.last == 'Q', j.afterString)
  }

  lemma PlainJumps(u: Classes, b: Before, c: char, rest: string)
    requires Tables(u) && Delimited(u, b, Plain(c), rest)
    ensures Jumps(u, b, Plain(c), rest)
  {
    hide AfterQuote, AfterQString, AfterNewline, AfterBlock, NoName;
    var s := [c] + rest;
    assert s[1..] == rest;
    assert rest != "" ==> s[1] == rest[0];
  }

  lemma QuotedJumps(u: Classes, b: Before, q: char, body: string, rest: string)
    requires Tables(u) && Delimited(u, b, Quoted(q, body), rest)
    ensures Jumps(u, b, Quoted(q, body), rest)
  {
    hide AfterQuote, AfterQString, AfterNewline, AfterBlock, Doubled;
    var s := Spell(Quoted(q, body)) + rest;
    assert s == [q] + (Doubled(body, q) + ([q] + rest));
    assert s[1..] == Doubled(body, q) + ([q] + rest);
    DoubledSkipped(body, q, rest);
  }

  lemma QQuotedJumps(u: Classes, b: Before, open: char, body: string, rest: string)
    requires Tables(u) && Delimited(u, b, QQuoted(open, body), rest)
    ensures Jumps(u, b, QQuoted(open, body), rest)
  {
    hide AfterQuote, AfterSeparator, AfterNewline, AfterBlock, HasPair;
    var v := [Closing(open)] + ("'" + rest);
    var s := Spell(QQuoted(open, body)) + rest;
    assert s == "'" + ([open] + (body + v));
    assert s[1..] == [open] + (body + v) && s[1..][1..] == body + v;
    SeparatorFound(body, Closing(open), rest);
  }

  lemma LineJumps(u: Classes, b: Before, body: string, rest: string)
    requires Tables(u) && '\n' !in body
    ensures Jumps(u, b, LineComment(body), rest)
  {
    hide AfterQuote, AfterQString, AfterNewline, AfterBlock;
    var s := Spell(LineComment(body)) + rest;
    assert s == "--" + body + ("\n" + rest);
    assert s[0] == '-' && s[1] == '-';
    NewlineFound("--" + body, rest);
  }

  lemma BlockJumps(u: Classes, b: Before, body: string, rest: string)
    requires Tables(u) && !HasPair(body + "*", '*', '/')
    ensures Jumps(u, b, BlockComment(body), rest)
  {
    hide AfterQuote, AfterQString, AfterNewline, AfterBlock, HasPair;
    var s := Spell(BlockComment(body)) + rest;
    assert s == "/*" + (body + ("*/" + rest));
    assert s[0] == '/' && s[1] == '*' && s[2..] == body + ("*/" + rest);
    BlockFound(body, rest);
  }

  lemma PieceJumps(u: Classes, b: Before, p: Piece, rest: string)
    requires Tables(u) && Delimited(u, b, p, rest) && !p.Bind? && !p.Cut?
    ensures Jumps(u, b, p, rest)
  {
    hide Jumps, NameEnds, NoName, HasPair;
    match p
    case Plain(c) => PlainJumps(u, b, c, rest);
    case Quoted(q, body) => QuotedJumps(u, b, q, body, rest);
    case QQuoted(open, body) => QQuotedJumps(u, b, open, body, rest);
    case LineComment(body) => LineJumps(u, b, body, rest);
    case BlockComment(body) => BlockJumps(u, b, body, rest);
  }

  /** What is never closed is jumped over to the end. */
  lemma CutJumped(u: Classes, lastQ: bool, afterString: bool, text: string)
    requires Tables(u) && IsCut(lastQ, text)
    ensures text != "" && text[0] in "'\"-/" && Jump(u, lastQ, afterString, text).rest == ""
  {
    hide AfterQuote, AfterSeparator, AfterNewline, AfterBlock;
    if !lastQ && exists body :: text == "'" + Doubled(body, '\'') {
      var body :| text == "'" + Doubled(body, '\'');
      DoubledSkipped(body, '\'', "");
      assert text[1..] == Doubled(body, '\'');
    } else if exists body :: text == "\"" + Doubled(body, '"') {
      var body :| text == "\"" + Doubled(body, '"');
      DoubledSkipped(body, '"', "");
      assert text[1..] == Doubled(body, '"');
    } else if "--" <= text && '\n' !in text {
      NewlineFound(text, "");
    } else if "/*" <= text && !HasPair(text[2..], '*', '/') {
      BlockMissing(text[2..]);
    } else if lastQ && text == "'" {
    } else {
      assert text[1..][1..] == text[2..];
      SeparatorMissing(text[2..], Closing(text[1]));
    }
  }

  // ---- what a scan must find ----

  /** What matters of a text: words in upper case as they end, and bind names. */
  datatype Item = Ended(word: string) | Bound(name: string)

  function Ending(u: Classes, run: string): seq<Item> {
    if run == "" then [] else [Ended(u.upper(run))]
  }

  function Own(u: Classes, p: Piece): seq<Item> {
    match p case Bind(_, name) => [Bound(Called(u, name))] case _ => []
  }

  /** A word is a run of letters in code; `run` is the one under way. One that ends with the text is left out. */
  function Items(u: Classes, run: string, ps: seq<Piece>): seq<Item>
    decreases |ps|
  {
    if ps == [] then []
    else if ps[0].Plain? && u.letter(ps[0].c) then Items(u, run + [ps[0].c], ps[1..])
    else Ending(u, run) + (Own(u, ps[0]) + Items(u, "", ps[1..]))
  }

  function FinalRun(u: Classes, run: string, ps: seq<Piece>): string
    decreases |ps|
  {
    if ps == [] then run
    else if ps[0].Plain? && u.letter(ps[0].c) then FinalRun(u, run + [ps[0].c], ps[1..])
    else FinalRun(u, "", ps[1..])
  }

  const KEYWORDS: map<string, Kind> := map[
    "SELECT" := Query, "WITH" := Query,
    "INSERT" := Dml, "UPDATE" := Dml, "DELETE" := Dml, "MERGE" := Dml,
    "DECLARE" := Plsql, "BEGIN" := Plsql, "CALL" := Plsql,
    "CREATE" := Ddl, "ALTER" := Ddl, "DROP" := Ddl, "GRANT" := Ddl, "REVOKE" := Ddl, "ANALYZE" := Ddl,
    "AUDIT" := Ddl, "COMMENT" := Ddl, "TRUNCATE" := Ddl]

  function KindOf(word: string): Kind {
    if word in KEYWORDS then KEYWORDS[word] else Unknown
  }

  function NamesIn(items: seq<Item>): seq<string> {
    if items == [] then [] else (if items[0].Bound? then [items[0].name] else []) + NamesIn(items[1..])
  }

  function WordsIn(items: seq<Item>): seq<string> {
    if items == [] then [] else (if items[0].Ended? then [items[0].word] else []) + WordsIn(items[1..])
  }

  function FirstWord(items: seq<Item>): (i: nat)
    ensures i <= |items| && (i < |items| ==> items[i].Ended?)
    ensures forall k :: 0 <= k < i ==> items[k].Bound?
  {
    if items == [] || items[0].Ended? then 0 else 1 + FirstWord(items[1..])
  }

  /** The names one after the other, leaving out those that are there already. */
  function OnceEach(seen: seq<string>, names: seq<string>): seq<string>
    decreases |names|
  {
    if names == [] then seen else OnceEach(if names[0] in seen then seen else seen + [names[0]], names[1..])
  }

  ghost predicate ReturnsInto(words: seq<string>) {
    exists a, b :: 0 <= a < b < |words| && words[a] == "RETURNING" && words[b] == "INTO"
  }

  /**
    * The leading word tells the kind, also if it is all there is. Behind it a DDL text is not looked at, a PL/SQL text
    * has each bind once, and any other has all binds in order; a DML text returns values if RETURNING and, later, INTO follow.
    */
  ghost function Expected(u: Classes, ps: seq<Piece>): Parsed {
    var items := Items(u, "", ps);
    var i := FirstWord(items);
    if i == |items| then
      var last := FinalRun(u, "", ps);
      Parsed(if last == "" then Unknown else KindOf(u.upper(last)), NamesIn(items), false)
    else
      var kind, before, after := KindOf(items[i].word), NamesIn(items[..i]), items[i + 1..];
      Parsed(kind,
             if kind == Ddl then before else if kind == Plsql then OnceEach(before, NamesIn(after)) else before + NamesIn(after),
             kind == Dml && ReturnsInto(WordsIn(after)))
  }

  ghost predicate Distinct(names: seq<string>) {
    forall i, j :: 0 <= i < j < |names| ==> names[i] != names[j]
  }

  /** Each name once, and no other. */
  lemma {:induction false} OnceEachIs(seen: seq<string>, names: seq<string>, name: string)
    requires Distinct(seen)
    ensures Distinct(OnceEach(seen, names))
    ensures name in OnceEach(seen, names) <==> name in seen || name in names
    decreases |names|
  {
    hide Distinct;
    if names != [] {
      var next := if names[0] in seen then seen else seen + [names[0]];
      assert Distinct(next) by { OneMoreName(seen, names[0]); }
      OnceEachIs(next, names[1..], name);
      assert name in names <==> name == names[0] || name in names[1..];
    }
  }

  lemma OneMoreName(seen: seq<string>, name: string)
    requires Distinct(seen)
    ensures name !in seen ==> Distinct(seen + [name])
  {
  }

  // ---- the scan, item by item ----

  datatype Core = Core(kind: Kind, found: bool, returning: bool, isReturning: bool, binds: seq<string>)

  function CoreOf(st: State): Core {
    Core(st.kind, st.found, st.returning, st.isReturning, st.binds)
  }

  function FeedWord(c: Core, w: string): Core {
    if !c.found then c.(kind := KindOf(w), found := true)
    else if c.kind == Dml && !c.returning && w == "RETURNING" then c.(returning := true)
    else if c.returning && w == "INTO" then c.(isReturning := true)
    else c
  }

  function FeedName(c: Core, name: string): Core {
    c.(binds := if c.kind == Plsql && name in c.binds then c.binds else c.binds + [name])
  }

  function Feed(c: Core, items: seq<Item>): Core
    decreases |items|
  {
    if items == [] then c
    else match items[0]
      case Bound(name) => Feed(FeedName(c, name), items[1..])
      case Ended(w) =>
        var d := FeedWord(c, w);
        if !c.found && d.kind == Ddl then d else Feed(d, items[1..])
  }

  lemma KindsAgree(w: string)
    ensures DetermineKind(w) == KindOf(w)
  {
  }

  /** What the scanner does with the word under way in front of a piece. */
  lemma WordFed(u: Classes, st: State, c: char)
    requires !u.letter(c)
    ensures var st1 := EndWord(u, st, c);
            CoreOf(st1) == (if st.word == "" then CoreOf(st) else FeedWord(CoreOf(st), u.upper(st.word)))
            && (Stops(st, st1) <==> st.word != "" && !st.found && st1.kind == Ddl)
            && st1.word == st.word && st1.lastQ == st.lastQ && st1.afterString == st.afterString
  {
    KindsAgree(u.upper(st.word));
  }

  lemma FeedEnding(u: Classes, c: Core, run: string, more: seq<Item>)
    ensures run == "" ==> Feed(c, Ending(u, run) + more) == Feed(c, more)
    ensures run != "" ==>
              var d := FeedWord(c, u.upper(run));
              Feed(c, Ending(u, run) + more) == if !c.found && d.kind == Ddl then d else Feed(d, more)
  {
    assert (Ending(u, run) + more)[|Ending(u, run)|..] == more;
    if run == "" {
      assert Ending(u, run) + more == more;
    }
  }

  lemma FeedOwn(u: Classes, c: Core, p: Piece, more: seq<Item>)
    ensures Feed(c, Own(u, p) + more) == if p.Bind? then Feed(FeedName(c, Called(u, p.name)), more) else Feed(c, more)
  {
    if p.Bind? {
      assert ([Bound(Called(u, p.name))] + more)[1..] == more;
    } else {
      assert [] + more == more;
    }
  }

  /** The state behind a piece that is no letter; s is the piece and what follows, st1 the state with the word before it ended. */
  ghost function NextState(u: Classes, st1: State, p: Piece, s: string): State
    requires s != ""
  {
    if p.Bind? then AddBind(st1, Called(u, p.name))
    else
      var j := Jump(u, st1.lastQ, st1.afterString, s);
      st1.(afterString := j.afterString, word := "", lastQ := j.last == 'q' || j.last == 'Q')
  }

  ghost predicate Stepped(u: Classes, st: State, p: Piece, rest: string) {
    var s := Spell(p) + rest;
    s != "" && !u.letter(s[0]) &&
    var st1 := EndWord(u, st, s[0]);
    Scan(u, st, s) == if Stops(st, st1) then st1 else Scan(u, NextState(u, st1, p, s), rest)
  }

  /** It knows of the bind, is in no word, and stands where the piece leaves off. */
  lemma NextStateIs(u: Classes, st1: State, p: Piece, rest: string)
    requires Tables(u) && Delimited(u, Before(st1.lastQ, st1.afterString), p, rest) && !(p.Plain? && u.letter(p.c))
    ensures var s := Spell(p) + rest;
            s != "" &&
            var st2 := NextState(u, st1, p, s);
            CoreOf(st2) == (if p.Bind? then FeedName(CoreOf(st1), Called(u, p.name)) else CoreOf(st1)) && st2.word == ""
            && (!p.Cut? ==> Before(st2.lastQ, st2.afterString) == Behind(u, Before(st1.lastQ, st1.afterString), p))
  {
    hide Delimited, Jump, NameText;
    var b := Before(st1.lastQ, st1.afterString);
    NoLetterFirst(u, b, p, rest);
    if !p.Bind? && !p.Cut? { PieceJumps(u, b, p, rest); }
  }

  lemma PieceSteps(u: Classes, st: State, p: Piece, rest: string)
    requires Tables(u) && Delimited(u, Before(st.lastQ, st.afterString), p, rest) && !(p.Plain? && u.letter(p.c))
    ensures Stepped(u, st, p, rest)
  {
    hide Jump, BindName, Scan, Behind, Delimited;
    var s := Spell(p) + rest;
    var b := Before(st.lastQ, st.afterString);
    NoLetterFirst(u, b, p, rest);
    var st1 := EndWord(u, st, s[0]);
    WordFed(u, st, s[0]);
    if Stops(st, st1) {
      ScanStops(u, st, s);
    } else if p.Bind? {
      BindSteps(u, st, p, rest);
    } else {
      NoBindHere(u, st1, p, rest);
      ScanJump(u, st, s);
      if p.Cut? {
        CutIsAll(u, b, p, rest);
      } else {
        PieceJumps(u, b, p, rest);
      }
    }
  }

  lemma CutIsAll(u: Classes, b: Before, p: Piece, rest: string)
    requires Tables(u) && p.Cut? && Delimited(u, b, p, rest)
    ensures rest == "" && Jump(u, b.lastQ, b.afterString, Spell(p) + rest).rest == ""
  {
    assert Spell(p) + rest == p.text;
    CutJumped(u, b.lastQ, b.afterString, p.text);
  }

  lemma NoLetterFirst(u: Classes, b: Before, p: Piece, rest: string)
    requires Tables(u) && Delimited(u, b, p, rest) && !(p.Plain? && u.letter(p.c))
    ensures Spell(p) != "" && (Spell(p) + rest)[0] == Spell(p)[0] && !u.letter(Spell(p)[0])
    ensures p.Bind? <==> Spell(p)[0] == ':' && !(p.Plain? && p.c == ':')
  {
    hide AfterQuote, AfterQString, AfterNewline, AfterBlock, Jump, NameEnds, NoName, HasPair;
    if p.Cut? { CutJumped(u, b.lastQ, b.afterString, p.text); }
  }

  lemma ColonIsNeither(u: Classes)
    requires Tables(u)
    ensures !u.letter(':') && !u.space(':')
  {
  }

  lemma BindHere(u: Classes, st1: State, p: Piece, rest: string)
    requires Tables(u) && p.Bind? && Delimited(u, Before(st1.lastQ, st1.afterString), p, rest)
    ensures Spell(p) + rest != "" && (Spell(p) + rest)[0] == ':'
    ensures BindAt(u, st1, Spell(p) + rest) == Named(Called(u, p.name), rest) && Called(u, p.name) != ""
  {
    hide BindName, NameEnds, NameText, Called, All, Tables;
    var s := Spell(p) + rest;
    ColonIsNeither(u);
    assert s == ":" + (p.blanks + (NameText(p.name) + rest));
    assert s[1..] == p.blanks + (NameText(p.name) + rest);
    BindFound(u, p.blanks, p.name, rest);
  }

  lemma BindSteps(u: Classes, st: State, p: Piece, rest: string)
    requires Tables(u) && p.Bind? && Delimited(u, Before(st.lastQ, st.afterString), p, rest)
    requires !Stops(st, EndWord(u, st, ':'))
    ensures var st1 := EndWord(u, st, ':');
            Scan(u, st, Spell(p) + rest) == Scan(u, AddBind(st1, Called(u, p.name)), rest)
  {
    hide BindAt, Scan, AddBind, Delimited, Called, EndWord, Spell, Tables;
    ColonIsNeither(u);
    WordFed(u, st, ':');
    BindHere(u, EndWord(u, st, ':'), p, rest);
    ScanBind(u, st, Spell(p) + rest);
  }

  lemma NoBindHere(u: Classes, st1: State, p: Piece, rest: string)
    requires Tables(u) && !p.Bind? && Delimited(u, Before(st1.lastQ, st1.afterString), p, rest)
    ensures Spell(p) + rest != "" && BindAt(u, st1, Spell(p) + rest).name == ""
  {
    hide BindName, NameEnds, NoName, HasPair, Jump;
    var s := Spell(p) + rest;
    match p
    case Plain(c) =>
      assert s[1..] == rest;
      if c == ':' && !st1.afterString { NoNameFound(u, rest); }
    case Cut(text) => CutJumped(u, st1.lastQ, st1.afterString, text);
    case _ =>
  }

  lemma LetterSteps(u: Classes, st: State, c: char, rest: string)
    requires Tables(u) && u.letter(c) && Delimited(u, Before(st.lastQ, st.afterString), Plain(c), rest)
    ensures var b := Behind(u, Before(st.lastQ, st.afterString), Plain(c));
            Scan(u, st, Spell(Plain(c)) + rest) == Scan(u, st.(afterString := b.afterString, lastQ := b.lastQ, word := st.word + [c]), rest)
  {
    hide BindName, Scan, Jump, NoName;
    var s := Spell(Plain(c)) + rest;
    PlainJumps(u, Before(st.lastQ, st.afterString), c, rest);
    assert EndWord(u, st, s[0]) == st;
    NoBindHere(u, st, Plain(c), rest);
    ScanJump(u, st, s);
  }

  lemma ScanNothing(u: Classes, st: State)
    ensures Scan(u, st, "") == st
  {
  }

  /** Nothing is spelled as nothing but no pieces. */
  lemma NoPieces(u: Classes, b: Before, ps: seq<Piece>)
    requires Tables(u) && AllDelimited(u, b, ps) && SpellAll(ps) == ""
    ensures ps == []
  {
    hide NameEnds, NoName, HasPair, Jump;
    if ps != [] {
      if ps[0].Cut? { CutJumped(u, b.lastQ, b.afterString, ps[0].text); }
      assert false;
    }
  }

  lemma {:induction false} ScanFeeds(u: Classes, st: State, ps: seq<Piece>)
    requires Tables(u) && AllDelimited(u, Before(st.lastQ, st.afterString), ps)
    ensures var x := Scan(u, st, SpellAll(ps));
            CoreOf(x) == Feed(CoreOf(st), Items(u, st.word, ps)) && (!x.found ==> x.word == FinalRun(u, st.word, ps))
    decreases |ps|
  {
    hide Delimited, Behind, EndWord, AddBind, Jump, Feed, FeedWord, FeedName, Scan, Spell, Ending, Own;
    if ps == [] {
      ScanNothing(u, st);
      FeedNothing(CoreOf(st));
    } else {
      var p, rest := ps[0], SpellAll(ps[1..]);
      var b := Before(st.lastQ, st.afterString);
      if p.Plain? && u.letter(p.c) {
        LetterSteps(u, st, p.c, rest);
        var b1 := Behind(u, b, p);
        ScanFeeds(u, st.(afterString := b1.afterString, lastQ := b1.lastQ, word := st.word + [p.c]), ps[1..]);
      } else {
        PieceFeeds(u, st, ps);
      }
    }
  }

  lemma FeedNothing(c: Core)
    ensures Feed(c, []) == c
  {
  }

  lemma CutIsLast(u: Classes, b: Before, ps: seq<Piece>)
    requires Tables(u) && AllDelimited(u, b, ps) && ps != [] && ps[0].Cut?
    ensures ps[1..] == []
  {
    NoPieces(u, Behind(u, b, ps[0]), ps[1..]);
  }

  lemma {:induction false} PieceFeeds(u: Classes, st: State, ps: seq<Piece>)
    requires Tables(u) && AllDelimited(u, Before(st.lastQ, st.afterString), ps) && ps != [] && !(ps[0].Plain? && u.letter(ps[0].c))
    ensures var x := Scan(u, st, SpellAll(ps));
            CoreOf(x) == Feed(CoreOf(st), Items(u, st.word, ps)) && (!x.found ==> x.word == FinalRun(u, st.word, ps))
    decreases |ps|, 0
  {
    hide Delimited, Behind, EndWord, NextState, Feed, FeedWord, FeedName, Scan, Spell, Ending, Own, Items, FinalRun, Tables;
    var p, rest := ps[0], SpellAll(ps[1..]);
    PieceSteps(u, st, p, rest);
    var s := Spell(p) + rest;
    var st1 := EndWord(u, st, s[0]);
    WordFed(u, st, s[0]);
    ItemsStep(u, st.word, ps);
    FeedEnding(u, CoreOf(st), st.word, Own(u, p) + Items(u, "", ps[1..]));
    FeedOwn(u, CoreOf(st1), p, Items(u, "", ps[1..]));
    if !Stops(st, st1) {
      NextStateIs(u, st1, p, rest);
      if p.Cut? { CutIsLast(u, Before(st.lastQ, st.afterString), ps); }
      ScanFeeds(u, NextState(u, st1, p, s), ps[1..]);
    }
  }

  lemma ItemsStep(u: Classes, run: string, ps: seq<Piece>)
    requires ps != [] && !(ps[0].Plain? && u.letter(ps[0].c))
    ensures Items(u, run, ps) == Ending(u, run) + (Own(u, ps[0]) + Items(u, "", ps[1..]))
    ensures FinalRun(u, run, ps) == FinalRun(u, "", ps[1..])
  {
  }

  // ---- what the items come to ----

  lemma FeedBound(c: Core, items: seq<Item>)
    requires items != [] && items[0].Bound?
    ensures Feed(c, items) == Feed(FeedName(c, items[0].name), items[1..])
    ensures FirstWord(items) == 1 + FirstWord(items[1..])
  {
  }

  lemma FeedFirst(c: Core, items: seq<Item>)
    requires !c.found && (items == [] || items[0].Ended?)
    ensures FirstWord(items) == 0 && NamesIn(items[..0]) == [] && c.binds + [] == c.binds
    ensures Feed(c, items) == if items == [] then c
                              else var e := FeedWord(c, items[0].word);
                                   if e.kind == Ddl then e else Feed(e, items[1..])
  {
  }

  lemma {:induction false} FeedBefore(c: Core, items: seq<Item>)
    requires !c.found && c.kind == Unknown
    ensures var i := FirstWord(items);
            var d := c.(binds := c.binds + NamesIn(items[..i]));
            Feed(c, items) == if i == |items| then d
                              else var e := d.(kind := KindOf(items[i].word), found := true);
                                   if e.kind == Ddl then e else Feed(e, items[i + 1..])
    decreases |items|
  {
    hide KindOf, Feed, FirstWord, NamesIn;
    if items == [] || items[0].Ended? {
      FeedFirst(c, items);
    } else {
      var i, more := FirstWord(items), items[1..];
      FeedBound(c, items);
      FeedBefore(FeedName(c, items[0].name), more);
      assert items[..i][1..] == more[..i - 1];
      ItemSplit(items[..i]);
      Associate(c.binds, [items[0].name], NamesIn(more[..i - 1]));
      if i < |items| {
        assert more[i - 1] == items[i] && more[i..] == items[i + 1..];
      }
    }
  }

  predicate Into(returning: bool, words: seq<string>)
    decreases |words|
  {
    words != [] && (if returning then words[0] == "INTO" || Into(true, words[1..]) else Into(words[0] == "RETURNING", words[1..]))
  }

  /** What is left to happen once the kind is known. */
  ghost predicate Fed(c: Core, names: seq<string>, words: seq<string>, d: Core) {
    d.found && d.kind == c.kind
    && d.binds == (if c.kind == Plsql then OnceEach(c.binds, names) else c.binds + names)
    && d.isReturning == (c.isReturning || (c.kind == Dml && Into(c.returning, words)))
  }

  lemma FedName(c: Core, name: string, names: seq<string>, words: seq<string>, d: Core)
    requires Fed(FeedName(c, name), names, words, d)
    ensures Fed(c, [name] + names, words, d)
  {
    hide Into;
    assert ([name] + names)[1..] == names;
    assert c.binds + [name] + names == c.binds + ([name] + names);
  }

  lemma FedWord(c: Core, w: string, names: seq<string>, words: seq<string>, d: Core)
    requires c.found && (c.returning ==> c.kind == Dml) && Fed(FeedWord(c, w), names, words, d)
    ensures Fed(c, names, [w] + words, d)
  {
    hide OnceEach;
    assert ([w] + words)[1..] == words;
  }

  lemma ItemSplit(items: seq<Item>)
    requires items != []
    ensures items[0].Bound? ==> NamesIn(items) == [items[0].name] + NamesIn(items[1..]) && WordsIn(items) == WordsIn(items[1..])
    ensures items[0].Ended? ==> WordsIn(items) == [items[0].word] + WordsIn(items[1..]) && NamesIn(items) == NamesIn(items[1..])
  {
    assert [] + NamesIn(items[1..]) == NamesIn(items[1..]) && [] + WordsIn(items[1..]) == WordsIn(items[1..]);
  }

  lemma {:induction false} FeedAfter(c: Core, items: seq<Item>)
    requires c.found && c.kind != Ddl && (c.returning ==> c.kind == Dml)
    ensures Fed(c, NamesIn(items), WordsIn(items), Feed(c, items))
    decreases |items|
  {
    if items == [] {
      assert c.binds + [] == c.binds;
    } else {
      hide Fed, Into, OnceEach, NamesIn, WordsIn;
      ItemSplit(items);
      var more, names, words := items[1..], NamesIn(items[1..]), WordsIn(items[1..]);
      match items[0]
      case Bound(name) =>
        FeedAfter(FeedName(c, name), more);
        FedName(c, name, names, words, Feed(c, items));
      case Ended(w) =>
        FeedAfter(FeedWord(c, w), more);
        FedWord(c, w, names, words, Feed(c, items));
    }
  }

  lemma {:induction false} IntoIff(words: seq<string>)
    ensures Into(true, words) <==> "INTO" in words
    ensures Into(false, words) <==> ReturnsInto(words)
  {
    if words == [] {
    } else {
      IntoIff(words[1..]);
      if words[0] == "RETURNING" {
        if "INTO" in words[1..] {
          var b :| 0 <= b < |words| - 1 && words[1..][b] == "INTO";
          assert words[0] == "RETURNING" && words[b + 1] == "INTO";
        }
      }
      if ReturnsInto(words[1..]) {
        var a, b :| 0 <= a < b < |words| - 1 && words[1..][a] == "RETURNING" && words[1..][b] == "INTO";
        assert words[a + 1] == "RETURNING" && words[b + 1] == "INTO";
      }
      if ReturnsInto(words) {
        var a, b :| 0 <= a < b < |words| && words[a] == "RETURNING" && words[b] == "INTO";
        assert words[1..][b - 1] == "INTO";
        if a > 0 { assert words[1..][a - 1] == "RETURNING"; }
      }
    }
  }

  /** Whatever pieces a text has, the scan finds the kind, the binds and the returning clause they stand for. */
  lemma PiecesParse(u: Classes, ps: seq<Piece>)
    requires Tables(u) && AllDelimited(u, Before(false, false), ps)
    ensures Parse(u, SpellAll(ps)) == Expected(u, ps)
  {
    hide Items, FinalRun, Scan, FirstWord, NamesIn, WordsIn, KindOf, DetermineKind, AllDelimited, SpellAll, OnceEach, ReturnsInto, Tables;
    var items := Items(u, "", ps);
    ScanFeeds(u, START, ps);
    var x := Scan(u, START, SpellAll(ps));
    KindsAgree(u.upper(x.word));
    FeedAll(items);
  }

  /** The items of a whole text. */
  lemma FeedAll(items: seq<Item>)
    ensures var d, i := Feed(Core(Unknown, false, false, false, []), items), FirstWord(items);
            if i == |items| then d == Core(Unknown, false, false, false, NamesIn(items))
            else
              var kind, before, after := KindOf(items[i].word), NamesIn(items[..i]), items[i + 1..];
              d.found && d.kind == kind && d.isReturning == (kind == Dml && ReturnsInto(WordsIn(after)))
              && d.binds == if kind == Ddl then before else if kind == Plsql then OnceEach(before, NamesIn(after)) else before + NamesIn(after)
  {
    hide FirstWord, NamesIn, WordsIn, KindOf, Feed, FeedWord, OnceEach, Into, ReturnsInto;
    var i := FirstWord(items);
    FeedBefore(Core(Unknown, false, false, false, []), items);
    assert [] + NamesIn(items[..i]) == NamesIn(items[..i]);
    if i == |items| {
      assert items[..i] == items;
    } else {
      var e := Core(KindOf(items[i].word), true, false, false, NamesIn(items[..i]));
      if e.kind != Ddl {
        FeedAfter(e, items[i + 1..]);
        IntoIff(WordsIn(items[i + 1..]));
      }
    }
  }

  // ---- every text has such pieces ----

  lemma {:induction false} SplitQuote(s: string, q: char) returns (closed: bool, body: string, rest: string)
    ensures closed ==> s == Doubled(body, q) + ([q] + rest) && !StartsWith(rest, q)
    ensures !closed ==> s == Doubled(body, q)
    ensures |rest| <= |s|
    decreases |s|
  {
    if s == "" {
      closed, body, rest := false, "", "";
    } else if s[0] != q {
      closed, body, rest := SplitQuote(s[1..], q);
      var more := [s[0]] + body;
      assert more[1..] == body && Doubled(more, q) == [s[0]] + Doubled(body, q);
      assert s == [s[0]] + s[1..];
      body := more;
    } else if |s| > 1 && s[1] == q {
      closed, body, rest := SplitQuote(s[2..], q);
      var more := [q] + body;
      assert more[1..] == body && Doubled(more, q) == [q, q] + Doubled(body, q);
      assert s == [q, q] + s[2..];
      body := more;
    } else {
      closed, body, rest := true, "", s[1..];
      assert s == "" + ([q] + rest);
    }
  }

  lemma {:induction false} SplitPair(s: string, a: char, b: char) returns (found: bool, body: string, rest: string)
    ensures found ==> s == body + [a, b] + rest && !HasPair(body + [a], a, b)
    ensures !found ==> !HasPair(s, a, b)
    ensures |rest| <= |s|
  {
    if |s| < 2 {
      found, body, rest := false, "", "";
    } else if s[0] == a && s[1] == b {
      found, body, rest := true, "", s[2..];
    } else {
      found, body, rest := SplitPair(s[1..], a, b);
      if found {
        var more := [s[0]] + body;
        assert s == [s[0]] + s[1..] == more + [a, b] + rest;
        assert (more + [a])[1..] == body + [a] && (more + [a])[1] == s[1];
        body := more;
      }
    }
  }

  lemma {:induction false} SplitLine(s: string) returns (found: bool, body: string, rest: string)
    ensures found ==> s == body + ("\n" + rest) && '\n' !in body
    ensures !found ==> '\n' !in s
    ensures |rest| <= |s|
  {
    if s == "" {
      found, body, rest := false, "", "";
    } else if s[0] == '\n' {
      found, body, rest := true, "", s[1..];
    } else {
      found, body, rest := SplitLine(s[1..]);
      assert s == [s[0]] + s[1..];
      body := [s[0]] + body;
    }
  }

  lemma TakeSplits(p: char -> bool, s: string)
    ensures var w := Take(p, s);
            |w| <= |s| && s == w + s[|w|..] && All(p, w) && (s[|w|..] != "" ==> !p(s[|w|..][0]))
  {
    hide Take;
    TakeMaximal(p, s);
    assert Take(p, s) == s[..|Take(p, s)|];
  }

  lemma {:induction false} TakeMaximal(p: char -> bool, s: string)
    ensures var w := Take(p, s);
            |w| <= |s| && w == s[..|w|] && All(p, w) && (|w| < |s| ==> !p(s[|w|]))
  {
    if s != "" && p(s[0]) {
      TakeMaximal(p, s[1..]);
      var w := Take(p, s[1..]);
      assert forall k :: 0 < k < |w| + 1 ==> ([s[0]] + w)[k] == w[k - 1];
    }
  }

  /** Behind a colon stands a name, or none. */
  lemma NameOrNone(u: Classes, s: string) returns (named: bool, blanks: string, name: Name, rest: string)
    requires Tables(u)
    ensures named ==> s == blanks + (NameText(name) + rest) && All(u.space, blanks) && NameEnds(u, name, rest)
    ensures !named ==> NoName(u, s)
    ensures |rest| <= |s|
  {
    hide Take, NameEnds, NameText;
    TakeSplits(u.space, s);
    blanks := Take(u.space, s);
    var t := s[|blanks|..];
    named, name, rest := false, Numeral(""), "";
    if StartsNoName(u, t) {
      assert s[..|blanks|] == blanks;
    } else if t[0] == '"' {
      named, name, rest := WholeQuotedName(u, t);
    } else if u.digit(t[0]) {
      named, name, rest := WholeNumeral(u, t);
    } else {
      named, name, rest := WholeIdentifier(u, t);
    }
  }

  lemma QuoteFree(body: string)
    requires All(c => c != '"', body)
    ensures '"' !in body
  {
  }

  lemma WholeQuotedName(u: Classes, t: string) returns (named: bool, name: Name, rest: string)
    requires |t| > 1 && t[0] == '"' && t[1] != '"'
    ensures named && t == NameText(name) + rest && NameEnds(u, name, rest) && |rest| <= |t|
  {
    hide Take;
    var p := c => c != '"';
    TakeSplits(p, t[1..]);
    var body := Take(p, t[1..]);
    var end := t[1..][|body|..];
    QuoteFree(body);
    assert t == "\"" + (body + end);
    if end == "" {
      named, name, rest := true, Unclosed(body), "";
    } else {
      named, name, rest := true, InQuotes(body), end[1..];
      assert end == "\"" + rest;
      assert t == NameText(name) + rest;
    }
  }

  lemma WholeNumeral(u: Classes, t: string) returns (named: bool, name: Name, rest: string)
    requires t != "" && u.digit(t[0])
    ensures named && t == NameText(name) + rest && NameEnds(u, name, rest) && |rest| <= |t|
  {
    hide Take;
    TakeSplits(u.digit, t);
    var digits := Take(u.digit, t);
    named, name, rest := true, Numeral(digits), t[|digits|..];
  }

  lemma WholeIdentifier(u: Classes, t: string) returns (named: bool, name: Name, rest: string)
    requires Tables(u) && t != "" && u.letter(t[0])
    ensures named && t == NameText(name) + rest && NameEnds(u, name, rest) && |rest| <= |t|
  {
    hide Take;
    var p := c => NameChar(u, c);
    TakeSplits(p, t);
    var id := Take(p, t);
    assert NameChar(u, t[0]);
    assert id != "" && id[0] == t[0];
    named, name, rest := true, Identifier(id[0], id[1..]), t[|id|..];
    assert id == [id[0]] + id[1..];
    forall c | c in id[1..]
      ensures u.letter(c) || u.digit(c) || c == '_' || c == '$' || c == '#'
    {
      var k :| 0 <= k < |id[1..]| && id[1..][k] == c;
      assert p(id[k + 1]);
    }
  }

  /** The first piece of a text. */
  lemma FirstPiece(u: Classes, b: Before, s: string) returns (p: Piece, rest: string)
    requires Tables(u) && s != ""
    ensures s == Spell(p) + rest && |rest| < |s| && Delimited(u, b, p, rest)
  {
    hide NameEnds, NoName, HasPair, Doubled;
    p, rest := Plain(s[0]), s[1..];
    assert s == [s[0]] + s[1..];
    if s[0] == '\'' && b.lastQ {
      p, rest := FirstQQuoted(u, b, s);
    } else if s[0] == '\'' || s[0] == '"' {
      p, rest := FirstQuoted(u, b, s);
    } else if "--" <= s || "/*" <= s {
      p, rest := FirstComment(u, b, s);
    } else if s[0] == ':' && !b.afterString {
      var named, blanks, name, end := NameOrNone(u, s[1..]);
      if named {
        p, rest := Bind(blanks, name), end;
        assert s == ":" + blanks + NameText(name) + end;
      }
    }
  }

  lemma FirstQuoted(u: Classes, b: Before, s: string) returns (p: Piece, rest: string)
    requires Tables(u) && s != "" && (s[0] == '"' || (s[0] == '\'' && !b.lastQ))
    ensures s == Spell(p) + rest && |rest| < |s| && Delimited(u, b, p, rest)
  {
    hide Doubled;
    var closed, body, end := SplitQuote(s[1..], s[0]);
    assert s == [s[0]] + s[1..];
    if closed {
      p, rest := Quoted(s[0], body), end;
      assert s == [s[0]] + Doubled(body, s[0]) + [s[0]] + end;
    } else {
      p, rest := Cut(s), "";
      assert s == [s[0]] + Doubled(body, s[0]);
      assert IsCut(b.lastQ, s);
    }
  }

  lemma FirstQQuoted(u: Classes, b: Before, s: string) returns (p: Piece, rest: string)
    requires Tables(u) && s != "" && s[0] == '\'' && b.lastQ
    ensures s == Spell(p) + rest && |rest| < |s| && Delimited(u, b, p, rest)
  {
    hide HasPair;
    p, rest := Cut(s), "";
    if |s| == 1 {
      assert s == "'";
    } else {
      var found, body, end := SplitPair(s[2..], Closing(s[1]), '\'');
      if found {
        p, rest := QQuoted(s[1], body), end;
        assert s == "'" + [s[1]] + s[2..];
        assert s == "'" + [s[1]] + body + [Closing(s[1])] + "'" + end;
      }
    }
  }

  lemma FirstComment(u: Classes, b: Before, s: string) returns (p: Piece, rest: string)
    requires Tables(u) && ("--" <= s || "/*" <= s)
    ensures s == Spell(p) + rest && |rest| < |s| && Delimited(u, b, p, rest)
  {
    hide HasPair;
    p, rest := Cut(s), "";
    assert s == s[..2] + s[2..];
    if "--" <= s {
      var found, body, end := SplitLine(s[2..]);
      if found {
        p, rest := LineComment(body), end;
        assert s == "--" + body + "\n" + end;
      }
    } else {
      var found, body, end := SplitPair(s[2..], '*', '/');
      if found {
        p, rest := BlockComment(body), end;
        assert s == "/*" + body + "*/" + end;
      }
    }
  }

  /** So the finding above is about every text. */
  lemma {:induction false} EveryTextHasPieces(u: Classes, b: Before, s: string) returns (ps: seq<Piece>)
    requires Tables(u)
    ensures SpellAll(ps) == s && AllDelimited(u, b, ps)
    decreases |s|
  {
    hide Delimited, Spell, Behind;
    if s == "" {
      ps := [];
    } else {
      var p, rest := FirstPiece(u, b, s);
      var more := EveryTextHasPieces(u, Behind(u, b, p), rest);
      ps := [p] + more;
      assert ps[1..] == more;
    }
  }

  /** The scan of any text finds what its pieces stand for. */
  lemma EveryTextParses(u: Classes, sql: string) returns (ps: seq<Piece>)
    requires Tables(u)
    ensures SpellAll(ps) == sql && AllDelimited(u, Before(false, false), ps)
    ensures Parse(u, sql) == Expected(u, ps)
  {
    hide Parse, Expected, AllDelimited, SpellAll;
    ps := EveryTextHasPieces(u, Before(false, false), sql);
    PiecesParse(u, ps);
  }
}
