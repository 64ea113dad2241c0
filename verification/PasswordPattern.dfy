/** `convert_python_regex_to_html`: escaping inside character classes, and what it does to the
    meaning of a pattern. An escape outside a class is two characters. A class runs to its first
    unescaped closing bracket for ECMAScript (`Tokens`), while Python takes one that stands first for a
    member (`PythonTokens`). With the `v` flag ECMAScript would also nest a class at an unescaped
    opening bracket inside one; that is not part of this model. */
module PasswordPattern {
  import opened Options

  // ---- Ten replacements, one after the other ----

  const SPECIAL_MAP: seq<(char, string)> := [
    ('{', "\\{"), ('}', "\\}"), ('<', "\\<"), ('>', "\\>"), ('.', "\\."),
    ('+', "\\+"), ('|', "\\|"), (',', "\\,"), ('\'', "\\\\'"), ('/', "\\/")]

  predicate Special(c: char) {
    c == '{' || c == '}' || c == '<' || c == '>' || c == '.' || c == '+' || c == '|' || c == ',' || c == '\''
      || c == '/'
  }

  /** `str.replace` of a single character. */
  function ReplaceAll(s: string, c: char, text: string): string {
    if s == "" then "" else (if s[0] == c then text else [s[0]]) + ReplaceAll(s[1..], c, text)
  }

  /** What a character becomes under the first `n` entries of a table. */
  function Text(table: seq<(char, string)>, n: nat, c: char): string
    requires n <= |table|
  {
    if n == 0 then [c] else if table[n - 1].0 == c then table[n - 1].1 else Text(table, n - 1, c)
  }

  /** All characters at once. */
  function Substitute(s: string, table: seq<(char, string)>, n: nat): string
    requires n <= |table|
  {
    if s == "" then "" else Text(table, n, s[0]) + Substitute(s[1..], table, n)
  }

  /** No replacement brings in a character that a later one would replace. */
  predicate Independent(table: seq<(char, string)>) {
    forall i, j :: 0 <= i < j < |table| ==> table[i].0 != table[j].0 && table[j].0 !in table[i].1
  }

  lemma {:induction false} ReplaceConcat(a: string, b: string, c: char, text: string)
    ensures ReplaceAll(a + b, c, text) == ReplaceAll(a, c, text) + ReplaceAll(b, c, text)
  {
    if a == "" {
      assert a + b == b;
    } else {
      assert (a + b)[1..] == a[1..] + b;
      ReplaceConcat(a[1..], b, c, text);
    }
  }

  lemma {:induction false} ReplaceAbsent(a: string, c: char, text: string)
    requires c !in a
    ensures ReplaceAll(a, c, text) == a
  {
    if a != "" {
      ReplaceAbsent(a[1..], c, text);
    }
  }

  lemma {:induction false} TextIsEntry(table: seq<(char, string)>, n: nat, c: char)
    requires n <= |table|
    ensures (Text(table, n, c) == [c] && forall i :: 0 <= i < n ==> table[i].0 != c)
      || exists i :: 0 <= i < n && table[i].0 == c && Text(table, n, c) == table[i].1
  {
    if n > 0 && table[n - 1].0 != c {
      TextIsEntry(table, n - 1, c);
    }
  }

  lemma {:induction false} ReplaceNext(s: string, table: seq<(char, string)>, n: nat)
    requires n < |table| && Independent(table)
    ensures ReplaceAll(Substitute(s, table, n), table[n].0, table[n].1) == Substitute(s, table, n + 1)
  {
    if s != "" {
      var key, text := table[n].0, table[n].1;
      ReplaceConcat(Text(table, n, s[0]), Substitute(s[1..], table, n), key, text);
      ReplaceNext(s[1..], table, n);
      TextIsEntry(table, n, s[0]);
      if i :| 0 <= i < n && table[i].0 == s[0] && Text(table, n, s[0]) == table[i].1 {
        ReplaceAbsent(table[i].1, key, text);
      } else {
        assert ReplaceAll([s[0]], key, text) == if s[0] == key then text else [s[0]];
      }
    }
  }

  lemma {:induction false} NothingReplaced(s: string, table: seq<(char, string)>)
    ensures Substitute(s, table, 0) == s
  {
    if s != "" {
      NothingReplaced(s[1..], table);
    }
  }

  predicate OwnText(entry: (char, string)) {
    entry.0 != '\\' && forall c :: c in entry.1 ==> c == '\\' || c == entry.0
  }

  lemma SpecialMapEntries()
    ensures forall i :: 0 <= i < 10 ==> OwnText(SPECIAL_MAP[i])
    ensures forall i, j :: 0 <= i < j < 10 ==> SPECIAL_MAP[i].0 != SPECIAL_MAP[j].0
  {
  }

  lemma SpecialMapIndependent()
    ensures Independent(SPECIAL_MAP)
  {
    SpecialMapEntries();
    assert |SPECIAL_MAP| == 10;
    hide SPECIAL_MAP;
    forall i, j | 0 <= i < j < |SPECIAL_MAP| ensures SPECIAL_MAP[j].0 !in SPECIAL_MAP[i].1 {
      assert OwnText(SPECIAL_MAP[i]) && OwnText(SPECIAL_MAP[j]);
    }
  }

  /** What the loop computes, character by character. */
  function Escaped(c: char): string {
    if c == '\'' then "\\\\'" else if Special(c) then ['\\', c] else [c]
  }

  function Escape(s: string): string {
    if s == "" then "" else Escaped(s[0]) + Escape(s[1..])
  }

  lemma SpecialText(c: char)
    ensures Text(SPECIAL_MAP, 10, c) == Escaped(c)
  {
    TextIsEntry(SPECIAL_MAP, 10, c);
    if forall i :: 0 <= i < 10 ==> SPECIAL_MAP[i].0 != c {
      assert c != SPECIAL_MAP[0].0 && c != SPECIAL_MAP[1].0 && c != SPECIAL_MAP[2].0 && c != SPECIAL_MAP[3].0
        && c != SPECIAL_MAP[4].0;
      assert c != SPECIAL_MAP[5].0 && c != SPECIAL_MAP[6].0 && c != SPECIAL_MAP[7].0 && c != SPECIAL_MAP[8].0
        && c != SPECIAL_MAP[9].0;
    }
  }

  lemma {:induction false} SubstituteIsEscape(s: string)
    ensures Substitute(s, SPECIAL_MAP, 10) == Escape(s)
  {
    if s != "" {
      SpecialText(s[0]);
      SubstituteIsEscape(s[1..]);
    }
  }

  /** The loop of `replacer`: ten sequential replacements make one simultaneous substitution. */
  method Replacer(body: string) returns (inside: string)
    ensures inside == Escape(body)
  {
    SpecialMapIndependent();
    NothingReplaced(body, SPECIAL_MAP);
    hide Independent;
    inside := body;
    for n := 0 to |SPECIAL_MAP|
      invariant inside == Substitute(body, SPECIAL_MAP, n)
    {
      ReplaceNext(body, SPECIAL_MAP, n);
      inside := ReplaceAll(inside, SPECIAL_MAP[n].0, SPECIAL_MAP[n].1);
    }
    SubstituteIsEscape(body);
  }

  // ---- Where the classes are ----

  /** A position found in what follows the first `n` characters. */
  function Moved(e: Option<nat>, n: nat): Option<nat> {
    if e.Some? then Some(e.value + n) else None
  }

  /** The position of the first unescaped closing bracket. */
  function Close(s: string): (e: Option<nat>)
    ensures e.Some? ==> e.value < |s| && s[e.value] == ']'
  {
    if s == "" then None
    else if s[0] == ']' then Some(0)
    else if s[0] == '\\' then if |s| < 2 then None else Moved(Close(s[2..]), 2)
    else Moved(Close(s[1..]), 1)
  }

  function FirstOf(e: Option<nat>, otherwise: Option<nat>): Option<nat> {
    if e.Some? then e else otherwise
  }

  /** Where the match of `(?:\\.|[^\]])*\]` ends: an escape pair is tried first (a dot is no newline),
      then any character but a closing bracket, and only then the closing bracket; whatever fails
      later is undone. */
  function MatchEnd(s: string): (e: Option<nat>)
    ensures e.Some? ==> e.value < |s| && s[e.value] == ']'
  {
    if s == "" then None
    else if s[0] == ']' then Some(0)
    else if |s| > 1 && s[0] == '\\' && s[1] != '\n' then FirstOf(Moved(MatchEnd(s[2..]), 2), Moved(MatchEnd(s[1..]), 1))
    else Moved(MatchEnd(s[1..]), 1)
  }

  /** For a class that is closed, backtracking finds just its end. */
  lemma {:induction false} MatchIsClose(s: string)
    requires Close(s).Some?
    ensures MatchEnd(s) == Close(s)
  {
    if s[0] == '\\' {
      MatchIsClose(s[2..]);
      if s[1] == '\n' {
        assert s[1..][1..] == s[2..];
      }
    } else if s[0] != ']' {
      MatchIsClose(s[1..]);
    }
  }

  /** `re.sub`: every stretch matched from an opening bracket has its inside escaped. */
  function Convert(s: string): string {
    if s == "" then ""
    else
      var e := if s[0] == '[' then MatchEnd(s[1..]) else None;
      if e.Some? then "[" + Escape(s[1..][..e.value]) + "]" + Convert(s[e.value + 2..])
      else [s[0]] + Convert(s[1..])
  }

  datatype Token = Plain(c: char) | Escaping(c: char) | Class(body: string)

  function Before(token: Token, tokens: Option<seq<Token>>): Option<seq<Token>> {
    if tokens.None? then None else Some([token] + tokens.value)
  }

  /** A pattern as its characters, escapes and classes; none if something is left open. */
  function Tokens(s: string): Option<seq<Token>> {
    if s == "" then Some([])
    else if s[0] == '\\' then if |s| < 2 then None else Before(Escaping(s[1]), Tokens(s[2..]))
    else if s[0] == '[' then
      var e := Close(s[1..]);
      if e.None? then None else Before(Class(s[1..][..e.value]), Tokens(s[e.value + 2..]))
    else Before(Plain(s[0]), Tokens(s[1..]))
  }

  function Translated(token: Token): Token {
    if token.Class? then Class(Escape(token.body)) else token
  }

  function TranslatedAll(tokens: seq<Token>): seq<Token> {
    seq(|tokens|, i requires 0 <= i < |tokens| => Translated(tokens[i]))
  }

  lemma SkipPair(s: string, i: nat)
    requires i + 2 <= |s| && s[i] == '\\' && Close(s[i + 2..]).Some?
    ensures Close(s[i..]) == Some(Close(s[i + 2..]).value + 2)
  {
    assert s[i..][2..] == s[i + 2..];
  }

  lemma SkipOne(s: string, i: nat)
    requires i < |s| && s[i] != ']' && s[i] != '\\' && Close(s[i + 1..]).Some?
    ensures Close(s[i..]) == Some(Close(s[i + 1..]).value + 1)
  {
    assert s[i..][1..] == s[i + 1..];
  }

  lemma Front(a: string, b: string)
    ensures (a + b)[|a|..] == b && (a + b)[0..] == a + b
  {
  }

  lemma PieceOfOne(p: string, rest: string)
    requires |p| == 1 && p[0] != ']' && p[0] != '\\' && Close(rest).Some?
    ensures Close(p + rest) == Some(1 + Close(rest).value)
  {
    hide Close;
    Front(p, rest);
    SkipOne(p + rest, 0);
  }

  lemma PieceOfTwo(p: string, rest: string)
    requires |p| == 2 && p[0] == '\\' && Close(rest).Some?
    ensures Close(p + rest) == Some(2 + Close(rest).value)
  {
    hide Close;
    Front(p, rest);
    SkipPair(p + rest, 0);
  }

  lemma PieceOfThree(p: string, rest: string)
    requires |p| == 3 && p[0] == '\\' && p[2] != ']' && p[2] != '\\' && Close(rest).Some?
    ensures Close(p + rest) == Some(3 + Close(rest).value)
  {
    hide Close;
    Front(p, rest);
    SkipOne(p + rest, 2);
    SkipPair(p + rest, 0);
  }

  lemma PieceOfFour(p: string, rest: string)
    requires |p| == 4 && p[0] == '\\' && p[2] == '\\' && Close(rest).Some?
    ensures Close(p + rest) == Some(4 + Close(rest).value)
  {
    hide Close;
    Front(p, rest);
    SkipPair(p + rest, 2);
    SkipPair(p + rest, 0);
  }

  lemma SkipEscaped(c: char, rest: string)
    requires c != ']' && c != '\\' && Close(rest).Some?
    ensures Close(Escaped(c) + rest) == Some(|Escaped(c)| + Close(rest).value)
  {
    hide Close;
    if c == '\'' {
      PieceOfThree(Escaped(c), rest);
    } else if Special(c) {
      PieceOfTwo(Escaped(c), rest);
    } else {
      PieceOfOne(Escaped(c), rest);
    }
  }

  lemma SkipEscapedPair(c: char, rest: string)
    requires Close(rest).Some?
    ensures Close(['\\'] + Escaped(c) + rest) == Some(1 + |Escaped(c)| + Close(rest).value)
  {
    hide Close;
    if c == '\'' {
      PieceOfFour(['\\'] + Escaped(c), rest);
    } else if Special(c) {
      PieceOfThree(['\\'] + Escaped(c), rest);
    } else {
      PieceOfTwo(['\\'] + Escaped(c), rest);
    }
  }

  lemma EscapeHead(body: string)
    requires body != ""
    ensures Escape(body) == Escaped(body[0]) + Escape(body[1..])
  {
  }

  lemma Assoc<T>(a: seq<T>, b: seq<T>, c: seq<T>)
    ensures a + b + c == a + (b + c)
  {
  }

  lemma EscapeHeadPair(body: string)
    requires |body| >= 2 && body[0] == '\\'
    ensures Escape(body) == ['\\'] + Escaped(body[1]) + Escape(body[2..])
  {
    EscapeHead(body);
    EscapeHead(body[1..]);
    assert body[1..][1..] == body[2..] && Escaped('\\') == ['\\'];
    hide Escape, Escaped;
    Assoc(['\\'], Escaped(body[1]), Escape(body[2..]));
  }

  lemma CloseAfterPair(body: string, after: string)
    requires |body| >= 2 && body[0] == '\\' && Close(Escape(body[2..]) + after) == Some(|Escape(body[2..])|)
    ensures Close(Escape(body) + after) == Some(|Escape(body)|)
  {
    hide Escape, Escaped, Close;
    EscapeHeadPair(body);
    Assoc(['\\'] + Escaped(body[1]), Escape(body[2..]), after);
    SkipEscapedPair(body[1], Escape(body[2..]) + after);
  }

  lemma CloseAfterOne(body: string, after: string)
    requires body != "" && body[0] != '\\' && body[0] != ']'
      && Close(Escape(body[1..]) + after) == Some(|Escape(body[1..])|)
    ensures Close(Escape(body) + after) == Some(|Escape(body)|)
  {
    hide Escape, Escaped, Close;
    EscapeHead(body);
    Assoc(Escaped(body[0]), Escape(body[1..]), after);
    SkipEscaped(body[0], Escape(body[1..]) + after);
  }

  /** An escape pair does not straddle the end of the class. */
  lemma PairBeforeClose(body: string, end: string)
    requires body != "" && body[0] == '\\' && Close(body + end) == Some(|body|)
    ensures |body| >= 2
  {
    var s := body + end;
    assert Close(s).value >= 2;
  }

  /** Escaping leaves the end of the class where it was: after the escaped inside. */
  lemma {:induction false} CloseAfterEscape(body: string, end: string, after: string)
    requires end != "" && end[0] == ']' && after != "" && after[0] == ']' && Close(body + end) == Some(|body|)
    ensures Close(Escape(body) + after) == Some(|Escape(body)|)
  {
    if body == "" {
      assert body + end == end && Escape(body) + after == after;
    } else if body[0] == '\\' {
      hide Escape, Escaped;
      PairBeforeClose(body, end);
      assert (body + end)[2..] == body[2..] + end;
      CloseAfterEscape(body[2..], end, after);
      CloseAfterPair(body, after);
    } else {
      hide Escape, Escaped;
      assert (body + end)[1..] == body[1..] + end;
      CloseAfterEscape(body[1..], end, after);
      CloseAfterOne(body, after);
    }
  }

  // ---- The pieces of a pattern ----

  lemma CopiedFirst(c: char, rest: string)
    requires c != '['
    ensures Convert([c] + rest) == [c] + Convert(rest)
  {
    assert ([c] + rest)[1..] == rest;
  }

  lemma CopiedPair(c: char, rest: string)
    requires c != '['
    ensures Convert(['\\', c] + rest) == ['\\', c] + Convert(rest)
  {
    CopiedFirst(c, rest);
    CopiedFirst('\\', [c] + rest);
    hide Convert;
    assert ['\\', c] + rest == ['\\'] + ([c] + rest);
  }

  lemma EscapingFirst(c: char, rest: string)
    ensures Tokens(['\\', c] + rest) == Before(Escaping(c), Tokens(rest))
  {
    assert (['\\', c] + rest)[2..] == rest;
  }

  lemma PlainFirst(c: char, rest: string)
    requires c != '\\' && c != '['
    ensures Tokens([c] + rest) == Before(Plain(c), Tokens(rest))
  {
    assert ([c] + rest)[1..] == rest;
  }

  lemma TokensAtClass(s: string)
    requires s != "" && s[0] == '[' && Close(s[1..]).Some?
    ensures var e := Close(s[1..]).value; Tokens(s) == Before(Class(s[1..][..e]), Tokens(s[e + 2..]))
  {
    hide Close, Before;
  }

  lemma ConvertAtMatch(s: string, e: nat)
    requires s != "" && s[0] == '[' && MatchEnd(s[1..]) == Some(e)
    ensures Convert(s) == "[" + Escape(s[1..][..e]) + "]" + Convert(s[e + 2..])
  {
    hide MatchEnd, Escape;
  }

  lemma ClassAt(s: string)
    requires s != "" && s[0] == '[' && Close(s[1..]).Some?
    ensures var e := Close(s[1..]).value;
      && Tokens(s) == Before(Class(s[1..][..e]), Tokens(s[e + 2..]))
      && Convert(s) == "[" + Escape(s[1..][..e]) + "]" + Convert(s[e + 2..])
  {
    hide Close, MatchEnd, Escape, Tokens, Convert, Before;
    MatchIsClose(s[1..]);
    TokensAtClass(s);
    ConvertAtMatch(s, Close(s[1..]).value);
  }

  lemma ClassFirst(body: string, rest: string)
    requires Close(body + ("]" + rest)) == Some(|body|)
    ensures Tokens("[" + body + "]" + rest) == Before(Class(body), Tokens(rest))
    ensures Convert("[" + body + "]" + rest) == "[" + Escape(body) + "]" + Convert(rest)
  {
    hide Close, Tokens, Convert, Escape, Before;
    var s := "[" + body + "]" + rest;
    Assoc("[" + body, "]", rest);
    Assoc("[", body, "]" + rest);
    Front("[", body + ("]" + rest));
    Front("[" + body + "]", rest);
    assert s[1..][..|body|] == body;
    ClassAt(s);
  }

  lemma TranslatedBefore(token: Token, tokens: seq<Token>)
    ensures TranslatedAll([token] + tokens) == [Translated(token)] + TranslatedAll(tokens)
  {
  }

  /** How a token is written. */
  function Written(token: Token): string {
    match token
    case Plain(c) => [c]
    case Escaping(c) => ['\\', c]
    case Class(body) => "[" + body + "]"
  }

  lemma ClosedBody(t: string, e: nat)
    requires e < |t| && t[e] == ']'
    ensures t == t[..e] + ("]" + t[e + 1..])
  {
  }

  lemma FirstClass(s: string) returns (body: string, rest: string)
    requires s != "" && s[0] == '[' && Tokens(s).Some?
    ensures s == "[" + body + "]" + rest && Close(body + ("]" + rest)) == Some(|body|)
    ensures Tokens(s) == Before(Class(body), Tokens(rest)) && Tokens(rest).Some?
  {
    var e := Close(s[1..]).value;
    body, rest := s[1..][..e], s[e + 2..];
    assert Tokens(s) == Before(Class(body), Tokens(rest));
    hide Tokens, Close, Before;
    ClosedBody(s[1..], e);
    assert s[1..][e + 1..] == rest;
    assert s == "[" + s[1..];
    Assoc("[", body, "]" + rest);
    Assoc("[" + body, "]", rest);
  }

  lemma FirstToken(s: string) returns (token: Token, rest: string)
    requires s != "" && Tokens(s).Some?
    ensures s == Written(token) + rest && |rest| < |s|
    ensures Tokens(s) == Before(token, Tokens(rest)) && Tokens(rest).Some?
    ensures token.Plain? ==> token.c != '\\' && token.c != '['
    ensures token.Class? ==> Close(token.body + ("]" + rest)) == Some(|token.body|)
  {
    if s[0] == '[' {
      hide Tokens, Close, Before;
      var body;
      body, rest := FirstClass(s);
      token := Class(body);
    } else if s[0] == '\\' {
      token, rest := Escaping(s[1]), s[2..];
    } else {
      token, rest := Plain(s[0]), s[1..];
    }
  }

  function WrittenAll(tokens: seq<Token>): string {
    if tokens == [] then "" else Written(tokens[0]) + WrittenAll(tokens[1..])
  }

  /** Reading a pattern loses nothing. */
  lemma {:induction false} TokensWritten(s: string)
    requires Tokens(s).Some?
    ensures WrittenAll(Tokens(s).value) == s
    decreases |s|
  {
    if s != "" {
      var token, rest := FirstToken(s);
      hide Tokens;
      TokensWritten(rest);
      assert Tokens(s).value[1..] == Tokens(rest).value;
    }
  }

  // ---- What the conversion is meant to do ----

  /** The pattern with every class escaped inside, and nothing else changed. */
  function Proper(s: string): string {
    if s == "" then ""
    else if s[0] == '\\' && |s| >= 2 then s[..2] + Proper(s[2..])
    else if s[0] == '[' && Close(s[1..]).Some? then
      "[" + Escape(s[1..][..Close(s[1..]).value]) + "]" + Proper(s[Close(s[1..]).value + 2..])
    else [s[0]] + Proper(s[1..])
  }

  /** What the conversion makes of a stretch it has matched from an escaped bracket. */
  function Matched(t: string, e: nat, after: string): string
    requires e <= |t|
  {
    Escape(t[..e]) + ("]" + after)
  }

  lemma ProperPair(t: string)
    requires |t| >= 2 && t[0] == '\\'
    ensures Proper(t) == ['\\'] + ([t[1]] + Proper(t[2..]))
  {
    assert t[..2] == ['\\'] + [t[1]];
    Assoc(['\\'], [t[1]], Proper(t[2..]));
  }

  lemma ProperClassUnfolds(t: string)
    requires t != "" && t[0] == '[' && Close(t[1..]).Some?
    ensures var m := Close(t[1..]).value; Proper(t) == "[" + Escape(t[1..][..m]) + "]" + Proper(t[m + 2..])
  {
    hide Close, Escape;
  }

  lemma ProperClass(t: string)
    requires t != "" && t[0] == '[' && Close(t[1..]).Some?
    ensures var m := Close(t[1..]).value; Proper(t) == "[" + Matched(t[1..], m, Proper(t[m + 2..]))
  {
    ProperClassUnfolds(t);
    hide Close, Escape, Proper;
    var m := Close(t[1..]).value;
    Assoc("[" + Escape(t[1..][..m]), "]", Proper(t[m + 2..]));
    Assoc("[", Escape(t[1..][..m]), "]" + Proper(t[m + 2..]));
  }

  lemma ProperPlain(t: string)
    requires t != "" && t[0] != '\\' && t[0] != '['
    ensures Proper(t) == [t[0]] + Proper(t[1..])
  {
  }

  lemma Prefix(a: string, b: string)
    ensures (a + b)[..|a|] == a
  {
  }

  lemma ProperClassFirst(body: string, rest: string)
    requires Close(body + ("]" + rest)) == Some(|body|)
    ensures Proper("[" + body + "]" + rest) == "[" + Escape(body) + "]" + Proper(rest)
  {
    hide Close, Escape, Proper;
    var s := "[" + body + "]" + rest;
    Assoc("[" + body, "]", rest);
    Assoc("[", body, "]" + rest);
    Front("[", body + ("]" + rest));
    Front("[" + body + "]", rest);
    Prefix(body, "]" + rest);
    ProperClassUnfolds(s);
  }

  lemma ProperFirst(token: Token, rest: string)
    requires token.Plain? ==> token.c != '\\' && token.c != '['
    requires token.Class? ==> Close(token.body + ("]" + rest)) == Some(|token.body|)
    ensures Proper(Written(token) + rest) == Written(Translated(token)) + Proper(rest)
  {
    hide Close, Escape, Proper;
    match token {
      case Plain(c) =>
        Front([c], rest);
        ProperPlain([c] + rest);
      case Escaping(c) =>
        Front(['\\', c], rest);
        ProperPair(['\\', c] + rest);
        assert ['\\'] + [c] == ['\\', c];
        Assoc(['\\'], [c], Proper(rest));
      case Class(body) =>
        ProperClassFirst(body, rest);
    }
  }

  lemma TokenFirst(token: Token, rest: string)
    requires token.Plain? ==> token.c != '\\' && token.c != '['
    requires token.Class? ==> Close(token.body + ("]" + rest)) == Some(|token.body|)
    ensures Tokens(Written(token) + rest) == Before(token, Tokens(rest))
  {
    hide Tokens, Close, Before;
    match token {
      case Plain(c) => PlainFirst(c, rest);
      case Escaping(c) => EscapingFirst(c, rest);
      case Class(body) => ClassFirst(body, rest);
    }
  }

  lemma WrittenBefore(token: Token, tokens: seq<Token>)
    ensures WrittenAll([token] + tokens) == Written(token) + WrittenAll(tokens)
  {
    assert ([token] + tokens)[1..] == tokens;
  }

  /** It reads as the same pattern, class for class and token for token. */
  lemma {:induction false} ProperTranslatesClasses(s: string)
    requires Tokens(s).Some?
    ensures Tokens(Proper(s)) == Some(TranslatedAll(Tokens(s).value))
    ensures Proper(s) == WrittenAll(TranslatedAll(Tokens(s).value))
    decreases |s|
  {
    if s == "" {
      assert TranslatedAll([]) == [];
    } else {
      var token, rest := FirstToken(s);
      hide Tokens, Proper, Close, Escape;
      var tokens := Tokens(rest).value;
      assert Tokens(s).value[0] == token && tokens == Tokens(s).value[1..];
      TranslatedBefore(token, tokens);
      ProperTranslatesClasses(rest);
      ProperFirst(token, rest);
      hide TranslatedAll;
      if token.Class? {
        CloseAfterEscape(token.body, "]" + rest, "]" + Proper(rest));
      }
      TokenFirst(Translated(token), Proper(rest));
      WrittenBefore(Translated(token), TranslatedAll(tokens));
    }
  }

  // ---- When it does just that ----

  /** No special character stands before the next unescaped bracket or, if there is none, before the
      last closing one. With no closing bracket ahead there is nothing the conversion could match. */
  predicate CleanAhead(t: string) {
    ']' !in t || t[0] == '[' || t[0] == ']' ||
    if t[0] == '\\' then |t| < 2 || ']' !in t[2..] || (!Special(t[1]) && CleanAhead(t[2..]))
    else !Special(t[0]) && CleanAhead(t[1..])
  }

  /** After every escaped opening bracket outside a class the text is clean. */
  predicate Safe(s: string) {
    s == "" ||
    if s[0] == '\\' && |s| >= 2 then (s[1] == '[' ==> CleanAhead(s[2..])) && Safe(s[2..])
    else if s[0] == '[' && Close(s[1..]).Some? then Safe(s[Close(s[1..]).value + 2..])
    else Safe(s[1..])
  }

  lemma {:induction false} MatchIffClosing(t: string)
    ensures MatchEnd(t).Some? <==> ']' in t
  {
    if t != "" && t[0] != ']' {
      MatchIffClosing(t[1..]);
      assert t == [t[0]] + t[1..];
      if |t| >= 2 {
        MatchIffClosing(t[2..]);
        assert t[1..] == [t[1]] + t[2..];
      }
    }
  }

  lemma RestReads(t: string)
    requires t != "" && Tokens(t).Some?
    ensures t[0] == '\\' ==> |t| >= 2 && Tokens(t[2..]).Some?
    ensures t[0] == '[' ==> Close(t[1..]).Some? && Tokens(t[Close(t[1..]).value + 2..]).Some?
    ensures t[0] != '\\' && t[0] != '[' ==> Tokens(t[1..]).Some?
  {
  }

  lemma PairUnfolds(t: string)
    requires |t| >= 2 && t[0] == '\\'
    ensures MatchEnd(t)
      == FirstOf(if t[1] != '\n' then Moved(MatchEnd(t[2..]), 2) else None, Moved(MatchEnd(t[1..]), 1))
  {
  }

  lemma MatchAfterOne(t: string)
    requires t != "" && t[0] != '\\'
    ensures t[0] != ']' ==> MatchEnd(t) == Moved(MatchEnd(t[1..]), 1)
    ensures t[0] == ']' ==> MatchEnd(t) == Some(0)
  {
  }

  lemma MatchAtPair(t: string)
    requires |t| >= 2 && t[0] == '\\' && MatchEnd(t).Some?
    ensures ']' in t[2..] ==> MatchEnd(t[2..]).Some? && MatchEnd(t).value == MatchEnd(t[2..]).value + 2
    ensures ']' !in t[2..] ==> t[1] == ']' && MatchEnd(t).value == 1
  {
    hide MatchEnd;
    MatchIffClosing(t[1..]);
    MatchIffClosing(t[2..]);
    assert t[1..] == [t[1]] + t[2..] && t[1..][1..] == t[2..];
    PairUnfolds(t);
    if t[1] != '\\' {
      MatchAfterOne(t[1..]);
    }
  }

  /** Where the match after an escaped opening bracket ends, one token further on. */
  lemma MatchMoves(t: string)
    requires Tokens(t).Some? && MatchEnd(t).Some? && t[0] != ']'
    ensures t[0] == '[' ==> Close(t[1..]).Some? && MatchEnd(t).value == Close(t[1..]).value + 1
    ensures t[0] == '\\' ==> |t| >= 2
    ensures t[0] == '\\' && ']' in t[2..] ==> MatchEnd(t[2..]).Some? && MatchEnd(t).value == MatchEnd(t[2..]).value + 2
    ensures t[0] == '\\' && ']' !in t[2..] ==> t[1] == ']' && MatchEnd(t).value == 1
    ensures t[0] != '\\' && t[0] != '[' ==> MatchEnd(t[1..]).Some? && MatchEnd(t).value == MatchEnd(t[1..]).value + 1
  {
    RestReads(t);
    hide Tokens, MatchEnd, Close;
    if t[0] == '\\' {
      MatchAtPair(t);
    } else {
      MatchAfterOne(t);
      if t[0] == '[' {
        MatchIsClose(t[1..]);
      }
    }
  }

  lemma ClosedAtOnce(t: string)
    requires t != "" && t[0] == ']'
    ensures MatchEnd(t) == Some(0)
  {
  }

  lemma SafeUnfolds(t: string)
    requires t != ""
    ensures t[0] == '\\' && |t| >= 2 ==> (Safe(t) <==> (t[1] == '[' ==> CleanAhead(t[2..])) && Safe(t[2..]))
    ensures t[0] == '[' && Close(t[1..]).Some? ==> (Safe(t) <==> Safe(t[Close(t[1..]).value + 2..]))
    ensures t[0] != '\\' && t[0] != '[' ==> (Safe(t) <==> Safe(t[1..]))
  {
    hide Close, CleanAhead;
  }

  lemma {:induction false} AfterMatchReads(t: string)
    requires Tokens(t).Some? && MatchEnd(t).Some?
    ensures Tokens(t[MatchEnd(t).value + 1..]).Some?
    decreases |t|
  {
    hide Tokens, MatchEnd, Close;
    RestReads(t);
    if t[0] != ']' {
      MatchMoves(t);
      SafeUnfolds(t);
      hide Safe;
      var e := MatchEnd(t).value;
      if t[0] == '\\' {
        if ']' in t[2..] {
          AfterMatchReads(t[2..]);
          assert t[2..][e - 2 + 1..] == t[e + 1..];
        }
      } else if t[0] != '[' {
        AfterMatchReads(t[1..]);
        assert t[1..][e - 1 + 1..] == t[e + 1..];
      }
    } else {
      ClosedAtOnce(t);
    }
  }

  lemma CleanUnfolds(t: string)
    requires t != "" && CleanAhead(t) && ']' in t
    ensures t[0] == '\\' && |t| >= 2 && ']' in t[2..] ==> CleanAhead(t[2..])
    ensures t[0] != '\\' && t[0] != '[' && t[0] != ']' ==> CleanAhead(t[1..])
  {
  }

  lemma DropTwice(t: string, k: nat, n: nat)
    requires k <= |t| && n <= |t| - k
    ensures t[k..][n..] == t[k + n..]
  {
  }

  /** Up to the end of a match from clean text, other escaped brackets make no difference. */
  lemma {:induction false} SafeAfterMatch(t: string)
    requires Tokens(t).Some? && MatchEnd(t).Some? && CleanAhead(t)
    ensures Safe(t) <==> Safe(t[MatchEnd(t).value + 1..])
    decreases |t|
  {
    MatchIffClosing(t);
    RestReads(t);
    CleanUnfolds(t);
    SafeUnfolds(t);
    if t[0] != ']' {
      MatchMoves(t);
      var e := MatchEnd(t).value;
      hide Tokens, MatchEnd, Close, Safe, CleanAhead;
      if t[0] == '\\' {
        if ']' in t[2..] {
          SafeAfterMatch(t[2..]);
          DropTwice(t, 2, e - 1);
        }
      } else if t[0] != '[' {
        SafeAfterMatch(t[1..]);
        DropTwice(t, 1, e);
      }
    } else {
      ClosedAtOnce(t);
    }
  }

  lemma MatchedPair(t: string, e: nat, after: string)
    requires 2 <= e <= |t| && t[0] == '\\'
    ensures Matched(t, e, after) == ['\\'] + (Escaped(t[1]) + Matched(t[2..], e - 2, after))
  {
    EscapeHeadPair(t[..e]);
    assert t[..e][2..] == t[2..][..e - 2];
    hide Escape, Escaped;
    Assoc(['\\'] + Escaped(t[1]), Escape(t[2..][..e - 2]), "]" + after);
    Assoc(['\\'], Escaped(t[1]), Matched(t[2..], e - 2, after));
  }

  lemma MatchedOne(t: string, e: nat, after: string)
    requires 1 <= e <= |t|
    ensures Matched(t, e, after) == Escaped(t[0]) + Matched(t[1..], e - 1, after)
  {
    EscapeHead(t[..e]);
    assert t[..e][1..] == t[1..][..e - 1];
    hide Escape, Escaped;
    Assoc(Escaped(t[0]), Escape(t[1..][..e - 1]), "]" + after);
  }

  lemma MatchedNone(t: string, after: string)
    ensures Matched(t, 0, after) == "]" + after
  {
  }

  lemma SameTail(head: string, a: string, b: string)
    ensures head + a == head + b <==> a == b
  {
    Front(head, a);
    Front(head, b);
  }

  lemma SpecialDiffers(c: char, a: string, b: string)
    ensures Special(c) ==> Escaped(c) + a != [c] + b
    ensures !Special(c) ==> (Escaped(c) + a == [c] + b <==> a == b)
  {
    if Special(c) {
      assert (Escaped(c) + a)[0] == '\\' && ([c] + b)[0] == c;
    } else {
      SameTail([c], a, b);
    }
  }

  lemma BracketStays()
    ensures Escaped('[') == "[" && Escaped('\\') == "\\"
  {
  }

  lemma SameAfter(t: string, e: nat, a: string, b: string)
    requires e <= |t|
    ensures Matched(t, e, a) == Matched(t, e, b) <==> a == b
  {
    SameTail(Escape(t[..e]), "]" + a, "]" + b);
    SameTail("]", a, b);
    hide Escape;
  }

  lemma EscapedBracketEnds(t: string, after: string)
    requires |t| >= 2 && t[0] == '\\' && t[1] == ']'
    ensures Matched(t, 1, after) == Proper(t) <==> after == Proper(t[2..])
  {
    hide Proper, Matched;
    ProperPair(t);
    MatchedOne(t, 1, after);
    MatchedNone(t[1..], after);
    BracketStays();
    hide Escaped;
    SameTail("\\", "]" + after, "]" + Proper(t[2..]));
    SameTail("]", after, Proper(t[2..]));
  }

  /** The stretch comes out as meant exactly when the text ahead is clean and what follows does. */
  lemma {:induction false} MatchedAsMeantIff(t: string, after: string)
    requires Tokens(t).Some? && MatchEnd(t).Some?
    ensures Matched(t, MatchEnd(t).value, after) == Proper(t)
      <==> CleanAhead(t) && after == Proper(t[MatchEnd(t).value + 1..])
    decreases |t|
  {
    hide Tokens, MatchEnd, Close, Proper, Matched, Escaped, Special;
    MatchIffClosing(t);
    RestReads(t);
    if t[0] == ']' {
      ClosedAtOnce(t);
      MatchedNone(t, after);
      ProperPlain(t);
      SameTail("]", after, Proper(t[1..]));
    } else {
      MatchMoves(t);
      SafeUnfolds(t);
      hide Safe;
      var e := MatchEnd(t).value;
      if t[0] == '\\' {
        ProperPair(t);
        if ']' in t[2..] {
          MatchedPair(t, e, after);
          MatchedAsMeantIff(t[2..], after);
          assert t[2..][e - 2 + 1..] == t[e + 1..];
          SameTail(['\\'], Escaped(t[1]) + Matched(t[2..], e - 2, after), [t[1]] + Proper(t[2..]));
          SpecialDiffers(t[1], Matched(t[2..], e - 2, after), Proper(t[2..]));
        } else {
          EscapedBracketEnds(t, after);
        }
      } else if t[0] == '[' {
        ProperClass(t);
        MatchedOne(t, e, after);
        BracketStays();
        SameTail("[", Matched(t[1..], e - 1, after), Matched(t[1..], e - 1, Proper(t[e + 1..])));
        SameAfter(t[1..], e - 1, after, Proper(t[e + 1..]));
      } else {
        ProperPlain(t);
        MatchedOne(t, e, after);
        MatchedAsMeantIff(t[1..], after);
        assert t[1..][e - 1 + 1..] == t[e + 1..];
        SpecialDiffers(t[0], Matched(t[1..], e - 1, after), Proper(t[1..]));
      }
    }
  }

  lemma ConvertUnmatched(t: string)
    requires MatchEnd(t).None?
    ensures Convert("[" + t) == "[" + Convert(t)
  {
    hide MatchEnd;
    Front("[", t);
  }

  lemma ConvertMatched(t: string)
    requires MatchEnd(t).Some?
    ensures var e := MatchEnd(t).value; Convert("[" + t) == "[" + Matched(t, e, Convert(t[e + 1..]))
  {
    hide MatchEnd, Escape, Convert;
    var e := MatchEnd(t).value;
    Front("[", t);
    ConvertAtMatch("[" + t, e);
    assert ("[" + t)[e + 2..] == t[e + 1..];
    Assoc("[" + Escape(t[..e]), "]", Convert(t[e + 1..]));
    Assoc("[", Escape(t[..e]), "]" + Convert(t[e + 1..]));
  }

  lemma ConvertClass(s: string)
    requires s != "" && s[0] == '[' && Close(s[1..]).Some?
    ensures var m := Close(s[1..]).value; Convert(s) == "[" + Matched(s[1..], m, Convert(s[m + 2..]))
  {
    ClassAt(s);
    hide Close, Escape, Convert;
    var m := Close(s[1..]).value;
    Assoc("[" + Escape(s[1..][..m]), "]", Convert(s[m + 2..]));
    Assoc("[", Escape(s[1..][..m]), "]" + Convert(s[m + 2..]));
  }

  lemma Apart(s: string)
    requires |s| >= 2
    ensures s == [s[0]] + ([s[1]] + s[2..])
  {
  }

  lemma SafeAtBracket(s: string)
    requires |s| >= 2 && s[0] == '\\' && s[1] == '['
    ensures Safe(s) <==> CleanAhead(s[2..]) && Safe(s[2..])
  {
    hide CleanAhead;
  }

  lemma BracketOpens(s: string)
    requires |s| >= 2 && s[0] == '\\' && s[1] == '['
    ensures Convert(s) == ['\\'] + Convert("[" + s[2..]) && Proper(s) == ['\\'] + ("[" + Proper(s[2..]))
    ensures Safe(s) <==> CleanAhead(s[2..]) && Safe(s[2..])
  {
    hide Convert, Proper, CleanAhead, Safe;
    SafeAtBracket(s);
    ProperPair(s);
    Apart(s);
    CopiedFirst('\\', "[" + s[2..]);
  }

  /** An escaped opening bracket with a match after it: the match, and what follows. */
  lemma AfterMatchedBracket(s: string, t: string, e: nat)
    requires |s| >= 2 && s[0] == '\\' && s[1] == '[' && t == s[2..] && Tokens(t).Some? && MatchEnd(t) == Some(e)
    ensures Convert(s) == Proper(s) <==> CleanAhead(t) && Convert(t[e + 1..]) == Proper(t[e + 1..])
    ensures Safe(s) <==> CleanAhead(t) && Safe(t[e + 1..])
  {
    hide Tokens, MatchEnd, Convert, Proper, Matched, Close, Safe, CleanAhead;
    BracketOpens(s);
    ConvertMatched(t);
    SameTail(['\\'], "[" + Matched(t, e, Convert(t[e + 1..])), "[" + Proper(t));
    SameTail("[", Matched(t, e, Convert(t[e + 1..])), Proper(t));
    MatchedAsMeantIff(t, Convert(t[e + 1..]));
    if CleanAhead(t) {
      SafeAfterMatch(t);
    }
  }

  lemma AfterUnmatchedBracket(s: string, t: string)
    requires |s| >= 2 && s[0] == '\\' && s[1] == '[' && t == s[2..] && MatchEnd(t).None?
    ensures Convert(s) == Proper(s) <==> Convert(t) == Proper(t)
    ensures Safe(s) <==> Safe(t)
  {
    MatchIffClosing(t);
    assert CleanAhead(t);
    hide MatchEnd, Convert, Proper, Safe, CleanAhead;
    BracketOpens(s);
    ConvertUnmatched(t);
    SameTail(['\\'], "[" + Convert(t), "[" + Proper(t));
    SameTail("[", Convert(t), Proper(t));
  }

  lemma AfterPair(s: string)
    requires |s| >= 2 && s[0] == '\\' && s[1] != '['
    ensures Convert(s) == Proper(s) <==> Convert(s[2..]) == Proper(s[2..])
    ensures Safe(s) <==> Safe(s[2..])
  {
    hide Convert, Proper;
    ProperPair(s);
    CopiedPair(s[1], s[2..]);
    assert ['\\', s[1]] + s[2..] == s && ['\\'] + [s[1]] == ['\\', s[1]];
    Assoc(['\\'], [s[1]], Proper(s[2..]));
    SameTail(['\\', s[1]], Convert(s[2..]), Proper(s[2..]));
  }

  lemma AfterPlain(s: string)
    requires s != "" && s[0] != '\\' && s[0] != '['
    ensures Convert(s) == Proper(s) <==> Convert(s[1..]) == Proper(s[1..])
    ensures Safe(s) <==> Safe(s[1..])
  {
    hide Convert, Proper;
    ProperPlain(s);
    CopiedFirst(s[0], s[1..]);
    assert [s[0]] + s[1..] == s;
    SameTail([s[0]], Convert(s[1..]), Proper(s[1..]));
  }

  lemma AfterClass(s: string)
    requires s != "" && s[0] == '[' && Close(s[1..]).Some?
    ensures var rest := s[Close(s[1..]).value + 2..];
      && (Convert(s) == Proper(s) <==> Convert(rest) == Proper(rest))
      && (Safe(s) <==> Safe(rest))
  {
    hide Convert, Proper, Close, Matched;
    var m := Close(s[1..]).value;
    ProperClass(s);
    ConvertClass(s);
    SameTail("[", Matched(s[1..], m, Convert(s[m + 2..])), Matched(s[1..], m, Proper(s[m + 2..])));
    SameAfter(s[1..], m, Convert(s[m + 2..]), Proper(s[m + 2..]));
  }

  /** One token, or one match, further on. */
  lemma OneStepOn(s: string) returns (rest: string, clean: bool)
    requires s != "" && Tokens(s).Some?
    ensures |rest| < |s| && Tokens(rest).Some?
    ensures Convert(s) == Proper(s) <==> clean && Convert(rest) == Proper(rest)
    ensures Safe(s) <==> clean && Safe(rest)
  {
    RestReads(s);
    hide Tokens, MatchEnd, Convert, Proper, Close, Safe, CleanAhead;
    clean := true;
    if s[0] == '\\' && s[1] == '[' {
      var t := s[2..];
      if MatchEnd(t).Some? {
        AfterMatchReads(t);
        AfterMatchedBracket(s, t, MatchEnd(t).value);
        rest, clean := t[MatchEnd(t).value + 1..], CleanAhead(t);
      } else {
        AfterUnmatchedBracket(s, t);
        rest := t;
      }
    } else if s[0] == '\\' {
      AfterPair(s);
      rest := s[2..];
    } else if s[0] == '[' {
      AfterClass(s);
      rest := s[Close(s[1..]).value + 2..];
    } else {
      AfterPlain(s);
      rest := s[1..];
    }
  }

  /** The conversion does what it is meant to do exactly on the patterns where the text after every
      escaped opening bracket outside a class is clean. */
  lemma {:induction false} ConvertIsProperIff(s: string)
    requires Tokens(s).Some?
    ensures Convert(s) == Proper(s) <==> Safe(s)
    decreases |s|
  {
    if s != "" {
      hide Tokens, Convert, Proper, Safe;
      var rest, clean := OneStepOn(s);
      ConvertIsProperIff(rest);
    }
  }

  /** On any pattern that can be read: the result reads as the same pattern, class for class and
      character for character, exactly when the pattern is safe. */
  lemma ConvertTranslatesClasses(s: string)
    requires Tokens(s).Some?
    ensures Tokens(Convert(s)) == Some(TranslatedAll(Tokens(s).value)) <==> Safe(s)
    ensures Convert(s) == WrittenAll(TranslatedAll(Tokens(s).value)) <==> Safe(s)
  {
    hide Tokens, Convert, Proper, Safe, TranslatedAll;
    ProperTranslatesClasses(s);
    ConvertIsProperIff(s);
    if Tokens(Convert(s)) == Some(TranslatedAll(Tokens(s).value)) {
      TokensWritten(Convert(s));
    }
  }

  lemma SafeFirst(token: Token, rest: string)
    requires token != Escaping('[') && (token.Plain? ==> token.c != '\\' && token.c != '[')
    requires token.Class? ==> Close(token.body + ("]" + rest)) == Some(|token.body|)
    ensures Safe(Written(token) + rest) <==> Safe(rest)
  {
    match token {
      case Plain(c) =>
        Front([c], rest);
      case Escaping(c) =>
        Front(['\\', c], rest);
      case Class(body) =>
        hide Close;
        var s := "[" + body + "]" + rest;
        Assoc("[" + body, "]", rest);
        Assoc("[", body, "]" + rest);
        Front("[", body + ("]" + rest));
        Front("[" + body + "]", rest);
    }
  }

  // ---- Read by Python before, by ECMAScript after ----

  /** How far a class runs before a closing bracket can end it: Python takes one that stands first, or
      right after a caret, for a member. */
  function Lead(s: string): nat {
    if |s| >= 1 && s[0] == ']' then 1 else if |s| >= 2 && s[0] == '^' && s[1] == ']' then 2 else 0
  }

  function PythonTokens(s: string): Option<seq<Token>> {
    if s == "" then Some([])
    else if s[0] == '\\' then if |s| < 2 then None else Before(Escaping(s[1]), PythonTokens(s[2..]))
    else if s[0] == '[' then
      var n := Lead(s[1..]);
      var e := Moved(Close(s[1..][n..]), n);
      if e.None? then None else Before(Class(s[1..][..e.value]), PythonTokens(s[e.value + 2..]))
    else Before(Plain(s[0]), PythonTokens(s[1..]))
  }

  /** No class begins with a closing bracket. */
  predicate NoLead(tokens: seq<Token>) {
    forall i :: 0 <= i < |tokens| && tokens[i].Class? ==> Lead(tokens[i].body) == 0
  }

  lemma NoLeadBefore(token: Token, tokens: seq<Token>)
    ensures NoLead([token] + tokens) <==> (token.Class? ==> Lead(token.body) == 0) && NoLead(tokens)
  {
    var all := [token] + tokens;
    assert all[0] == token && forall i :: 0 <= i < |tokens| ==> all[i + 1] == tokens[i];
  }

  lemma ClosedLead(t: string)
    requires Close(t).Some?
    ensures Lead(t[..Close(t).value]) == 0
  {
  }

  lemma {:induction false} TokensHaveNoLead(s: string)
    requires Tokens(s).Some?
    ensures NoLead(Tokens(s).value)
    decreases |s|
  {
    if s != "" {
      var k := if s[0] == '\\' then 2 else if s[0] == '[' then Close(s[1..]).value + 2 else 1;
      TokensHaveNoLead(s[k..]);
      NoLeadBefore(Tokens(s).value[0], Tokens(s[k..]).value);
      if s[0] == '[' {
        ClosedLead(s[1..]);
      }
    }
  }

  lemma LeadInside(t: string, n: nat)
    requires n == Lead(t) && n < |t| && Close(t[n..]).Some?
    ensures Lead(t[..n + Close(t[n..]).value]) == n
  {
  }

  lemma {:induction false} ReadAlike(s: string)
    requires PythonTokens(s).Some? && NoLead(PythonTokens(s).value)
    ensures Tokens(s) == PythonTokens(s)
    decreases |s|
  {
    if s != "" {
      var n := if s[0] == '[' then Lead(s[1..]) else 0;
      var k := if s[0] == '\\' then 2 else if s[0] == '[' then n + Close(s[1..][n..]).value + 2 else 1;
      NoLeadBefore(PythonTokens(s).value[0], PythonTokens(s[k..]).value);
      ReadAlike(s[k..]);
      if s[0] == '[' {
        LeadInside(s[1..], n);
        assert s[1..][0..] == s[1..];
      }
    }
  }

  lemma EscapeKeepsLead(body: string)
    ensures Lead(Escape(body)) == Lead(body)
  {
    if body != "" {
      EscapeHead(body);
      if |body| >= 2 {
        EscapeHead(body[1..]);
      }
    }
  }

  lemma TranslationKeepsLead(tokens: seq<Token>)
    ensures NoLead(TranslatedAll(tokens)) <==> NoLead(tokens)
  {
    forall i | 0 <= i < |tokens| && tokens[i].Class?
      ensures TranslatedAll(tokens)[i] == Class(Escape(tokens[i].body))
        && Lead(Escape(tokens[i].body)) == Lead(tokens[i].body)
    {
      EscapeKeepsLead(tokens[i].body);
    }
  }

  /** For every pattern Python can read: what ECMAScript reads in the result is what Python reads in the
      pattern, class for class, exactly when the pattern is safe and no class begins with a closing
      bracket. */
  lemma ReadTheSameIff(s: string)
    requires PythonTokens(s).Some?
    ensures Tokens(Convert(s)) == Some(TranslatedAll(PythonTokens(s).value)) <==>
      Safe(s) && NoLead(PythonTokens(s).value)
  {
    TranslationKeepsLead(PythonTokens(s).value);
    hide Tokens, PythonTokens, Convert, Safe, TranslatedAll, NoLead;
    if NoLead(PythonTokens(s).value) {
      ReadAlike(s);
      ConvertTranslatesClasses(s);
    } else if Tokens(Convert(s)).Some? {
      TokensHaveNoLead(Convert(s));
    }
  }

  /** In particular when no opening bracket is escaped outside a class. */
  lemma {:induction false} NothingEscapedIsSafe(s: string)
    requires Tokens(s).Some? && Escaping('[') !in Tokens(s).value
    ensures Safe(s)
    decreases |s|
  {
    if s != "" {
      var token, rest := FirstToken(s);
      assert Tokens(s).value[0] == token && Tokens(rest).value == Tokens(s).value[1..];
      NothingEscapedIsSafe(rest);
      SafeFirst(token, rest);
    }
  }

  /** The smallest failure: no class at all, and yet the dot is escaped. */
  lemma EscapedBracketsTakenForClass()
    ensures Tokens("\\[.\\]") == Some([Escaping('['), Plain('.'), Escaping(']')])
    ensures Convert("\\[.\\]") != WrittenAll(TranslatedAll(Tokens("\\[.\\]").value))
  {
    var s, t, u := "\\[.\\]", ".\\]", "\\]";
    assert s == ['\\', '['] + t && t == ['.'] + u && u == ['\\', ']'] + "";
    EscapingFirst(']', "");
    PlainFirst('.', u);
    EscapingFirst('[', t);
    assert Tokens("") == Some([]);
    assert [Escaping('[')] + ([Plain('.')] + ([Escaping(']')] + [])) == [Escaping('['), Plain('.'), Escaping(']')];
    hide Tokens, Convert;
    assert s[2..] == t && t[2] == ']' && !CleanAhead(t);
    assert !Safe(s);
    ConvertTranslatesClasses(s);
  }

  lemma {:induction false} EscapeSameIff(x: string)
    ensures |Escape(x)| >= |x|
    ensures Escape(x) == x <==> forall i :: 0 <= i < |x| ==> !Special(x[i])
  {
    if x != "" {
      EscapeSameIff(x[1..]);
      assert Escape(x) == Escaped(x[0]) + Escape(x[1..]);
      if !Special(x[0]) {
        assert Escape(x)[1..] == Escape(x[1..]);
      }
    }
  }
}
