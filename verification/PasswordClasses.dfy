/** What a character class denotes, what the conversion does to it, and why both forms of the password
    pattern accept the same passwords. */
module PasswordClasses {
  import opened Options
  import opened PasswordPattern

  // A character of a class, and one written after a backslash.
  datatype Atom = Literal(c: char) | Quoted(c: char)

  function Preceded(a: Atom, atoms: Option<seq<Atom>>): Option<seq<Atom>> {
    if atoms.None? then None else Some([a] + atoms.value)
  }

  function Atoms(body: string): Option<seq<Atom>> {
    if body == "" then Some([])
    else if body[0] != '\\' then Preceded(Literal(body[0]), Atoms(body[1..]))
    else if |body| < 2 then None
    else Preceded(Quoted(body[1]), Atoms(body[2..]))
  }

  function TranslatedAtom(a: Atom): seq<Atom> {
    match a
    case Literal(c) => if c == '\'' then [Quoted('\\'), a] else if Special(c) then [Quoted(c)] else [a]
    case Quoted(c) => if c == '\'' then [Quoted('\\'), a] else if Special(c) then [Quoted('\\'), Literal(c)] else [a]
  }

  function TranslatedAtoms(atoms: seq<Atom>): seq<Atom> {
    if atoms == [] then [] else TranslatedAtom(atoms[0]) + TranslatedAtoms(atoms[1..])
  }

  /** A quote, or a special character that was already escaped. */
  predicate AddsBackslash(a: Atom) {
    a.c == '\'' || (a.Quoted? && Special(a.c))
  }

  lemma LiteralFirst(c: char, rest: string)
    requires c != '\\' && Atoms(rest).Some?
    ensures Atoms([c] + rest) == Some([Literal(c)] + Atoms(rest).value)
  {
    assert ([c] + rest)[1..] == rest;
  }

  lemma QuotedFirst(c: char, rest: string)
    requires Atoms(rest).Some?
    ensures Atoms(['\\', c] + rest) == Some([Quoted(c)] + Atoms(rest).value)
  {
    assert (['\\', c] + rest)[2..] == rest;
  }

  lemma BackslashAndLiteral(c: char, rest: string)
    requires c != '\\' && Atoms(rest).Some?
    ensures Atoms(['\\', '\\', c] + rest) == Some([Quoted('\\'), Literal(c)] + Atoms(rest).value)
  {
    hide Atoms;
    LiteralFirst(c, rest);
    QuotedFirst('\\', [c] + rest);
    Assoc(['\\', '\\'], [c], rest);
    Assoc([Quoted('\\')], [Literal(c)], Atoms(rest).value);
    assert ['\\', '\\'] + [c] == ['\\', '\\', c] && [Quoted('\\')] + [Literal(c)] == [Quoted('\\'), Literal(c)];
  }

  lemma EscapedLiteral(c: char, rest: string)
    requires c != '\\' && Atoms(rest).Some?
    ensures Atoms(Escaped(c) + rest) == Some(TranslatedAtom(Literal(c)) + Atoms(rest).value)
  {
    hide Atoms;
    if c == '\'' {
      BackslashAndLiteral(c, rest);
    } else if Special(c) {
      QuotedFirst(c, rest);
      assert Escaped(c) == ['\\', c];
    } else {
      LiteralFirst(c, rest);
    }
  }

  lemma BackslashAndQuoted(c: char, rest: string)
    requires Atoms(rest).Some?
    ensures Atoms(['\\', '\\', '\\', c] + rest) == Some([Quoted('\\'), Quoted(c)] + Atoms(rest).value)
  {
    hide Atoms;
    QuotedFirst(c, rest);
    QuotedFirst('\\', ['\\', c] + rest);
    Assoc(['\\', '\\'], ['\\', c], rest);
    Assoc([Quoted('\\')], [Quoted(c)], Atoms(rest).value);
    assert ['\\', '\\'] + ['\\', c] == ['\\', '\\', '\\', c]
      && [Quoted('\\')] + [Quoted(c)] == [Quoted('\\'), Quoted(c)];
  }

  lemma EscapedQuoted(c: char, rest: string)
    requires Atoms(rest).Some?
    ensures Atoms(['\\'] + Escaped(c) + rest) == Some(TranslatedAtom(Quoted(c)) + Atoms(rest).value)
  {
    hide Atoms;
    if c == '\'' {
      BackslashAndQuoted(c, rest);
      assert ['\\'] + Escaped(c) == ['\\', '\\', '\\', c];
    } else if Special(c) {
      BackslashAndLiteral(c, rest);
      assert ['\\'] + Escaped(c) == ['\\', '\\', c];
    } else {
      QuotedFirst(c, rest);
      assert ['\\'] + Escaped(c) == ['\\', c];
    }
  }

  /** The conversion of the text of a class is a translation of its characters one by one. */
  lemma {:induction false} AtomsOfEscape(body: string)
    requires Atoms(body).Some?
    ensures Atoms(Escape(body)) == Some(TranslatedAtoms(Atoms(body).value))
    decreases |body|
  {
    if body == "" {
    } else if body[0] == '\\' {
      AtomsOfEscape(body[2..]);
      EscapeHeadPair(body);
      assert Atoms(body).value[1..] == Atoms(body[2..]).value;
      hide Atoms, Escape, Escaped;
      EscapedQuoted(body[1], Escape(body[2..]));
    } else {
      AtomsOfEscape(body[1..]);
      EscapeHead(body);
      assert Atoms(body).value[1..] == Atoms(body[1..]).value;
      hide Atoms, Escape, Escaped;
      EscapedLiteral(body[0], Escape(body[1..]));
    }
  }

  // ---- The characters a class denotes ----

  /** How escapes are read: what each matches, and the one character it stands for at the end of a range,
      if it stands for one. */
  datatype Reading = Reading(matches: (char, char) -> bool, single: char -> bool, stands: char -> char)

  /** An escaped special character or backslash is that character. */
  ghost predicate Usual(reading: Reading) {
    && (forall c :: Special(c) || c == '\\' ==> reading.single(c) && reading.stands(c) == c)
    && (forall c, x :: Special(c) || c == '\\' ==> (reading.matches(c, x) <==> x == c))
  }

  predicate AtomMatches(a: Atom, reading: Reading, x: char) {
    if a.Literal? then x == a.c else reading.matches(a.c, x)
  }

  function Endpoint(a: Atom, reading: Reading): char {
    if a.Literal? then a.c else reading.stands(a.c)
  }

  predicate Single(a: Atom, reading: Reading) {
    a.Quoted? ==> reading.single(a.c)
  }

  predicate RangeFirst(atoms: seq<Atom>) {
    |atoms| >= 3 && atoms[1] == Literal('-')
  }

  /** Whether the atoms can be compiled: both engines reject a class with a range that ends in a set of
      characters or runs backwards. */
  predicate InOrder(atoms: seq<Atom>, reading: Reading) {
    atoms == [] ||
    if RangeFirst(atoms) then
      && Single(atoms[0], reading) && Single(atoms[2], reading)
      && Endpoint(atoms[0], reading) <= Endpoint(atoms[2], reading) && InOrder(atoms[3..], reading)
    else InOrder(atoms[1..], reading)
  }

  predicate Matches(atoms: seq<Atom>, reading: Reading, x: char) {
    atoms != [] &&
    if RangeFirst(atoms) then
      Endpoint(atoms[0], reading) <= x <= Endpoint(atoms[2], reading) || Matches(atoms[3..], reading, x)
    else AtomMatches(atoms[0], reading, x) || Matches(atoms[1..], reading, x)
  }

  predicate Negated(atoms: seq<Atom>) {
    atoms != [] && atoms[0] == Literal('^')
  }

  function Content(atoms: seq<Atom>): seq<Atom> {
    if Negated(atoms) then atoms[1..] else atoms
  }

  predicate Compiles(atoms: seq<Atom>, reading: Reading) {
    InOrder(Content(atoms), reading)
  }

  /** What the class with this text matches, if it can be compiled. */
  predicate ClassMatches(atoms: seq<Atom>, reading: Reading, x: char) {
    Negated(atoms) != Matches(Content(atoms), reading, x)
  }

  /** A range whose upper end gains a backslash in front. */
  predicate BreaksRange(atoms: seq<Atom>) {
    atoms != [] &&
    if RangeFirst(atoms) then AddsBackslash(atoms[2]) || BreaksRange(atoms[3..]) else BreaksRange(atoms[1..])
  }

  predicate SomeAdds(atoms: seq<Atom>) {
    exists i :: 0 <= i < |atoms| && AddsBackslash(atoms[i])
  }

  lemma SingleFirst(a: Atom, rest: seq<Atom>, reading: Reading, x: char)
    requires |rest| < 2 || rest[0] != Literal('-')
    ensures Matches([a] + rest, reading, x) <==> AtomMatches(a, reading, x) || Matches(rest, reading, x)
    ensures BreaksRange([a] + rest) <==> BreaksRange(rest)
    ensures InOrder([a] + rest, reading) <==> InOrder(rest, reading)
    ensures TranslatedAtoms([a] + rest) == TranslatedAtom(a) + TranslatedAtoms(rest)
  {
    assert ([a] + rest)[1..] == rest;
  }

  lemma RangeMatches(lo: Atom, hi: Atom, rest: seq<Atom>, reading: Reading, x: char)
    ensures Matches([lo, Literal('-'), hi] + rest, reading, x) <==>
      Endpoint(lo, reading) <= x <= Endpoint(hi, reading) || Matches(rest, reading, x)
    ensures BreaksRange([lo, Literal('-'), hi] + rest) <==> AddsBackslash(hi) || BreaksRange(rest)
    ensures InOrder([lo, Literal('-'), hi] + rest, reading) <==>
      && Single(lo, reading) && Single(hi, reading) && Endpoint(lo, reading) <= Endpoint(hi, reading)
      && InOrder(rest, reading)
  {
    assert ([lo, Literal('-'), hi] + rest)[3..] == rest;
  }

  lemma TranslatedFirst(a: Atom, rest: seq<Atom>)
    ensures TranslatedAtoms([a] + rest) == TranslatedAtom(a) + TranslatedAtoms(rest)
  {
    assert ([a] + rest)[1..] == rest;
  }

  lemma TranslatedAtomMatches(a: Atom, reading: Reading)
    requires Usual(reading)
    ensures var t := TranslatedAtom(a);
      && (AddsBackslash(a) ==> |t| == 2 && t[0] == Quoted('\\'))
      && (!AddsBackslash(a) ==> |t| == 1)
      && Endpoint(t[|t| - 1], reading) == Endpoint(a, reading) && (Single(t[|t| - 1], reading) <==> Single(a, reading))
      && (t[|t| - 1] == Literal('-') <==> a == Literal('-'))
      && forall x :: AtomMatches(t[|t| - 1], reading, x) <==> AtomMatches(a, reading, x)
  {
  }

  lemma TranslatedStart(rest: seq<Atom>)
    requires |rest| < 2 || rest[0] != Literal('-')
    ensures |TranslatedAtoms(rest)| < 2 || TranslatedAtoms(rest)[0] != Literal('-')
  {
    if rest != [] {
      assert TranslatedAtom(rest[0]) != [] && TranslatedAtoms(rest)[0] == TranslatedAtom(rest[0])[0];
      assert |rest| == 1 ==> TranslatedAtoms(rest) == TranslatedAtom(rest[0]);
    }
  }

  /** A backslash put in front is a member of its own. */
  lemma BackslashFirst(tail: seq<Atom>, reading: Reading, x: char)
    requires Usual(reading) && (|tail| < 2 || tail[0] != Literal('-'))
    ensures Matches([Quoted('\\')] + tail, reading, x) <==> x == '\\' || Matches(tail, reading, x)
    ensures InOrder([Quoted('\\')] + tail, reading) <==> InOrder(tail, reading)
  {
    SingleFirst(Quoted('\\'), tail, reading, x);
  }

  lemma RangeText(low: Atom, high: Atom, after: seq<Atom>)
    ensures [low] + ([Literal('-')] + ([high] + after)) == [low, Literal('-'), high] + after
  {
  }

  lemma SomeAddsFirst(front: seq<Atom>, rest: seq<Atom>)
    ensures SomeAdds(front + rest) <==> SomeAdds(front) || SomeAdds(rest)
  {
    var all := front + rest;
    if i :| 0 <= i < |front| && AddsBackslash(front[i]) {
      assert AddsBackslash(all[i]);
    }
    if i :| 0 <= i < |rest| && AddsBackslash(rest[i]) {
      assert AddsBackslash(all[|front| + i]);
    }
  }

  lemma NegationKept(atoms: seq<Atom>)
    ensures Negated(TranslatedAtoms(atoms)) <==> Negated(atoms)
    ensures Content(TranslatedAtoms(atoms)) == TranslatedAtoms(Content(atoms))
  {
    if atoms != [] {
      assert TranslatedAtom(atoms[0]) != [];
      if Negated(atoms) {
        assert atoms == [atoms[0]] + atoms[1..];
        TranslatedFirst(atoms[0], atoms[1..]);
        assert TranslatedAtoms(atoms)[1..] == TranslatedAtoms(atoms[1..]);
      }
    }
  }

  /** The translation read as a class: an added backslash is a member of its own, and a range whose end
      gains one ends at the backslash, its former end beginning anew. `adds` says whether the first
      character is still to be translated. */
  predicate MatchesAfter(atoms: seq<Atom>, adds: bool, reading: Reading, x: char)
    decreases |atoms|
  {
    atoms != [] &&
    ((adds && AddsBackslash(atoms[0]) && x == '\\') ||
     if !RangeFirst(atoms) then AtomMatches(atoms[0], reading, x) || MatchesAfter(atoms[1..], true, reading, x)
     else if AddsBackslash(atoms[2]) then
       Endpoint(atoms[0], reading) <= x <= '\\' || MatchesAfter(atoms[2..], false, reading, x)
     else
       Endpoint(atoms[0], reading) <= x <= Endpoint(atoms[2], reading) || MatchesAfter(atoms[3..], true, reading, x))
  }

  /** Whether the translation can be compiled: a range whose end gains a backslash must not begin beyond
      the backslash, and what its former end begins must be in order too. */
  predicate InOrderAfter(atoms: seq<Atom>, reading: Reading)
    decreases |atoms|
  {
    atoms == [] ||
    if !RangeFirst(atoms) then InOrderAfter(atoms[1..], reading)
    else if AddsBackslash(atoms[2]) then
      Single(atoms[0], reading) && Endpoint(atoms[0], reading) <= '\\' && InOrderAfter(atoms[2..], reading)
    else
      && Single(atoms[0], reading) && Single(atoms[2], reading)
      && Endpoint(atoms[0], reading) <= Endpoint(atoms[2], reading) && InOrderAfter(atoms[3..], reading)
  }

  /** What a character becomes, without a backslash added in front. */
  function Last(a: Atom): Atom {
    TranslatedAtom(a)[|TranslatedAtom(a)| - 1]
  }

  function TranslatedFrom(atoms: seq<Atom>, adds: bool): seq<Atom> {
    if atoms == [] then []
    else if adds then TranslatedAtom(atoms[0]) + TranslatedAtoms(atoms[1..])
    else [Last(atoms[0])] + TranslatedAtoms(atoms[1..])
  }

  lemma LastSplits(a: Atom, reading: Reading)
    requires Usual(reading)
    ensures TranslatedAtom(a) == if AddsBackslash(a) then [Quoted('\\'), Last(a)] else [Last(a)]
    ensures Endpoint(Last(a), reading) == Endpoint(a, reading) && (Last(a) == Literal('-') <==> a == Literal('-'))
    ensures Single(Last(a), reading) <==> Single(a, reading)
    ensures forall x :: AtomMatches(Last(a), reading, x) <==> AtomMatches(a, reading, x)
    ensures AddsBackslash(a) ==> a != Literal('-')
  {
    TranslatedAtomMatches(a, reading);
  }

  /** The added backslash peels off, if nothing after it makes it the start of a range. */
  lemma Peeled(a: Atom, adds: bool, tail: seq<Atom>, reading: Reading, x: char)
    requires Usual(reading)
    ensures Matches((if adds then TranslatedAtom(a) else [Last(a)]) + tail, reading, x) <==>
      (adds && AddsBackslash(a) && x == '\\') || Matches([Last(a)] + tail, reading, x)
    ensures InOrder((if adds then TranslatedAtom(a) else [Last(a)]) + tail, reading) <==>
      InOrder([Last(a)] + tail, reading)
  {
    LastSplits(a, reading);
    hide InOrder, Single, Matches, TranslatedAtom, Last, Usual;
    if adds && AddsBackslash(a) {
      BackslashFirst([Last(a)] + tail, reading, x);
      Assoc([Quoted('\\')], [Last(a)], tail);
      assert [Quoted('\\')] + [Last(a)] == [Quoted('\\'), Last(a)];
    }
  }

  lemma RangeTail(lo: Atom, hi: Atom, rest: seq<Atom>, reading: Reading, x: char)
    requires Usual(reading)
    ensures Matches([Last(lo)] + TranslatedAtoms([Literal('-'), hi] + rest), reading, x) <==>
      if AddsBackslash(hi) then Endpoint(lo, reading) <= x <= '\\'
        || Matches([Last(hi)] + TranslatedAtoms(rest), reading, x)
      else Endpoint(lo, reading) <= x <= Endpoint(hi, reading) || Matches(TranslatedAtoms(rest), reading, x)
    ensures InOrder([Last(lo)] + TranslatedAtoms([Literal('-'), hi] + rest), reading) <==>
      if AddsBackslash(hi) then
        Single(lo, reading) && Endpoint(lo, reading) <= '\\' && InOrder([Last(hi)] + TranslatedAtoms(rest), reading)
      else
        && Single(lo, reading) && Single(hi, reading) && Endpoint(lo, reading) <= Endpoint(hi, reading)
        && InOrder(TranslatedAtoms(rest), reading)
  {
    LastSplits(lo, reading);
    LastSplits(hi, reading);
    assert TranslatedAtom(Literal('-')) == [Literal('-')] && Endpoint(Quoted('\\'), reading) == '\\';
    assert Single(Quoted('\\'), reading);
    hide InOrder, Single, Matches, TranslatedAtoms, TranslatedAtom, Last, Usual, Endpoint;
    TranslatedFirst(hi, rest);
    TranslatedFirst(Literal('-'), [hi] + rest);
    assert [Literal('-'), hi] + rest == [Literal('-')] + ([hi] + rest);
    var after := TranslatedAtoms(rest);
    if AddsBackslash(hi) {
      RangeMatches(Last(lo), Quoted('\\'), [Last(hi)] + after, reading, x);
      RangeText(Last(lo), Quoted('\\'), [Last(hi)] + after);
      Assoc([Quoted('\\')], [Last(hi)], after);
      assert [Quoted('\\')] + [Last(hi)] == [Quoted('\\'), Last(hi)];
    } else {
      RangeMatches(Last(lo), Last(hi), after, reading, x);
      RangeText(Last(lo), Last(hi), after);
    }
  }

  lemma FromTranslated(atoms: seq<Atom>)
    ensures TranslatedFrom(atoms, true) == TranslatedAtoms(atoms)
  {
  }

  lemma {:induction false} TranslatedMatchesAfter(atoms: seq<Atom>, adds: bool, reading: Reading, x: char)
    requires Usual(reading)
    ensures Matches(TranslatedFrom(atoms, adds), reading, x) <==> MatchesAfter(atoms, adds, reading, x)
    ensures InOrder(TranslatedFrom(atoms, adds), reading) <==> InOrderAfter(atoms, reading)
    decreases |atoms|
  {
    if atoms != [] {
      var a, rest := atoms[0], atoms[1..];
      Peeled(a, adds, TranslatedAtoms(rest), reading, x);
      if RangeFirst(atoms) {
        var hi := atoms[2];
        assert rest == [Literal('-'), hi] + atoms[3..];
        RangeTail(a, hi, atoms[3..], reading, x);
        assert atoms[2..][0] == hi && atoms[2..][1..] == atoms[3..];
        FromTranslated(atoms[3..]);
        hide InOrder, Single, Matches, TranslatedAtoms, TranslatedAtom, Last, Usual;
        if AddsBackslash(hi) {
          TranslatedMatchesAfter(atoms[2..], false, reading, x);
        } else {
          TranslatedMatchesAfter(atoms[3..], true, reading, x);
        }
      } else {
        LastSplits(a, reading);
        TranslatedStart(rest);
        FromTranslated(rest);
        hide InOrder, Single, Matches, TranslatedAtoms, TranslatedAtom, Last, Usual;
        SingleFirst(Last(a), TranslatedAtoms(rest), reading, x);
        TranslatedMatchesAfter(rest, true, reading, x);
      }
    }
  }

  /** Whether the converted text of a class can be compiled, and what it then matches. */
  lemma ConvertedClassMatches(body: string, reading: Reading, x: char)
    requires Atoms(body).Some? && Usual(reading)
    ensures Atoms(Escape(body)).Some?
    ensures var atoms, after := Atoms(body).value, Atoms(Escape(body)).value;
      && (Compiles(after, reading) <==> InOrderAfter(Content(atoms), reading))
      && (ClassMatches(after, reading, x) <==> Negated(atoms) != MatchesAfter(Content(atoms), true, reading, x))
  {
    var atoms := Atoms(body).value;
    AtomsOfEscape(body);
    NegationKept(atoms);
    FromTranslated(Content(atoms));
    TranslatedMatchesAfter(Content(atoms), true, reading, x);
  }

  // ---- When the converted class is the same class ----

  /** The converted class can be compiled and denotes the same characters. */
  ghost predicate SameClass(body: string, reading: Reading)
    requires Atoms(body).Some?
  {
    && Atoms(Escape(body)).Some? && Compiles(Atoms(Escape(body)).value, reading)
    && forall x :: ClassMatches(Atoms(Escape(body)).value, reading, x) <==> ClassMatches(Atoms(body).value, reading, x)
  }

  ghost predicate SameContent(atoms: seq<Atom>, reading: Reading) {
    InOrderAfter(atoms, reading) && forall x :: MatchesAfter(atoms, true, reading, x) <==> Matches(atoms, reading, x)
  }

  lemma SameClassByContent(body: string, reading: Reading)
    requires Atoms(body).Some? && Usual(reading)
    ensures SameClass(body, reading) <==> SameContent(Content(Atoms(body).value), reading)
  {
    var atoms := Atoms(body).value;
    ConvertedClassMatches(body, reading, 'x');
    forall x ensures (ClassMatches(Atoms(Escape(body)).value, reading, x) <==> ClassMatches(atoms, reading, x)) <==>
      (MatchesAfter(Content(atoms), true, reading, x) <==> Matches(Content(atoms), reading, x))
    {
      ConvertedClassMatches(body, reading, x);
    }
    hide Atoms, Compiles, InOrderAfter, MatchesAfter, Matches, ClassMatches, Usual, Escape;
  }

  /** The ranges whose upper end gains a backslash, by their two ends. */
  function BrokenRanges(atoms: seq<Atom>, reading: Reading): set<(char, char)> {
    if atoms == [] then {}
    else if RangeFirst(atoms) then
      (if AddsBackslash(atoms[2]) then {(Endpoint(atoms[0], reading), atoms[2].c)} else {})
      + BrokenRanges(atoms[3..], reading)
    else BrokenRanges(atoms[1..], reading)
  }

  /** No dash directly behind such a range is a member of its own. */
  predicate NoLooseDash(atoms: seq<Atom>) {
    atoms == [] ||
    if RangeFirst(atoms) then !(AddsBackslash(atoms[2]) && RangeFirst(atoms[2..])) && NoLooseDash(atoms[3..])
    else NoLooseDash(atoms[1..])
  }

  /** What matches otherwise than inside such a range: its upper end stays a member. */
  predicate MatchesElsewhere(atoms: seq<Atom>, reading: Reading, x: char) {
    atoms != [] &&
    if !RangeFirst(atoms) then AtomMatches(atoms[0], reading, x) || MatchesElsewhere(atoms[1..], reading, x)
    else if AddsBackslash(atoms[2]) then x == atoms[2].c || MatchesElsewhere(atoms[3..], reading, x)
    else
      || Endpoint(atoms[0], reading) <= x <= Endpoint(atoms[2], reading)
      || MatchesElsewhere(atoms[3..], reading, x)
  }

  ghost predicate InRange(ranges: set<(char, char)>, x: char) {
    exists r :: r in ranges && r.0 <= x <= r.1
  }

  ghost predicate UpToBackslash(ranges: set<(char, char)>, x: char) {
    exists r :: r in ranges && r.0 <= x <= '\\'
  }

  lemma OneMoreRange(r: (char, char), ranges: set<(char, char)>, x: char)
    ensures InRange({r} + ranges, x) <==> r.0 <= x <= r.1 || InRange(ranges, x)
    ensures UpToBackslash({r} + ranges, x) <==> r.0 <= x <= '\\' || UpToBackslash(ranges, x)
    ensures (forall q :: q in {r} + ranges ==> q.0 <= '\\') <==>
      r.0 <= '\\' && forall q :: q in ranges ==> q.0 <= '\\'
  {
    assert r in {r} + ranges;
  }

  lemma BrokenRangeFirst(lo: Atom, hi: Atom, rest: seq<Atom>, reading: Reading, x: char)
    requires Usual(reading) && AddsBackslash(hi)
    ensures var atoms := [lo, Literal('-'), hi] + rest;
      && BrokenRanges(atoms, reading) == {(Endpoint(lo, reading), hi.c)} + BrokenRanges(rest, reading)
      && (NoLooseDash(atoms) ==> NoLooseDash(rest))
      && (NoLooseDash(atoms) && InOrder(atoms, reading) ==>
           (InOrderAfter(atoms, reading) <==> Endpoint(lo, reading) <= '\\' && InOrderAfter(rest, reading)))
      && (MatchesElsewhere(atoms, reading, x) <==> x == hi.c || MatchesElsewhere(rest, reading, x))
      && (NoLooseDash(atoms) ==>
           (MatchesAfter(atoms, true, reading, x) <==>
             || (AddsBackslash(lo) && x == '\\') || Endpoint(lo, reading) <= x <= '\\' || x == hi.c
             || MatchesAfter(rest, true, reading, x)))
  {
    var atoms := [lo, Literal('-'), hi] + rest;
    assert atoms[3..] == rest && atoms[2..] == [hi] + rest && ([hi] + rest)[1..] == rest;
    assert AtomMatches(hi, reading, x) <==> x == hi.c;
    if !RangeFirst([hi] + rest) {
      assert MatchesAfter([hi] + rest, false, reading, x) <==> x == hi.c || MatchesAfter(rest, true, reading, x);
    }
  }

  lemma SomeAddsOfRange(lo: Atom, hi: Atom)
    ensures SomeAdds([lo, Literal('-'), hi]) <==> AddsBackslash(lo) || AddsBackslash(hi)
  {
    var front := [lo, Literal('-'), hi];
    assert front[0] == lo && front[1] == Literal('-') && front[2] == hi;
  }

  /** Both classes, but for the ranges concerned. */
  lemma {:induction false} Decomposed(atoms: seq<Atom>, reading: Reading, x: char)
    requires Usual(reading) && InOrder(atoms, reading) && NoLooseDash(atoms)
    ensures var broken := BrokenRanges(atoms, reading);
      && (InOrderAfter(atoms, reading) <==> forall r :: r in broken ==> r.0 <= '\\')
      && (Matches(atoms, reading, x) <==> MatchesElsewhere(atoms, reading, x) || InRange(broken, x))
      && (InOrderAfter(atoms, reading) ==>
           (MatchesAfter(atoms, true, reading, x) <==>
             || MatchesElsewhere(atoms, reading, x) || UpToBackslash(broken, x)
             || (x == '\\' && SomeAdds(atoms))))
  {
    if RangeFirst(atoms) {
      var lo, hi, rest := atoms[0], atoms[2], atoms[3..];
      assert atoms == [lo, Literal('-'), hi] + rest;
      RangeMatches(lo, hi, rest, reading, x);
      SomeAddsFirst([lo, Literal('-'), hi], rest);
      SomeAddsOfRange(lo, hi);
      if AddsBackslash(hi) {
        assert Endpoint(hi, reading) == hi.c;
        BrokenRangeFirst(lo, hi, rest, reading, x);
        hide InOrder, InOrderAfter, Matches, MatchesAfter, MatchesElsewhere, BrokenRanges, NoLooseDash, SomeAdds, Usual,
          InRange, UpToBackslash, Endpoint;
        Decomposed(rest, reading, x);
        OneMoreRange((Endpoint(lo, reading), hi.c), BrokenRanges(rest, reading), x);
      } else {
        Decomposed(rest, reading, x);
        hide SomeAdds, Usual, InRange, UpToBackslash;
      }
    } else if atoms != [] {
      var a, rest := atoms[0], atoms[1..];
      assert atoms == [a] + rest;
      SomeAddsFirst([a], rest);
      assert SomeAdds([a]) <==> AddsBackslash(a) by {
        assert [a][0] == a;
      }
      Decomposed(rest, reading, x);
      hide SomeAdds, Usual, InRange, UpToBackslash;
    }
  }

  // A class as the ranges and single members it is the union of.
  datatype Piece = Span(lo: char, hi: char) | Member(a: Atom)

  predicate InPiece(p: Piece, reading: Reading, x: char) {
    if p.Span? then p.lo <= x <= p.hi else AtomMatches(p.a, reading, x)
  }

  function Pieces(atoms: seq<Atom>, reading: Reading): set<Piece> {
    if atoms == [] then {}
    else if RangeFirst(atoms)
      then {Span(Endpoint(atoms[0], reading), Endpoint(atoms[2], reading))} + Pieces(atoms[3..], reading)
    else {Member(atoms[0])} + Pieces(atoms[1..], reading)
  }

  function PiecesAfter(atoms: seq<Atom>, adds: bool, reading: Reading): set<Piece>
    decreases |atoms|
  {
    if atoms == [] then {}
    else
      (if adds && AddsBackslash(atoms[0]) then {Member(Quoted('\\'))} else {})
      + if !RangeFirst(atoms) then {Member(atoms[0])} + PiecesAfter(atoms[1..], true, reading)
        else if AddsBackslash(atoms[2]) then
          {Span(Endpoint(atoms[0], reading), '\\')} + PiecesAfter(atoms[2..], false, reading)
        else
          {Span(Endpoint(atoms[0], reading), Endpoint(atoms[2], reading))} + PiecesAfter(atoms[3..], true, reading)
  }

  ghost predicate InSome(pieces: set<Piece>, reading: Reading, x: char) {
    exists p :: p in pieces && InPiece(p, reading, x)
  }

  lemma InOneOrRest(p: Piece, rest: set<Piece>, reading: Reading, x: char)
    ensures InSome({p} + rest, reading, x) <==> InPiece(p, reading, x) || InSome(rest, reading, x)
  {
    assert p in {p} + rest;
  }

  lemma {:induction false} PiecesMatch(atoms: seq<Atom>, reading: Reading, x: char)
    ensures Matches(atoms, reading, x) <==> InSome(Pieces(atoms, reading), reading, x)
  {
    if atoms != [] {
      hide InSome;
      if RangeFirst(atoms) {
        PiecesMatch(atoms[3..], reading, x);
        InOneOrRest(Span(Endpoint(atoms[0], reading), Endpoint(atoms[2], reading)), Pieces(atoms[3..], reading),
          reading, x);
      } else {
        PiecesMatch(atoms[1..], reading, x);
        InOneOrRest(Member(atoms[0]), Pieces(atoms[1..], reading), reading, x);
      }
    }
  }

  lemma {:induction false} PiecesAfterMatch(atoms: seq<Atom>, adds: bool, reading: Reading, x: char)
    requires Usual(reading)
    ensures MatchesAfter(atoms, adds, reading, x) <==> InSome(PiecesAfter(atoms, adds, reading), reading, x)
    decreases |atoms|
  {
    if atoms != [] {
      var (p, more) :=
        if !RangeFirst(atoms) then (Member(atoms[0]), PiecesAfter(atoms[1..], true, reading))
        else if AddsBackslash(atoms[2])
          then (Span(Endpoint(atoms[0], reading), '\\'), PiecesAfter(atoms[2..], false, reading))
        else (Span(Endpoint(atoms[0], reading), Endpoint(atoms[2], reading)), PiecesAfter(atoms[3..], true, reading));
      assert AtomMatches(Quoted('\\'), reading, x) <==> x == '\\';
      hide InSome, Usual;
      InOneOrRest(p, more, reading, x);
      InOneOrRest(Member(Quoted('\\')), {p} + more, reading, x);
      assert {} + ({p} + more) == {p} + more;
      if !RangeFirst(atoms) {
        PiecesAfterMatch(atoms[1..], true, reading, x);
      } else if AddsBackslash(atoms[2]) {
        PiecesAfterMatch(atoms[2..], false, reading, x);
      } else {
        PiecesAfterMatch(atoms[3..], true, reading, x);
      }
    }
  }

  lemma SameUnionIff(before: set<Piece>, after: set<Piece>, reading: Reading)
    ensures (forall x :: InSome(after, reading, x) <==> InSome(before, reading, x)) <==>
      && (forall p, x :: p in after - before && InPiece(p, reading, x) ==> InSome(before, reading, x))
      && (forall p, x :: p in before - after && InPiece(p, reading, x) ==> InSome(after, reading, x))
  {
  }

  /** For every class that can be compiled, with or without loose dashes: the converted one can be
      compiled and is the same exactly when its ranges are in order, every piece that is new lies within
      the class, and every one that is lost within the new one. */
  lemma SameByPiecesIff(body: string, reading: Reading)
    requires Atoms(body).Some? && Usual(reading) && Compiles(Atoms(body).value, reading)
    ensures var content := Content(Atoms(body).value);
      var before, after := Pieces(content, reading), PiecesAfter(content, true, reading);
      SameClass(body, reading) <==>
      && InOrderAfter(content, reading)
      && (forall p, x :: p in after - before && InPiece(p, reading, x) ==> InSome(before, reading, x))
      && (forall p, x :: p in before - after && InPiece(p, reading, x) ==> InSome(after, reading, x))
  {
    SameClassByContent(body, reading);
    var content := Content(Atoms(body).value);
    var before, after := Pieces(content, reading), PiecesAfter(content, true, reading);
    hide SameClass, Content, Pieces, PiecesAfter, Atoms, Usual, InPiece;
    forall x ensures (MatchesAfter(content, true, reading, x) <==> Matches(content, reading, x)) <==>
      (InSome(after, reading, x) <==> InSome(before, reading, x))
    {
      PiecesMatch(content, reading, x);
      PiecesAfterMatch(content, true, reading, x);
    }
    SameUnionIff(before, after, reading);
  }

  /** What the conversion must not change, read off the ends of the ranges: those that end in a quote or
      an already escaped special character begin no later than the backslash; the backslash, if one is
      added, and what lies between the upper end of such a range and the backslash, is in the class
      already; and what lies between the backslash and the upper end is in it by other members too. */
  ghost predicate EndsAllow(atoms: seq<Atom>, reading: Reading) {
    var broken := BrokenRanges(atoms, reading);
    && (forall r :: r in broken ==> r.0 <= '\\')
    && (SomeAdds(atoms) ==> Matches(atoms, reading, '\\'))
    && (forall r, x :: r in broken && r.1 < x <= '\\' ==> Matches(atoms, reading, x))
    && (forall r, x :: r in broken && '\\' < x < r.1 ==> MatchesElsewhere(atoms, reading, x))
  }

  lemma {:induction false} BrokenInOrder(atoms: seq<Atom>, reading: Reading)
    requires Usual(reading) && InOrder(atoms, reading)
    ensures forall r :: r in BrokenRanges(atoms, reading) ==> r.0 <= r.1 && MatchesElsewhere(atoms, reading, r.1)
  {
    if atoms != [] {
      assert RangeFirst(atoms) && AddsBackslash(atoms[2]) ==> Endpoint(atoms[2], reading) == atoms[2].c;
      BrokenInOrder(if RangeFirst(atoms) then atoms[3..] else atoms[1..], reading);
    }
  }

  lemma SameContentIff(atoms: seq<Atom>, reading: Reading)
    requires Usual(reading) && InOrder(atoms, reading) && NoLooseDash(atoms)
    ensures SameContent(atoms, reading) <==> EndsAllow(atoms, reading)
  {
    Decomposed(atoms, reading, '\\');
    BrokenInOrder(atoms, reading);
    var broken := BrokenRanges(atoms, reading);
    hide InOrder, InOrderAfter, Matches, MatchesAfter, MatchesElsewhere, BrokenRanges, NoLooseDash, SomeAdds, Usual;
    if SameContent(atoms, reading) {
      forall r, x | r in broken && r.1 < x <= '\\' ensures Matches(atoms, reading, x) {
        Decomposed(atoms, reading, x);
      }
      forall r, x | r in broken && '\\' < x < r.1 ensures MatchesElsewhere(atoms, reading, x) {
        Decomposed(atoms, reading, x);
      }
    }
    if EndsAllow(atoms, reading) {
      forall x ensures MatchesAfter(atoms, true, reading, x) <==> Matches(atoms, reading, x) {
        Decomposed(atoms, reading, x);
      }
    }
  }

  /** For a class without such loose dashes: the converted class can be compiled and is the same exactly
      when the ends of its ranges allow it. */
  lemma SameClassIff(body: string, reading: Reading)
    requires Atoms(body).Some? && Usual(reading) && Compiles(Atoms(body).value, reading)
    requires NoLooseDash(Content(Atoms(body).value))
    ensures SameClass(body, reading) <==> EndsAllow(Content(Atoms(body).value), reading)
  {
    SameClassByContent(body, reading);
    SameContentIff(Content(Atoms(body).value), reading);
  }

  /** Whether it can be compiled at all. */
  lemma ConvertedCompilesIff(body: string, reading: Reading)
    requires Atoms(body).Some? && Usual(reading) && Compiles(Atoms(body).value, reading)
    requires NoLooseDash(Content(Atoms(body).value))
    ensures Atoms(Escape(body)).Some?
    ensures Compiles(Atoms(Escape(body)).value, reading) <==>
      forall r :: r in BrokenRanges(Content(Atoms(body).value), reading) ==> r.0 <= '\\'
  {
    ConvertedClassMatches(body, reading, 'x');
    Decomposed(Content(Atoms(body).value), reading, 'x');
  }

  lemma {:induction false} NothingBroken(atoms: seq<Atom>, reading: Reading)
    requires !BreaksRange(atoms)
    ensures BrokenRanges(atoms, reading) == {} && NoLooseDash(atoms)
  {
    if atoms != [] {
      NothingBroken(if RangeFirst(atoms) then atoms[3..] else atoms[1..], reading);
    }
  }

  /** With no range ending in a quote or an already escaped special character, only backslashes can be
      new: the class is the same exactly when none is, or it holds one already. */
  lemma UnbrokenSameIff(body: string, reading: Reading)
    requires Atoms(body).Some? && Usual(reading) && Compiles(Atoms(body).value, reading)
    requires !BreaksRange(Content(Atoms(body).value))
    ensures var content := Content(Atoms(body).value);
      SameClass(body, reading) <==> !SomeAdds(content) || Matches(content, reading, '\\')
  {
    NothingBroken(Content(Atoms(body).value), reading);
    SameClassIff(body, reading);
  }

  lemma LoneRange(lo: Atom, hi: Atom, reading: Reading, x: char)
    requires Usual(reading) && AddsBackslash(hi)
    ensures var atoms := [lo, Literal('-'), hi];
      && BrokenRanges(atoms, reading) == {(Endpoint(lo, reading), hi.c)} && NoLooseDash(atoms) && SomeAdds(atoms)
      && (MatchesElsewhere(atoms, reading, x) <==> x == hi.c)
      && (Matches(atoms, reading, x) <==> Endpoint(lo, reading) <= x <= hi.c)
      && (InOrder(atoms, reading) <==> Single(lo, reading) && Endpoint(lo, reading) <= hi.c)
  {
    var atoms := [lo, Literal('-'), hi];
    assert atoms[3..] == [] && atoms[2..] == [hi] && Endpoint(hi, reading) == hi.c;
    assert {(Endpoint(lo, reading), hi.c)} + {} == {(Endpoint(lo, reading), hi.c)};
    assert AddsBackslash(atoms[2]);
  }

  /** A range that ends in such a character and stands alone never keeps its meaning: it ends before the
      backslash and gains it, or begins before it and loses what follows, or can no longer be compiled. */
  lemma BrokenRangeNeverSame(lo: Atom, hi: Atom, reading: Reading)
    requires Usual(reading) && AddsBackslash(hi) && InOrder([lo, Literal('-'), hi], reading)
    ensures !SameContent([lo, Literal('-'), hi], reading)
    ensures InOrderAfter([lo, Literal('-'), hi], reading) <==> Endpoint(lo, reading) <= '\\'
  {
    var atoms := [lo, Literal('-'), hi];
    LoneRange(lo, hi, reading, '\\');
    LoneRange(lo, hi, reading, ']');
    Decomposed(atoms, reading, '\\');
    SameContentIff(atoms, reading);
    var r := (Endpoint(lo, reading), hi.c);
    assert r in BrokenRanges(atoms, reading) && hi.c != '\\' && hi.c != ']';
    hide InOrder, Matches, MatchesAfter, MatchesElsewhere, BrokenRanges, NoLooseDash, SomeAdds, Usual, SameContent;
  }

  function Literals(s: string): seq<Atom> {
    seq(|s|, i requires 0 <= i < |s| => Literal(s[i]))
  }

  lemma {:induction false} LiteralsFirst(s: string, rest: string)
    requires '\\' !in s && Atoms(rest).Some?
    ensures Atoms(s + rest) == Some(Literals(s) + Atoms(rest).value)
  {
    if s == "" {
      assert s + rest == rest && Literals(s) + Atoms(rest).value == Atoms(rest).value;
    } else {
      LiteralsFirst(s[1..], rest);
      LiteralFirst(s[0], s[1..] + rest);
      hide Atoms;
      assert s + rest == [s[0]] + (s[1..] + rest);
      assert Literals(s) == [Literal(s[0])] + Literals(s[1..]);
      Assoc([Literal(s[0])], Literals(s[1..]), Atoms(rest).value);
    }
  }

  lemma LiteralsOf(s: string)
    requires '\\' !in s
    ensures Atoms(s) == Some(Literals(s))
  {
    LiteralsFirst(s, "");
    assert s + "" == s && Literals(s) + [] == Literals(s);
  }

  /** A range that ends in a quote does gain characters: the digit is in the second class only. */
  lemma RangeEndingInQuote(reading: Reading)
    requires Usual(reading)
    ensures Atoms(" -'").Some? && Compiles(Atoms(" -'").value, reading)
    ensures Atoms(Escape(" -'")).Some? && Compiles(Atoms(Escape(" -'")).value, reading)
    ensures !ClassMatches(Atoms(" -'").value, reading, '0') && ClassMatches(Atoms(Escape(" -'")).value, reading, '0')
  {
    var space, quote := Literal(' '), Literal('\'');
    LiteralsOf(" -'");
    var atoms := [space, Literal('-'), quote];
    assert Literals(" -'") == atoms;
    LoneRange(space, quote, reading, '0');
    Decomposed(atoms, reading, '0');
    assert (' ', '\'') in BrokenRanges(atoms, reading);
    hide Atoms, InOrder, InOrderAfter, Matches, MatchesAfter, BrokenRanges;
    ConvertedClassMatches(" -'", reading, '0');
  }

  /** A range that begins beyond the backslash cannot be compiled any more: from a brace to itself, the
      second one escaped. */
  lemma RunsBackwardsAfterwards(reading: Reading)
    requires Usual(reading)
    ensures Atoms("{-\\{") == Some([Literal('{'), Literal('-'), Quoted('{')])
    ensures Compiles(Atoms("{-\\{").value, reading)
    ensures Atoms(Escape("{-\\{")).Some? && !Compiles(Atoms(Escape("{-\\{")).value, reading)
  {
    QuotedFirst('{', "");
    LiteralFirst('-', ['\\', '{'] + "");
    LiteralFirst('{', ['-'] + (['\\', '{'] + ""));
    assert ['{'] + (['-'] + (['\\', '{'] + "")) == "{-\\{";
    assert [Literal('{')] + ([Literal('-')] + ([Quoted('{')] + [])) == [Literal('{'), Literal('-'), Quoted('{')];
    LoneRange(Literal('{'), Quoted('{'), reading, '{');
    BrokenRangeNeverSame(Literal('{'), Quoted('{'), reading);
    hide Atoms, InOrder, InOrderAfter;
    ConvertedClassMatches("{-\\{", reading, '{');
  }

  // ---- The password pattern ----

  const SPECIALS := "\\[\\]\\\\@$!%*?&{}<>.,'#\\-_=+\\(\\):;|~/\\^"

  const DIGIT := "(?=.*\\d)"
  const LOWERCASE := "(?=.*[a-z])"
  const UPPERCASE := "(?=.*[A-Z])"
  const SPECIAL := "(?=.*[" + SPECIALS + "])"
  const LONG := ".{8,}"
  const PASSWORD_PATTERN_COMPONENTS := [DIGIT, LOWERCASE, UPPERCASE, SPECIAL, LONG]

  datatype Component = Lookahead(what: Token) | AtLeast(least: nat)

  /** A component read: a lookahead for one character somewhere, or eight characters. */
  function ParseComponent(s: string): Option<Component> {
    if s == ".{8,}" then Some(AtLeast(8))
    else if |s| >= 6 && s[..5] == "(?=.*" && s[|s| - 1] == ')' then
      var tokens := Tokens(s[5..|s| - 1]);
      if tokens.Some? && |tokens.value| == 1 then Some(Lookahead(tokens.value[0])) else None
    else None
  }

  // `re.match` on Python, whose `\d` takes further digits; the whole value in a browser.
  datatype Engine = Python(otherDigits: set<char>) | Browser

  predicate Digit(engine: Engine, x: char) {
    '0' <= x <= '9' || (engine.Python? && x in engine.otherDigits)
  }

  function ReadingOf(engine: Engine): Reading {
    Reading((c, x) => if c == 'd' then Digit(engine, x) else x == c, c => c != 'd', c => c)
  }

  /** What a dot matches. */
  predicate Dot(engine: Engine, x: char) {
    x != '\n' && (engine.Browser? ==> x != '\r' && x != '\U{2028}' && x != '\U{2029}')
  }

  predicate TokenMatches(engine: Engine, token: Token, x: char) {
    match token
    case Plain(c) => x == c
    case Escaping(c) => ReadingOf(engine).matches(c, x)
    case Class(body) => Atoms(body).Some? && ClassMatches(Atoms(body).value, ReadingOf(engine), x)
  }

  predicate Dots(engine: Engine, s: string) {
    forall i :: 0 <= i < |s| ==> Dot(engine, s[i])
  }

  predicate Found(engine: Engine, what: Token, password: string) {
    exists i :: 0 <= i < |password| && Dots(engine, password[..i]) && TokenMatches(engine, what, password[i])
  }

  predicate Holds(engine: Engine, component: Component, password: string) {
    match component
    case Lookahead(what) => Found(engine, what, password)
    case AtLeast(least) =>
      if engine.Browser? then |password| >= least && Dots(engine, password)
      else exists n :: least <= n <= |password| && Dots(engine, password[..n])
  }

  predicate Fits(engine: Engine, component: string, password: string) {
    ParseComponent(component).Some? && Holds(engine, ParseComponent(component).value, password)
  }

  predicate Accepts(engine: Engine, components: seq<string>, password: string) {
    forall k :: 0 <= k < |components| ==> Fits(engine, components[k], password)
  }

  function ConvertAll(components: seq<string>): seq<string> {
    seq(|components|, k requires 0 <= k < |components| => Convert(components[k]))
  }

  // ---- Reading the components ----

  lemma {:induction false} CopiedText(p: string, rest: string)
    requires '[' !in p
    ensures Convert(p + rest) == p + Convert(rest)
  {
    hide Convert;
    if p == "" {
      assert p + rest == rest && p + Convert(rest) == Convert(rest);
    } else {
      CopiedText(p[1..], rest);
      CopiedFirst(p[0], p[1..] + rest);
      assert [p[0]] + p[1..] == p;
      Assoc([p[0]], p[1..], rest);
      Assoc([p[0]], p[1..], Convert(rest));
    }
  }

  lemma NoClassNoChange(s: string)
    requires '[' !in s
    ensures Convert(s) == s
  {
    CopiedText(s, "");
    assert s + "" == s;
  }

  lemma AtomsRest(body: string)
    requires body != "" && Atoms(body).Some?
    ensures body[0] == '\\'
      ==> |body| >= 2 && Atoms(body) == Some([Quoted(body[1])] + Atoms(body[2..]).value) && Atoms(body[2..]).Some?
    ensures body[0] != '\\'
      ==> Atoms(body) == Some([Literal(body[0])] + Atoms(body[1..]).value) && Atoms(body[1..]).Some?
  {
  }

  lemma DropInto(a: string, b: string, n: nat)
    requires n <= |a|
    ensures (a + b)[n..] == a[n..] + b && (a + b)[0..] == a + b
  {
  }

  lemma ClosePair(body: string, end: string)
    requires |body| >= 2 && body[0] == '\\' && Close(body[2..] + end) == Some(|body| - 2)
    ensures Close(body + end) == Some(|body|)
  {
    hide Close;
    DropInto(body, end, 2);
    SkipPair(body + end, 0);
  }

  lemma CloseOne(body: string, end: string)
    requires body != "" && body[0] != '\\' && body[0] != ']' && Close(body[1..] + end) == Some(|body| - 1)
    ensures Close(body + end) == Some(|body|)
  {
    hide Close;
    DropInto(body, end, 1);
    SkipOne(body + end, 0);
  }

  lemma {:induction false} CloseAfterAtoms(body: string, rest: string)
    requires Atoms(body).Some? && Literal(']') !in Atoms(body).value
    ensures Close(body + ("]" + rest)) == Some(|body|)
    decreases |body|
  {
    if body == "" {
      assert body + ("]" + rest) == "]" + rest;
    } else {
      hide Atoms, Close;
      AtomsRest(body);
      if body[0] == '\\' {
        CloseAfterAtoms(body[2..], rest);
        ClosePair(body, "]" + rest);
      } else {
        assert Atoms(body).value[0] == Literal(body[0]);
        CloseAfterAtoms(body[1..], rest);
        CloseOne(body, "]" + rest);
      }
    }
  }

  function Ahead(body: string): string {
    "(?=.*[" + body + "])"
  }

  lemma AheadText(body: string)
    ensures Ahead(body) == "(?=.*" + (("[" + body + "]") + ")")
  {
  }

  lemma Middle(a: string, m: string, b: string)
    ensures var s := a + (m + b);
      |s| == |a| + |m| + |b| && s[..|a|] == a && s[|a|..|a| + |m|] == m && s[|a| + |m|..] == b
  {
  }

  lemma LookaheadRead(m: string, token: Token)
    requires m != "" && Tokens(m) == Some([token])
    ensures ParseComponent("(?=.*" + (m + ")")) == Some(Lookahead(token))
  {
    hide Tokens;
    var a, b := "(?=.*", ")";
    Middle(a, m, b);
    var s := a + (m + b);
    assert |a| == 5 && |b| == 1 && |".{8,}"| == 5;
    assert s[|s| - 1] == s[|a| + |m|..][0] == ')';
  }

  lemma OnlyToken(token: Token)
    ensures Before(token, Tokens("")) == Some([token])
  {
    assert [token] + [] == [token];
  }

  lemma AheadIsLookahead(body: string)
    requires Close(body + ("]" + "")) == Some(|body|)
    ensures ParseComponent(Ahead(body)) == Some(Lookahead(Class(body)))
  {
    AheadText(body);
    var m := "[" + body + "]";
    hide Close, Tokens, Ahead, ParseComponent, Before;
    ClassFirst(body, "");
    assert m + "" == m;
    OnlyToken(Class(body));
    LookaheadRead(m, Class(body));
  }

  lemma ConvertedAhead(body: string)
    requires Close(body + ("]" + ")")) == Some(|body|)
    ensures Convert(Ahead(body)) == Ahead(Escape(body))
  {
    hide Close, Escape;
    CopiedText("(?=.*", "[" + body + "]" + ")");
    ClassFirst(body, ")");
    NoClassNoChange(")");
    hide Convert;
    AheadText(body);
    AheadText(Escape(body));
  }

  /** No range, no negation, nothing that closes the class, no class of digits inside. */
  predicate Simple(atoms: seq<Atom>) {
    forall a :: a in atoms ==> a != Literal('-') && a != Literal(']') && a != Literal('^') && a != Quoted('d')
  }

  lemma QuotedSimple(c: char, rest: string)
    requires c != 'd' && Atoms(rest).Some? && Simple(Atoms(rest).value)
    ensures Atoms(['\\', c] + rest) == Some([Quoted(c)] + Atoms(rest).value) && Simple([Quoted(c)] + Atoms(rest).value)
  {
    QuotedFirst(c, rest);
    hide Atoms;
  }

  lemma LiteralsSimple(s: string, rest: string)
    requires '\\' !in s && '-' !in s && ']' !in s && '^' !in s && Atoms(rest).Some? && Simple(Atoms(rest).value)
    ensures Atoms(s + rest) == Some(Literals(s) + Atoms(rest).value) && Simple(Literals(s) + Atoms(rest).value)
  {
    LiteralsFirst(s, rest);
    hide Atoms;
  }

  lemma NoAtoms()
    ensures Atoms("") == Some([]) && Simple([])
  {
  }

  lemma SpecialsEnd()
    ensures Atoms("\\(\\):;|~/\\^").Some? && Simple(Atoms("\\(\\):;|~/\\^").value)
  {
    hide Atoms, Simple;
    NoAtoms();
    QuotedSimple('^', "");
    assert ['\\', '^'] + "" == "\\^";
    LiteralsSimple(":;|~/", "\\^");
    assert ":;|~/" + "\\^" == ":;|~/\\^";
    QuotedSimple(')', ":;|~/\\^");
    assert ['\\', ')'] + ":;|~/\\^" == "\\):;|~/\\^";
    QuotedSimple('(', "\\):;|~/\\^");
    assert ['\\', '('] + "\\):;|~/\\^" == "\\(\\):;|~/\\^";
  }

  lemma SpecialsStart(rest: string)
    requires Atoms(rest).Some? && Simple(Atoms(rest).value)
    ensures var s := ['\\', '['] + (['\\', ']'] + (['\\', '\\'] + rest));
      Atoms(s).Some? && Simple(Atoms(s).value) && Quoted('\\') in Atoms(s).value
  {
    hide Atoms, Simple;
    var s2 := ['\\', '\\'] + rest;
    QuotedSimple('\\', rest);
    var s1 := ['\\', ']'] + s2;
    QuotedSimple(']', s2);
    var s0 := ['\\', '['] + s1;
    QuotedSimple('[', s1);
    assert Atoms(s0).value[2] == Quoted('\\');
  }

  lemma LaterSpecials()
    ensures ['\\', '-'] + ("_=+" + "\\(\\):;|~/\\^") == "\\-_=+\\(\\):;|~/\\^"
  {
  }

  lemma EarlierSpecials(rest: string)
    ensures ['\\', '['] + (['\\', ']'] + (['\\', '\\'] + ("@$!%*?&{}<>.,'#" + rest)))
      == "\\[\\]\\\\@$!%*?&{}<>.,'#" + rest
  {
  }

  lemma SpecialsText()
    ensures ['\\', '['] + (['\\', ']']
      + (['\\', '\\'] + ("@$!%*?&{}<>.,'#" + (['\\', '-'] + ("_=+" + "\\(\\):;|~/\\^"))))) == SPECIALS
  {
    LaterSpecials();
    var s4 := "\\-_=+\\(\\):;|~/\\^";
    EarlierSpecials(s4);
    assert "\\[\\]\\\\@$!%*?&{}<>.,'#" + s4 == SPECIALS;
  }

  lemma SpecialsAtoms()
    ensures Atoms(SPECIALS).Some? && Simple(Atoms(SPECIALS).value) && Quoted('\\') in Atoms(SPECIALS).value
  {
    hide Atoms, Simple;
    SpecialsEnd();
    var s6 := "\\(\\):;|~/\\^";
    var s5 := "_=+" + s6;
    LiteralsSimple("_=+", s6);
    var s4 := ['\\', '-'] + s5;
    QuotedSimple('-', s5);
    var s3 := "@$!%*?&{}<>.,'#" + s4;
    LiteralsSimple("@$!%*?&{}<>.,'#", s4);
    SpecialsStart(s3);
    SpecialsText();
  }

  lemma {:induction false} SimpleMatches(atoms: seq<Atom>, reading: Reading, x: char)
    requires Simple(atoms)
    ensures !Negated(atoms) && !BreaksRange(atoms) && InOrder(atoms, reading)
    ensures Matches(atoms, reading, x) <==> exists i :: 0 <= i < |atoms| && AtomMatches(atoms[i], reading, x)
  {
    if atoms != [] {
      assert |atoms| > 1 ==> atoms[1] in atoms;
      assert !RangeFirst(atoms) && atoms[0] in atoms;
      assert forall a :: a in atoms[1..] ==> a in atoms;
      SimpleMatches(atoms[1..], reading, x);
      if i :| 0 <= i < |atoms| && AtomMatches(atoms[i], reading, x) {
        assert i > 0 ==> AtomMatches(atoms[1..][i - 1], reading, x);
      }
    }
  }

  lemma UsualReading(engine: Engine)
    ensures Usual(ReadingOf(engine))
  {
  }

  /** A class that holds a backslash survives the added ones. */
  lemma SameWithBackslash(engine: Engine, body: string, x: char)
    requires Atoms(body).Some? && Simple(Atoms(body).value) && Quoted('\\') in Atoms(body).value
    ensures TokenMatches(engine, Class(Escape(body)), x) <==> TokenMatches(engine, Class(body), x)
    ensures TokenMatches(engine, Class(body), '\\')
    ensures Compiles(Atoms(body).value, ReadingOf(engine))
    ensures Atoms(Escape(body)).Some? && Compiles(Atoms(Escape(body)).value, ReadingOf(engine))
  {
    UsualReading(engine);
    var atoms, reading := Atoms(body).value, ReadingOf(engine);
    hide Atoms, Simple, Matches, Usual, BreaksRange, Escape;
    SimpleMatches(atoms, reading, '\\');
    var i :| 0 <= i < |atoms| && atoms[i] == Quoted('\\');
    assert AtomMatches(atoms[i], reading, '\\');
    UnbrokenSameIff(body, reading);
  }

  lemma DigitComponent()
    ensures ParseComponent(DIGIT) == Some(Lookahead(Escaping('d'))) && Convert(DIGIT) == DIGIT
  {
    NoClassNoChange(DIGIT);
    EscapingFirst('d', "");
    OnlyToken(Escaping('d'));
    hide Tokens, Convert, Before;
    assert ['\\', 'd'] + "" == "\\d";
    hide ParseComponent;
    assert DIGIT == "(?=.*" + ("\\d" + ")");
    LookaheadRead("\\d", Escaping('d'));
  }

  lemma LetterComponent(body: string)
    requires |body| == 3 && forall i :: 0 <= i < 3 ==> body[i] == '-' || 'a' <= body[i] <= 'z' || 'A' <= body[i] <= 'Z'
    ensures ParseComponent(Ahead(body)) == Some(Lookahead(Class(body))) && Convert(Ahead(body)) == Ahead(body)
  {
    LiteralsOf(body);
    EscapeSameIff(body);
    hide Atoms, Escape, ParseComponent, Convert;
    CloseAfterAtoms(body, "");
    CloseAfterAtoms(body, ")");
    AheadIsLookahead(body);
    ConvertedAhead(body);
  }

  lemma SpecialComponent(body: string)
    requires Atoms(body).Some? && Literal(']') !in Atoms(body).value
    ensures ParseComponent(Ahead(body)) == Some(Lookahead(Class(body)))
    ensures ParseComponent(Convert(Ahead(body))) == Some(Lookahead(Class(Escape(body))))
  {
    hide Atoms, Escape, ParseComponent, Convert, Ahead, Close;
    CloseAfterAtoms(body, "");
    CloseAfterAtoms(body, ")");
    AheadIsLookahead(body);
    ConvertedAhead(body);
    CloseAfterEscape(body, "]" + "", "]" + "");
    AheadIsLookahead(Escape(body));
  }

  lemma LongComponent()
    ensures ParseComponent(LONG) == Some(AtLeast(8)) && Convert(LONG) == LONG
  {
    NoClassNoChange(LONG);
    hide Convert;
  }

  lemma LettersAre()
    ensures LOWERCASE == Ahead("a-z") && UPPERCASE == Ahead("A-Z") && SPECIAL == Ahead(SPECIALS)
  {
  }

  lemma NotClosing(atoms: seq<Atom>)
    requires Simple(atoms)
    ensures Literal(']') !in atoms && Quoted('d') !in atoms
  {
  }

  /** The components read, before and after the conversion. */
  lemma ComponentsRead()
    ensures ParseComponent(DIGIT) == Some(Lookahead(Escaping('d'))) && Convert(DIGIT) == DIGIT
    ensures ParseComponent(LOWERCASE) == Some(Lookahead(Class("a-z"))) && Convert(LOWERCASE) == LOWERCASE
    ensures ParseComponent(UPPERCASE) == Some(Lookahead(Class("A-Z"))) && Convert(UPPERCASE) == UPPERCASE
    ensures ParseComponent(SPECIAL) == Some(Lookahead(Class(SPECIALS)))
    ensures ParseComponent(Convert(SPECIAL)) == Some(Lookahead(Class(Escape(SPECIALS))))
    ensures ParseComponent(LONG) == Some(AtLeast(8)) && Convert(LONG) == LONG
  {
    hide ParseComponent, Convert, Escape, Atoms, Simple, SPECIALS, SPECIAL, DIGIT, LOWERCASE, UPPERCASE, LONG, Ahead;
    DigitComponent();
    LongComponent();
    LettersAre();
    LetterComponent("a-z");
    LetterComponent("A-Z");
    SpecialsAtoms();
    NotClosing(Atoms(SPECIALS).value);
    SpecialComponent(SPECIALS);
  }

  // ---- Which passwords are accepted ----

  lemma AcceptsAll(engine: Engine, a: string, b: string, c: string, d: string, e: string, password: string)
    ensures Accepts(engine, [a, b, c, d, e], password) <==>
      Fits(engine, a, password) && Fits(engine, b, password) && Fits(engine, c, password) && Fits(engine, d, password)
        && Fits(engine, e, password)
  {
    hide Fits;
    var all := [a, b, c, d, e];
    if Accepts(engine, all, password) {
      assert Fits(engine, all[0], password) && Fits(engine, all[1], password) && Fits(engine, all[2], password);
      assert Fits(engine, all[3], password) && Fits(engine, all[4], password);
    }
  }

  lemma FoundSame(engine: Engine, what: Token, other: Token, password: string)
    requires forall x :: TokenMatches(engine, what, x) <==> TokenMatches(engine, other, x)
    ensures Found(engine, what, password) <==> Found(engine, other, password)
  {
    hide TokenMatches, Dots;
  }

  lemma SpecialFound(engine: Engine, password: string)
    ensures Found(engine, Class(Escape(SPECIALS)), password) <==> Found(engine, Class(SPECIALS), password)
  {
    SpecialsAtoms();
    hide Atoms, Simple, TokenMatches, SPECIALS, Escape, Found;
    forall x ensures TokenMatches(engine, Class(Escape(SPECIALS)), x) <==> TokenMatches(engine, Class(SPECIALS), x) {
      SameWithBackslash(engine, SPECIALS, x);
    }
    FoundSame(engine, Class(Escape(SPECIALS)), Class(SPECIALS), password);
  }

  lemma ConvertedComponents()
    ensures ConvertAll(PASSWORD_PATTERN_COMPONENTS)
      == [Convert(DIGIT), Convert(LOWERCASE), Convert(UPPERCASE), Convert(SPECIAL), Convert(LONG)]
  {
    hide Convert, DIGIT, LOWERCASE, UPPERCASE, SPECIAL, LONG;
  }

  /** A component read whose class, if it has one, the engine can compile. */
  predicate ComponentCompiles(engine: Engine, component: string) {
    && ParseComponent(component).Some?
    && match ParseComponent(component).value
       case Lookahead(Class(body)) => Atoms(body).Some? && Compiles(Atoms(body).value, ReadingOf(engine))
       case _ => true
  }

  lemma LettersCompile(engine: Engine, lo: char, hi: char)
    requires lo <= hi && lo !in {'\\', '^', '-'} && hi != '\\'
    ensures Atoms([lo, '-', hi]).Some? && Compiles(Atoms([lo, '-', hi]).value, ReadingOf(engine))
  {
    var atoms := [Literal(lo), Literal('-'), Literal(hi)];
    LiteralsOf([lo, '-', hi]);
    assert Literals([lo, '-', hi]) == atoms && atoms[3..] == [];
  }

  lemma ClassComponent(engine: Engine, component: string, body: string)
    requires ParseComponent(component) == Some(Lookahead(Class(body)))
    requires Atoms(body).Some? && Compiles(Atoms(body).value, ReadingOf(engine))
    ensures ComponentCompiles(engine, component)
  {
    hide ParseComponent, Atoms, Compiles;
  }

  lemma NoClassComponent(engine: Engine, component: string)
    requires ParseComponent(component) == Some(AtLeast(8))
      || ParseComponent(component) == Some(Lookahead(Escaping('d')))
    ensures ComponentCompiles(engine, component)
  {
    hide ParseComponent, Atoms, Compiles;
  }

  lemma SpecialCompiles(engine: Engine)
    ensures ComponentCompiles(engine, SPECIAL) && ComponentCompiles(engine, Convert(SPECIAL))
  {
    ComponentsRead();
    SpecialsAtoms();
    hide ParseComponent, Convert, Escape, Atoms, Simple, Compiles, TokenMatches, SPECIALS, SPECIAL, ComponentCompiles;
    SameWithBackslash(engine, SPECIALS, '\\');
    ClassComponent(engine, SPECIAL, SPECIALS);
    ClassComponent(engine, Convert(SPECIAL), Escape(SPECIALS));
  }

  /** Either engine compiles every component, before and after the conversion. */
  lemma PatternCompiles(engine: Engine, component: string)
    requires component in PASSWORD_PATTERN_COMPONENTS
    ensures ComponentCompiles(engine, component) && ComponentCompiles(engine, Convert(component))
  {
    ComponentsRead();
    hide ParseComponent, Convert, Escape, Compiles, SPECIALS, SPECIAL, DIGIT, LOWERCASE, UPPERCASE, LONG,
      ComponentCompiles;
    SpecialCompiles(engine);
    NoClassComponent(engine, DIGIT);
    NoClassComponent(engine, LONG);
    LettersCompile(engine, 'a', 'z');
    LettersCompile(engine, 'A', 'Z');
    hide Atoms;
    assert ['a', '-', 'z'] == "a-z" && ['A', '-', 'Z'] == "A-Z";
    ClassComponent(engine, LOWERCASE, "a-z");
    ClassComponent(engine, UPPERCASE, "A-Z");
  }

  /** Either engine accepts the same passwords by the converted pattern as by the original. */
  lemma ConversionKeepsPattern(engine: Engine, password: string)
    ensures Accepts(engine, ConvertAll(PASSWORD_PATTERN_COMPONENTS), password)
      <==> Accepts(engine, PASSWORD_PATTERN_COMPONENTS, password)
  {
    ConvertedComponents();
    ComponentsRead();
    SpecialFound(engine, password);
    hide Accepts, ConvertAll, ParseComponent, Convert, Escape, SPECIALS, SPECIAL, DIGIT, LOWERCASE, UPPERCASE, LONG,
      Found;
    AcceptsAll(engine, DIGIT, LOWERCASE, UPPERCASE, SPECIAL, LONG, password);
    AcceptsAll(engine, Convert(DIGIT), Convert(LOWERCASE), Convert(UPPERCASE), Convert(SPECIAL), Convert(LONG),
      password);
  }

  lemma {:induction false} ReadingsAgree(atoms: seq<Atom>, one: Engine, other: Engine, x: char)
    requires Quoted('d') !in atoms
    ensures Matches(atoms, ReadingOf(one), x) <==> Matches(atoms, ReadingOf(other), x)
    decreases |atoms|
  {
    if atoms != [] {
      if RangeFirst(atoms) {
        ReadingsAgree(atoms[3..], one, other, x);
      } else {
        assert atoms[0] in atoms;
        ReadingsAgree(atoms[1..], one, other, x);
      }
    }
  }

  lemma ClassesAgree(body: string, one: Engine, other: Engine, x: char)
    requires Atoms(body).Some? && Quoted('d') !in Atoms(body).value
    ensures TokenMatches(one, Class(body), x) <==> TokenMatches(other, Class(body), x)
  {
    hide Atoms, Matches;
    ReadingsAgree(Content(Atoms(body).value), one, other, x);
  }

  /** Python's token matches what the browser's does, and beyond that only further digits. */
  ghost predicate Weaker(what: Token, otherDigits: set<char>) {
    && (forall x :: TokenMatches(Browser, what, x) ==> TokenMatches(Python(otherDigits), what, x))
    && (forall x :: x !in otherDigits && TokenMatches(Python(otherDigits), what, x) ==> TokenMatches(Browser, what, x))
  }

  lemma ClassWeaker(body: string, otherDigits: set<char>)
    requires Atoms(body).Some? && Quoted('d') !in Atoms(body).value
    ensures Weaker(Class(body), otherDigits)
  {
    forall x ensures TokenMatches(Browser, Class(body), x) <==> TokenMatches(Python(otherDigits), Class(body), x) {
      ClassesAgree(body, Browser, Python(otherDigits), x);
    }
    hide TokenMatches;
  }

  lemma TokensWeaker(otherDigits: set<char>)
    ensures Weaker(Escaping('d'), otherDigits) && Weaker(Class("a-z"), otherDigits)
    ensures Weaker(Class("A-Z"), otherDigits) && Weaker(Class(SPECIALS), otherDigits)
  {
    LiteralsOf("a-z");
    LiteralsOf("A-Z");
    SpecialsAtoms();
    NotClosing(Atoms(SPECIALS).value);
    assert Weaker(Escaping('d'), otherDigits);
    hide Atoms, Simple, SPECIALS;
    ClassWeaker("a-z", otherDigits);
    ClassWeaker("A-Z", otherDigits);
    ClassWeaker(SPECIALS, otherDigits);
  }

  /** No line break, and no digit that only Python knows. */
  predicate OneLine(password: string, otherDigits: set<char>) {
    forall i :: 0 <= i < |password| ==>
      password[i] !in {'\n', '\r', '\U{2028}', '\U{2029}'} && password[i] !in otherDigits
  }

  lemma FoundWeaker(what: Token, otherDigits: set<char>, password: string)
    requires Weaker(what, otherDigits)
    ensures Found(Browser, what, password) ==> Found(Python(otherDigits), what, password)
    ensures OneLine(password, otherDigits) && Found(Python(otherDigits), what, password)
      ==> Found(Browser, what, password)
  {
    hide TokenMatches;
    if i :| 0 <= i < |password| && Dots(Browser, password[..i]) && TokenMatches(Browser, what, password[i]) {
      assert Dots(Python(otherDigits), password[..i]);
    }
    if i :| 0 <= i < |password| && Dots(Python(otherDigits), password[..i])
          && TokenMatches(Python(otherDigits), what, password[i])
    {
      assert OneLine(password, otherDigits) ==> Dots(Browser, password[..i]);
    }
  }

  lemma LongWeaker(least: nat, otherDigits: set<char>, password: string)
    ensures Holds(Browser, AtLeast(least), password) ==> Holds(Python(otherDigits), AtLeast(least), password)
    ensures OneLine(password, otherDigits) && Holds(Python(otherDigits), AtLeast(least), password)
      ==> Holds(Browser, AtLeast(least), password)
  {
    assert password[..|password|] == password;
    if Holds(Browser, AtLeast(least), password) {
      assert Dots(Python(otherDigits), password[..|password|]);
    }
  }

  /** What the browser lets through by the converted pattern, the server accepts; and what the server
      accepts the browser lets through, if it is on one line and has no digits but those of ASCII. */
  lemma PatternsAgree(password: string, otherDigits: set<char>)
    ensures Accepts(Browser, ConvertAll(PASSWORD_PATTERN_COMPONENTS), password) ==>
      Accepts(Python(otherDigits), PASSWORD_PATTERN_COMPONENTS, password)
    ensures OneLine(password, otherDigits) ==>
      (Accepts(Browser, ConvertAll(PASSWORD_PATTERN_COMPONENTS), password) <==>
       Accepts(Python(otherDigits), PASSWORD_PATTERN_COMPONENTS, password))
  {
    ConversionKeepsPattern(Browser, password);
    ComponentsRead();
    TokensWeaker(otherDigits);
    hide Accepts, ConvertAll, ParseComponent, Convert, SPECIALS, SPECIAL, DIGIT, LOWERCASE, UPPERCASE, LONG, Found,
      Weaker, OneLine;
    FoundWeaker(Escaping('d'), otherDigits, password);
    FoundWeaker(Class("a-z"), otherDigits, password);
    FoundWeaker(Class("A-Z"), otherDigits, password);
    FoundWeaker(Class(SPECIALS), otherDigits, password);
    LongWeaker(8, otherDigits, password);
    AcceptsAll(Browser, DIGIT, LOWERCASE, UPPERCASE, SPECIAL, LONG, password);
    AcceptsAll(Python(otherDigits), DIGIT, LOWERCASE, UPPERCASE, SPECIAL, LONG, password);
  }

  predicate HasAsciiDigit(password: string) {
    exists i :: 0 <= i < |password| && '0' <= password[i] <= '9'
  }

  lemma FoundOnLine(what: Token, otherDigits: set<char>, password: string)
    requires Dots(Browser, password)
    requires forall x :: TokenMatches(Browser, what, x) <==> TokenMatches(Python(otherDigits), what, x)
    ensures Found(Browser, what, password) <==> Found(Python(otherDigits), what, password)
  {
    hide TokenMatches;
    forall i | 0 <= i < |password| ensures Dots(Browser, password[..i]) && Dots(Python(otherDigits), password[..i]) {
    }
  }

  lemma DigitFoundIff(password: string)
    requires Dots(Browser, password)
    ensures Found(Browser, Escaping('d'), password) <==> HasAsciiDigit(password)
  {
    forall i | 0 <= i < |password|
      ensures Dots(Browser, password[..i])
        && (TokenMatches(Browser, Escaping('d'), password[i]) <==> '0' <= password[i] <= '9')
    {
    }
  }

  lemma ClassesSame(otherDigits: set<char>)
    ensures forall x :: TokenMatches(Browser, Class("a-z"), x) <==> TokenMatches(Python(otherDigits), Class("a-z"), x)
    ensures forall x :: TokenMatches(Browser, Class("A-Z"), x) <==> TokenMatches(Python(otherDigits), Class("A-Z"), x)
    ensures forall x :: TokenMatches(Browser, Class(SPECIALS), x)
             <==> TokenMatches(Python(otherDigits), Class(SPECIALS), x)
  {
    LiteralsOf("a-z");
    LiteralsOf("A-Z");
    SpecialsAtoms();
    NotClosing(Atoms(SPECIALS).value);
    assert Quoted('d') !in Atoms("a-z").value && Quoted('d') !in Atoms("A-Z").value;
    hide Atoms, Simple, SPECIALS, TokenMatches;
    forall x ensures TokenMatches(Browser, Class("a-z"), x) <==> TokenMatches(Python(otherDigits), Class("a-z"), x) {
      ClassesAgree("a-z", Browser, Python(otherDigits), x);
    }
    forall x ensures TokenMatches(Browser, Class("A-Z"), x) <==> TokenMatches(Python(otherDigits), Class("A-Z"), x) {
      ClassesAgree("A-Z", Browser, Python(otherDigits), x);
    }
    forall x ensures TokenMatches(Browser, Class(SPECIALS), x)
      <==> TokenMatches(Python(otherDigits), Class(SPECIALS), x)
    {
      ClassesAgree(SPECIALS, Browser, Python(otherDigits), x);
    }
  }

  lemma LongOnLine(least: nat, otherDigits: set<char>, password: string)
    ensures Holds(Browser, AtLeast(least), password) <==>
      Holds(Python(otherDigits), AtLeast(least), password) && Dots(Browser, password)
  {
    assert password[..|password|] == password;
    assert Dots(Browser, password) ==> Dots(Python(otherDigits), password[..|password|]);
  }

  /** Exactly which passwords the browser accepts: those the server accepts that hold no character
      ECMAScript takes for a line terminator, and some digit of ASCII. */
  lemma BrowserAcceptsIff(password: string, otherDigits: set<char>)
    ensures Accepts(Browser, ConvertAll(PASSWORD_PATTERN_COMPONENTS), password) <==>
      Accepts(Python(otherDigits), PASSWORD_PATTERN_COMPONENTS, password) && Dots(Browser, password)
        && HasAsciiDigit(password)
  {
    PatternsAgree(password, otherDigits);
    ConversionKeepsPattern(Browser, password);
    ComponentsRead();
    ClassesSame(otherDigits);
    LongOnLine(8, otherDigits, password);
    hide Accepts, ConvertAll, ParseComponent, Convert, SPECIALS, SPECIAL, DIGIT, LOWERCASE, UPPERCASE, LONG;
    hide Found, TokenMatches, Dots, HasAsciiDigit;
    AcceptsAll(Browser, DIGIT, LOWERCASE, UPPERCASE, SPECIAL, LONG, password);
    AcceptsAll(Python(otherDigits), DIGIT, LOWERCASE, UPPERCASE, SPECIAL, LONG, password);
    if Dots(Browser, password) {
      DigitFoundIff(password);
      FoundOnLine(Class("a-z"), otherDigits, password);
      FoundOnLine(Class("A-Z"), otherDigits, password);
      FoundOnLine(Class(SPECIALS), otherDigits, password);
    }
  }

  /** In particular on passwords of ASCII characters without line breaks. */
  lemma AsciiPasswordsAgree(password: string, otherDigits: set<char>)
    requires forall d :: d in otherDigits ==> d >= '\U{0080}'
    requires forall i :: 0 <= i < |password| ==> password[i] < '\U{0080}' && password[i] != '\n' && password[i] != '\r'
    ensures Accepts(Browser, ConvertAll(PASSWORD_PATTERN_COMPONENTS), password) <==>
      Accepts(Python(otherDigits), PASSWORD_PATTERN_COMPONENTS, password)
  {
    hide Accepts, ConvertAll, PASSWORD_PATTERN_COMPONENTS;
    PatternsAgree(password, otherDigits);
  }

  lemma FoundInLonger(engine: Engine, what: Token, password: string, more: string)
    requires Found(engine, what, password)
    ensures Found(engine, what, password + more)
  {
    hide TokenMatches, Dots;
    var i :| 0 <= i < |password| && Dots(engine, password[..i]) && TokenMatches(engine, what, password[i]);
    assert (password + more)[..i] == password[..i];
  }

  lemma LongInLonger(least: nat, otherDigits: set<char>, password: string)
    requires Holds(Python(otherDigits), AtLeast(least), password)
    ensures Holds(Python(otherDigits), AtLeast(least), password + "\n")
    ensures !Holds(Browser, AtLeast(least), password + "\n")
  {
    var n :| least <= n <= |password| && Dots(Python(otherDigits), password[..n]);
    assert (password + "\n")[..n] == password[..n];
    assert (password + "\n")[|password|] == '\n';
  }

  /** On several lines they differ: the server matches a beginning, the browser the whole. */
  lemma LineBreakTellsThemApart(password: string, otherDigits: set<char>)
    requires Accepts(Python(otherDigits), PASSWORD_PATTERN_COMPONENTS, password)
    ensures Accepts(Python(otherDigits), PASSWORD_PATTERN_COMPONENTS, password + "\n")
    ensures !Accepts(Browser, ConvertAll(PASSWORD_PATTERN_COMPONENTS), password + "\n")
  {
    var engine, longer := Python(otherDigits), password + "\n";
    ConversionKeepsPattern(Browser, longer);
    ComponentsRead();
    hide Accepts, ConvertAll, ParseComponent, Convert, SPECIALS, SPECIAL, DIGIT, LOWERCASE, UPPERCASE, LONG, Found;
    AcceptsAll(engine, DIGIT, LOWERCASE, UPPERCASE, SPECIAL, LONG, password);
    FoundInLonger(engine, Escaping('d'), password, "\n");
    FoundInLonger(engine, Class("a-z"), password, "\n");
    FoundInLonger(engine, Class("A-Z"), password, "\n");
    FoundInLonger(engine, Class(SPECIALS), password, "\n");
    LongInLonger(8, otherDigits, password);
    AcceptsAll(engine, DIGIT, LOWERCASE, UPPERCASE, SPECIAL, LONG, longer);
    AcceptsAll(Browser, DIGIT, LOWERCASE, UPPERCASE, SPECIAL, LONG, longer);
  }
}
