/** Why the pattern is converted at all: browsers compile the attribute with the `v` flag (section
    4.10.5.3.6 of the WHATWG HTML standard), and with it a class is written in a stricter grammar
    (section 22.2.1 of ECMA-262, ClassSetCharacter). */
module PasswordFlag {
  import opened Options
  import opened PasswordPattern
  import opened PasswordClasses

  // ---- The stricter grammar ----

  /** ClassSetSyntaxCharacter: not to be written bare, but for the dash of a range. */
  predicate SetSyntax(c: char) {
    c in {'(', ')', '[', ']', '{', '}', '/', '-', '\\', '|'}
  }

  /** The characters of ClassSetReservedDoublePunctuator: not to be written twice in a row. */
  predicate Doubling(c: char) {
    c in {'&', '!', '#', '$', '%', '*', '+', ',', '.', ':', ';', '<', '=', '>', '?', '@', '^', '`', '~'}
  }

  /** SyntaxCharacter, the slash, ClassSetReservedPunctuator, and the escapes of one letter or zero. */
  predicate Escapable(c: char) {
    || c in {'^', '$', '\\', '.', '*', '+', '?', '(', ')', '[', ']', '{', '}', '|', '/'}
    || c in {'&', '-', '!', '#', '%', ',', ':', ';', '<', '=', '>', '@', '`', '~'}
    || c in {'d', 'D', 's', 'S', 'w', 'W', 'b', 'f', 'n', 'r', 't', 'v', '0'}
  }

  predicate Allowed(a: Atom) {
    if a.Literal? then !SetSyntax(a.c) else Escapable(a.c)
  }

  /** Every member and every end of a range is allowed. */
  predicate AllAllowed(atoms: seq<Atom>) {
    atoms == [] ||
    if RangeFirst(atoms) then Allowed(atoms[0]) && Allowed(atoms[2]) && AllAllowed(atoms[3..])
    else Allowed(atoms[0]) && AllAllowed(atoms[1..])
  }

  predicate TwinAt(atoms: seq<Atom>, i: nat)
    requires i < |atoms|
  {
    i + 1 < |atoms| && atoms[i].Literal? && atoms[i] == atoms[i + 1] && Doubling(atoms[i].c)
  }

  predicate NoTwins(atoms: seq<Atom>) {
    forall i :: 0 <= i < |atoms| ==> !TwinAt(atoms, i)
  }

  predicate ReadableWithFlag(atoms: seq<Atom>) {
    AllAllowed(atoms) && NoTwins(atoms)
  }

  // ---- What the conversion makes readable ----

  /** Allowed once converted: a bare character unless it stays bare and is syntax, or an escaped one unless
      the conversion lays it bare. */
  predicate AllowedAfter(a: Atom) {
    match a
    case Literal(c) => Special(c) || !SetSyntax(c)
    case Quoted(c) => if Special(c) then c in {'<', '>', '.', '+', ','} else Escapable(c)
  }

  predicate AllAllowedAfter(atoms: seq<Atom>)
    decreases |atoms|
  {
    atoms == [] ||
    if !RangeFirst(atoms) then AllowedAfter(atoms[0]) && AllAllowedAfter(atoms[1..])
    else if AddsBackslash(atoms[2]) then AllowedAfter(atoms[0]) && AllAllowedAfter(atoms[2..])
    else AllowedAfter(atoms[0]) && AllowedAfter(atoms[2]) && AllAllowedAfter(atoms[3..])
  }

  /** Doubled marks are escaped apart, if the table has them. */
  predicate NoTwinsAfter(atoms: seq<Atom>) {
    forall i :: 0 <= i < |atoms| ==> !(TwinAt(atoms, i) && !Special(atoms[i].c))
  }

  lemma LastAllowed(a: Atom)
    ensures Allowed(Last(a)) <==> AllowedAfter(a)
    ensures TranslatedAtom(a) == if AddsBackslash(a) then [Quoted('\\'), Last(a)] else [Last(a)]
    ensures (Last(a) == Literal('-') <==> a == Literal('-')) && (AddsBackslash(a) ==> a != Literal('-'))
  {
  }

  lemma AllowedFirst(a: Atom, rest: seq<Atom>)
    requires |rest| < 2 || rest[0] != Literal('-')
    ensures AllAllowed([a] + rest) <==> Allowed(a) && AllAllowed(rest)
  {
    assert ([a] + rest)[1..] == rest;
  }

  lemma AllowedRange(lo: Atom, hi: Atom, rest: seq<Atom>)
    ensures AllAllowed([lo, Literal('-'), hi] + rest) <==> Allowed(lo) && Allowed(hi) && AllAllowed(rest)
  {
    assert ([lo, Literal('-'), hi] + rest)[3..] == rest;
  }

  lemma AllowedPeeled(a: Atom, adds: bool, tail: seq<Atom>)
    ensures AllAllowed((if adds then TranslatedAtom(a) else [Last(a)]) + tail) <==> AllAllowed([Last(a)] + tail)
  {
    LastAllowed(a);
    assert Allowed(Quoted('\\'));
    hide AllAllowed, TranslatedAtom, Last, Allowed;
    if adds && AddsBackslash(a) {
      AllowedFirst(Quoted('\\'), [Last(a)] + tail);
      Assoc([Quoted('\\')], [Last(a)], tail);
      assert [Quoted('\\')] + [Last(a)] == [Quoted('\\'), Last(a)];
    }
  }

  lemma AllowedTail(lo: Atom, hi: Atom, rest: seq<Atom>)
    ensures AllAllowed([Last(lo)] + TranslatedAtoms([Literal('-'), hi] + rest)) <==>
      && AllowedAfter(lo)
      && if AddsBackslash(hi) then AllAllowed([Last(hi)] + TranslatedAtoms(rest))
         else AllowedAfter(hi) && AllAllowed(TranslatedAtoms(rest))
  {
    LastAllowed(lo);
    LastAllowed(hi);
    assert TranslatedAtom(Literal('-')) == [Literal('-')] && Allowed(Quoted('\\'));
    hide AllAllowed, TranslatedAtoms, TranslatedAtom, Last, Allowed, AllowedAfter;
    TranslatedFirst(hi, rest);
    TranslatedFirst(Literal('-'), [hi] + rest);
    assert [Literal('-'), hi] + rest == [Literal('-')] + ([hi] + rest);
    var after := TranslatedAtoms(rest);
    if AddsBackslash(hi) {
      AllowedRange(Last(lo), Quoted('\\'), [Last(hi)] + after);
      RangeText(Last(lo), Quoted('\\'), [Last(hi)] + after);
      Assoc([Quoted('\\')], [Last(hi)], after);
      assert [Quoted('\\')] + [Last(hi)] == [Quoted('\\'), Last(hi)];
    } else {
      AllowedRange(Last(lo), Last(hi), after);
      RangeText(Last(lo), Last(hi), after);
    }
  }

  lemma {:induction false} TranslatedAllowed(atoms: seq<Atom>, adds: bool)
    ensures AllAllowed(TranslatedFrom(atoms, adds)) <==> AllAllowedAfter(atoms)
    decreases |atoms|
  {
    if atoms != [] {
      var a, rest := atoms[0], atoms[1..];
      AllowedPeeled(a, adds, TranslatedAtoms(rest));
      if RangeFirst(atoms) {
        var hi := atoms[2];
        assert rest == [Literal('-'), hi] + atoms[3..];
        AllowedTail(a, hi, atoms[3..]);
        assert atoms[2..][0] == hi && atoms[2..][1..] == atoms[3..];
        FromTranslated(atoms[3..]);
        hide AllAllowed, TranslatedAtoms, TranslatedAtom, Last, Allowed, AllowedAfter;
        if AddsBackslash(hi) {
          TranslatedAllowed(atoms[2..], false);
        } else {
          TranslatedAllowed(atoms[3..], true);
        }
      } else {
        LastAllowed(a);
        TranslatedStart(rest);
        FromTranslated(rest);
        hide AllAllowed, TranslatedAtoms, TranslatedAtom, Last, Allowed, AllowedAfter;
        AllowedFirst(Last(a), TranslatedAtoms(rest));
        TranslatedAllowed(rest, true);
      }
    }
  }

  lemma TwinsFirst(a: Atom, rest: seq<Atom>)
    ensures NoTwins([a] + rest) <==> NoTwins(rest) && !(rest != [] && a.Literal? && rest[0] == a && Doubling(a.c))
    ensures NoTwinsAfter([a] + rest) <==>
      NoTwinsAfter(rest) && !(rest != [] && a.Literal? && rest[0] == a && Doubling(a.c) && !Special(a.c))
  {
    var all := [a] + rest;
    assert TwinAt(all, 0) <==> rest != [] && a.Literal? && rest[0] == a && Doubling(a.c);
    forall i | 0 <= i < |rest| ensures all[i + 1] == rest[i] && (TwinAt(all, i + 1) <==> TwinAt(rest, i)) {
    }
    forall i | 0 < i < |all| ensures TwinAt(all, i) <==> TwinAt(rest, i - 1) {
    }
    hide Doubling;
  }

  lemma StartsBare(rest: seq<Atom>, a: Atom)
    requires a.Literal?
    ensures (TranslatedAtoms(rest) != [] && TranslatedAtoms(rest)[0] == a)
      <==> (rest != [] && rest[0] == a && !Special(a.c))
  {
    if rest != [] {
      LastAllowed(rest[0]);
      assert TranslatedAtoms(rest)[0] == TranslatedAtom(rest[0])[0];
    }
  }

  lemma {:induction false} TranslatedTwins(atoms: seq<Atom>)
    ensures NoTwins(TranslatedAtoms(atoms)) <==> NoTwinsAfter(atoms)
  {
    if atoms != [] {
      var a, rest := atoms[0], atoms[1..];
      assert atoms == [a] + rest;
      TranslatedTwins(rest);
      LastAllowed(a);
      assert Last(a).Literal? && !Special(Last(a).c) ==> Last(a) == a;
      TwinsFirst(a, rest);
      TwinsFirst(Last(a), TranslatedAtoms(rest));
      if Last(a).Literal? {
        StartsBare(rest, Last(a));
      }
      if AddsBackslash(a) {
        TwinsFirst(Quoted('\\'), [Last(a)] + TranslatedAtoms(rest));
        Assoc([Quoted('\\')], [Last(a)], TranslatedAtoms(rest));
        assert [Quoted('\\')] + [Last(a)] == [Quoted('\\'), Last(a)];
      }
      hide NoTwins, NoTwinsAfter;
    }
  }

  /** Exactly which classes the flag can read once converted: those in which what stays bare is no syntax,
      what was escaped stays escaped and may be, and only marks of the table are doubled. */
  lemma ConvertedReadableIff(body: string)
    requires Atoms(body).Some?
    ensures Atoms(Escape(body)).Some?
    ensures ReadableWithFlag(Content(Atoms(Escape(body)).value)) <==>
      AllAllowedAfter(Content(Atoms(body).value)) && NoTwinsAfter(Content(Atoms(body).value))
  {
    AtomsOfEscape(body);
    NegationKept(Atoms(body).value);
    var content := Content(Atoms(body).value);
    FromTranslated(content);
    TranslatedAllowed(content, true);
    TranslatedTwins(content);
  }

  // ---- The password pattern ----

  /** Nothing the conversion could leave unreadable, and no character twice in a row. */
  predicate Tidy(atoms: seq<Atom>) {
    && (forall a :: a in atoms ==> AllowedAfter(a) && a != Literal('-') && a != Literal('^'))
    && (forall i :: 0 <= i < |atoms| ==> !TwinAt(atoms, i))
  }

  lemma QuotedTidy(c: char, rest: string)
    requires AllowedAfter(Quoted(c)) && Atoms(rest).Some? && Tidy(Atoms(rest).value)
    ensures Atoms(['\\', c] + rest) == Some([Quoted(c)] + Atoms(rest).value) && Tidy([Quoted(c)] + Atoms(rest).value)
  {
    QuotedFirst(c, rest);
    TwinsFirst(Quoted(c), Atoms(rest).value);
    hide Atoms, AllowedAfter, TwinAt;
  }

  lemma LiteralTidy(c: char, atoms: seq<Atom>)
    requires Tidy(atoms) && AllowedAfter(Literal(c)) && c != '-' && c != '^'
    requires atoms != [] ==> atoms[0] != Literal(c)
    ensures Tidy([Literal(c)] + atoms)
  {
    TwinsFirst(Literal(c), atoms);
    hide AllowedAfter, TwinAt;
  }

  lemma {:induction false} LiteralsTidy(s: string, rest: string)
    requires Atoms(rest).Some? && Tidy(Atoms(rest).value)
    requires Atoms(rest).value != [] ==> Atoms(rest).value[0].Quoted?
    requires forall i :: 0 <= i < |s| ==> AllowedAfter(Literal(s[i])) && s[i] != '-' && s[i] != '^' && s[i] != '\\'
    requires forall i :: 0 < i < |s| ==> s[i - 1] != s[i]
    ensures Atoms(s + rest) == Some(Literals(s) + Atoms(rest).value) && Tidy(Literals(s) + Atoms(rest).value)
  {
    if s == "" {
      assert s + rest == rest && Literals(s) + Atoms(rest).value == Atoms(rest).value;
    } else {
      LiteralsFirst(s, rest);
      var tail := s[1..];
      LiteralsTidy(tail, rest);
      var after := Literals(tail) + Atoms(rest).value;
      hide Atoms, AllowedAfter, Tidy;
      assert Literals(s) == [Literal(s[0])] + Literals(tail);
      Assoc([Literal(s[0])], Literals(tail), Atoms(rest).value);
      assert |s| > 1 ==> after[0] == Literal(s[1]) && s[1] != s[0];
      LiteralTidy(s[0], after);
    }
  }

  lemma TidyTail()
    ensures var s := ":;|~/\\^"; Atoms(s).Some? && Tidy(Atoms(s).value)
  {
    assert Atoms("") == Some([]) && Tidy([]);
    hide Atoms, Tidy;
    QuotedTidy('^', "");
    assert ['\\', '^'] + "" == "\\^";
    LiteralsTidy(":;|~/", "\\^");
    assert ":;|~/" + "\\^" == ":;|~/\\^";
  }

  lemma TidyEnd()
    ensures var s := "\\(\\):;|~/\\^";
      Atoms(s).Some? && Tidy(Atoms(s).value) && Atoms(s).value != [] && Atoms(s).value[0].Quoted?
  {
    TidyTail();
    var s := ":;|~/\\^";
    hide Atoms, Tidy;
    QuotedTidy(')', s);
    QuotedTidy('(', ['\\', ')'] + s);
    assert ['\\', '('] + (['\\', ')'] + s) == "\\(\\):;|~/\\^";
  }

  lemma MarksTidy(rest: string)
    requires Atoms(rest).Some? && Tidy(Atoms(rest).value) && Atoms(rest).value != [] && Atoms(rest).value[0].Quoted?
    ensures var s := "@$!%*?&{}<>.,'#" + rest;
      Atoms(s).Some? && Tidy(Atoms(s).value) && Literal('{') in Atoms(s).value
  {
    var marks := "@$!%*?&{}<>.,'#";
    hide Atoms, Tidy;
    LiteralsTidy(marks, rest);
    assert Literals(marks)[7] == Literal('{');
    assert (Literals(marks) + Atoms(rest).value)[7] == Literal('{');
  }

  lemma TidyMiddle(rest: string)
    requires Atoms(rest).Some? && Tidy(Atoms(rest).value) && Atoms(rest).value != [] && Atoms(rest).value[0].Quoted?
    ensures var s := ['\\', '-'] + ("_=+" + rest);
      Atoms(s).Some? && Tidy(Atoms(s).value) && Atoms(s).value != [] && Atoms(s).value[0].Quoted?
  {
    hide Atoms, Tidy;
    LiteralsTidy("_=+", rest);
    QuotedTidy('-', "_=+" + rest);
  }

  lemma TidyStart(rest: string)
    requires Atoms(rest).Some? && Tidy(Atoms(rest).value) && Literal('{') in Atoms(rest).value
    ensures var s := ['\\', '['] + (['\\', ']'] + (['\\', '\\'] + rest));
      Atoms(s).Some? && Tidy(Atoms(s).value) && Literal('{') in Atoms(s).value
  {
    hide Atoms, Tidy;
    QuotedTidy('\\', rest);
    QuotedTidy(']', ['\\', '\\'] + rest);
    QuotedTidy('[', ['\\', ']'] + (['\\', '\\'] + rest));
  }

  lemma SpecialsTidy()
    ensures Atoms(SPECIALS).Some? && Tidy(Atoms(SPECIALS).value) && Literal('{') in Atoms(SPECIALS).value
  {
    hide Atoms, Tidy;
    TidyEnd();
    var s6 := "\\(\\):;|~/\\^";
    TidyMiddle(s6);
    var s4 := ['\\', '-'] + ("_=+" + s6);
    MarksTidy(s4);
    TidyStart("@$!%*?&{}<>.,'#" + s4);
    SpecialsText();
  }

  lemma TidyRest(atoms: seq<Atom>)
    requires Tidy(atoms) && atoms != []
    ensures Tidy(atoms[1..])
  {
    assert atoms == [atoms[0]] + atoms[1..];
    TwinsFirst(atoms[0], atoms[1..]);
    hide AllowedAfter, TwinAt;
  }

  lemma {:induction false} TidyReadable(atoms: seq<Atom>)
    requires Tidy(atoms)
    ensures !Negated(atoms) && AllAllowedAfter(atoms) && NoTwinsAfter(atoms)
    ensures AllAllowed(atoms) ==> forall a :: a in atoms ==> Allowed(a)
  {
    if atoms != [] {
      assert |atoms| > 1 ==> atoms[1] in atoms;
      assert !RangeFirst(atoms) && atoms[0] in atoms;
      assert atoms == [atoms[0]] + atoms[1..];
      TwinsFirst(atoms[0], atoms[1..]);
      hide TwinAt, AllowedAfter, Allowed;
      TidyRest(atoms);
      TidyReadable(atoms[1..]);
    }
  }

  /** What the conversion is for: as it stands the class of special characters cannot be read with the flag,
      and converted it can, as can those of letters. */
  lemma ConversionMakesReadable()
    ensures Atoms(SPECIALS).Some? && !ReadableWithFlag(Content(Atoms(SPECIALS).value))
    ensures Atoms(Escape(SPECIALS)).Some? && ReadableWithFlag(Content(Atoms(Escape(SPECIALS)).value))
  {
    hide Atoms, Escape, SPECIALS, Tidy, AllAllowed;
    SpecialsTidy();
    TidyReadable(Atoms(SPECIALS).value);
    assert !Allowed(Literal('{'));
    ConvertedReadableIff(SPECIALS);
  }

  /** Letters need no conversion. */
  lemma LettersReadable(lo: char, hi: char)
    requires 'a' <= lo <= hi <= 'z' || 'A' <= lo <= hi <= 'Z'
    ensures Atoms([lo, '-', hi]).Some? && ReadableWithFlag(Content(Atoms([lo, '-', hi]).value))
  {
    var atoms := [Literal(lo), Literal('-'), Literal(hi)];
    LiteralsOf([lo, '-', hi]);
    assert Literals([lo, '-', hi]) == atoms && atoms[3..] == [];
  }

  /** A component read whose class, if it has one, can be read with the flag. */
  predicate ComponentReadable(component: string) {
    && ParseComponent(component).Some?
    && match ParseComponent(component).value
       case Lookahead(Class(body)) => Atoms(body).Some? && ReadableWithFlag(Content(Atoms(body).value))
       case _ => true
  }

  lemma ClassReadable(component: string, body: string)
    requires ParseComponent(component) == Some(Lookahead(Class(body))) && Atoms(body).Some?
    ensures ComponentReadable(component) <==> ReadableWithFlag(Content(Atoms(body).value))
  {
    hide ParseComponent, Atoms, ReadableWithFlag;
  }

  lemma NoClassReadable(component: string)
    requires ParseComponent(component) == Some(AtLeast(8))
      || ParseComponent(component) == Some(Lookahead(Escaping('d')))
    ensures ComponentReadable(component)
  {
    hide ParseComponent, Atoms, ReadableWithFlag;
  }

  lemma SpecialReadable()
    ensures !ComponentReadable(SPECIAL) && ComponentReadable(Convert(SPECIAL))
  {
    ComponentsRead();
    hide ParseComponent, Convert, Escape, Atoms, SPECIALS, SPECIAL, ComponentReadable;
    ConversionMakesReadable();
    ClassReadable(SPECIAL, SPECIALS);
    ClassReadable(Convert(SPECIAL), Escape(SPECIALS));
  }

  /** Every component of the converted password pattern can be read with the flag; unconverted, the one for
      special characters cannot. */
  lemma ConvertedPatternReadable(component: string)
    requires component in PASSWORD_PATTERN_COMPONENTS
    ensures ComponentReadable(Convert(component)) && !ComponentReadable(SPECIAL)
  {
    ComponentsRead();
    hide ParseComponent, Convert, Escape, SPECIALS, SPECIAL, DIGIT, LOWERCASE, UPPERCASE, LONG, ComponentReadable,
      ReadableWithFlag;
    SpecialReadable();
    NoClassReadable(DIGIT);
    NoClassReadable(LONG);
    LettersReadable('a', 'z');
    LettersReadable('A', 'Z');
    hide Atoms;
    assert ['a', '-', 'z'] == "a-z" && ['A', '-', 'Z'] == "A-Z";
    ClassReadable(LOWERCASE, "a-z");
    ClassReadable(UPPERCASE, "A-Z");
  }
}
