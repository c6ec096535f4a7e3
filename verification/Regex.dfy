/**
 The regular expressions the MicroPython harnesses build, as strings: a parser for the
 fragment of Python's syntax they use, and the language each expression denotes.
 */
module Regex {
  import opened Options

  datatype Re =
    | Eps
    | Chr(c: char)
    | AnyButNewline
    | Cat(left: Re, right: Re)
    | Alt(left: Re, right: Re)
    | Star(body: Re)

  // ---------------------------------------------------------------- languages

  type Language = iset<string>

  ghost function Word(w: string): Language {
    iset{w}
  }

  ghost function Everything(): Language {
    iset w: string | |w| >= 0
  }

  /** Concatenation of languages. */
  ghost function Then(a: Language, b: Language): Language {
    iset u: string, v: string | u in a && v in b :: u + v
  }

  ghost function Power(a: Language, n: nat): Language {
    if n == 0 then Word("") else Then(a, Power(a, n - 1))
  }

  ghost predicate InStar(a: Language, w: string) {
    exists n: nat :: w in Power(a, n)
  }

  ghost function Denote(r: Re): Language {
    match r
    case Eps => Word("")
    case Chr(c) => Word([c])
    case AnyButNewline => iset c: char | c != '\n' :: [c]
    case Cat(a, b) => Then(Denote(a), Denote(b))
    case Alt(a, b) => Denote(a) + Denote(b)
    case Star(a) => iset w: string | InStar(Denote(a), w)
  }

  lemma InThen(u: string, v: string, a: Language, b: Language)
    requires u in a && v in b
    ensures u + v in Then(a, b)
  {
  }

  lemma ThenAssociative(a: Language, b: Language, c: Language)
    ensures Then(Then(a, b), c) == Then(a, Then(b, c))
  {
    forall w | w in Then(Then(a, b), c) ensures w in Then(a, Then(b, c)) {
      var uv, x :| uv in Then(a, b) && x in c && w == uv + x;
      var u, v :| u in a && v in b && uv == u + v;
      assert v + x in Then(b, c);
      assert w == u + (v + x);
    }
    forall w | w in Then(a, Then(b, c)) ensures w in Then(Then(a, b), c) {
      var u, vx :| u in a && vx in Then(b, c) && w == u + vx;
      var v, x :| v in b && x in c && vx == v + x;
      assert u + v in Then(a, b);
      assert w == (u + v) + x;
    }
  }

  lemma ThenUnit(a: Language)
    ensures Then(a, Word("")) == a
  {
    forall w | w in a ensures w in Then(a, Word("")) {
      InThen(w, "", a, Word(""));
      assert w + "" == w;
    }
    forall w | w in Then(a, Word("")) ensures w in a {
      var u, v :| u in a && v in Word("") && w == u + v;
      assert u + "" == u;
    }
  }

  lemma ThenMonotone(a: Language, b: Language, a': Language, b': Language)
    requires a <= a' && b <= b'
    ensures Then(a, b) <= Then(a', b')
  {
  }

  // ---------------------------------------------------------------- syntax

  /** An expression and the text that follows it. */
  datatype Parsed = Parsed(re: Re, rest: string)

  predicate IsQuantifier(c: char) {
    c == '*' || c == '+' || c == '?'
  }

  predicate IsMeta(c: char) {
    c in "()[]{}.*+^$?|\\"
  }

  predicate IsAsciiAlnum(c: char) {
    '0' <= c <= '9' || 'a' <= c <= 'z' || 'A' <= c <= 'Z'
  }

  /** Does the text start where a sequence of terms may go on or end, not with a quantifier? */
  predicate Detached(s: string) {
    s == "" || !IsQuantifier(s[0])
  }

  /** A backslash and what follows: \n and \r by name, every non-alphanumeric character for itself. */
  function Escaped(c: char): Option<Re> {
    if c == 'n' then Some(Chr('\n'))
    else if c == 'r' then Some(Chr('\r'))
    else if IsAsciiAlnum(c) then None
    else Some(Chr(c))
  }

  function Quantified(atom: Re, s: string): (p: Parsed)
    ensures |p.rest| <= |s|
  {
    if s == "" then Parsed(atom, s)
    else if s[0] == '*' then Parsed(Star(atom), s[1..])
    else if s[0] == '+' then Parsed(Cat(atom, Star(atom)), s[1..])
    else if s[0] == '?' then Parsed(Alt(atom, Eps), s[1..])
    else Parsed(atom, s)
  }

  /** One atom: a group, a dot, an escape or a plain character. Classes and anchors are outside the fragment. */
  function ParseAtom(s: string): (p: Option<Parsed>)
    requires s != ""
    ensures p.Some? ==> |p.value.rest| < |s|
    decreases |s|, 0
  {
    if s[0] == '(' then
      var body := if |s| >= 3 && s[1] == '?' && s[2] == ':' then s[3..] else s[1..];
      match ParseAlternatives(body)
      case None => None
      case Some(p) =>
        if p.rest != "" && p.rest[0] == ')' then Some(Parsed(p.re, p.rest[1..])) else None
    else if s[0] == '.' then Some(Parsed(AnyButNewline, s[1..]))
    else if s[0] == '\\' then
      if |s| == 1 then None
      else match Escaped(s[1])
        case None => None
        case Some(r) => Some(Parsed(r, s[2..]))
    else if IsMeta(s[0]) then None
    else Some(Parsed(Chr(s[0]), s[1..]))
  }

  /** Terms one after the other, up to the end, a bar or a closing parenthesis. */
  function ParseSequence(s: string): (p: Option<Parsed>)
    ensures p.Some? ==> |p.value.rest| <= |s|
    decreases |s|, 1
  {
    if s == "" || s[0] == '|' || s[0] == ')' then Some(Parsed(Eps, s))
    else
      match ParseAtom(s)
      case None => None
      case Some(atom) =>
        var term := Quantified(atom.re, atom.rest);
        match ParseSequence(term.rest)
        case None => None
        case Some(tail) => Some(Parsed(Cat(term.re, tail.re), tail.rest))
  }

  function ParseAlternatives(s: string): (p: Option<Parsed>)
    ensures p.Some? ==> |p.value.rest| <= |s|
    decreases |s|, 2
  {
    match ParseSequence(s)
    case None => None
    case Some(first) =>
      if first.rest != "" && first.rest[0] == '|' then
        match ParseAlternatives(first.rest[1..])
        case None => None
        case Some(others) => Some(Parsed(Alt(first.re, others.re), others.rest))
      else Some(first)
  }

  function Parse(s: string): Option<Re> {
    match ParseAlternatives(s)
    case Some(p) => if p.rest == "" then Some(p.re) else None
    case None => None
  }

  /** The strings an expression matches in full; none if it is outside the fragment. */
  ghost function Lang(pattern: string): Language {
    match Parse(pattern)
    case Some(r) => Denote(r)
    case None => iset{}
  }

  // ---------------------------------------------------------------- sequences of units

  /** The text is a complete sequence of terms that denotes the language. */
  ghost predicate Reads(s: string, l: Language) {
    ParseSequence(s).Some? && ParseSequence(s).value.rest == "" && Denote(ParseSequence(s).value.re) == l
  }

  lemma ReadsIsLang(s: string, l: Language)
    requires Reads(s, l)
    ensures Parse(s).Some? && Lang(s) == l
  {
  }

  lemma ReadsEmpty()
    ensures Reads("", Word(""))
  {
  }

  /** A plain character in front of a sequence. */
  lemma ReadsPlain(c: char, s: string, l: Language)
    requires !IsMeta(c) && Detached(s) && Reads(s, l)
    ensures Reads([c] + s, Then(Word([c]), l))
  {
  }

  /** An escaped character in front of a sequence. */
  lemma ReadsEscaped(c: char, s: string, l: Language)
    requires !IsAsciiAlnum(c) && Detached(s) && Reads(s, l)
    ensures Reads(['\\', c] + s, Then(Word([c]), l))
  {
  }

  /** The expression \r+\n in front of a sequence. */
  lemma ReadsCrPlusLf(s: string, l: Language)
    requires Detached(s) && Reads(s, l)
    ensures Reads("\\r+\\n" + s, Then(LineBreak(), l))
  {
    var t := "\\n" + s;
    var u := "\\r+\\n" + s;
    assert t[2..] == s;
    assert ParseAtom(t) == Some(Parsed(Chr('\n'), s));
    assert Reads(t, Then(Word("\n"), l));
    assert u[2..] == "+" + t;
    assert ParseAtom(u) == Some(Parsed(Chr('\r'), "+" + t));
    assert ("+" + t)[1..] == t;
    assert Quantified(Chr('\r'), "+" + t) == Parsed(Cat(Chr('\r'), Star(Chr('\r'))), t);
    CrPlus();
    ThenAssociative(CrRun(), Word("\n"), l);
    LineBreakIsCrRunLf();
  }

  /** The expression (?:\r+) and a newline character in front of a sequence. */
  lemma ReadsGroupedCrPlusLf(s: string, l: Language)
    requires Detached(s) && Reads(s, l)
    ensures Reads("(?:\\r+)\n" + s, Then(LineBreak(), l))
  {
    var t := "\n" + s;
    ReadsPlain('\n', s, l);
    var cr := Cat(Chr('\r'), Star(Chr('\r')));
    AtomGroupedCr(t);
    assert "(?:\\r+)\n" + s == "(?:\\r+)" + t;
    assert Denote(Cat(cr, Eps)) == CrRun() by {
      CrPlus();
      ThenUnit(CrRun());
    }
    ReadsTerm("(?:\\r+)" + t, Cat(cr, Eps), t, Then(Word("\n"), l));
    ThenAssociative(CrRun(), Word("\n"), l);
    LineBreakIsCrRunLf();
  }

  /** An atom without a quantifier in front of a sequence. */
  lemma ReadsTerm(u: string, atom: Re, s: string, l: Language)
    requires u != "" && u[0] != '|' && u[0] != ')'
    requires ParseAtom(u) == Some(Parsed(atom, s))
    requires Detached(s) && Reads(s, l)
    ensures Reads(u, Then(Denote(atom), l))
  {
  }

  lemma AtomGroupedCr(t: string)
    ensures ParseAtom("(?:\\r+)" + t) ==
            Some(Parsed(Cat(Cat(Chr('\r'), Star(Chr('\r'))), Eps), t))
  {
    var u := "(?:\\r+)" + t;
    var inner := "\\r+)" + t;
    assert u[3..] == inner;
    assert inner[2..] == "+)" + t;
    assert ("+)" + t)[1..] == ")" + t;
    assert (")" + t)[1..] == t;
    var cr := Cat(Chr('\r'), Star(Chr('\r')));
    assert ParseAtom(inner) == Some(Parsed(Chr('\r'), "+)" + t));
    assert ParseSequence(")" + t) == Some(Parsed(Eps, ")" + t));
    assert ParseSequence(inner) == Some(Parsed(Cat(cr, Eps), ")" + t));
  }

  /** The expression \r?\n in front of a sequence. */
  lemma ReadsOptionalCrLf(s: string, l: Language)
    requires Detached(s) && Reads(s, l)
    ensures Reads("\\r?\\n" + s, Then(iset{"\n", "\r\n"}, l))
  {
    hide Then;
    var t := "\\n" + s;
    var u := "\\r?\\n" + s;
    assert t[2..] == s;
    assert ParseAtom(t) == Some(Parsed(Chr('\n'), s));
    assert Reads(t, Then(Word("\n"), l));
    assert u[2..] == "?" + t;
    assert ParseAtom(u) == Some(Parsed(Chr('\r'), "?" + t));
    assert ("?" + t)[1..] == t;
    var optional := Word("\r") + Word("");
    assert Denote(Alt(Chr('\r'), Eps)) == optional;
    ThenAssociative(optional, Word("\n"), l);
    OptionalCrLf();
  }

  lemma OptionalCrLf()
    ensures Then(Word("\r") + Word(""), Word("\n")) == iset{"\n", "\r\n"}
  {
    var a, b := Word("\r") + Word(""), Word("\n");
    InThen("\r", "\n", a, b);
    InThen("", "\n", a, b);
    assert "\r" + "\n" == "\r\n" && "" + "\n" == "\n";
  }

  /** The expression (.|LF)* in front of a sequence: any text at all. */
  lemma ReadsAnything(s: string, l: Language)
    requires Detached(s) && Reads(s, l)
    ensures Reads("(.|\n)*" + s, Then(Everything(), l))
  {
    hide Then;
    var any := Alt(Cat(AnyButNewline, Eps), Cat(Chr('\n'), Eps));
    var u := "(.|\n)*" + s;
    AtomAny("*" + s);
    assert u == "(.|\n)" + ("*" + s);
    assert ("*" + s)[1..] == s;
    assert ParseAtom(u) == Some(Parsed(any, "*" + s));
    assert Quantified(any, "*" + s) == Parsed(Star(any), s);
    assert Denote(any) == Denote(AnyButNewline) + Word("\n") by {
      ThenUnit(Denote(AnyButNewline));
      ThenUnit(Word("\n"));
    }
    StarOfAnyIsEverything(any);
  }

  lemma AtomAny(after: string)
    ensures ParseAtom("(.|\n)" + after) ==
            Some(Parsed(Alt(Cat(AnyButNewline, Eps), Cat(Chr('\n'), Eps)), after))
  {
    var u := "(.|\n)" + after;
    var inner := ".|\n)" + after;
    assert u[1..] == inner;
    var second := "\n)" + after;
    assert inner[1..] == "|" + second;
    assert ("|" + second)[1..] == second;
    AlternativeNewline(after);
    assert ParseSequence("|" + second) == Some(Parsed(Eps, "|" + second));
    assert ParseSequence(inner) == Some(Parsed(Cat(AnyButNewline, Eps), "|" + second));
    assert (")" + after)[1..] == after;
  }

  lemma AlternativeNewline(after: string)
    ensures ParseAlternatives("\n)" + after) == Some(Parsed(Cat(Chr('\n'), Eps), ")" + after))
  {
    var s := "\n)" + after;
    assert s[1..] == ")" + after;
    assert ParseSequence(")" + after) == Some(Parsed(Eps, ")" + after));
    assert ParseAtom(s) == Some(Parsed(Chr('\n'), ")" + after));
    assert ParseSequence(s) == Some(Parsed(Cat(Chr('\n'), Eps), ")" + after));
  }

  lemma StarOfAnyIsEverything(any: Re)
    requires Denote(any) == Denote(AnyButNewline) + Word("\n")
    ensures Denote(Star(any)) == Everything()
  {
    forall w: string ensures w in Denote(Star(any)) {
      WordsAreCharacters(Denote(any), w);
    }
  }

  lemma {:induction false} WordsAreCharacters(a: Language, w: string)
    requires forall c: char :: [c] in a
    ensures w in Power(a, |w|)
  {
    if w != "" {
      WordsAreCharacters(a, w[1..]);
      assert w == [w[0]] + w[1..];
    }
  }

  // ---------------------------------------------------------------- carriage returns

  function Repeat(c: char, n: nat): string {
    if n == 0 then "" else [c] + Repeat(c, n - 1)
  }

  /** One or more carriage returns. */
  ghost function CrRun(): Language {
    iset k: nat | k >= 1 :: Repeat('\r', k)
  }

  /** One or more carriage returns and a line feed. */
  ghost function LineBreak(): Language {
    iset k: nat | k >= 1 :: Repeat('\r', k) + "\n"
  }

  lemma {:induction false} PowerOfCr(n: nat)
    ensures Power(Word("\r"), n) == Word(Repeat('\r', n))
  {
    if n > 0 {
      PowerOfCr(n - 1);
      InThen("\r", Repeat('\r', n - 1), Word("\r"), Power(Word("\r"), n - 1));
    }
  }

  lemma CrPlus()
    ensures Denote(Cat(Chr('\r'), Star(Chr('\r')))) == CrRun()
  {
    var star := Denote(Star(Chr('\r')));
    forall w | w in Then(Word("\r"), star) ensures w in CrRun() {
      var u, v :| u in Word("\r") && v in star && w == u + v;
      var n: nat :| v in Power(Word("\r"), n);
      PowerOfCr(n);
      assert w == Repeat('\r', n + 1);
    }
    forall w | w in CrRun() ensures w in Then(Word("\r"), star) {
      var k: nat :| k >= 1 && w == Repeat('\r', k);
      PowerOfCr(k - 1);
      assert InStar(Word("\r"), Repeat('\r', k - 1));
      InThen("\r", Repeat('\r', k - 1), Word("\r"), star);
    }
  }

  lemma LineBreakIsCrRunLf()
    ensures Then(CrRun(), Word("\n")) == LineBreak()
  {
  }
}
