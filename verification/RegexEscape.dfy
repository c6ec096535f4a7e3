/**
 standard_regex_escape of the two MicroPython harnesses: a transducer that turns
 expected output into a regular expression. The two copies differ only in how they
 spell a line break.
 */
module RegexEscape {
  import opened Regex
  import opened Strings

  /** One appended piece: a line break, a character as it is, a character behind a backslash. */
  datatype Token = Newline | Raw(c: char) | Quoted(c: char)

  const EOL: string := "\\r+\\n"
  const GROUPED_EOL: string := "(?:\\r+)\n"

  predicate Special(c: char) {
    c in "()[]{}.*+^$?|"
  }

  /** What is appended for the text, in the state `escape`: the previous character was an unused backslash. */
  function Tokens(text: string, escape: bool): seq<Token> {
    if text == "" then []
    else if text[0] == '\r' then Tokens(text[1..], escape)
    else if text[0] == '\n' then [Newline] + Tokens(text[1..], escape)
    else if escape then [Raw(text[0])] + Tokens(text[1..], false)
    else if text[0] == '\\' then Tokens(text[1..], true)
    else if Special(text[0]) then [Quoted(text[0])] + Tokens(text[1..], false)
    else [Raw(text[0])] + Tokens(text[1..], false)
  }

  function Spell(t: Token, eol: string): string {
    match t
    case Newline => eol
    case Raw(c) => [c]
    case Quoted(c) => ['\\', c]
  }

  function Render(ts: seq<Token>, eol: string): string {
    if ts == [] then "" else Spell(ts[0], eol) + Render(ts[1..], eol)
  }

  function Escape(text: string, eol: string): string {
    Render(Tokens(text, false), eol)
  }

  lemma RenderCons(t: Token, ts: seq<Token>, eol: string)
    ensures Render([t] + ts, eol) == Spell(t, eol) + Render(ts, eol)
  {
  }

  /** What one character appends, and the state it leaves. */
  function Piece(c: char, escape: bool, eol: string): string {
    if c == '\r' then ""
    else if c == '\n' then eol
    else if escape then [c]
    else if c == '\\' then ""
    else if Special(c) then ['\\', c]
    else [c]
  }

  predicate EscapesNext(c: char, escape: bool) {
    if c == '\r' || c == '\n' then escape else !escape && c == '\\'
  }

  lemma TokensStep(text: string, i: nat, escape: bool, eol: string)
    requires i < |text|
    ensures Render(Tokens(text[i..], escape), eol) ==
            Piece(text[i], escape, eol) + Render(Tokens(text[i + 1..], EscapesNext(text[i], escape)), eol)
  {
  }

  lemma Regroup(a: string, b: string, c: string)
    ensures (a + b) + c == a + (b + c)
    ensures a + "" == a
  {
  }

  /** The harness's loop. */
  method StandardRegexEscape(text: string) returns (result: string)
    ensures result == Escape(text, EOL)
  {
    assert text[0..] == text;
    result := "";
    var escape := false;
    for i := 0 to |text|
      invariant result + Render(Tokens(text[i..], escape), EOL) == Escape(text, EOL)
    {
      hide Tokens, Render, Special;
      var c := text[i];
      ghost var before, piece := result, Piece(c, escape, EOL);
      TokensStep(text, i, escape, EOL);
      if c == '\r' {
        Regroup(before, piece, Render(Tokens(text[i + 1..], escape), EOL));
        continue;
      }
      if c == '\n' {
        result := result + EOL;
      } else if escape {
        escape := false;
        result := result + [c];
      } else if c == '\\' {
        escape := true;
      } else if Special(c) {
        result := result + ['\\', c];
      } else {
        result := result + [c];
      }
      Regroup(before, piece, Render(Tokens(text[i + 1..], escape), EOL));
    }
  }

  /** The REPL harness's loop: a line break is appended in two pieces. */
  method ReplRegexEscape(text: string) returns (result: string)
    ensures result == Escape(text, GROUPED_EOL)
  {
    assert text[0..] == text;
    result := "";
    var escape := false;
    for i := 0 to |text|
      invariant result + Render(Tokens(text[i..], escape), GROUPED_EOL) == Escape(text, GROUPED_EOL)
    {
      hide Tokens, Render, Special;
      var c := text[i];
      ghost var before, piece := result, Piece(c, escape, GROUPED_EOL);
      TokensStep(text, i, escape, GROUPED_EOL);
      if c == '\r' {
        Regroup(before, piece, Render(Tokens(text[i + 1..], escape), GROUPED_EOL));
        continue;
      }
      if c == '\n' {
        result := result + "(?:\\r+)";
        result := result + "\n";
      } else if escape {
        escape := false;
        result := result + [c];
      } else if c == '\\' {
        escape := true;
      } else if Special(c) {
        result := result + ['\\', c];
      } else {
        result := result + [c];
      }
      Regroup(before, piece, Render(Tokens(text[i + 1..], escape), GROUPED_EOL));
    }
  }

  // ---------------------------------------------------------------- meaning

  /** The outputs meant by a text: its own carriage returns dropped, each line feed spelled CR+ LF. */
  ghost function Outputs(text: string): Language {
    if text == "" then Word("")
    else if text[0] == '\r' then Outputs(text[1..])
    else if text[0] == '\n' then Then(LineBreak(), Outputs(text[1..]))
    else Then(Word([text[0]]), Outputs(text[1..]))
  }

  lemma {:induction false} EscapeDetached(text: string, eol: string, s: string)
    requires eol == EOL || eol == GROUPED_EOL
    requires Without(text, '\\') && Detached(s)
    ensures Detached(Escape(text, eol) + s)
  {
    if text != "" {
      EscapeStep(text, eol);
      if text[0] == '\r' {
        EscapeDetached(text[1..], eol, s);
      }
    } else {
      assert "" + s == s;
    }
  }

  /** A character that is no backslash is escaped on its own. */
  lemma EscapeStep(text: string, eol: string)
    requires text != "" && text[0] != '\\'
    ensures Escape(text, eol) == Piece(text[0], false, eol) + Escape(text[1..], eol)
    ensures text[0] == '\r' ==> Escape(text, eol) == Escape(text[1..], eol)
  {
  }

  /**
   In front of any sequence, the escaped text denotes the outputs it means and nothing
   else: no character of the text acts as an operator.
   */
  lemma {:induction false} EscapeReads(text: string, eol: string, s: string, l: Language)
    requires eol == EOL || eol == GROUPED_EOL
    requires Without(text, '\\') && Detached(s) && Reads(s, l)
    ensures Reads(Escape(text, eol) + s, Then(Outputs(text), l))
  {
    if text == "" {
      assert "" + s == s;
      UnitThen(l);
    } else {
      var rest := text[1..];
      EscapeStep(text, eol);
      EscapeReads(rest, eol, s, l);
      EscapeDetached(rest, eol, s);
      var tail := Escape(rest, eol) + s;
      var m := Then(Outputs(rest), l);
      if text[0] == '\n' {
        Regroup(eol, Escape(rest, eol), s);
        LineBreakReads(eol, tail, m);
        ThenAssociative(LineBreak(), Outputs(rest), l);
      } else if text[0] != '\r' {
        Regroup(Piece(text[0], false, eol), Escape(rest, eol), s);
        CharacterReads(text[0], tail, m);
        ThenAssociative(Word([text[0]]), Outputs(rest), l);
      }
    }
  }

  lemma LineBreakReads(eol: string, s: string, l: Language)
    requires eol == EOL || eol == GROUPED_EOL
    requires Detached(s) && Reads(s, l)
    ensures Reads(eol + s, Then(LineBreak(), l))
  {
    if eol == EOL {
      ReadsCrPlusLf(s, l);
    } else {
      ReadsGroupedCrPlusLf(s, l);
    }
  }

  lemma CharacterReads(c: char, s: string, l: Language)
    requires c != '\\' && Detached(s) && Reads(s, l)
    ensures Reads((if Special(c) then ['\\', c] else [c]) + s, Then(Word([c]), l))
  {
    hide Reads, Then;
    if Special(c) {
      ReadsEscaped(c, s, l);
    } else {
      ReadsPlain(c, s, l);
    }
  }

  lemma UnitThen(l: Language)
    ensures Then(Word(""), l) == l
  {
    forall w | w in l ensures w in Then(Word(""), l) {
      InThen("", w, Word(""), l);
      assert "" + w == w;
    }
    forall w | w in Then(Word(""), l) ensures w in l {
      var u, v :| u in Word("") && v in l && w == u + v;
      assert "" + v == v;
    }
  }

  /** Both harnesses' escapers: the language is exactly the outputs meant, so the two agree. */
  lemma EscapeMeaning(text: string)
    requires Without(text, '\\')
    ensures Parse(Escape(text, EOL)).Some? && Lang(Escape(text, EOL)) == Outputs(text)
    ensures Parse(Escape(text, GROUPED_EOL)).Some? && Lang(Escape(text, GROUPED_EOL)) == Outputs(text)
  {
    ReadsEmpty();
    ThenUnit(Outputs(text));
    EscapeReads(text, EOL, "", Word(""));
    EscapeReads(text, GROUPED_EOL, "", Word(""));
    assert Escape(text, EOL) + "" == Escape(text, EOL);
    assert Escape(text, GROUPED_EOL) + "" == Escape(text, GROUPED_EOL);
    ReadsIsLang(Escape(text, EOL), Outputs(text));
    ReadsIsLang(Escape(text, GROUPED_EOL), Outputs(text));
  }

  /** Every character behind a backslash. */
  function Backslashed(pattern: string): string {
    if pattern == "" then "" else ['\\', pattern[0]] + Backslashed(pattern[1..])
  }

  /** Any pattern without line breaks can be written in an expected output, and comes out as it is. */
  lemma {:induction false} BackslashedPatternSurvives(pattern: string, eol: string)
    requires Without(pattern, '\r') && Without(pattern, '\n')
    ensures Escape(Backslashed(pattern), eol) == pattern
  {
    if pattern != "" {
      var rest := pattern[1..];
      BackslashedPatternSurvives(rest, eol);
      var text := Backslashed(pattern);
      assert text[1..] == [pattern[0]] + Backslashed(rest);
      assert text[1..][1..] == Backslashed(rest);
      assert Tokens(text, false) == Tokens(text[1..], true) == [Raw(pattern[0])] + Tokens(Backslashed(rest), false);
      RenderCons(Raw(pattern[0]), Tokens(Backslashed(rest), false), eol);
      assert pattern == [pattern[0]] + rest;
    }
  }

  // ---------------------------------------------------------------- the outputs, described without recursion

  function DropCr(w: string): string {
    if w == "" then ""
    else if w[0] == '\r' then DropCr(w[1..])
    else [w[0]] + DropCr(w[1..])
  }

  /** Line feeds come only after carriage returns, and carriage returns only before a line feed. */
  predicate CrLfDisciplined(w: string) {
    && (forall i :: 0 <= i < |w| && w[i] == '\n' ==> i > 0 && w[i - 1] == '\r')
    && (forall i :: 0 <= i < |w| && w[i] == '\r' ==> i + 1 < |w| && (w[i + 1] == '\r' || w[i + 1] == '\n'))
  }

  lemma {:induction false} DropCrConcat(u: string, v: string)
    ensures DropCr(u + v) == DropCr(u) + DropCr(v)
  {
    if u == "" {
      assert "" + v == v;
    } else {
      assert (u + v)[1..] == u[1..] + v;
      DropCrConcat(u[1..], v);
    }
  }

  lemma {:induction false} RepeatCr(k: nat)
    ensures |Repeat('\r', k)| == k && forall i :: 0 <= i < k ==> Repeat('\r', k)[i] == '\r'
    ensures DropCr(Repeat('\r', k)) == ""
  {
    if k > 0 {
      RepeatCr(k - 1);
      assert Repeat('\r', k)[1..] == Repeat('\r', k - 1);
    }
  }

  lemma BreakThenDisciplined(k: nat, v: string)
    requires k >= 1 && CrLfDisciplined(v)
    ensures var w := (Repeat('\r', k) + "\n") + v;
            CrLfDisciplined(w) && DropCr(w) == "\n" + DropCr(v)
  {
    RepeatCr(k);
    var u := Repeat('\r', k) + "\n";
    var w := u + v;
    DropCrConcat(u, v);
    DropCrConcat(Repeat('\r', k), "\n");
    assert forall i :: 0 <= i < |w| ==> w[i] == if i < k then '\r' else if i == k then '\n' else v[i - k - 1];
  }

  lemma {:induction false} OutputsSound(text: string, w: string)
    requires w in Outputs(text)
    ensures DropCr(w) == DropCr(text) && CrLfDisciplined(w)
  {
    if text == "" {
    } else if text[0] == '\r' {
      OutputsSound(text[1..], w);
    } else if text[0] == '\n' {
      var u, v :| u in LineBreak() && v in Outputs(text[1..]) && w == u + v;
      OutputsSound(text[1..], v);
      var k: nat :| k >= 1 && u == Repeat('\r', k) + "\n";
      BreakThenDisciplined(k, v);
    } else {
      var u, v :| u in Word([text[0]]) && v in Outputs(text[1..]) && w == u + v;
      OutputsSound(text[1..], v);
      assert w[1..] == v;
      assert forall i :: 0 <= i < |w| ==> w[i] == if i == 0 then text[0] else v[i - 1];
    }
  }

  /** The carriage returns an output starts with. */
  function LeadingCrs(w: string): (k: nat)
    ensures k <= |w| && (k < |w| ==> w[k] != '\r')
    ensures forall i :: 0 <= i < k ==> w[i] == '\r'
  {
    if w == "" || w[0] != '\r' then 0 else 1 + LeadingCrs(w[1..])
  }

  lemma {:induction false} RunOfCrs(w: string, k: nat)
    requires k <= |w| && forall i :: 0 <= i < k ==> w[i] == '\r'
    ensures w[..k] == Repeat('\r', k) && DropCr(w) == DropCr(w[k..])
  {
    if k > 0 {
      RunOfCrs(w[1..], k - 1);
      assert w[..k] == [w[0]] + w[1..][..k - 1];
      assert w[k..] == w[1..][k - 1..];
    } else {
      assert w[0..] == w;
    }
  }

  /** A disciplined output that is not empty has something other than carriage returns in it. */
  lemma {:induction false} NotAllCrs(w: string)
    requires CrLfDisciplined(w)
    ensures w == "" <==> DropCr(w) == ""
    ensures w != "" ==> LeadingCrs(w) < |w|
  {
    hide CrLfDisciplined;
    if w != "" {
      var n := |w| - 1;
      LastIsNoCr(w);
      assert w == w[..n] + [w[n]] && DropCr([w[n]]) == [w[n]];
      DropCrConcat(w[..n], [w[n]]);
    }
  }

  lemma LastIsNoCr(w: string)
    requires CrLfDisciplined(w) && w != ""
    ensures w[|w| - 1] != '\r'
  {
  }

  /** What comes before the first character that is no carriage return, and after it. */
  lemma AroundFirst(w: string, k: nat)
    requires CrLfDisciplined(w) && k < |w| && w[k] != '\r'
    requires forall i :: 0 <= i < k ==> w[i] == '\r'
    ensures k > 0 <==> w[k] == '\n'
    ensures CrLfDisciplined(w[k + 1..])
  {
    var v := w[k + 1..];
    assert forall i :: 0 <= i < |v| ==> v[i] == w[i + k + 1];
    if k > 0 {
      assert w[k - 1] == '\r';
    }
  }

  lemma {:induction false} OutputsComplete(text: string, w: string)
    requires DropCr(w) == DropCr(text) && CrLfDisciplined(w)
    ensures w in Outputs(text)
  {
    hide CrLfDisciplined, LeadingCrs;
    NotAllCrs(w);
    if text == "" {
    } else if text[0] == '\r' {
      OutputsComplete(text[1..], w);
    } else {
      var k := LeadingCrs(w);
      RunOfCrs(w, k);
      AroundFirst(w, k);
      var v := w[k + 1..];
      assert w[k..][1..] == v && DropCr(w[k..]) == [w[k]] + DropCr(v);
      assert DropCr(text) == [text[0]] + DropCr(text[1..]);
      assert DropCr(text)[1..] == DropCr(text[1..]) && DropCr(w)[1..] == DropCr(v);
      OutputsComplete(text[1..], v);
      if text[0] == '\n' {
        assert w[..k] + "\n" in LineBreak();
        assert w == (w[..k] + "\n") + v;
      } else {
        assert w == [text[0]] + v;
      }
    }
  }

  /** An independent reading of `Outputs`: same text up to carriage returns, every line break CR+ LF. */
  lemma OutputsCharacterised(text: string)
    ensures Outputs(text) == iset w: string | DropCr(w) == DropCr(text) && CrLfDisciplined(w)
  {
    forall w: string ensures w in Outputs(text) <==> DropCr(w) == DropCr(text) && CrLfDisciplined(w) {
      if w in Outputs(text) {
        OutputsSound(text, w);
      } else if DropCr(w) == DropCr(text) && CrLfDisciplined(w) {
        OutputsComplete(text, w);
      }
    }
  }
}
