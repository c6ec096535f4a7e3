/**
 normalize_plain_output_to_regex of the MicroPython harness that has no root file
 system: expected output becomes an expression in which every line break may be LF or
 CRLF.
 */
module PlainOutput {
  import opened Regex
  import opened RegexEscape

  const BREAK: string := "\\r?\\n"

  /** Where Python's str.splitlines ends a line. */
  predicate IsBoundary(c: char) {
    || c == '\n' || c == '\r' || c == '\U{0b}' || c == '\U{0c}'
    || '\U{1c}' <= c <= '\U{1e}' || c == '\U{85}' || c == '\U{2028}' || c == '\U{2029}'
  }

  /** The length of the first line. */
  function LineLength(text: string): (n: nat)
    ensures n <= |text| && (n < |text| ==> IsBoundary(text[n]))
    ensures forall i :: 0 <= i < n ==> !IsBoundary(text[i])
  {
    if text == "" || IsBoundary(text[0]) then 0 else 1 + LineLength(text[1..])
  }

  /** The length of the boundary at the start of the text: a CR takes an LF with it. */
  function BoundaryLength(text: string): (n: nat)
    requires text != ""
    ensures 1 <= n <= |text|
  {
    if |text| >= 2 && text[0] == '\r' && text[1] == '\n' then 2 else 1
  }

  /** str.splitlines. */
  function SplitLines(text: string): seq<string>
    decreases |text|
  {
    if text == "" then []
    else
      var n := LineLength(text);
      if n == |text| then [text]
      else [text[..n]] + SplitLines(text[n + BoundaryLength(text[n..])..])
  }

  predicate ReSpecial(c: char) {
    c in "()[]{}?*+-|^$\\.&~# \t\n\r\U{0b}\U{0c}"
  }

  /** re.escape. */
  function ReEscape(line: string): string {
    if line == "" then ""
    else ReEscapeChar(line[0]) + ReEscape(line[1..])
  }

  function JoinEscaped(lines: seq<string>): string {
    if lines == [] then ""
    else if |lines| == 1 then ReEscape(lines[0])
    else ReEscape(lines[0]) + BREAK + JoinEscaped(lines[1..])
  }

  predicate EndsInLf(text: string) {
    text != "" && text[|text| - 1] == '\n'
  }

  function Normalize(text: string): string {
    JoinEscaped(SplitLines(text)) + if EndsInLf(text) then BREAK else ""
  }

  // ---------------------------------------------------------------- meaning

  /** Every CRLF written as LF. */
  function Collapse(w: string): string {
    if w == "" then ""
    else if |w| >= 2 && w[0] == '\r' && w[1] == '\n' then "\n" + Collapse(w[2..])
    else [w[0]] + Collapse(w[1..])
  }

  /** Only LF and CRLF end lines. */
  predicate OnlyLfCrlf(text: string) {
    text == "" ||
    if |text| >= 2 && text[0] == '\r' && text[1] == '\n' then OnlyLfCrlf(text[2..])
    else (IsBoundary(text[0]) ==> text[0] == '\n') && OnlyLfCrlf(text[1..])
  }

  /** The same text up to the choice of LF or CRLF at each line break. */
  ghost function SameUpToBreaks(text: string): Language {
    iset w: string | Collapse(w) == Collapse(text)
  }

  ghost function Breaks(): Language {
    iset{"\n", "\r\n"}
  }

  predicate NoBoundary(line: string) {
    forall i :: 0 <= i < |line| ==> !IsBoundary(line[i])
  }

  function ReEscapeChar(c: char): string {
    if ReSpecial(c) then ['\\', c] else [c]
  }

  lemma ReEscapeCharReads(c: char, s: string, l: Language)
    requires !IsBoundary(c) && Detached(s) && Reads(s, l)
    ensures Detached(ReEscapeChar(c) + s) && Reads(ReEscapeChar(c) + s, Then(Word([c]), l))
  {
    hide Reads;
    if ReSpecial(c) {
      ReadsEscaped(c, s, l);
    } else {
      ReadsPlain(c, s, l);
    }
  }

  lemma {:induction false} ReEscapeReads(line: string, s: string, l: Language)
    requires NoBoundary(line) && Detached(s) && Reads(s, l)
    ensures Detached(ReEscape(line) + s) && Reads(ReEscape(line) + s, Then(Word(line), l))
  {
    hide Reads, Then, Word, Detached;
    if line == "" {
      assert ReEscape(line) + s == s;
      UnitThen(l);
    } else {
      var c, rest := line[0], line[1..];
      ReEscapeReads(rest, s, l);
      ReEscapeCharReads(c, ReEscape(rest) + s, Then(Word(rest), l));
      hide ReEscapeChar;
      Regroup(ReEscapeChar(c), ReEscape(rest), s);
      ThenAssociative(Word([c]), Word(rest), l);
      WordThenWord([c], rest);
      assert line == [c] + rest;
    }
  }

  lemma WordThenWord(u: string, v: string)
    ensures Then(Word(u), Word(v)) == Word(u + v)
  {
  }

  /** Lines with a break between any two, and one more at the end if asked for. */
  ghost function Layout(lines: seq<string>, final: bool): Language {
    if lines == [] then (if final then Breaks() else Word(""))
    else if |lines| == 1 then Then(Word(lines[0]), if final then Breaks() else Word(""))
    else Then(Word(lines[0]), Then(Breaks(), Layout(lines[1..], final)))
  }

  predicate ProperLines(lines: seq<string>) {
    forall i :: 0 <= i < |lines| ==> NoBoundary(lines[i])
  }

  lemma {:induction false} JoinReads(lines: seq<string>, final: bool)
    requires ProperLines(lines)
    ensures var s := JoinEscaped(lines) + if final then BREAK else "";
            Detached(s) && Reads(s, Layout(lines, final))
  {
    hide Reads, Then, Word, Detached, Breaks, ReEscape;
    var tail := if final then BREAK else "";
    var s := JoinEscaped(lines) + tail;
    FinalReads(final);
    if lines == [] {
      assert s == tail;
    } else if |lines| == 1 {
      ReEscapeReads(lines[0], tail, if final then Breaks() else Word(""));
    } else {
      JoinReads(lines[1..], final);
      var rest := JoinEscaped(lines[1..]) + tail;
      BreakReads(rest, Layout(lines[1..], final));
      ReEscapeReads(lines[0], BREAK + rest, Then(Breaks(), Layout(lines[1..], final)));
      assert s == ReEscape(lines[0]) + (BREAK + rest);
    }
  }

  lemma BreakReads(s: string, l: Language)
    requires Detached(s) && Reads(s, l)
    ensures Detached(BREAK + s) && Reads(BREAK + s, Then(Breaks(), l))
  {
    hide Reads, Then;
    ReadsOptionalCrLf(s, l);
  }

  lemma FinalReads(final: bool)
    ensures Detached(if final then BREAK else "")
    ensures Reads(if final then BREAK else "", if final then Breaks() else Word(""))
  {
    ReadsEmpty();
    if final {
      hide Reads, Then, Word, Breaks;
      BreakReads("", Word(""));
      ThenUnit(Breaks());
      assert BREAK + "" == BREAK;
    }
  }

  lemma {:induction false} SplitProper(text: string)
    ensures ProperLines(SplitLines(text))
    decreases |text|
  {
    hide SplitLines, LineLength, IsBoundary, BoundaryLength, NoBoundary, ProperLines;
    SplitOnce(text);
    if LineLength(text) < |text| {
      var rest := text[LineLength(text) + BoundaryLength(text[LineLength(text)..])..];
      SplitProper(rest);
      ProperCons(text, SplitLines(rest));
    } else {
      EmptyProper();
      ProperCons(text, []);
      assert text[..|text|] == text && [text] + [] == [text];
    }
  }

  lemma EmptyProper()
    ensures ProperLines([])
  {
  }

  lemma ProperCons(text: string, lines: seq<string>)
    requires ProperLines(lines)
    ensures ProperLines([text[..LineLength(text)]] + lines)
  {
    hide LineLength, IsBoundary;
  }

  /** The expression is always in the fragment and denotes the lines laid out with breaks. */
  lemma NormalizeLayout(text: string)
    ensures Parse(Normalize(text)).Some?
    ensures Lang(Normalize(text)) == Layout(SplitLines(text), EndsInLf(text))
  {
    SplitProper(text);
    JoinReads(SplitLines(text), EndsInLf(text));
    ReadsIsLang(Normalize(text), Layout(SplitLines(text), EndsInLf(text)));
  }

  // ---------------------------------------------------------------- the layout is the text up to breaks

  /** A line in front of a text: its characters stay as they are. */
  lemma {:induction false} CollapseLine(line: string, rest: string)
    requires NoBoundary(line)
    ensures Collapse(line + rest) == line + Collapse(rest)
    ensures OnlyLfCrlf(line + rest) <==> OnlyLfCrlf(rest)
  {
    if line == "" {
      assert "" + rest == rest;
    } else {
      CollapseLine(line[1..], rest);
      var s := line + rest;
      assert s[1..] == line[1..] + rest && s[0] == line[0];
      assert Collapse(s) == [line[0]] + Collapse(s[1..]);
      assert line == [line[0]] + line[1..];
    }
  }

  /** A break in front of a text, in either spelling, is one LF. */
  lemma CollapseBreak(b: string, rest: string)
    requires b in Breaks()
    ensures Collapse(b + rest) == "\n" + Collapse(rest)
    ensures OnlyLfCrlf(b + rest) <==> OnlyLfCrlf(rest)
  {
  }

  /** Any text that collapses to a line and an LF starts with that line and a break. */
  lemma {:induction false} UncollapseLine(w: string, line: string, rest: string) returns (b: string, v: string)
    requires NoBoundary(line) && Collapse(w) == line + "\n" + rest
    ensures b in Breaks() && w == line + (b + v) && Collapse(v) == rest
    decreases |line|
  {
    hide Collapse, IsBoundary, Breaks;
    if line == "" {
      assert Collapse(w) == "\n" + rest;
      b, v := UncollapseBreak(w, rest);
      assert w == line + (b + v);
    } else {
      assert Collapse(w)[1..] == line[1..] + "\n" + rest;
      UncollapseChar(w, line[0], line[1..] + "\n" + rest);
      b, v := UncollapseLine(w[1..], line[1..], rest);
      assert w == [w[0]] + w[1..] == line + (b + v);
    }
  }

  lemma UncollapseBreak(w: string, rest: string) returns (b: string, v: string)
    requires Collapse(w) == "\n" + rest
    ensures b in Breaks() && w == b + v && Collapse(v) == rest
  {
    assert Collapse(w)[0] == '\n' && Collapse(w)[1..] == rest;
    if w[0] == '\n' {
      b, v := "\n", w[1..];
    } else {
      b, v := "\r\n", w[2..];
    }
  }

  lemma UncollapseChar(w: string, c: char, rest: string)
    requires !IsBoundary(c)
    requires |Collapse(w)| > 0 && Collapse(w)[0] == c && Collapse(w)[1..] == rest
    ensures w != "" && w[0] == c && Collapse(w[1..]) == rest
  {
  }

  lemma {:induction false} UncollapseLast(w: string, line: string)
    requires NoBoundary(line) && Collapse(w) == line
    ensures w == line
    decreases |line|
  {
    if line != "" {
      assert w[0] == line[0];
      assert Collapse(w)[1..] == line[1..];
      UncollapseLast(w[1..], line[1..]);
      assert w == [w[0]] + w[1..];
    }
  }

  /** One line and its break split off, on both sides. */
  lemma SameSplit(line: string, b: string, rest: string)
    requires NoBoundary(line) && b in Breaks()
    ensures SameUpToBreaks(line + (b + rest)) == Then(Word(line), Then(Breaks(), SameUpToBreaks(rest)))
  {
    var text := line + (b + rest);
    CollapseLine(line, b + rest);
    CollapseBreak(b, rest);
    forall w | w in SameUpToBreaks(text)
      ensures w in Then(Word(line), Then(Breaks(), SameUpToBreaks(rest)))
    {
      assert Collapse(w) == line + "\n" + Collapse(rest);
      var b', v := UncollapseLine(w, line, Collapse(rest));
      InThen(b', v, Breaks(), SameUpToBreaks(rest));
      InThen(line, b' + v, Word(line), Then(Breaks(), SameUpToBreaks(rest)));
    }
    forall w | w in Then(Word(line), Then(Breaks(), SameUpToBreaks(rest)))
      ensures w in SameUpToBreaks(text)
    {
      var u, x :| u in Word(line) && x in Then(Breaks(), SameUpToBreaks(rest)) && w == u + x;
      var b', v :| b' in Breaks() && v in SameUpToBreaks(rest) && x == b' + v;
      CollapseLine(line, b' + v);
      CollapseBreak(b', v);
    }
  }

  lemma SameLast(line: string)
    requires NoBoundary(line)
    ensures SameUpToBreaks(line) == Word(line)
  {
    CollapseLine(line, "");
    assert line + "" == line;
    forall w | w in SameUpToBreaks(line) ensures w in Word(line) {
      UncollapseLast(w, line);
    }
  }

  /** A text with a line break in it: its first line, the break, and the rest. */
  lemma FirstBreak(text: string) returns (line: string, b: string, rest: string)
    requires OnlyLfCrlf(text) && LineLength(text) < |text|
    ensures NoBoundary(line) && b in Breaks()
    ensures text == line + (b + rest) && OnlyLfCrlf(rest) && |rest| < |text|
  {
    hide OnlyLfCrlf, Collapse, Breaks, IsBoundary, LineLength, BoundaryLength;
    var n := LineLength(text);
    line := text[..n];
    var t := text[n..];
    assert text == line + t && t[0] == text[n];
    CollapseLine(line, t);
    BreakInFront(t);
    b, rest := t[..BoundaryLength(t)], t[BoundaryLength(t)..];
    assert t == b + rest;
  }

  lemma BreakInFront(t: string)
    requires t != "" && IsBoundary(t[0]) && OnlyLfCrlf(t)
    ensures t[..BoundaryLength(t)] in Breaks() && OnlyLfCrlf(t[BoundaryLength(t)..])
  {
    if BoundaryLength(t) == 2 {
      assert t[..2] == "\r\n";
    } else {
      assert t[..1] == "\n";
    }
  }

  /** A text without any line break is its own only line. */
  lemma OnlyLine(text: string)
    requires LineLength(text) == |text|
    ensures NoBoundary(text) && !EndsInLf(text)
    ensures SplitLines(text) == if text == "" then [] else [text]
  {
  }

  lemma {:induction false} SplitFirst(line: string, b: string, rest: string)
    requires NoBoundary(line) && b in Breaks()
    ensures SplitLines(line + (b + rest)) == [line] + SplitLines(rest)
    ensures EndsInLf(line + (b + rest)) <==> rest == "" || EndsInLf(rest)
    ensures SplitLines(rest) == [] <==> rest == ""
  {
    hide SplitLines, LineLength, IsBoundary, NoBoundary, Breaks, BoundaryLength, EndsInLf;
    var text := line + (b + rest);
    BreakStarts(b, rest);
    LineLengthIs(line, b + rest);
    EndsLikeRest(line, b, rest);
    SplitOnce(rest);
    SplitOnce(text);
    assert text[..|line|] == line && text[|line|..] == b + rest;
    assert text[|line| + |b|..] == rest;
  }

  lemma {:induction false} SplitOnce(text: string)
    ensures SplitLines(text) == [] <==> text == ""
    ensures LineLength(text) == |text| != 0 ==> SplitLines(text) == [text]
    ensures var n := LineLength(text);
            n < |text| ==> SplitLines(text) == [text[..n]] + SplitLines(text[n + BoundaryLength(text[n..])..])
  {
    hide LineLength, IsBoundary, BoundaryLength;
  }

  lemma BreakStarts(b: string, rest: string)
    requires b in Breaks()
    ensures b != "" && IsBoundary((b + rest)[0]) && BoundaryLength(b + rest) == |b|
  {
  }

  lemma EndsLikeRest(line: string, b: string, rest: string)
    requires b in Breaks()
    ensures EndsInLf(line + (b + rest)) <==> rest == "" || EndsInLf(rest)
  {
  }

  lemma {:induction false} LineLengthIs(line: string, t: string)
    requires NoBoundary(line) && t != "" && IsBoundary(t[0])
    ensures LineLength(line + t) == |line|
  {
    if line == "" {
      assert "" + t == t;
    } else {
      LineLengthIs(line[1..], t);
      assert (line + t)[1..] == line[1..] + t;
    }
  }

  lemma {:induction false} LayoutIsSame(text: string)
    requires OnlyLfCrlf(text)
    ensures Layout(SplitLines(text), EndsInLf(text)) == SameUpToBreaks(text)
    decreases |text|
  {
    hide Then, SameUpToBreaks, OnlyLfCrlf, Breaks, Word, SplitLines, EndsInLf;
    if LineLength(text) == |text| {
      OnlyLine(text);
      SameLast(text);
      ThenUnit(Word(text));
    } else {
      var line, b, rest := FirstBreak(text);
      LayoutIsSame(rest);
      SameSplit(line, b, rest);
      SplitFirst(line, b, rest);
      LayoutCons(line, SplitLines(rest), EndsInLf(text));
      if rest == "" {
        OnlyLine("");
        SameLast("");
      }
    }
  }

  lemma LayoutCons(line: string, lines: seq<string>, final: bool)
    ensures lines != [] ==> Layout([line] + lines, final) == Then(Word(line), Then(Breaks(), Layout(lines, final)))
    ensures Layout([line], true) == Then(Word(line), Then(Breaks(), Word("")))
    ensures [line] + [] == [line]
  {
    hide Then, Breaks, Word;
    assert ([line] + lines)[1..] == lines;
    ThenUnit(Breaks());
  }

  /**
   For every text whose lines end only in LF or CRLF: the expression accepts exactly the
   texts that differ from it in the spelling of the line breaks, each on its own.
   */
  lemma NormalizeMeaning(text: string)
    requires OnlyLfCrlf(text)
    ensures Lang(Normalize(text)) == SameUpToBreaks(text)
  {
    NormalizeLayout(text);
    LayoutIsSame(text);
  }

  lemma {:induction false} LayoutOnlyLfCrlf(lines: seq<string>, final: bool, w: string)
    requires ProperLines(lines) && w in Layout(lines, final)
    ensures OnlyLfCrlf(w)
  {
    assert OnlyLfCrlf("");
    hide OnlyLfCrlf, Collapse;
    if lines == [] {
      if final {
        CollapseBreak(w, "");
        assert w + "" == w;
      }
    } else if |lines| == 1 {
      var u, v :| u in Word(lines[0]) && v in (if final then Breaks() else Word("")) && w == u + v;
      CollapseLine(lines[0], v);
      if final {
        CollapseBreak(v, "");
        assert v + "" == v;
      }
    } else {
      var u, x :| u in Word(lines[0]) && x in Then(Breaks(), Layout(lines[1..], final)) && w == u + x;
      var b, v :| b in Breaks() && v in Layout(lines[1..], final) && x == b + v;
      LayoutOnlyLfCrlf(lines[1..], final, v);
      CollapseLine(lines[0], x);
      CollapseBreak(b, v);
    }
  }

  /** Expected output is accepted by its own expression exactly when no other boundary occurs in it. */
  lemma AcceptsItselfIff(text: string)
    ensures text in Lang(Normalize(text)) <==> OnlyLfCrlf(text)
  {
    NormalizeLayout(text);
    SplitProper(text);
    if OnlyLfCrlf(text) {
      NormalizeMeaning(text);
    } else if text in Lang(Normalize(text)) {
      LayoutOnlyLfCrlf(SplitLines(text), EndsInLf(text), text);
    }
  }

  /** A lone carriage return is such a boundary. */
  lemma LoneCrIsNotAccepted()
    ensures "\r" !in Lang(Normalize("\r"))
  {
    AcceptsItselfIff("\r");
  }

  /** LF and CRLF forms of the same text give the same lines, hence the same expression. */
  lemma {:induction false} SameLines(text: string, other: string)
    requires OnlyLfCrlf(text) && Collapse(other) == Collapse(text)
    ensures SplitLines(other) == SplitLines(text) && (EndsInLf(other) <==> EndsInLf(text))
    decreases |text|
  {
    hide OnlyLfCrlf, SplitLines, EndsInLf, Collapse;
    if LineLength(text) == |text| {
      OnlyLine(text);
      SameLast(text);
      assert other in SameUpToBreaks(text);
    } else {
      var line, b, rest := FirstBreak(text);
      CollapseLine(line, b + rest);
      CollapseBreak(b, rest);
      assert Collapse(other) == line + "\n" + Collapse(rest);
      var b', v := UncollapseLine(other, line, Collapse(rest));
      SameLines(rest, v);
      SplitFirst(line, b, rest);
      SplitFirst(line, b', v);
      OnlyEmptyCollapses(rest);
      OnlyEmptyCollapses(v);
    }
  }

  lemma OnlyEmptyCollapses(w: string)
    ensures Collapse(w) == "" <==> w == ""
  {
  }

  lemma SameExpression(text: string, other: string)
    requires OnlyLfCrlf(text) && Collapse(other) == Collapse(text)
    ensures Normalize(other) == Normalize(text)
  {
    SameLines(text, other);
  }
}
