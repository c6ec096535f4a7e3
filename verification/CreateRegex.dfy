/**
 create_regex of the MicroPython harness: escaping, then three passes of string
 replacement that give eight hashes the meaning "any text".
 */
module CreateRegex {
  import opened Regex
  import opened RegexEscape
  import opened Strings

  const HASHES: string := "########"
  const ANY: string := "(.|\n)*"

  /** How the expected outputs write a line of one or more characters. */
  const LINE: string := "\n\\.\\+"

  /** What the first pass looks for: hashes and the next line spelled as one or more characters. */
  const HASHES_AND_LINE: string := HASHES + EOL + ".+"

  predicate OccursAt(s: string, i: nat, old_: string) {
    i + |old_| <= |s| && forall j :: 0 <= j < |old_| ==> s[i + j] == old_[j]
  }

  lemma Mismatch(s: string, i: nat, old_: string, j: nat)
    requires j < |old_| && (i + j < |s| ==> s[i + j] != old_[j])
    ensures !OccursAt(s, i, old_)
  {
  }

  lemma OccursShifted(u: string, t: string, i: nat, old_: string)
    requires |u| <= i
    ensures OccursAt(u + t, i, old_) <==> OccursAt(t, i - |u|, old_)
  {
  }

  predicate Occurs(s: string, old_: string) {
    exists i: nat :: i <= |s| && OccursAt(s, i, old_)
  }

  /** Python's str.replace: left to right, without overlap, not looking at what was put in. */
  function Replace(s: string, old_: string, new_: string): string
    requires old_ != ""
    decreases |s|
  {
    if |s| < |old_| then s
    else if s[..|old_|] == old_ then new_ + Replace(s[|old_|..], old_, new_)
    else [s[0]] + Replace(s[1..], old_, new_)
  }

  function Create(text: string): string {
    var escaped := Escape(text, EOL);
    var first := Replace(escaped, HASHES_AND_LINE, ANY);
    var second := Replace(first, EOL + HASHES, ANY);
    Replace(second, HASHES, ANY)
  }

  /** Where no occurrence starts, one character is passed on. */
  lemma {:induction false} ReplaceMisses(s: string, old_: string, new_: string)
    requires old_ != "" && s != "" && !OccursAt(s, 0, old_)
    ensures Replace(s, old_, new_) == [s[0]] + Replace(s[1..], old_, new_)
  {
    if |old_| <= |s| {
      var j :| 0 <= j < |old_| && s[0 + j] != old_[j];
      assert s[..|old_|][j] != old_[j];
    } else {
      assert s == [s[0]] + s[1..];
    }
  }

  /** Replacement passes over a stretch in which no occurrence starts. */
  lemma {:induction false} ReplaceSkips(u: string, t: string, old_: string, new_: string)
    requires old_ != ""
    requires forall i: nat :: i < |u| ==> !OccursAt(u + t, i, old_)
    ensures Replace(u + t, old_, new_) == u + Replace(t, old_, new_)
    decreases |u|
  {
    hide Replace, OccursAt;
    if u == "" {
      assert u + t == t;
    } else {
      var s, u' := u + t, u[1..];
      assert s[1..] == u' + t && s == [u[0]] + (u' + t);
      forall i: nat | i < |u'| ensures !OccursAt(u' + t, i, old_) {
        assert !OccursAt(s, i + 1, old_);
        OccursShifted([u[0]], u' + t, i + 1, old_);
      }
      ReplaceMisses(s, old_, new_);
      ReplaceSkips(u', t, old_, new_);
      assert u == [u[0]] + u';
    }
  }

  lemma ReplaceHits(t: string, old_: string, new_: string)
    requires old_ != ""
    ensures Replace(old_ + t, old_, new_) == new_ + Replace(t, old_, new_)
  {
  }

  // ---------------------------------------------------------------- nothing is left over

  lemma StartsWithAny(t: string)
    requires |t| >= 8 && t[..8] == HASHES
    ensures Replace(t, HASHES, ANY) == ANY + Replace(t[8..], HASHES, ANY)
    ensures Replace(t, HASHES, ANY)[0] == '('
  {
  }

  /** Hashes at the start of the result were there before the replacement. */
  lemma {:induction false} LeadingHashes(t: string, k: nat)
    requires k <= |Replace(t, HASHES, ANY)|
    requires forall i :: 0 <= i < k ==> Replace(t, HASHES, ANY)[i] == '#'
    ensures k <= |t| && forall i :: 0 <= i < k ==> t[i] == '#'
    decreases |t|
  {
    if k > 0 && |t| >= 8 {
      if t[..8] == HASHES {
        StartsWithAny(t);
      } else {
        var r := Replace(t[1..], HASHES, ANY);
        assert forall i :: 0 <= i < k - 1 ==> r[i] == Replace(t, HASHES, ANY)[i + 1];
        LeadingHashes(t[1..], k - 1);
        assert t == [t[0]] + t[1..];
      }
    }
  }

  lemma {:induction false} ReplaceLeavesNone(t: string, i: nat)
    ensures !OccursAt(Replace(t, HASHES, ANY), i, HASHES)
    decreases |t|
  {
    hide Replace, OccursAt;
    var r := Replace(t, HASHES, ANY);
    ReplaceOnce(t);
    if |t| < 8 {
      Mismatch(r, i, HASHES, 7);
    } else if t[..8] == HASHES {
      if i < |ANY| {
        Mismatch(r, i, HASHES, 0);
      } else {
        ReplaceLeavesNone(t[8..], i - |ANY|);
        OccursShifted(ANY, Replace(t[8..], HASHES, ANY), i, HASHES);
      }
    } else if i > 0 {
      ReplaceLeavesNone(t[1..], i - 1);
      OccursShifted([t[0]], Replace(t[1..], HASHES, ANY), i, HASHES);
    } else {
      FirstEightDiffer(t);
    }
  }

  lemma {:induction false} ReplaceOnce(t: string)
    ensures Replace(t, HASHES, ANY) ==
            if |t| < 8 then t
            else if t[..8] == HASHES then ANY + Replace(t[8..], HASHES, ANY)
            else [t[0]] + Replace(t[1..], HASHES, ANY)
  {
  }

  lemma {:induction false} FirstEightDiffer(t: string)
    requires |t| >= 8 && t[..8] != HASHES
    ensures !OccursAt(Replace(t, HASHES, ANY), 0, HASHES)
  {
    hide Replace, OccursAt;
    var r := Replace(t, HASHES, ANY);
    var k :| 0 <= k < 8 && t[..8][k] != HASHES[k];
    if |r| < 8 {
      Mismatch(r, 0, HASHES, |r|);
    } else if j :| 0 <= j < 8 && r[j] != '#' {
      Mismatch(r, 0, HASHES, j);
    } else {
      LeadingHashes(t, 8);
    }
  }

  /** Whatever the expected output, the finished expression has no eight hashes in it. */
  lemma NoHashesLeft(text: string)
    ensures !Occurs(Create(text), HASHES)
  {
    var second := Replace(Replace(Escape(text, EOL), HASHES_AND_LINE, ANY), EOL + HASHES, ANY);
    forall i: nat ensures !OccursAt(Create(text), i, HASHES) {
      ReplaceLeavesNone(second, i);
    }
  }

  // ---------------------------------------------------------------- meaning

  predicate Plain(text: string) {
    Without(text, '\\') && Without(text, '#')
  }

  /** The two ways to write "any text": hashes, or hashes and a line of one or more characters. */
  datatype Gap = Hashes | HashesAndLine

  function GapText(gap: Gap): string {
    match gap
    case Hashes => HASHES
    case HashesAndLine => HASHES + LINE
  }

  /** Expected output: text with gaps in it. */
  datatype Script = Last(text: string) | More(text: string, gap: Gap, rest: Script)

  predicate AllPlain(script: Script) {
    Plain(script.text) && (script.More? ==> AllPlain(script.rest))
  }

  function Joined(script: Script): string {
    match script
    case Last(text) => text
    case More(text, gap, rest) => text + (GapText(gap) + Joined(rest))
  }

  /** The text without its last line break, if it ends in one. */
  function Trimmed(text: string): string {
    if text == "" then ""
    else if text[|text| - 1] == '\r' && EndsInBreak(text) then Trimmed(text[..|text| - 1])
    else if text[|text| - 1] == '\n' then text[..|text| - 1]
    else text
  }

  predicate EndsInBreak(text: string) {
    text != "" && (text[|text| - 1] == '\n' || (text[|text| - 1] == '\r' && EndsInBreak(text[..|text| - 1])))
  }

  /** The text that is left before a gap: hashes take the line break before them. */
  function Kept(text: string, gap: Gap): string {
    if gap == Hashes then Trimmed(text) else text
  }

  /** What the expression accepts: what is left of each text, and anything for each gap. */
  ghost function Accepted(script: Script): Language {
    match script
    case Last(text) => Outputs(text)
    case More(text, gap, rest) => Then(Outputs(Kept(text, gap)), Then(Everything(), Accepted(rest)))
  }

  /** The outputs with any text for each gap. */
  ghost function WithGaps(script: Script): Language {
    match script
    case Last(text) => Outputs(text)
    case More(text, gap, rest) => Then(Outputs(text), Then(Everything(), WithGaps(rest)))
  }

  lemma {:induction false} EscapeConcat(u: string, v: string)
    requires Without(u, '\\')
    ensures Escape(u + v, EOL) == Escape(u, EOL) + Escape(v, EOL)
  {
    if u == "" {
      assert u + v == v;
    } else {
      hide Tokens, Render, Piece;
      EscapeStep(u + v, EOL);
      EscapeStep(u, EOL);
      assert (u + v)[1..] == u[1..] + v;
      EscapeConcat(u[1..], v);
      Regroup(Piece(u[0], false, EOL), Escape(u[1..], EOL), Escape(v, EOL));
    }
  }

  /** Ends in no backslash, and has a backslash before each dot. */
  predicate Tidy(e: string) {
    && (e != "" ==> e[|e| - 1] != '\\')
    && forall i :: 0 <= i < |e| ==> DotEscaped(e, i)
  }

  predicate DotEscaped(e: string, i: nat)
    requires i < |e|
  {
    e[i] == '.' ==> i > 0 && e[i - 1] == '\\'
  }

  lemma TidyConcat(p: string, r: string)
    requires Tidy(p) && Tidy(r)
    ensures Tidy(p + r)
  {
    var e := p + r;
    forall i | 0 <= i < |e| ensures DotEscaped(e, i) {
      if i < |p| {
        assert DotEscaped(p, i);
      } else {
        assert DotEscaped(r, i - |p|);
      }
    }
  }

  lemma {:induction false} EscapeShape(text: string)
    requires Without(text, '\\')
    ensures Tidy(Escape(text, EOL))
    ensures Without(text, '#') ==> Without(Escape(text, EOL), '#')
  {
    if text != "" {
      hide Tokens, Render, Piece, Tidy;
      EscapeStep(text, EOL);
      EscapeShape(text[1..]);
      PieceShape(text[0]);
      TidyConcat(Piece(text[0], false, EOL), Escape(text[1..], EOL));
    }
  }

  lemma EndsInNoBackslash(text: string)
    requires Without(text, '\\') && Escape(text, EOL) != ""
    ensures Escape(text, EOL)[|Escape(text, EOL)| - 1] != '\\'
  {
    EscapeShape(text);
  }

  lemma PieceShape(c: char)
    requires c != '\\'
    ensures Tidy(Piece(c, false, EOL)) && (c != '#' ==> Without(Piece(c, false, EOL), '#'))
  {
  }

  lemma {:induction false} TrimmedEscape(text: string)
    requires Without(text, '\\')
    ensures Without(Trimmed(text), '\\')
    ensures EndsInBreak(text) ==> Escape(text, EOL) == Escape(Trimmed(text), EOL) + EOL
    ensures !EndsInBreak(text) ==> Trimmed(text) == text
    decreases |text|
  {
    if text != "" {
      var n := |text| - 1;
      var init, last := text[..n], text[n..];
      assert text == init + last && last == [text[n]];
      EscapeConcat(init, last);
      EscapeStep(last, EOL);
      assert last[1..] == "" && Escape("", EOL) == "";
      if text[n] == '\r' && EndsInBreak(text) {
        TrimmedEscape(init);
        assert Escape(last, EOL) == "";
      } else if text[n] == '\n' {
        assert Escape(last, EOL) == EOL;
      }
    }
  }

  /** One more character that is no line break does not complete the spelling of one. */
  lemma NoEolAfter(u: string, c: char)
    requires c != '\\' && c != '\n' && c != '\r'
    requires u != "" ==> u[|u| - 1] != '\\'
    ensures var e := u + Piece(c, false, EOL);
            |e| >= 5 ==> !OccursAt(e, |e| - 5, EOL)
  {
    var e := u + Piece(c, false, EOL);
    if |e| >= 5 {
      if c == 'n' {
        assert e == u + "n";
        Mismatch(e, |e| - 5, EOL, 3);
      } else {
        Mismatch(e, |e| - 5, EOL, 4);
      }
    }
  }

  /** An escaped text ends in the spelling of a line break only if the text ends in a line break. */
  lemma {:induction false} NoBreakNoEol(text: string)
    requires Without(text, '\\') && !EndsInBreak(text)
    ensures |Escape(text, EOL)| >= 5 ==> !OccursAt(Escape(text, EOL), |Escape(text, EOL)| - 5, EOL)
    decreases |text|
  {
    if text != "" {
      var n := |text| - 1;
      var init, last := text[..n], text[n..];
      assert text == init + last && last == [text[n]];
      EscapeConcat(init, last);
      EscapeStep(last, EOL);
      assert last[1..] == "" && Escape("", EOL) == "";
      hide Escape, EndsInBreak, Special;
      if text[n] == '\r' {
        NoBreakNoEol(init);
      } else {
        if Escape(init, EOL) != "" {
          EndsInNoBackslash(init);
        }
        NoEolAfter(Escape(init, EOL), text[n]);
      }
    }
  }

  function GapEscaped(gap: Gap): string {
    if gap == Hashes then HASHES else HASHES_AND_LINE
  }

  /** The output after escaping, piece by piece. */
  function EscapedJoin(script: Script): string {
    match script
    case Last(text) => Escape(text, EOL)
    case More(text, gap, rest) => Escape(text, EOL) + (GapEscaped(gap) + EscapedJoin(rest))
  }

  lemma {:induction false} EscapeOfJoined(script: Script)
    requires AllPlain(script)
    ensures Escape(Joined(script), EOL) == EscapedJoin(script)
  {
    if script.More? {
      hide Escape;
      EscapeOfJoined(script.rest);
      EscapeConcat(script.text, GapText(script.gap) + Joined(script.rest));
      EscapeOfGap(script.gap, Joined(script.rest));
    }
  }

  lemma EscapeOfGap(gap: Gap, t: string)
    ensures Escape(GapText(gap) + t, EOL) == GapEscaped(gap) + Escape(t, EOL)
  {
    hide Escape;
    HashesStay();
    if gap == Hashes {
      EscapeConcat(HASHES, t);
    } else {
      Regroup(HASHES, LINE, t);
      EscapeConcat(HASHES, LINE + t);
      EscapeOfLine(t);
      Regroup(HASHES, EOL + ".+", Escape(t, EOL));
      assert HASHES + (EOL + ".+") == HASHES_AND_LINE;
    }
  }

  lemma EscapeOfLine(t: string)
    ensures Escape(LINE + t, EOL) == (EOL + ".+") + Escape(t, EOL)
  {
    hide Escape;
    var e := Escape(t, EOL);
    var u := ['\\', '+'] + t;
    var v := ['\\', '.'] + u;
    assert LINE + t == ['\n'] + v && (['\n'] + v)[1..] == v;
    EscapeStep(['\n'] + v, EOL);
    PairStays('.', u);
    PairStays('+', t);
    assert Piece('\n', false, EOL) == EOL;
    Chain(EOL, '.', '+', e);
  }

  lemma Chain(p: string, c: char, c': char, t: string)
    ensures p + ([c] + ([c'] + t)) == (p + [c, c']) + t
  {
  }

  /** A character behind a backslash comes out as it is. */
  lemma PairStays(c: char, t: string)
    requires c != '\r' && c != '\n'
    ensures Escape(['\\', c] + t, EOL) == [c] + Escape(t, EOL)
  {
    var u := ['\\', c] + t;
    assert u[1..] == [c] + t && ([c] + t)[1..] == t;
    assert Tokens(u, false) == Tokens([c] + t, true) == [Raw(c)] + Tokens(t, false);
    RenderCons(Raw(c), Tokens(t, false), EOL);
  }

  lemma HashesStay()
    ensures Escape(HASHES, EOL) == HASHES
  {
    HashRunStays(HASHES);
  }

  lemma {:induction false} HashRunStays(run: string)
    requires forall i :: 0 <= i < |run| ==> run[i] == '#'
    ensures Escape(run, EOL) == run
  {
    if run != "" {
      assert Piece('#', false, EOL) == "#";
      hide Escape, Piece;
      EscapeStep(run, EOL);
      HashRunStays(run[1..]);
    }
  }

  /** The first pass looks for a dot that the escaper did not escape: there is none. */
  lemma FirstPassIdle(text: string)
    requires Without(text, '\\')
    ensures Replace(Escape(text, EOL), HASHES_AND_LINE, ANY) == Escape(text, EOL)
  {
    var e, old_ := Escape(text, EOL), HASHES_AND_LINE;
    EscapeShape(text);
    forall i: nat | i < |e| ensures !OccursAt(e, i, old_) {
      if i + 13 < |e| && e[i + 13] == '.' {
        assert DotEscaped(e, i + 13);
        Mismatch(e, i, old_, 12);
      } else {
        Mismatch(e, i, old_, 13);
      }
    }
    assert e + "" == e;
    ReplaceSkips(e, "", old_, ANY);
  }

  /** The output after the first pass. */
  function AfterFirstPass(script: Script): string {
    match script
    case Last(text) => Escape(text, EOL)
    case More(text, gap, rest) => Escape(text, EOL) + (if gap == Hashes then HASHES else ANY) + AfterFirstPass(rest)
  }

  /** What follows a gap: text without hashes and with its dots escaped, then the end or more hashes. */
  ghost predicate Follows(t: string, e: string) {
    && e <= t && Tidy(e) && Without(e, '#')
    && (|e| < |t| ==> |e| + 8 <= |t| && forall j :: |e| <= j < |e| + 8 ==> t[j] == '#')
  }

  lemma EscapedFollows(script: Script)
    requires AllPlain(script)
    ensures Follows(EscapedJoin(script), Escape(script.text, EOL))
  {
    EscapeShape(script.text);
    hide Escape, Tidy;
    if script.More? {
      var e, t := Escape(script.text, EOL), EscapedJoin(script);
      forall j | |e| <= j < |e| + 8 ensures t[j] == '#' {
        assert t[j] == GapEscaped(script.gap)[j - |e|] == HASHES[j - |e|];
      }
    }
  }

  /** The first pass does not take hashes that such a text follows. */
  lemma NoLineMatch(u: string, t: string, e: string, i: nat)
    requires Without(u, '#') && Follows(t, e) && i < |u| + 8
    ensures !OccursAt((u + HASHES) + t, i, HASHES_AND_LINE)
  {
    hide OccursAt;
    var s := (u + HASHES) + t;
    var at := |u| + 8;
    if i < |u| {
      assert s[i] == u[i];
      Mismatch(s, i, HASHES_AND_LINE, 0);
    } else if e == "" {
      assert i + 8 < |s| ==> s[i + 8] == t[i + 8 - at];
      Mismatch(s, i, HASHES_AND_LINE, 8);
    } else if |u| < i {
      assert s[at] == e[0];
      Mismatch(s, i, HASHES_AND_LINE, at - i);
    } else if |e| <= 5 {
      assert i + 8 + |e| < |s| ==> s[i + 8 + |e|] == t[|e|];
      Mismatch(s, i, HASHES_AND_LINE, 8 + |e|);
    } else {
      assert s[at + 4] == e[4] && s[at + 5] == e[5] && DotEscaped(e, 5);
      if e[5] == '.' {
        Mismatch(s, i, HASHES_AND_LINE, 12);
      } else {
        Mismatch(s, i, HASHES_AND_LINE, 13);
      }
    }
  }

  /** A pass that looks for hashes first skips a stretch without any. */
  lemma SkipsNoHash(u: string, t: string, old_: string)
    requires Without(u, '#') && old_ != "" && old_[0] == '#'
    ensures Replace(u + t, old_, ANY) == u + Replace(t, old_, ANY)
  {
    forall i: nat | i < |u| ensures !OccursAt(u + t, i, old_) {
      Mismatch(u + t, i, old_, 0);
    }
    ReplaceSkips(u, t, old_, ANY);
  }

  /** The first pass takes exactly the gaps that are written with a line. */
  lemma {:induction false} FirstPass(script: Script)
    requires AllPlain(script)
    ensures Replace(EscapedJoin(script), HASHES_AND_LINE, ANY) == AfterFirstPass(script)
  {
    EscapeShape(script.text);
    hide Escape, Tidy, Replace;
    var u := Escape(script.text, EOL);
    match script
    case Last(_) =>
      SkipsNoHash(u, "", HASHES_AND_LINE);
      ReplaceNothing(HASHES_AND_LINE);
      assert u + "" == u;
    case More(_, gap, rest) =>
      var t := EscapedJoin(rest);
      FirstPass(rest);
      if gap == Hashes {
        EscapedFollows(rest);
        forall i: nat | i < |u + HASHES| ensures !OccursAt((u + HASHES) + t, i, HASHES_AND_LINE) {
          NoLineMatch(u, t, Escape(rest.text, EOL), i);
        }
        ReplaceSkips(u + HASHES, t, HASHES_AND_LINE, ANY);
        Regroup(u, HASHES, t);
      } else {
        SkipsNoHash(u, HASHES_AND_LINE + t, HASHES_AND_LINE);
        ReplaceHits(t, HASHES_AND_LINE, ANY);
        Regroup(u, ANY, AfterFirstPass(rest));
      }
  }

  lemma ReplaceNothing(old_: string)
    requires old_ != ""
    ensures Replace("", old_, ANY) == ""
  {
  }

  /** The second pass on one text and the hashes after it. */
  lemma SecondPassStep(text: string, t: string)
    requires Plain(text)
    ensures Replace(Escape(text, EOL) + HASHES + t, EOL + HASHES, ANY) ==
            Escape(Trimmed(text), EOL) + (if EndsInBreak(text) then ANY else HASHES) + Replace(t, EOL + HASHES, ANY)
  {
    var u, old_ := Escape(text, EOL), EOL + HASHES;
    var s := u + HASHES + t;
    EscapeShape(text);
    TrimmedEscape(text);
    if EndsInBreak(text) {
      var v := Escape(Trimmed(text), EOL);
      assert s == v + (old_ + t);
      forall i: nat | i < |v| ensures !OccursAt(v + (old_ + t), i, old_) {
        assert s[i + 5] == u[i + 5];
        Mismatch(s, i, old_, 5);
      }
      ReplaceSkips(v, old_ + t, old_, ANY);
      ReplaceHits(t, old_, ANY);
    } else {
      var head := u + HASHES;
      forall i: nat | i < |head| ensures !OccursAt(head + t, i, old_) {
        NoLateMatch(text, t, i);
      }
      ReplaceSkips(head, t, old_, ANY);
    }
  }

  lemma NoLateMatch(text: string, t: string, i: nat)
    requires Plain(text) && !EndsInBreak(text)
    requires i < |Escape(text, EOL) + HASHES|
    ensures !OccursAt((Escape(text, EOL) + HASHES) + t, i, EOL + HASHES)
  {
    var u, old_ := Escape(text, EOL), EOL + HASHES;
    var s := (u + HASHES) + t;
    EscapeShape(text);
    if |u| <= i {
      Mismatch(s, i, old_, 0);
    } else if |u| < i + 5 {
      Mismatch(s, i, old_, |u| - i);
    } else if i + 5 < |u| {
      Mismatch(s, i, old_, 5);
    } else {
      NoBreakNoEol(text);
      var j :| 0 <= j < 5 && u[i + j] != EOL[j];
      Mismatch(s, i, old_, j);
    }
  }

  /** The second pass skips a text whose gap is already done. */
  lemma SecondPassSkips(u: string, t: string)
    requires Without(u, '#')
    ensures Replace((u + ANY) + t, EOL + HASHES, ANY) == (u + ANY) + Replace(t, EOL + HASHES, ANY)
  {
    var v, old_ := u + ANY, EOL + HASHES;
    forall i: nat | i < |v| ensures !OccursAt(v + t, i, old_) {
      if i + 5 < |v| {
        assert (v + t)[i + 5] == v[i + 5] != '#';
        Mismatch(v + t, i, old_, 5);
      } else {
        assert (v + t)[|v| - 1] == '*';
        Mismatch(v + t, i, old_, |v| - 1 - i);
      }
    }
    ReplaceSkips(v, t, old_, ANY);
  }

  /** The finished expression, piece by piece. */
  function Finished(script: Script): string {
    match script
    case Last(text) => Escape(text, EOL)
    case More(text, gap, rest) => Escape(Kept(text, gap), EOL) + ANY + Finished(rest)
  }

  function AfterSecondPass(script: Script): string {
    match script
    case Last(text) => Escape(text, EOL)
    case More(text, gap, rest) =>
      Escape(Kept(text, gap), EOL) + (if gap == Hashes && !EndsInBreak(text) then HASHES else ANY) +
      AfterSecondPass(rest)
  }

  lemma {:induction false} SecondPass(script: Script)
    requires AllPlain(script)
    ensures Replace(AfterFirstPass(script), EOL + HASHES, ANY) == AfterSecondPass(script)
  {
    EscapeShape(script.text);
    hide Escape, Tidy;
    match script
    case Last(text) =>
      var e := Escape(text, EOL);
      forall i: nat | i < |e| ensures !OccursAt(e, i, EOL + HASHES) {
        Mismatch(e, i, EOL + HASHES, 5);
      }
      assert e + "" == e;
      ReplaceSkips(e, "", EOL + HASHES, ANY);
    case More(text, gap, rest) =>
      SecondPass(rest);
      if gap == Hashes {
        SecondPassStep(text, AfterFirstPass(rest));
      } else {
        SecondPassSkips(Escape(text, EOL), AfterFirstPass(rest));
      }
  }

  lemma {:induction false} TrimmedPlain(text: string)
    requires Plain(text)
    ensures Plain(Trimmed(text))
    decreases |text|
  {
    if text != "" {
      TrimmedPlain(text[..|text| - 1]);
    }
  }

  lemma {:induction false} ThirdPass(script: Script)
    requires AllPlain(script)
    ensures Replace(AfterSecondPass(script), HASHES, ANY) == Finished(script)
  {
    TrimmedPlain(script.text);
    EscapeShape(script.text);
    EscapeShape(Trimmed(script.text));
    hide Escape, Tidy, Replace, Trimmed, EndsInBreak;
    match script
    case Last(text) =>
      var e := Escape(text, EOL);
      SkipsNoHash(e, "", HASHES);
      ReplaceNothing(HASHES);
      assert e + "" == e;
    case More(text, gap, rest) =>
      var u, t := Escape(Kept(text, gap), EOL), AfterSecondPass(rest);
      ThirdPass(rest);
      if gap == Hashes && !EndsInBreak(text) {
        assert (u + HASHES) + t == u + (HASHES + t);
        SkipsNoHash(u, HASHES + t, HASHES);
        ReplaceHits(t, HASHES, ANY);
        Regroup(u, ANY, Finished(rest));
      } else {
        SkipsNoHash(u + ANY, t, HASHES);
      }
  }

  lemma CreateIsFinished(script: Script)
    requires AllPlain(script)
    ensures Create(Joined(script)) == Finished(script)
  {
    EscapeOfJoined(script);
    FirstPass(script);
    SecondPass(script);
    ThirdPass(script);
  }

  lemma {:induction false} FinishedReads(script: Script)
    requires AllPlain(script)
    ensures Detached(Finished(script)) && Reads(Finished(script), Accepted(script))
  {
    match script
    case Last(text) =>
      var e := Escape(text, EOL);
      assert e + "" == e;
      ReadsEmpty();
      EscapeDetached(text, EOL, "");
      EscapeReads(text, EOL, "", Word(""));
      ThenUnit(Outputs(text));
    case More(text, gap, rest) =>
      var a, f := Kept(text, gap), Finished(rest);
      TrimmedPlain(text);
      FinishedReads(rest);
      ReadsAnything(f, Accepted(rest));
      EscapeDetached(a, EOL, ANY + f);
      EscapeReads(a, EOL, ANY + f, Then(Everything(), Accepted(rest)));
      Regroup(Escape(a, EOL), ANY, f);
  }

  /**
   For every expected output of plain texts with gaps between them, written in either
   way, the finished expression is in the fragment and accepts exactly: each text as
   expected, any text for a gap, where a line break right before hashes belongs to them.
   */
  lemma CreateMeaning(script: Script)
    requires AllPlain(script)
    ensures Parse(Create(Joined(script))).Some?
    ensures Lang(Create(Joined(script))) == Accepted(script)
  {
    CreateIsFinished(script);
    FinishedReads(script);
    ReadsIsLang(Finished(script), Accepted(script));
  }

  /** Dropping the line break before hashes only widens what is accepted. */
  lemma {:induction false} GapsAccepted(script: Script)
    requires AllPlain(script)
    ensures WithGaps(script) <= Accepted(script)
  {
    if script.More? {
      var rest := script.rest;
      GapsAccepted(rest);
      var a := Outputs(script.text);
      ThenMonotone(Everything(), WithGaps(rest), Everything(), Accepted(rest));
      ThenMonotone(a, Then(Everything(), WithGaps(rest)), a, Then(Everything(), Accepted(rest)));
      BreakSwallowed(script.text, Accepted(rest));
    }
  }

  lemma BreakSwallowed(text: string, l: Language)
    ensures Then(Outputs(text), Then(Everything(), l)) <= Then(Outputs(Trimmed(text)), Then(Everything(), l))
  {
    TrimmedOutputs(text);
    if EndsInBreak(text) {
      var b := Outputs(Trimmed(text));
      ThenAssociative(b, LineBreak(), Then(Everything(), l));
      ThenAssociative(LineBreak(), Everything(), l);
      ThenMonotone(Then(LineBreak(), Everything()), l, Everything(), l);
      ThenMonotone(b, Then(Then(LineBreak(), Everything()), l), b, Then(Everything(), l));
    }
  }

  lemma {:induction false} TrimmedOutputs(text: string)
    ensures EndsInBreak(text) ==> Outputs(text) == Then(Outputs(Trimmed(text)), LineBreak())
    ensures !EndsInBreak(text) ==> Trimmed(text) == text
    decreases |text|
  {
    if text != "" {
      var n := |text| - 1;
      var init, last := text[..n], text[n..];
      assert text == init + last && last == [text[n]] && last[1..] == "";
      OutputsConcat(init, last);
      if text[n] == '\r' && EndsInBreak(text) {
        TrimmedOutputs(init);
        assert Outputs(last) == Word("");
        ThenUnit(Outputs(init));
      } else if text[n] == '\n' {
        ThenUnit(LineBreak());
      }
    }
  }

  lemma {:induction false} OutputsConcat(u: string, v: string)
    ensures Outputs(u + v) == Then(Outputs(u), Outputs(v))
  {
    if u == "" {
      assert u + v == v;
      UnitThen(Outputs(v));
    } else {
      assert (u + v)[1..] == u[1..] + v;
      OutputsConcat(u[1..], v);
      ThenAssociative(LineBreak(), Outputs(u[1..]), Outputs(v));
      ThenAssociative(Word([u[0]]), Outputs(u[1..]), Outputs(v));
    }
  }

  /** Every output a + w + b with a and b as expected and any w for the gap is accepted. */
  lemma HashesMatchAnything(before: string, gap: Gap, after: string, a: string, w: string, b: string)
    requires Plain(before) && Plain(after)
    requires a in Outputs(before) && b in Outputs(after)
    ensures a + (w + b) in Lang(Create(before + (GapText(gap) + after)))
  {
    var script := More(before, gap, Last(after));
    assert Joined(script) == before + (GapText(gap) + after);
    CreateMeaning(script);
    GapsAccepted(script);
    InThen(w, b, Everything(), Outputs(after));
    InThen(a, w + b, Outputs(before), Then(Everything(), Outputs(after)));
    assert WithGaps(Last(after)) == Outputs(after);
  }
}
