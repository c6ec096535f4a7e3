/**
 The harness of the Busybox test suite: it reads the log of a run, line by line, and
 gives every message line to one testcase.
 */
module Busybox {
  import opened Options
  import opened TestTypes

  /** The words the RESULT pattern admits. */
  type ResultWord = s: string | s in {"PASS", "SKIPPED", "UNTESTED", "FAIL"} witness "PASS"

  datatype Event =
    | Start(name: string)
    | Result(word: ResultWord, name: string)
    | Final
    | Message(line: string)

  function Flat(lines: seq<string>): string {
    if lines == [] then "" else Flat(lines[..|lines| - 1]) + lines[|lines| - 1]
  }

  lemma FlatAppend(lines: seq<string>, line: string)
    ensures Flat(lines + [line]) == Flat(lines) + line
  {
  }

  function StatusOf(word: ResultWord): (s: Status)
    ensures FromStr(word) == Some(s)
  {
    FromStr(word).value
  }

  /** What the harness has, as values; `open` says that the last subresult can still be extended. */
  datatype Log = Log(subs: seq<Sub>, open: bool, pending: seq<string>, status: Status)

  const EMPTY := Log([], false, [], OK)

  predicate Extends(l: Log) {
    l.open && l.subs != [] && l.subs[|l.subs| - 1].status == Some(FAIL)
  }

  function Read(l: Log, e: Event): Log {
    match e
    case Start(_) => l.(open := false)
    case Message(line) =>
      if Extends(l) then
        var k := |l.subs| - 1;
        l.(subs := l.subs[k := l.subs[k].(msg := l.subs[k].msg + line)])
      else l.(pending := l.pending + [line])
    case Result(word, name) =>
      Log(l.subs + [Sub(name, Some(StatusOf(word)), Flat(l.pending))], true, [],
          if StatusOf(word) == FAIL then FAIL else l.status)
    case Final => l
  }

  function ReadAll(events: seq<Event>): Log {
    if events == [] then EMPTY else Read(ReadAll(events[..|events| - 1]), events[|events| - 1])
  }

  /** The events up to the end of the suite. */
  function UpToFinal(events: seq<Event>): seq<Event> {
    if events == [] || events[0] == Final then [] else [events[0]] + UpToFinal(events[1..])
  }

  lemma {:induction false} UpToFinalIs(events: seq<Event>, n: nat)
    requires n <= |events| && (n < |events| ==> events[n] == Final)
    requires forall i :: 0 <= i < n ==> events[i] != Final
    ensures UpToFinal(events) == events[..n]
  {
    if n > 0 {
      UpToFinalIs(events[1..], n - 1);
      assert events[..n] == [events[0]] + events[1..][..n - 1];
    }
  }

  /**
   The harness's variables. The subresult it keeps a reference to is the one it added
   last, so a line appended through that reference shows up in the result.
   */
  class Reader {
    const result: TestResult
    var subresult: SubResult?
    var msg: seq<string>
    var testStatus: Status

    ghost predicate Valid()
      reads this, result
    {
      && result.Valid()
      && (subresult != null ==> result.subresults != [] && subresult == result.subresults[|result.subresults| - 1])
    }

    ghost function Repr(): set<object>
      reads this, result
    {
      {this, result, result.current} + set o: SubResult | o in result.subresults
    }

    ghost function View(): Log
      reads this, result, result.subresults
    {
      Log(Views(result.subresults), subresult != null, msg, testStatus)
    }

    constructor (result: TestResult)
      requires result.Valid() && result.subresults == []
      ensures Valid() && this.result == result
      ensures View() == EMPTY
      ensures fresh(Repr() - {result, result.current})
    {
      this.result := result;
      subresult := null;
      msg := [];
      testStatus := OK;
    }

    method OnMessage(line: string)
      requires Valid()
      modifies this, result.subresults
      ensures Valid() && Repr() == old(Repr())
      ensures View() == Read(old(View()), Message(line))
    {
      if subresult != null && subresult.status == Some(FAIL) {
        ghost var subs := result.subresults;
        subresult.msg := subresult.msg + line;
        assert Views(subs) == old(Views(result.subresults))[|subs| - 1 := subresult.View()];
      } else {
        msg := msg + [line];
      }
    }

    method OnResult(word: ResultWord, name: string)
      requires Valid()
      modifies this, result, result.current
      ensures Valid() && fresh(Repr() - old(Repr()))
      ensures View() == Read(old(View()), Result(word, name))
    {
      hide FromStr, StatusOf, Flat, Views;
      var status := StatusOf(word);
      if status == FAIL {
        testStatus := FAIL;
      }
      subresult := result.AddSubresult(name, Some(status), Flat(msg));
      msg := [];
    }

    /** One line of the log. */
    method On(e: Event)
      requires Valid() && e != Final
      modifies this, result, result.current, result.subresults
      ensures Valid() && fresh(Repr() - old(Repr()))
      ensures View() == Read(old(View()), e)
    {
      hide FromStr, StatusOf, Flat, Views;
      match e {
        case Start(_) => subresult := null;
        case Message(line) => OnMessage(line);
        case Result(word, name) => OnResult(word, name);
      }
    }
  }

  lemma ReadNone(events: seq<Event>)
    ensures ReadAll(events[..0]) == EMPTY
  {
  }

  lemma ReadNext(events: seq<Event>, i: nat)
    requires i < |events|
    ensures ReadAll(events[..i + 1]) == Read(ReadAll(events[..i]), events[i])
  {
    assert events[..i + 1][..i] == events[..i];
  }

  /**
   The harness's loop. It returns at the end of the suite; a log that has none leaves it
   waiting until the reads time out (None), with the subresults added so far in place.
   */
  method Harness(events: seq<Event>, result: TestResult) returns (status: Option<Status>, pending: seq<string>)
    requires result.Valid() && result.subresults == []
    modifies result, result.current
    ensures result.Valid()
    ensures status.None? <==> Final !in events
    ensures var l := ReadAll(UpToFinal(events));
            && Views(result.subresults) == l.subs && pending == l.pending
            && (status.Some? ==> status.value == l.status)
  {
    hide FromStr, StatusOf, Flat, Views, ReadAll, Read, UpToFinal;
    var r := new Reader(result);
    var i := 0;
    ReadNone(events);
    while i < |events| && events[i] != Final
      invariant 0 <= i <= |events|
      invariant forall j :: 0 <= j < i ==> events[j] != Final
      invariant r.Valid() && r.result == result
      invariant fresh(r.Repr() - {result, old(result.current)})
      invariant r.View() == ReadAll(events[..i])
    {
      ReadNext(events, i);
      r.On(events[i]);
      i := i + 1;
    }
    UpToFinalIs(events, i);
    status, pending := if i < |events| then Some(r.testStatus) else None, r.msg;
  }

  // ---------------------------------------------------------------- whose line is it

  function ResultCount(events: seq<Event>): nat {
    if events == [] then 0
    else ResultCount(events[..|events| - 1]) + if events[|events| - 1].Result? then 1 else 0
  }

  /** Was the latest START or RESULT a failed result? */
  predicate AfterFailure(events: seq<Event>) {
    events != [] &&
    match events[|events| - 1]
    case Start(_) => false
    case Result(word, _) => word == "FAIL"
    case Message(_) => AfterFailure(events[..|events| - 1])
    case Final => AfterFailure(events[..|events| - 1])
  }

  /**
   The number of the testcase a line belongs to that comes after these events: right
   after a failure the failed one, otherwise the one whose result comes next.
   */
  function Owner(events: seq<Event>): int {
    ResultCount(events) - if AfterFailure(events) then 1 else 0
  }

  function LinesOf(events: seq<Event>, k: int): seq<string> {
    if events == [] then []
    else
      var before := events[..|events| - 1];
      match events[|events| - 1]
      case Message(line) => LinesOf(before, k) + if Owner(before) == k then [line] else []
      case _ => LinesOf(before, k)
  }

  function AllLines(events: seq<Event>): seq<string> {
    if events == [] then []
    else
      var before := events[..|events| - 1];
      match events[|events| - 1]
      case Message(line) => AllLines(before) + [line]
      case _ => AllLines(before)
  }

  /** A testcase that has no result yet owns lines only if it is the next one. */
  lemma {:induction false} NothingAhead(events: seq<Event>, k: int)
    requires k > ResultCount(events)
    ensures LinesOf(events, k) == []
  {
    if events != [] {
      NothingAhead(events[..|events| - 1], k);
    }
  }

  lemma {:induction false} NoPendingAfterFailure(events: seq<Event>)
    ensures Extends(ReadAll(events)) ==> ReadAll(events).pending == []
  {
    if events != [] {
      NoPendingAfterFailure(events[..|events| - 1]);
    }
  }

  /** Every line is with its owner, and the lines of the next testcase are pending. */
  ghost predicate Delivered(events: seq<Event>, l: Log) {
    && |l.subs| == ResultCount(events)
    && (Extends(l) <==> AfterFailure(events))
    && l.pending == LinesOf(events, |l.subs|)
    && forall k :: 0 <= k < |l.subs| ==> l.subs[k].msg == Flat(LinesOf(events, k))
  }

  /** One more line: only its owner's lines grow. */
  lemma LineAdded(before: seq<Event>, line: string, k: int)
    ensures LinesOf(before + [Message(line)], k) ==
            if Owner(before) == k then LinesOf(before, k) + [line] else LinesOf(before, k)
    ensures ResultCount(before + [Message(line)]) == ResultCount(before)
    ensures AfterFailure(before + [Message(line)]) == AfterFailure(before)
  {
    var events := before + [Message(line)];
    assert events[..|events| - 1] == before;
  }

  /** After a failure the line is appended to the failed testcase. */
  lemma FailedGetsLine(before: seq<Event>, l: Log, line: string)
    requires Delivered(before, l) && Extends(l)
    ensures Delivered(before + [Message(line)], Read(l, Message(line)))
  {
    hide Flat, LinesOf, ResultCount, AfterFailure;
    var events, l' := before + [Message(line)], Read(l, Message(line));
    LineAdded(before, line, |l.subs|);
    FlatAppend(LinesOf(before, |l.subs| - 1), line);
    forall k | 0 <= k < |l'.subs| ensures l'.subs[k].msg == Flat(LinesOf(events, k)) {
      LineAdded(before, line, k);
    }
  }

  /** Otherwise the line waits for the next result. */
  lemma NextGetsLine(before: seq<Event>, l: Log, line: string)
    requires Delivered(before, l) && !Extends(l)
    ensures Delivered(before + [Message(line)], Read(l, Message(line)))
  {
    hide Flat, LinesOf, ResultCount, AfterFailure;
    var events, l' := before + [Message(line)], Read(l, Message(line));
    LineAdded(before, line, |l.subs|);
    forall k | 0 <= k < |l'.subs| ensures l'.subs[k].msg == Flat(LinesOf(events, k)) {
      LineAdded(before, line, k);
    }
  }

  lemma ResultDelivered(before: seq<Event>, word: ResultWord, name: string)
    requires Delivered(before, ReadAll(before))
    ensures Delivered(before + [Result(word, name)], ReadAll(before + [Result(word, name)]))
  {
    var events := before + [Result(word, name)];
    assert events[..|events| - 1] == before;
    NothingAhead(before, ResultCount(before) + 1);
  }

  /**
   Every line goes to its owner: the message of testcase k is exactly the lines that
   belong to it, in order, and the pending buffer holds those of the next one.
   */
  lemma {:induction false} LinesReachTheirOwner(events: seq<Event>)
    ensures Delivered(events, ReadAll(events))
  {
    if events != [] {
      var before, e := events[..|events| - 1], events[|events| - 1];
      assert events == before + [e];
      LinesReachTheirOwner(before);
      match e
      case Message(line) =>
        if Extends(ReadAll(before)) {
          FailedGetsLine(before, ReadAll(before), line);
        } else {
          NextGetsLine(before, ReadAll(before), line);
        }
      case Result(word, name) => ResultDelivered(before, word, name);
      case _ =>
    }
  }

  /** A line that no result takes: not right after a failure, and no result follows. */
  ghost predicate Orphan(events: seq<Event>, i: nat) {
    && i < |events| && events[i].Message?
    && !AfterFailure(events[..i])
    && forall j :: i < j < |events| ==> !events[j].Result?
  }

  /** Lines are left over exactly when some line is an orphan. */
  lemma {:induction false} PendingIff(events: seq<Event>)
    ensures ReadAll(events).pending != [] <==> exists i :: Orphan(events, i)
  {
    if events != [] {
      var n := |events| - 1;
      var before := events[..n];
      PendingIff(before);
      LinesReachTheirOwner(before);
      NoPendingAfterFailure(before);
      forall i: nat | i < n
        ensures Orphan(events, i) <==> Orphan(before, i) && !events[n].Result?
      {
        assert events[..i] == before[..i];
        assert forall j :: 0 <= j < n ==> events[j] == before[j];
      }
      assert Orphan(events, n) <==> events[n].Message? && !AfterFailure(before);
      if i :| Orphan(before, i) && !events[n].Result? {
        assert Orphan(events, i);
      }
    }
  }

  /** Two logs whose last line reaches no result; in the second the only result is a failure. */
  lemma LinesCanBeLeftOver()
    ensures ReadAll([Result("PASS", "t"), Message("m")]).pending == ["m"]
    ensures ReadAll([Result("FAIL", "t"), Start("u"), Message("m")]).pending == ["m"]
  {
    var r1, r2: Event := Result("PASS", "t"), Result("FAIL", "t");
    assert [r1, Message("m")][..1] == [r1] && [r1][..0] == [];
    assert [r2, Start("u"), Message("m")][..2] == [r2, Start("u")];
    assert [r2, Start("u")][..1] == [r2] && [r2][..0] == [];
  }

  function Messages(subs: seq<Sub>): seq<string> {
    if subs == [] then [] else Messages(subs[..|subs| - 1]) + [subs[|subs| - 1].msg]
  }

  /** The text of the subresults in order. */
  function Text(subs: seq<Sub>): string {
    Flat(Messages(subs))
  }

  lemma TextAppend(subs: seq<Sub>, sub: Sub)
    ensures Text(subs + [sub]) == Text(subs) + sub.msg
  {
  }

  lemma TextExtend(subs: seq<Sub>, line: string)
    requires subs != []
    ensures var k := |subs| - 1;
            Text(subs[k := subs[k].(msg := subs[k].msg + line)]) == Text(subs) + line
  {
  }

  /** What one event adds to the text of the subresults and the pending buffer. */
  lemma TextAfter(l: Log, e: Event)
    requires Extends(l) ==> l.pending == []
    ensures Text(Read(l, e).subs) + Flat(Read(l, e).pending) ==
            Text(l.subs) + Flat(l.pending) + if e.Message? then e.line else ""
  {
    hide Text, Flat, StatusOf;
    EmptyFlat();
    match e
    case Message(line) =>
      if Extends(l) {
        TextExtend(l.subs, line);
      } else {
        FlatAppend(l.pending, line);
      }
    case Result(word, name) =>
      TextAppend(l.subs, Sub(name, Some(StatusOf(word)), Flat(l.pending)));
    case _ =>
  }

  /**
   Nothing is lost, repeated or reordered: the messages of the subresults in order,
   followed by the pending buffer, are the message lines of the log.
   */
  lemma {:induction false} LinesConserved(events: seq<Event>)
    ensures Text(ReadAll(events).subs) + Flat(ReadAll(events).pending) == Flat(AllLines(events))
  {
    if events != [] {
      hide Text, Flat, Read, Extends;
      var before, e := events[..|events| - 1], events[|events| - 1];
      LinesConserved(before);
      NoPendingAfterFailure(before);
      TextAfter(ReadAll(before), e);
      if e.Message? {
        FlatAppend(AllLines(before), e.line);
      }
    } else {
      EmptyFlat();
    }
  }

  lemma EmptyFlat()
    ensures Flat([]) == ""
  {
  }

  /** The suite fails exactly when some testcase failed, and each testcase has the status it reported. */
  lemma {:induction false} FailsIffSomeResultFails(events: seq<Event>)
    ensures ReadAll(events).status == FAIL <==>
            exists i :: 0 <= i < |events| && events[i].Result? && events[i].word == "FAIL"
    ensures ReadAll(events).status == FAIL <==>
            exists k :: 0 <= k < |ReadAll(events).subs| && ReadAll(events).subs[k].status == Some(FAIL)
  {
    if events != [] {
      var n := |events| - 1;
      var before := events[..n];
      FailsIffSomeResultFails(before);
      var l, l' := ReadAll(before), ReadAll(events);
      if l.status == FAIL {
        var i :| 0 <= i < n && before[i].Result? && before[i].word == "FAIL";
        assert events[i] == before[i];
        var k :| 0 <= k < |l.subs| && l.subs[k].status == Some(FAIL);
        assert l'.subs[k].status == Some(FAIL);
      } else {
        assert forall i :: 0 <= i < n ==> events[i] == before[i];
        assert forall k :: 0 <= k < |l.subs| ==> l'.subs[k].status == l.subs[k].status;
        assert events[n].Result? && events[n].word == "FAIL" ==> l'.subs[|l.subs|].status == Some(FAIL);
      }
    }
  }
}
