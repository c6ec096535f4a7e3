/**
 The event loop of the LSB-VSX harness: it numbers the testcases of a run from the
 selection in the test's name, reports the unselected ones as skipped and counts
 statuses for the verdict.
 */
module LsbTracker {
  import opened Options
  import opened TestTypes
  import opened LsbNumbers
  import opened Strings

  /** The patterns that capture a line capture at least one character. */
  type Line = s: string | s != "" witness "-"

  datatype Event =
    | TcmStart
    | TpStart
    | StatusLine(word: string)
    | IcEnd
    | TcEnd
    | MsgLine(line: Line)
    | VsxError(text: Line)

  /** An added subresult; the harness names it after its number. */
  datatype Entry = Entry(number: int, status: Option<Status>, msg: string)

  function Skipped(number: int): Entry {
    Entry(number, Some(SKIP), "")
  }

  function Skips(lo: int, hi: int): (es: seq<Entry>)
    ensures |es| == |Span(lo, hi)|
    ensures forall i :: 0 <= i < |es| ==> es[i] == Skipped(lo + i)
  {
    seq(|Span(lo, hi)|, i => Skipped(lo + i))
  }

  /** A status word the runner does not know counts as a failure. */
  function StatusOrFail(word: string): Status {
    if FromStr(word).Some? then FromStr(word).value else FAIL
  }

  function AddLine(msg: string, line: string): string {
    if msg == "" then line else msg + "\n" + line
  }

  /** The counters and messages the verdict is made from. */
  datatype Tally = Tally(ok: nat, fail: nat, skip: nat, error: string)

  /** The testcase being read. */
  datatype Block = Block(getMsg: bool, msg: string, substatus: Option<Status>)

  /** Which numbers are done: the previous one, the current one and those still to come. */
  datatype Numbering = Numbering(prev: int, curr: int, rest: seq<int>, entries: seq<Entry>)

  datatype Tracker = Tracker(tally: Tally, block: Block, numbering: Numbering)

  function Count(t: Tally, s: Status): Tally {
    match s
    case OK => t.(ok := t.ok + 1)
    case FAIL => t.(fail := t.fail + 1)
    case SKIP => t.(skip := t.skip + 1)
  }

  function ReadTally(t: Tally, e: Event): Tally {
    match e
    case StatusLine(word) => Count(t, StatusOrFail(word))
    case VsxError(text) => t.(error := AddLine(t.error, text))
    case _ => t
  }

  function ReadBlock(b: Block, e: Event): Block {
    match e
    case TpStart => b.(substatus := Some(FAIL), getMsg := true)
    case StatusLine(word) => b.(substatus := Some(StatusOrFail(word)))
    case IcEnd => b.(getMsg := false, msg := "")
    case MsgLine(line) => if b.getMsg then b.(msg := AddLine(b.msg, line)) else b
    case _ => b
  }

  function ReadNumbering(n: Numbering, b: Block, e: Event, count: int): Numbering {
    match e
    case TcmStart => n.(entries := n.entries + Skips(n.prev + 1, n.curr))
    case IcEnd =>
      var next := if n.rest == [] then count + 1 else n.rest[0];
      Numbering(n.curr, next, if n.rest == [] then [] else n.rest[1..],
                n.entries + [Entry(n.curr, b.substatus, b.msg)] + Skips(n.curr + 1, next))
    case _ => n
  }

  function Read(t: Tracker, e: Event, count: int): Tracker {
    Tracker(ReadTally(t.tally, e), ReadBlock(t.block, e), ReadNumbering(t.numbering, t.block, e, count))
  }

  function Initial(nums: seq<int>): Tracker
    requires nums != []
  {
    Tracker(Tally(0, 0, 0, ""), Block(false, "", None), Numbering(0, nums[0], nums[1..], []))
  }

  function ReadAll(nums: seq<int>, count: int, events: seq<Event>): Tracker
    requires nums != []
  {
    if events == [] then Initial(nums)
    else Read(ReadAll(nums, count, events[..|events| - 1]), events[|events| - 1], count)
  }

  function Verdict(t: Tally): Status {
    if t.fail != 0 || (t.ok == 0 && t.fail == 0 && t.skip == 0) || t.error != "" then FAIL else OK
  }

  function UpToEnd(events: seq<Event>): seq<Event> {
    if events == [] || events[0] == TcEnd then [] else [events[0]] + UpToEnd(events[1..])
  }

  lemma {:induction false} UpToEndIs(events: seq<Event>, n: nat)
    requires n <= |events| && (n < |events| ==> events[n] == TcEnd)
    requires forall i :: 0 <= i < n ==> events[i] != TcEnd
    ensures UpToEnd(events) == events[..n]
  {
    if n > 0 {
      UpToEndIs(events[1..], n - 1);
      assert events[..n] == [events[0]] + events[1..][..n - 1];
    }
  }

  lemma ReadNone(nums: seq<int>, count: int, events: seq<Event>)
    requires nums != []
    ensures ReadAll(nums, count, events[..0]) == Initial(nums)
  {
  }

  lemma ReadNext(nums: seq<int>, count: int, events: seq<Event>, i: nat)
    requires nums != [] && i < |events|
    ensures ReadAll(nums, count, events[..i + 1]) == Read(ReadAll(nums, count, events[..i]), events[i], count)
  {
    assert events[..i + 1][..i] == events[..i];
  }

  /** The harness's variables. */
  class Reader {
    const count: int

    var ok: nat
    var fail: nat
    var skip: nat
    var vsxError: string

    var getMsg: bool
    var msg: string
    var substatus: Option<Status>

    var prev: int
    var curr: int
    var rest: seq<int>
    var entries: seq<Entry>

    ghost function View(): Tracker
      reads this
    {
      Tracker(Tally(ok, fail, skip, vsxError), Block(getMsg, msg, substatus), Numbering(prev, curr, rest, entries))
    }

    constructor (numbers: seq<int>, count: int)
      requires numbers != []
      ensures this.count == count && View() == Initial(numbers)
    {
      this.count := count;
      ok, fail, skip, vsxError := 0, 0, 0, "";
      getMsg, msg, substatus := false, "", None;
      prev, curr, rest, entries := 0, numbers[0], numbers[1..], [];
    }

    /** A status word counts, as a failure if the runner does not know it. */
    method OnStatus(word: string)
      modifies this
      ensures View() == Read(old(View()), StatusLine(word), count)
    {
      hide FromStr;
      var known := FromStr(word);
      var s := if known.Some? then known.value else FAIL;
      substatus := Some(s);
      match s {
        case OK => ok := ok + 1;
        case FAIL => fail := fail + 1;
        case SKIP => skip := skip + 1;
      }
    }

    /** A testcase ends: its entry, then the gap up to the next selected one. */
    method OnEnd()
      modifies this
      ensures View() == Read(old(View()), IcEnd, count)
    {
      hide Skips;
      entries := entries + [Entry(curr, substatus, msg)];
      getMsg, msg := false, "";
      prev := curr;
      if rest == [] {
        curr := count + 1;
      } else {
        curr, rest := rest[0], rest[1..];
      }
      entries := entries + Skips(prev + 1, curr);
    }

    /** One line of the log. */
    method On(e: Event)
      requires e != TcEnd
      modifies this
      ensures View() == Read(old(View()), e, count)
    {
      hide Skips, AddLine, StatusOrFail, Count;
      match e {
        case TcmStart => entries := entries + Skips(prev + 1, curr);
        case TpStart => substatus, getMsg := Some(FAIL), true;
        case StatusLine(word) => OnStatus(word);
        case IcEnd => OnEnd();
        case MsgLine(line) =>
          if getMsg {
            msg := AddLine(msg, line);
          }
        case VsxError(text) => vsxError := AddLine(vsxError, text);
      }
    }
  }

  datatype Report = Report(status: Status, msg: string, entries: seq<Entry>)

  /**
   The harness; `None` stands for an exception: a selection that cannot be read or is
   empty, or a log without the end of the test, which leaves the reads to time out.
   */
  method Harness(name: string, count: int, events: seq<Event>) returns (r: Option<Report>)
    ensures r.None? <==> Selection(name).None? || Selection(name) == Some([]) || TcEnd !in events
    ensures r.Some? ==>
              var t := ReadAll(Selection(name).value, count, UpToEnd(events));
              r.value == Report(Verdict(t.tally), t.tally.error, t.numbering.entries)
  {
    hide Selection, UpToEnd, ReadAll, Read;
    var numbers := GetSubtestsNumbers(name);
    if numbers.None? || numbers.value == [] {
      return None;
    }
    var reader := new Reader(numbers.value, count);
    var i := 0;
    ReadNone(numbers.value, count, events);
    while i < |events| && events[i] != TcEnd
      invariant 0 <= i <= |events|
      invariant forall j :: 0 <= j < i ==> events[j] != TcEnd
      invariant fresh(reader) && reader.count == count
      invariant reader.View() == ReadAll(numbers.value, count, events[..i])
    {
      ReadNext(numbers.value, count, events, i);
      reader.On(events[i]);
      i := i + 1;
    }
    UpToEndIs(events, i);
    if i == |events| {
      return None;
    }
    var (ok, fail, skip, error) := (reader.ok, reader.fail, reader.skip, reader.vsxError);
    var status := if fail != 0 || (ok == 0 && fail == 0 && skip == 0) || error != "" then FAIL else OK;
    r := Some(Report(status, error, reader.entries));
  }

  // ---------------------------------------------------------------- counting

  function Tallied(events: seq<Event>): Tally {
    if events == [] then Tally(0, 0, 0, "") else ReadTally(Tallied(events[..|events| - 1]), events[|events| - 1])
  }

  function StatusCount(events: seq<Event>, s: Status): nat {
    if events == [] then 0
    else
      var e := events[|events| - 1];
      StatusCount(events[..|events| - 1], s) + if e.StatusLine? && StatusOrFail(e.word) == s then 1 else 0
  }

  lemma {:induction false} TallyIs(nums: seq<int>, count: int, events: seq<Event>)
    requires nums != []
    ensures ReadAll(nums, count, events).tally == Tallied(events)
    ensures Tallied(events).ok == StatusCount(events, OK)
    ensures Tallied(events).fail == StatusCount(events, FAIL)
    ensures Tallied(events).skip == StatusCount(events, SKIP)
    ensures Tallied(events).error != "" <==> exists i :: 0 <= i < |events| && events[i].VsxError?
  {
    if events != [] {
      var n := |events| - 1;
      TallyIs(nums, count, events[..n]);
      assert forall i :: 0 <= i < n ==> events[..n][i] == events[i];
      if events[n].VsxError? {
        assert Tallied(events).error != "";
      }
    }
  }

  lemma {:induction false} CountZeroIff(events: seq<Event>, s: Status)
    ensures StatusCount(events, s) == 0 <==>
            forall i :: 0 <= i < |events| && events[i].StatusLine? ==> StatusOrFail(events[i].word) != s
  {
    if events != [] {
      var n := |events| - 1;
      CountZeroIff(events[..n], s);
      assert forall i :: 0 <= i < n ==> events[..n][i] == events[i];
    }
  }

  /** For every trace: the verdict is OK exactly when a status was seen, none was a failure and no error was. */
  lemma VerdictIff(nums: seq<int>, count: int, events: seq<Event>)
    requires nums != []
    ensures Verdict(ReadAll(nums, count, events).tally) == OK <==>
            && (exists i :: 0 <= i < |events| && events[i].StatusLine?)
            && (forall i :: 0 <= i < |events| && events[i].StatusLine? ==> StatusOrFail(events[i].word) != FAIL)
            && (forall i :: 0 <= i < |events| ==> !events[i].VsxError?)
  {
    TallyIs(nums, count, events);
    CountZeroIff(events, OK);
    CountZeroIff(events, FAIL);
    CountZeroIff(events, SKIP);
    if exists i :: 0 <= i < |events| && events[i].StatusLine? {
      var i :| 0 <= i < |events| && events[i].StatusLine?;
      assert StatusOrFail(events[i].word) in {OK, FAIL, SKIP};
    }
  }

  // ---------------------------------------------------------------- numbering

  predicate Increasing(nums: seq<int>) {
    && (forall i :: 0 <= i < |nums| ==> 1 <= nums[i])
    && forall i, j :: 0 <= i < j < |nums| ==> nums[i] < nums[j]
  }

  function EndCount(events: seq<Event>): nat {
    if events == [] then 0
    else EndCount(events[..|events| - 1]) + if events[|events| - 1] == IcEnd then 1 else 0
  }

  /** What the testcases came to, in the order in which they ended. */
  function Results(events: seq<Event>): seq<Block> {
    if events == [] then []
    else
      var before := events[..|events| - 1];
      Results(before) + if events[|events| - 1] == IcEnd then [BlockAt(before)] else []
  }

  function BlockAt(events: seq<Event>): Block {
    if events == [] then Block(false, "", None) else ReadBlock(BlockAt(events[..|events| - 1]), events[|events| - 1])
  }

  lemma {:induction false} BlockIs(nums: seq<int>, count: int, events: seq<Event>)
    requires nums != []
    ensures ReadAll(nums, count, events).block == BlockAt(events)
    ensures |Results(events)| == EndCount(events)
  {
    if events != [] {
      BlockIs(nums, count, events[..|events| - 1]);
    }
  }

  /** One start event, before the first testcase ends. */
  predicate OneStart(events: seq<Event>, at: nat) {
    && at < |events| && events[at] == TcmStart
    && (forall i :: 0 <= i < |events| && i != at ==> events[i] != TcmStart)
    && (forall i :: 0 <= i < at ==> events[i] != IcEnd)
  }

  /** The number the tracker stands at after k testcases. */
  function NumberAfter(nums: seq<int>, count: int, k: nat): int {
    if k < |nums| then nums[k] else count + 1
  }

  /** The entry of testcase i + 1 when `results` are in: what it came to, or skipped. */
  ghost predicate EntryIs(nums: seq<int>, results: seq<Block>, i: nat, e: Entry) {
    && e.number == i + 1
    && (forall j :: 0 <= j < |results| && j < |nums| && nums[j] == i + 1 ==>
                      e == Entry(i + 1, results[j].substatus, results[j].msg))
    && (i + 1 !in nums ==> e == Skipped(i + 1))
  }

  /** The entries are testcases 1, 2, ... up to the current one, each once, each with its own result. */
  ghost predicate Reported(nums: seq<int>, results: seq<Block>, n: Numbering) {
    && |n.entries| == n.curr - 1
    && forall i :: 0 <= i < |n.entries| ==> EntryIs(nums, results, i, n.entries[i])
  }

  ghost predicate NumberingAt(nums: seq<int>, count: int, k: nat, n: Numbering) {
    && n.curr == NumberAfter(nums, count, k)
    && n.prev == (if k == 0 then 0 else NumberAfter(nums, count, k - 1))
    && n.rest == (if k < |nums| then nums[k + 1..] else [])
  }

  /** Before the start event nothing is reported. */
  lemma {:induction false} BeforeStart(nums: seq<int>, count: int, events: seq<Event>)
    requires nums != []
    requires forall i :: 0 <= i < |events| ==> events[i] != TcmStart && events[i] != IcEnd
    ensures ReadAll(nums, count, events).numbering == Numbering(0, nums[0], nums[1..], [])
    ensures EndCount(events) == 0 && Results(events) == []
  {
    if events != [] {
      BeforeStart(nums, count, events[..|events| - 1]);
    }
  }

  lemma StartReported(nums: seq<int>, n: Numbering)
    requires nums != [] && Increasing(nums) && n == Numbering(0, nums[0], nums[1..], [])
    ensures Reported(nums, [], n.(entries := [] + Skips(1, nums[0])))
  {
  }

  /** The end of testcase k: its entry, then the gap up to the next selected number. */
  lemma EndReported(nums: seq<int>, count: int, k: nat, results: seq<Block>, n: Numbering, b: Block)
    requires Increasing(nums) && k < |nums| && |results| == k
    requires k == |nums| - 1 ==> nums[k] <= count
    requires NumberingAt(nums, count, k, n) && Reported(nums, results, n)
    ensures var n' := ReadNumbering(n, b, IcEnd, count);
            NumberingAt(nums, count, k + 1, n') && Reported(nums, results + [b], n')
  {
    var n' := ReadNumbering(n, b, IcEnd, count);
    assert n'.curr == NumberAfter(nums, count, k + 1);
    forall i | 0 <= i < |n'.entries| ensures EntryIs(nums, results + [b], i, n'.entries[i]) {
      if i + 1 < n.curr {
        assert EntryIs(nums, results, i, n.entries[i]);
      } else if i + 1 == n.curr {
        assert n'.entries[i] == Entry(i + 1, b.substatus, b.msg);
        assert nums[k] in nums;
      } else {
        assert n'.entries[i] == Skipped(i + 1);
        BetweenSelected(nums, k, i + 1, n'.curr);
      }
    }
  }

  lemma BetweenSelected(nums: seq<int>, k: nat, i: int, next: int)
    requires Increasing(nums) && k < |nums| && nums[k] < i < next
    requires k + 1 < |nums| ==> next == nums[k + 1]
    ensures i !in nums
  {
  }

  /** What the last event adds. */
  lemma LastEvent(nums: seq<int>, count: int, events: seq<Event>)
    requires nums != [] && events != []
    ensures var before, e := events[..|events| - 1], events[|events| - 1];
            && ReadAll(nums, count, events).numbering ==
               ReadNumbering(ReadAll(nums, count, before).numbering, BlockAt(before), e, count)
            && EndCount(events) == EndCount(before) + (if e == IcEnd then 1 else 0)
            && Results(events) == Results(before) + (if e == IcEnd then [BlockAt(before)] else [])
            && |Results(before)| == EndCount(before)
  {
    BlockIs(nums, count, events[..|events| - 1]);
  }

  /**
   With one start event and no more testcases than were selected: at every moment the
   entries are exactly testcases 1 up to the current one, once each and in order; the
   selected ones carry what they came to, the others are skipped.
   */
  lemma {:induction false} EntriesAscend(nums: seq<int>, count: int, events: seq<Event>, at: nat)
    requires nums != [] && Increasing(nums) && OneStart(events, at)
    requires EndCount(events) <= |nums|
    requires EndCount(events) == |nums| ==> nums[|nums| - 1] <= count
    ensures NumberingAt(nums, count, EndCount(events), ReadAll(nums, count, events).numbering)
    ensures Reported(nums, Results(events), ReadAll(nums, count, events).numbering)
    decreases |events|
  {
    hide ReadAll, BlockAt, Results, EndCount, Reported, Skips, Increasing;
    var before := events[..|events| - 1];
    var n := ReadAll(nums, count, before).numbering;
    LastEvent(nums, count, events);
    if |events| - 1 == at {
      BeforeStart(nums, count, before);
      StartReported(nums, n);
    } else {
      assert OneStart(before, at);
      EntriesAscend(nums, count, before, at);
      if events[|events| - 1] == IcEnd {
        EndReported(nums, count, EndCount(before), Results(before), n, BlockAt(before));
      } else {
        assert Results(before) + [] == Results(before);
      }
    }
  }

  function NumbersOf(entries: seq<Entry>): (ns: seq<int>)
    ensures |ns| == |entries| && forall i :: 0 <= i < |ns| ==> ns[i] == entries[i].number
  {
    seq(|entries|, i requires 0 <= i < |entries| => entries[i].number)
  }

  /**
   After k testcases the selection was in order: its numbers so far and the one the
   tracker stands at increase from 1 on, and it was not used up before.
   */
  predicate InOrder(nums: seq<int>, count: int, k: nat) {
    && k <= |nums|
    && (if k < |nums| then Increasing(nums[..k + 1])
        else Increasing(nums) && (k > 0 ==> nums[k - 1] <= count))
  }

  lemma InOrderNext(nums: seq<int>, count: int, k: nat)
    requires nums != []
    ensures InOrder(nums, count, k + 1) <==>
            InOrder(nums, count, k) && NumberAfter(nums, count, k) < NumberAfter(nums, count, k + 1)
    ensures InOrder(nums, count, k) ==> 1 <= NumberAfter(nums, count, k)
  {
    if k + 1 < |nums| {
      var less, more := nums[..k + 1], nums[..k + 2];
      assert more == less + [nums[k + 1]] && less[k] == nums[k];
    } else if k + 1 == |nums| {
      assert nums[..k + 1] == nums;
    }
  }

  /** The entries are numbered 1 up to the current number. */
  predicate Sound(n: Numbering) {
    NumbersOf(n.entries) == Span(1, n.curr)
  }

  /** There are too many entries for that, and no later event makes up for it. */
  predicate Overfull(n: Numbering) {
    |n.entries| >= n.curr && n.entries != []
  }

  /** One more end: in order it stays sound; out of order there are too many entries, for good. */
  lemma EndNumbers(n: Numbering, b: Block, count: int)
    ensures var n' := ReadNumbering(n, b, IcEnd, count);
            && (Sound(n) && 1 <= n.curr < n'.curr ==> Sound(n'))
            && (Sound(n) && !(1 <= n.curr < n'.curr) ==> Overfull(n'))
            && (Overfull(n) ==> Overfull(n'))
  {
    var n' := ReadNumbering(n, b, IcEnd, count);
    if Sound(n) && 1 <= n.curr < n'.curr {
      forall i | 0 <= i < |n'.entries| ensures NumbersOf(n'.entries)[i] == 1 + i {
        if i < |n.entries| {
          assert NumbersOf(n.entries)[i] == 1 + i;
        }
      }
    }
  }

  /** Where the tracker stands, and whether its numbers are in order, on every trace. */
  lemma {:induction false} NumbersAt(nums: seq<int>, count: int, events: seq<Event>, at: nat)
    requires nums != [] && OneStart(events, at)
    ensures var n, k := ReadAll(nums, count, events).numbering, EndCount(events);
            && NumberingAt(nums, count, k, n)
            && (k == 0 || InOrder(nums, count, k) ==> Sound(n))
            && (k > 0 && !InOrder(nums, count, k) ==> Overfull(n))
    decreases |events|
  {
    hide ReadAll, BlockAt, Results, EndCount, Skips, InOrder, Sound, Overfull;
    var before, e := events[..|events| - 1], events[|events| - 1];
    var n := ReadAll(nums, count, before).numbering;
    LastEvent(nums, count, events);
    if |events| - 1 == at {
      BeforeStart(nums, count, before);
      StartNumbers(nums);
    } else {
      assert OneStart(before, at);
      NumbersAt(nums, count, before, at);
      if e == IcEnd {
        EndNumbers(n, BlockAt(before), count);
        InOrderNext(nums, count, EndCount(before));
        FirstInOrder(nums, count);
      }
    }
  }

  lemma StartNumbers(nums: seq<int>)
    requires nums != []
    ensures Sound(Numbering(0, nums[0], nums[1..], [] + Skips(1, nums[0])))
  {
  }

  lemma FirstInOrder(nums: seq<int>, count: int)
    requires nums != []
    ensures InOrder(nums, count, 0) <==> 1 <= nums[0]
  {
  }

  /**
   For every selection and every trace with one start: the reported numbers are 1 up to
   the current one exactly while no testcase ended, or the selection was in order so far.
   */
  lemma NumbersAscendIff(nums: seq<int>, count: int, events: seq<Event>, at: nat)
    requires nums != [] && OneStart(events, at)
    ensures var n := ReadAll(nums, count, events).numbering;
            NumbersOf(n.entries) == Span(1, n.curr) <==>
            EndCount(events) == 0 || InOrder(nums, count, EndCount(events))
  {
    NumbersAt(nums, count, events, at);
  }

  /** A run of all selected testcases reports 1 to count exactly for increasing selections within count. */
  lemma CompleteRunIff(nums: seq<int>, count: int, events: seq<Event>, at: nat)
    requires nums != [] && OneStart(events, at) && EndCount(events) == |nums|
    ensures NumbersOf(ReadAll(nums, count, events).numbering.entries) == Span(1, count + 1) <==>
            Increasing(nums) && nums[|nums| - 1] <= count
  {
    NumbersAt(nums, count, events, at);
  }

  /** Two selections the harness accepts: one is not increasing, one goes beyond the count. */
  lemma SelectionsOutOfOrder(before: string)
    requires Without(before, '{')
    ensures Selection(before + "{3,1}") == Some([3, 1])
    ensures NumbersOf(ReadAll([3, 1], 3, [TcmStart, IcEnd, IcEnd]).numbering.entries) == [1, 2, 3, 1, 2, 3]
    ensures Selection(before + "{2}") == Some([2])
    ensures NumbersOf(ReadAll([2], 1, [TcmStart, IcEnd]).numbering.entries) == [1, 2]
  {
    hide Selection, Print, Meaning, ReadAll, NumbersOf;
    PrintedExamples();
    SelectionRoundTrip(before, [One(3), One(1)], "");
    SelectionRoundTrip(before, [One(2)], "");
    assert before + "{" + "3,1" + "}" + "" == before + "{3,1}";
    assert before + "{" + "2" + "}" + "" == before + "{2}";
    DecreasingRun();
    RunBeyondCount();
  }

  lemma PrintedExamples()
    ensures Print([One(3), One(1)]) == "3,1" && Meaning([One(3), One(1)]) == [3, 1]
    ensures Print([One(2)]) == "2" && Meaning([One(2)]) == [2]
  {
    assert [One(3), One(1)][1..] == [One(1)] && [One(3), One(1)][..1] == [One(3)];
    assert [One(3)][..0] == [] && [One(2)][..0] == [];
  }

  lemma DecreasingRun()
    ensures NumbersOf(ReadAll([3, 1], 3, [TcmStart, IcEnd, IcEnd]).numbering.entries) == [1, 2, 3, 1, 2, 3]
  {
    hide NumbersOf, FromStr;
    var nums, t1, t2 := [3, 1], [TcmStart, IcEnd], [TcmStart, IcEnd, IcEnd];
    assert t2[..2] == t1 && t1[..1] == [TcmStart] && [TcmStart][..0] == [];
    var started := ReadAll(nums, 3, [TcmStart]);
    assert started.numbering == Numbering(0, 3, [1], [Skipped(1), Skipped(2)]);
    var first := ReadAll(nums, 3, t1);
    assert first.numbering == Numbering(3, 1, [], [Skipped(1), Skipped(2), Entry(3, None, "")]);
  }

  lemma RunBeyondCount()
    ensures NumbersOf(ReadAll([2], 1, [TcmStart, IcEnd]).numbering.entries) == [1, 2]
  {
    hide NumbersOf, FromStr;
    assert [TcmStart, IcEnd][..1] == [TcmStart] && [TcmStart][..0] == [];
    assert ReadAll([2], 1, [TcmStart]).numbering == Numbering(0, 2, [], [Skipped(1)]);
  }

  /** A complete run reports testcases 1 to count; exactly the unselected ones are filled in as skipped. */
  lemma CompleteRun(nums: seq<int>, count: int, events: seq<Event>, at: nat)
    requires nums != [] && Increasing(nums) && OneStart(events, at)
    requires nums[|nums| - 1] <= count && EndCount(events) == |nums|
    ensures var entries := ReadAll(nums, count, events).numbering.entries;
            && |entries| == count && |Results(events)| == |nums|
            && (forall j :: 0 <= j < |nums| ==>
                  var b := Results(events)[j]; entries[nums[j] - 1] == Entry(nums[j], b.substatus, b.msg))
            && (forall i :: 1 <= i <= count && i !in nums ==> entries[i - 1] == Skipped(i))
  {
    EntriesAscend(nums, count, events, at);
    BlockIs(nums, count, events);
    var n := ReadAll(nums, count, events).numbering;
    forall j | 0 <= j < |nums|
      ensures n.entries[nums[j] - 1] == Entry(nums[j], Results(events)[j].substatus, Results(events)[j].msg)
    {
      assert nums[j] <= nums[|nums| - 1];
      var i := nums[j] - 1;
      assert EntryIs(nums, Results(events), i, n.entries[i]);
    }
    forall i | 1 <= i <= count && i !in nums ensures n.entries[i - 1] == Skipped(i) {
      var k := i - 1;
      assert EntryIs(nums, Results(events), k, n.entries[k]);
    }
  }

  /**
   A test whose name selects nothing stands for testcases 1 to 99: when all of its
   testcases end, they are reported as 1 to count exactly if there are at most 99.
   */
  lemma DefaultRunIff(count: int, events: seq<Event>, at: nat)
    requires count >= 1 && OneStart(events, at) && EndCount(events) == count
    ensures Span(1, 100) != []
    ensures NumbersOf(ReadAll(Span(1, 100), count, events).numbering.entries) == Span(1, count + 1) <==> count <= 99
  {
    NumbersAt(Span(1, 100), count, events, at);
  }

  /** The hundredth testcase is reported as number 101. */
  lemma HundredthIsMisnumbered(events: seq<Event>, at: nat)
    requires OneStart(events, at) && EndCount(events) == 99
    ensures var entries := ReadAll(Span(1, 100), 100, events + [IcEnd]).numbering.entries;
            |entries| == 101 && entries[99] == Skipped(100) && entries[100].number == 101
  {
    var nums := Span(1, 100);
    EntriesAscend(nums, 100, events, at);
    var n := ReadAll(nums, 100, events).numbering;
    assert EntryIs(nums, Results(events), 99, n.entries[99]);
    assert (events + [IcEnd])[..|events|] == events;
  }

  // ---------------------------------------------------------------- well-formed logs

  /** A testcase in a log: what comes before it, and its one status among other lines. */
  datatype Testcase = Testcase(gap: seq<Event>, early: seq<Event>, word: string, late: seq<Event>)

  /** Lines and errors, but nothing that opens, closes or judges a testcase. */
  predicate OnlyLines(events: seq<Event>) {
    forall i :: 0 <= i < |events| ==> events[i].MsgLine? || events[i].VsxError? || events[i] == TcmStart
  }

  predicate WellFormed(tc: Testcase) {
    OnlyLines(tc.gap) && OnlyLines(tc.early) && OnlyLines(tc.late)
  }

  function Written(tc: Testcase): seq<Event> {
    tc.gap + [TpStart] + tc.early + [StatusLine(tc.word)] + tc.late + [IcEnd]
  }

  function WrittenAll(tcs: seq<Testcase>): seq<Event> {
    if tcs == [] then [] else WrittenAll(tcs[..|tcs| - 1]) + Written(tcs[|tcs| - 1])
  }

  function LinesIn(events: seq<Event>): seq<Line> {
    if events == [] then []
    else
      var e := events[|events| - 1];
      LinesIn(events[..|events| - 1]) + if e.MsgLine? then [e.line] else []
  }

  /** What the harness builds up line by line, starting from the empty string. */
  function JoinLines(lines: seq<Line>): string {
    if lines == [] then "" else AddLine(JoinLines(lines[..|lines| - 1]), lines[|lines| - 1])
  }

  /** The lines with a newline between any two of them. */
  function Join(lines: seq<string>): string {
    if lines == [] then ""
    else if |lines| == 1 then lines[0]
    else lines[0] + "\n" + Join(lines[1..])
  }

  lemma {:induction false} JoinSnoc(lines: seq<string>, line: string)
    requires lines != []
    ensures Join(lines + [line]) == Join(lines) + "\n" + line
  {
    if |lines| > 1 {
      JoinSnoc(lines[1..], line);
      assert (lines + [line])[1..] == lines[1..] + [line];
    }
  }

  /** As no line is empty, the test for an empty message only ever catches the first line. */
  lemma {:induction false} JoinLinesIsJoin(lines: seq<Line>)
    ensures JoinLines(lines) == Join(lines)
    ensures Join(lines) == "" <==> lines == []
  {
    if lines != [] {
      var n := |lines| - 1;
      JoinLinesIsJoin(lines[..n]);
      assert lines == lines[..n] + [lines[n]];
      if n > 0 {
        JoinSnoc(lines[..n], lines[n]);
      }
    }
  }

  /** The error lines of a log. */
  function Errors(events: seq<Event>): seq<Line> {
    if events == [] then []
    else
      var e := events[|events| - 1];
      Errors(events[..|events| - 1]) + if e.VsxError? then [e.text] else []
  }

  lemma {:induction false} ErrorsGathered(events: seq<Event>)
    ensures Tallied(events).error == JoinLines(Errors(events))
  {
    if events != [] {
      hide StatusOrFail;
      var n := |events| - 1;
      var errors, e := Errors(events[..n]), events[n];
      ErrorsGathered(events[..n]);
      if e.VsxError? {
        assert (errors + [e.text])[..|errors|] == errors;
      } else {
        assert Errors(events) == errors;
      }
    }
  }

  /** The reported message is the error lines, one below the other. */
  lemma ErrorTextIs(nums: seq<int>, count: int, events: seq<Event>)
    requires nums != []
    ensures ReadAll(nums, count, events).tally.error == Join(Errors(events))
  {
    TallyIs(nums, count, events);
    ErrorsGathered(events);
    JoinLinesIsJoin(Errors(events));
  }

  /** One line or error inside or outside a testcase. */
  lemma LineRead(start: seq<Event>, e: Event, lines: seq<Line>)
    requires OnlyLines([e])
    requires BlockAt(start).getMsg ==> BlockAt(start).msg == JoinLines(lines)
    ensures var s := start + [e];
            && BlockAt(s).getMsg == BlockAt(start).getMsg && BlockAt(s).substatus == BlockAt(start).substatus
            && BlockAt(s).msg ==
               (if BlockAt(start).getMsg then JoinLines(lines + LinesIn([e])) else BlockAt(start).msg)
            && Results(s) == Results(start)
            && forall st :: StatusCount(s, st) == StatusCount(start, st)
  {
    Snoc(start, e);
    assert e == [e][0];
    if e.MsgLine? {
      assert LinesIn([e]) == [e.line];
      assert (lines + [e.line])[..|lines|] == lines;
    } else {
      assert lines + LinesIn([e]) == lines;
    }
  }

  lemma {:induction false} LinesRead(start: seq<Event>, events: seq<Event>, lines: seq<Line>)
    requires OnlyLines(events)
    requires BlockAt(start).getMsg ==> BlockAt(start).msg == JoinLines(lines)
    ensures var s := start + events;
            && BlockAt(s).getMsg == BlockAt(start).getMsg && BlockAt(s).substatus == BlockAt(start).substatus
            && BlockAt(s).msg ==
               (if BlockAt(start).getMsg then JoinLines(lines + LinesIn(events)) else BlockAt(start).msg)
            && Results(s) == Results(start)
            && forall st :: StatusCount(s, st) == StatusCount(start, st)
    decreases |events|
  {
    if events == [] {
      assert start + events == start && lines + LinesIn(events) == lines;
    } else {
      var n := |events| - 1;
      var init, e := events[..n], events[n];
      assert events == init + [e];
      assert OnlyLines([e]) by { assert e == [e][0]; }
      hide BlockAt, Results, StatusCount, JoinLines, LinesIn, OnlyLines;
      LinesRead(start, init, lines);
      LineRead(start + init, e, lines + LinesIn(init));
      LinesInAppend(start, lines, init, e);
    }
  }

  lemma LinesInAppend(start: seq<Event>, lines: seq<Line>, init: seq<Event>, e: Event)
    ensures start + (init + [e]) == (start + init) + [e]
    ensures lines + LinesIn(init + [e]) == (lines + LinesIn(init)) + LinesIn([e])
  {
  }

  lemma Snoc(events: seq<Event>, e: Event)
    ensures (events + [e])[..|events + [e]| - 1] == events && (events + [e])[|events + [e]| - 1] == e
  {
  }

  /** The opening of a testcase after a log in which every testcase is closed. */
  lemma OpeningRead(start: seq<Event>, tc: Testcase)
    requires WellFormed(tc) && !BlockAt(start).getMsg && BlockAt(start).msg == ""
    ensures var s := start + tc.gap + [TpStart] + tc.early;
            && BlockAt(s) == Block(true, JoinLines(LinesIn(tc.early)), Some(FAIL))
            && Results(s) == Results(start)
            && forall st :: StatusCount(s, st) == StatusCount(start, st)
  {
    hide JoinLines, LinesIn;
    var s1 := start + tc.gap;
    LinesRead(start, tc.gap, []);
    Snoc(s1, TpStart);
    JoinNone();
    LinesRead(s1 + [TpStart], tc.early, []);
    assert [] + LinesIn(tc.early) == LinesIn(tc.early);
  }

  lemma JoinNone()
    ensures JoinLines([]) == ""
  {
  }

  /** What a testcase should come to: its status, and its lines one below the other. */
  function Outcome(tc: Testcase): Block {
    Block(true, Join(LinesIn(tc.early) + LinesIn(tc.late)), Some(StatusOrFail(tc.word)))
  }

  /** Its status, the lines after it and its end. */
  lemma ClosingRead(s: seq<Event>, tc: Testcase)
    requires WellFormed(tc) && BlockAt(s).getMsg && BlockAt(s).msg == JoinLines(LinesIn(tc.early))
    ensures var s' := s + [StatusLine(tc.word)] + tc.late + [IcEnd];
            && !BlockAt(s').getMsg && BlockAt(s').msg == ""
            && Results(s') == Results(s) + [Outcome(tc)]
            && forall st :: StatusCount(s', st) == StatusCount(s, st) + if StatusOrFail(tc.word) == st then 1 else 0
  {
    hide JoinLines, Join, LinesIn, StatusOrFail;
    var s1 := s + [StatusLine(tc.word)];
    JoinLinesIsJoin(LinesIn(tc.early) + LinesIn(tc.late));
    Snoc(s, StatusLine(tc.word));
    LinesRead(s1, tc.late, LinesIn(tc.early));
    Snoc(s1 + tc.late, IcEnd);
  }

  /** One well-formed testcase after a log in which every testcase is closed. */
  lemma TestcaseRead(start: seq<Event>, tc: Testcase)
    requires WellFormed(tc) && !BlockAt(start).getMsg && BlockAt(start).msg == ""
    ensures !BlockAt(start + Written(tc)).getMsg && BlockAt(start + Written(tc)).msg == ""
    ensures Results(start + Written(tc)) ==
            Results(start) + [Outcome(tc)]
    ensures forall s :: StatusCount(start + Written(tc), s) ==
                        StatusCount(start, s) + if StatusOrFail(tc.word) == s then 1 else 0
  {
    hide Outcome, JoinLines, LinesIn, StatusOrFail, BlockAt, Results, StatusCount;
    var s := start + tc.gap + [TpStart] + tc.early;
    OpeningRead(start, tc);
    ClosingRead(s, tc);
    assert start + Written(tc) == s + [StatusLine(tc.word)] + tc.late + [IcEnd];
  }

  ghost predicate Matches(tcs: seq<Testcase>, results: seq<Block>) {
    && |results| == |tcs|
    && forall i :: 0 <= i < |tcs| ==>
         && results[i].substatus == Some(StatusOrFail(tcs[i].word))
         && results[i].msg == Join(LinesIn(tcs[i].early) + LinesIn(tcs[i].late))
  }

  predicate AllWellFormed(tcs: seq<Testcase>) {
    forall i :: 0 <= i < |tcs| ==> WellFormed(tcs[i])
  }

  /** After a log of well-formed testcases each came to its status and its lines, and none is open. */
  lemma {:induction false} WellFormedResults(tcs: seq<Testcase>)
    requires AllWellFormed(tcs)
    ensures var events := WrittenAll(tcs);
            !BlockAt(events).getMsg && BlockAt(events).msg == "" && Matches(tcs, Results(events))
  {
    if tcs != [] {
      var n := |tcs| - 1;
      assert AllWellFormed(tcs[..n]) && WrittenAll(tcs) == WrittenAll(tcs[..n]) + Written(tcs[n]);
      hide BlockAt, Results, StatusCount, StatusOrFail, Outcome, LinesIn, Written, WrittenAll, Matches, WellFormed;
      WellFormedResults(tcs[..n]);
      TestcaseRead(WrittenAll(tcs[..n]), tcs[n]);
      OneMoreMatches(tcs, Results(WrittenAll(tcs[..n])));
    }
  }

  lemma OneMoreMatches(tcs: seq<Testcase>, results: seq<Block>)
    requires tcs != [] && Matches(tcs[..|tcs| - 1], results)
    ensures Matches(tcs, results + [Outcome(tcs[|tcs| - 1])])
  {
  }

  function Failures(tcs: seq<Testcase>): nat {
    if tcs == [] then 0
    else Failures(tcs[..|tcs| - 1]) + if StatusOrFail(tcs[|tcs| - 1].word) == FAIL then 1 else 0
  }

  lemma {:induction false} NoFailuresIff(tcs: seq<Testcase>)
    ensures Failures(tcs) == 0 <==> forall i :: 0 <= i < |tcs| ==> StatusOrFail(tcs[i].word) != FAIL
  {
    if tcs != [] {
      hide StatusOrFail;
      var n := |tcs| - 1;
      NoFailuresIff(tcs[..n]);
      assert forall i :: 0 <= i < n ==> tcs[..n][i] == tcs[i];
    }
  }

  /** The three counters add up to the number of testcases. */
  lemma {:induction false} WellFormedCounts(tcs: seq<Testcase>)
    requires AllWellFormed(tcs)
    ensures var events := WrittenAll(tcs);
            && StatusCount(events, OK) + StatusCount(events, FAIL) + StatusCount(events, SKIP) == |tcs|
            && StatusCount(events, FAIL) == Failures(tcs)
  {
    if tcs != [] {
      hide BlockAt, Results, StatusCount, StatusOrFail, Outcome, LinesIn, Written, Matches;
      var n := |tcs| - 1;
      WellFormedCounts(tcs[..n]);
      WellFormedResults(tcs[..n]);
      TestcaseRead(WrittenAll(tcs[..n]), tcs[n]);
    }
  }

  /** The verdict on such a log: at least one testcase, none failed, no error anywhere. */
  lemma WellFormedVerdict(nums: seq<int>, count: int, tcs: seq<Testcase>, tail: seq<Event>)
    requires nums != [] && AllWellFormed(tcs) && OnlyLines(tail)
    ensures var events := WrittenAll(tcs) + tail;
            Verdict(ReadAll(nums, count, events).tally) == OK <==>
            && tcs != []
            && (forall i :: 0 <= i < |tcs| ==> StatusOrFail(tcs[i].word) != FAIL)
            && (forall i :: 0 <= i < |events| ==> !events[i].VsxError?)
  {
    var events := WrittenAll(tcs) + tail;
    WellFormedResults(tcs);
    WellFormedCounts(tcs);
    NoFailuresIff(tcs);
    LinesRead(WrittenAll(tcs), tail, []);
    TallyIs(nums, count, events);
  }
}
