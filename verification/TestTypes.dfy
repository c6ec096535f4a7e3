/** The test runner's statuses and results, as far as the harnesses use them. */
module TestTypes {
  import opened Options

  datatype Status = OK | FAIL | SKIP

  /** Status.from_str; `None` stands for the ValueError. */
  function FromStr(s: string): Option<Status> {
    if s in {"FAIL", "FAILED", "BAD"} then Some(FAIL)
    else if s in {"OK", "PASS", "PASSED"} then Some(OK)
    else if s in {"SKIP", "SKIPPED", "IGNORE", "IGNORED", "UNTESTED", "NOTINUSE"} then Some(SKIP)
    else None
  }

  /** The value of a subresult. */
  datatype Sub = Sub(name: string, status: Option<Status>, msg: string)

  /** A subresult stays open to changes after it was added. */
  class SubResult {
    var subname: string
    var status: Option<Status>
    var msg: string

    constructor ()
      ensures subname == "" && status == None && msg == ""
    {
      subname, status, msg := "", None, "";
    }

    function View(): Sub
      reads this
    {
      Sub(subname, status, msg)
    }
  }

  ghost predicate Distinct(subs: seq<SubResult>) {
    forall i, j :: 0 <= i < j < |subs| ==> subs[i] != subs[j]
  }

  function Views(subs: seq<SubResult>): (vs: seq<Sub>)
    reads subs
    ensures |vs| == |subs| && forall i :: 0 <= i < |subs| ==> vs[i] == subs[i].View()
  {
    if subs == [] then [] else Views(subs[..|subs| - 1]) + [subs[|subs| - 1].View()]
  }

  class TestResult {
    var subresults: seq<SubResult>
    var current: SubResult

    /** The next subresult is prepared in advance and is not among the added ones. */
    ghost predicate Valid()
      reads this
    {
      current !in subresults && Distinct(subresults)
    }

    constructor ()
      ensures Valid() && subresults == [] && fresh(current)
    {
      subresults := [];
      current := new SubResult();
    }

    /** Fills the prepared subresult, adds it and prepares the next one; the caller may go on changing it. */
    method AddSubresult(subname: string, status: Option<Status>, msg: string) returns (sub: SubResult)
      requires Valid()
      modifies this, current
      ensures Valid() && fresh(current)
      ensures sub == old(current) && subresults == old(subresults) + [sub]
      ensures sub.View() == Sub(subname, status, msg)
      ensures Views(subresults) == old(Views(subresults)) + [Sub(subname, status, msg)]
    {
      ghost var was := Views(subresults);
      sub := current;
      sub.msg := msg;
      sub.status := status;
      sub.subname := subname;
      subresults := subresults + [sub];
      current := new SubResult();
      assert Views(subresults) == was + [sub.View()];
    }
  }
}
