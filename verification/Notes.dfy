/** The rate limit on the timeout reports of the collectors. */
module Notes {
  import opened Bytes

  /** Ten minutes, in nanoseconds. */
  const TIMEOUT_LOG_EVERY := 600_000_000_000

  /** The error of one collector: none, a plain one, or a timeout. */
  datatype Problem = NoProblem | Plain | Timeout

  /** One call of note, with the time of its snapshot. */
  datatype Call = Call(name: Text, problem: Problem, time: int)

  /** The times of the last reports after one more call, and whether the call reports. */
  function Note(at: map<Text, int>, c: Call): (map<Text, int>, bool) {
    match c.problem
    case NoProblem => (at - {c.name}, false)
    case Plain => (at, true)
    case Timeout =>
      if c.name in at && c.time - at[c.name] < TIMEOUT_LOG_EVERY then (at, false)
      else (at[c.name := c.time], true)
  }

  function TimesAfter(calls: seq<Call>): map<Text, int> {
    if calls == [] then map[]
    else Note(TimesAfter(calls[..|calls| - 1]), calls[|calls| - 1]).0
  }

  predicate Reports(calls: seq<Call>, k: nat)
    requires k < |calls|
  {
    Note(TimesAfter(calls[..k]), calls[k]).1
  }

  predicate TimeoutReport(calls: seq<Call>, k: nat, name: Text)
    requires k < |calls|
  {
    calls[k].name == name && calls[k].problem.Timeout? && Reports(calls, k)
  }

  /** No success of the collector after call i and before call n. */
  ghost predicate Unbroken(calls: seq<Call>, name: Text, i: nat, n: nat)
    requires n <= |calls|
  {
    forall k | i < k < n :: !(calls[k].name == name && calls[k].problem.NoProblem?)
  }

  lemma TimesStep(calls: seq<Call>, n: nat)
    requires n < |calls|
    ensures TimesAfter(calls[..n + 1]) == Note(TimesAfter(calls[..n]), calls[n]).0
  {
    assert calls[..n + 1][..n] == calls[..n];
  }

  /** After a report and no success since, the kept time is that of the report or is later by the
      quiet period. */
  lemma {:induction false} KeptTime(calls: seq<Call>, name: Text, i: nat, n: nat)
    requires i < n <= |calls|
    requires TimeoutReport(calls, i, name) && Unbroken(calls, name, i, n)
    ensures name in TimesAfter(calls[..n])
    ensures var at := TimesAfter(calls[..n])[name];
            at == calls[i].time || at >= calls[i].time + TIMEOUT_LOG_EVERY
    decreases n
  {
    TimesStep(calls, n - 1);
    if i < n - 1 {
      KeptTime(calls, name, i, n - 1);
    }
  }

  /** Two timeout reports of one collector with no success in between are at least the quiet
      period apart, whatever the snapshot times are. */
  lemma ReportsAreSpaced(calls: seq<Call>, name: Text, i: nat, j: nat)
    requires i < j < |calls|
    requires TimeoutReport(calls, i, name) && TimeoutReport(calls, j, name)
    requires Unbroken(calls, name, i, j)
    ensures calls[j].time - calls[i].time >= 600 * 1_000_000_000
  {
    KeptTime(calls, name, i, j);
  }

  /** The kept time of a collector comes from a report with no success since. */
  lemma {:induction false} TimeHasReport(calls: seq<Call>, name: Text, n: nat) returns (i: nat)
    requires n <= |calls| && name in TimesAfter(calls[..n])
    ensures i < n && TimeoutReport(calls, i, name) && Unbroken(calls, name, i, n)
    ensures TimesAfter(calls[..n])[name] == calls[i].time
    decreases n
  {
    TimesStep(calls, n - 1);
    if TimeoutReport(calls, n - 1, name) {
      i := n - 1;
    } else {
      i := TimeHasReport(calls, name, n - 1);
    }
  }

  /** An earlier timeout report of the same collector, with no success since, is less than the
      quiet period old. */
  ghost predicate Recent(calls: seq<Call>, j: nat)
    requires j < |calls|
  {
    exists i :: 0 <= i < j && TimeoutReport(calls, i, calls[j].name) && Unbroken(calls, calls[j].name, i, j)
                && calls[j].time - calls[i].time < 600 * 1_000_000_000
  }

  /** Which calls report: every plain error, no success, and a timeout exactly when no recent report
      stands against it. So the first timeout after a success, or ever, is reported at once. */
  lemma ReportsExactly(calls: seq<Call>, j: nat)
    requires j < |calls|
    ensures Reports(calls, j) <==> calls[j].problem.Plain? || (calls[j].problem.Timeout? && !Recent(calls, j))
  {
    var name := calls[j].name;
    if calls[j].problem.Timeout? && !Reports(calls, j) {
      var i := TimeHasReport(calls, name, j);
    }
    if i :| 0 <= i < j && TimeoutReport(calls, i, name) && Unbroken(calls, name, i, j)
            && calls[j].time - calls[i].time < TIMEOUT_LOG_EVERY {
      KeptTime(calls, name, i, j);
    }
  }
}
