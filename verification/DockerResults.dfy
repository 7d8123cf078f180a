/** What the samples of a cycle say, by the answers of the runtime alone. */
module DockerResults {
  import opened Wrappers
  import opened Bytes
  import opened DockerModel
  import opened DockerCycles

  // ---- stopped containers ----

  /** What a stopped container shows: its inspect answer, and no stats. */
  predicate ShowsStopped(s: Sample, ct: Container, running: bool, count: int) {
    && s.container == ct && s.running == running && s.restarts == Some(count)
    && s.cpuPercent == 0.0 && s.memUsed == 0 && s.memLimit == 0 && s.memPercent == 0.0 && !s.memUsedOk
  }

  lemma AloneStoppedShows(t: Task, cycle: int, p: Part)
    requires t.StoppedTask? && p.pc.Outside? && p.err.NoError?
    ensures var r := Alone(t, cycle, p);
            match t.reply
            case InspectFailed => r.err.Failure?
            case TooOld => r.err.Skipped?
            case Recent(running, count) => r.err.NoError? && ShowsStopped(r.out, t.ct, running, count)
  {
    var p2 := Move(t, cycle, Move(t, cycle, p));
    assert p2.pc.Leaving? && Alone(t, cycle, p) == Alone(t, cycle, p2);
    var p3 := Move(t, cycle, p2);
    assert p3.pc.Gone? && Alone(t, cycle, p2) == Alone(t, cycle, p3) == p3;
  }

  /** Every kept stopped container has a result, which is what its inspect call gave: its own running
      flag and restart count, a skip when it stopped too long ago, and an error when the call failed. */
  lemma StoppedResult(c: Settings, m: Memory, r: Round, j: nat)
    requires r.Listed? && ProperRound(r) && j < |Kept(r.newest)|
    ensures var i, ct := |RunningOf(r.containers)| + j, Kept(r.newest)[j];
            var end := FanEnd(c, m, r);
            && i < |end.out| && ct in r.containers && !ct.running
            && match r.host.stopped(ct.id)
               case InspectFailed => end.errs[i].Failure?
               case TooOld => end.errs[i].Skipped?
               case Recent(running, count) => end.errs[i].NoError? && ShowsStopped(end.out[i], ct, running, count)
  {
    var i, ct := |RunningOf(r.containers)| + j, Kept(r.newest)[j];
    ChosenMembers(r, ct);
    assert Chosen(r)[i] == ct;
    var p := Planned(m, r);
    EndOfTask(c, m, r, i);
    AloneStoppedShows(TaskFor(c, p, r.host, ct), p.cycle,
                      Part(Outside, Lookup(p.prev, ct.id), Lookup(p.restart, ct.id), ZERO_SAMPLE, NoError));
  }

  // ---- running containers ----

  /** Every running container has a result: an error when its stats read failed, and else its own
      sample, marked as running, with the memory and the CPU share of the reply. */
  lemma RunningResult(c: Settings, m: Memory, r: Round, ct: Container) returns (i: nat)
    requires r.Listed? && ProperRound(r) && ct in r.containers && ct.running
    ensures var end := FanEnd(c, m, r);
            && i < |RunningOf(r.containers)| <= |end.out| && Chosen(r)[i] == ct
            && match r.host.stats(ct.id)
               case None => end.errs[i].Failure?
               case Some(stats) =>
                 && end.errs[i].NoError? && end.out[i].container == ct && end.out[i].running
                 && end.out[i] == SampleOf(ct, stats, Lookup(m.prev, ct.id)).(restarts := end.out[i].restarts)
  {
    RunningMembers(r.containers, ct);
    i :| 0 <= i < |RunningOf(r.containers)| && RunningOf(r.containers)[i] == ct;
    assert Chosen(r)[i] == ct;
    var p := Planned(m, r);
    PlannedEntry(m, r, ct.id);
    EndOfTask(c, m, r, i);
    AloneRunning(TaskFor(c, p, r.host, ct), p.cycle,
                 Part(Outside, Lookup(p.prev, ct.id), Lookup(p.restart, ct.id), ZERO_SAMPLE, NoError));
  }

  // ---- the first inspect call ----

  /** A stats read of the container has succeeded since it was last absent from the running list. */
  predicate Met(rounds: seq<Round>, id: Text) {
    rounds != [] &&
    var n := |rounds| - 1;
    var r := rounds[n];
    if r.Unlisted? then Met(rounds[..n], id)
    else RunsIn(r, id) && (r.host.stats(id).Some? || Met(rounds[..n], id))
  }

  /** The client has an entry of exactly the containers that it has met. */
  lemma {:induction false} EntryMeansMet(c: Settings, rounds: seq<Round>, id: Text)
    requires AllProper(rounds)
    ensures id in Run(c, rounds).restart <==> Met(rounds, id)
  {
    if rounds != [] {
      var n := |rounds| - 1;
      var r := rounds[n];
      EntryMeansMet(c, rounds[..n], id);
      assert r in rounds;
      if RunsIn(r, id) {
        RunningEntry(c, Run(c, rounds[..n]), r, id);
      } else if r.Listed? {
        AbsentInRound(c, Run(c, rounds[..n]), r, id);
      }
    }
  }

  /** The goroutines that a run starts in its last round. */
  function LastTasks(c: Settings, rounds: seq<Round>): seq<Task>
    requires rounds != [] && rounds[|rounds| - 1].Listed?
  {
    var n := |rounds| - 1;
    TasksFor(c, Planned(Run(c, rounds[..n]), rounds[n]), rounds[n].host, Chosen(rounds[n]))
  }

  /** Over every run: in the first round in which a container runs and its stats read succeeds, since
      the start or since it was last absent, the client makes an inspect call for it, and the sample
      of that very round carries the count that the call gave, or none when it failed. */
  lemma FirstReadIsInspected(c: Settings, rounds: seq<Round>, id: Text) returns (i: nat)
    requires AllProper(rounds) && rounds != []
    requires RunsIn(rounds[|rounds| - 1], id) && rounds[|rounds| - 1].host.stats(id).Some?
    requires !Met(rounds[..|rounds| - 1], id)
    ensures var n, r := |rounds| - 1, rounds[|rounds| - 1];
            var end := FanEnd(c, Run(c, rounds[..n]), r);
            && i < |end.out| == |LastTasks(c, rounds)|
            && LastTasks(c, rounds)[i].RunningTask? && LastTasks(c, rounds)[i].ct.id == id && LastTasks(c, rounds)[i].due
            && end.errs[i].NoError? && end.out[i].container.id == id && end.out[i].restarts == r.host.inspect(id)
  {
    var n, r := |rounds| - 1, rounds[|rounds| - 1];
    var m := Run(c, rounds[..n]);
    assert r in rounds;
    EntryMeansMet(c, rounds[..n], id);
    i := RunningInRound(c, m, r, id);
    PlannedEntry(m, r, id);
  }
}
