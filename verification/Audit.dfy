// Audit events and retention: recording goes on while any number of retention processes read, archive
// and delete.
module Audit {

  datatype Event = Event(id: nat, createdAt: int, body: string)

  // A retention process: its cutoff, what it read, and how much of that it has written.
  datatype Process = Reading(cutoff: int) | Archiving(cutoff: int, events: seq<Event>, written: nat)

  // `recorded` is every event ever stored.
  datatype State = State(
    now: int, table: set<Event>, archive: seq<Event>, recorded: set<Event>, processes: map<nat, Process>)

  // Whether retention archives, and how long after its creation time an event may still be stored.
  datatype Setup = Setup(archiving: bool, lag: nat)

  // Retention is configured in whole days, at least one.
  const DAY := 86400

  datatype Step =
    | Tick(to: int)
    | Record(event: Event)
    | Start(process: nat, days: nat)
    | Read(process: nat, events: seq<Event>)
    | Write(process: nat)
    | Delete(process: nat)
    | Crash(process: nat)

  function Old(table: set<Event>, cutoff: int): set<Event> {
    set e | e in table && e.createdAt < cutoff
  }

  function Elements(events: seq<Event>): set<Event> {
    set e | e in events
  }

  // The rows before the cutoff, each once, in some order.
  predicate Lists(events: seq<Event>, table: set<Event>, cutoff: int) {
    && Elements(events) == Old(table, cutoff)
    && forall i, j :: 0 <= i < j < |events| ==> events[i] != events[j]
  }

  function Initial(now: int): State {
    State(now, {}, [], {}, map[])
  }

  predicate CanWrite(st: State, p: nat) {
    p in st.processes && st.processes[p].Archiving? && st.processes[p].written < |st.processes[p].events|
  }

  // One step; a step that is not enabled leaves the state as it is.
  function Apply(cfg: Setup, st: State, step: Step): State {
    match step
    case Tick(to) => if to < st.now then st else st.(now := to)
    case Record(event) =>
      if !(st.now - cfg.lag <= event.createdAt <= st.now) then st
      else st.(table := st.table + {event}, recorded := st.recorded + {event})
    case Start(p, days) =>
      if p in st.processes || days < 1 then st
      else st.(processes := st.processes[p := Reading(st.now - days * DAY)])
    case Read(p, events) =>
      if p !in st.processes || !st.processes[p].Reading? || !Lists(events, st.table, st.processes[p].cutoff) then st
      else st.(processes := st.processes[p := Archiving(st.processes[p].cutoff, events, 0)])
    case Write(p) =>
      if !CanWrite(st, p) || !cfg.archiving then st
      else
        var process := st.processes[p];
        st.(archive := st.archive + [process.events[process.written]],
            processes := st.processes[p := process.(written := process.written + 1)])
    case Delete(p) =>
      if p !in st.processes || !st.processes[p].Archiving? || (cfg.archiving && CanWrite(st, p)) then st
      else st.(table := st.table - Old(st.table, st.processes[p].cutoff), processes := st.processes - {p})
    case Crash(p) => st.(processes := st.processes - {p})
  }

  function Exec(cfg: Setup, st: State, steps: seq<Step>): State {
    if steps == [] then st
    else Apply(cfg, Exec(cfg, st, steps[..|steps| - 1]), steps[|steps| - 1])
  }

  // Every event ever recorded is still in the table or in the archive.
  ghost predicate Conserved(st: State) {
    forall e :: e in st.recorded ==> e in st.table || e in st.archive
  }

  // ---------------------------------------------------------------- the invariant

  // Whatever a process would delete, it has read; and what it has written is in the archive.
  ghost predicate ProcessFits(st: State, process: Process) {
    && process.cutoff <= st.now - DAY
    && (process.Archiving? ==>
          && process.written <= |process.events|
          && Old(st.table, process.cutoff) <= Elements(process.events)
          && (forall i :: 0 <= i < process.written ==> process.events[i] in st.archive))
  }

  ghost predicate ProcessesFit(st: State) {
    forall p :: p in st.processes ==> ProcessFits(st, st.processes[p])
  }

  lemma StepKeepsProcesses(cfg: Setup, st: State, step: Step)
    requires ProcessesFit(st) && cfg.lag <= DAY
    ensures ProcessesFit(Apply(cfg, st, step))
  {
    var after := Apply(cfg, st, step);
    forall p | p in after.processes ensures ProcessFits(after, after.processes[p]) {
      if p in st.processes { assert ProcessFits(st, st.processes[p]); }
    }
  }

  // With archiving on, a deletion takes only what is in the archive.
  lemma DeletedIsArchived(st: State, p: nat)
    requires ProcessesFit(st) && p in st.processes && st.processes[p].Archiving? && !CanWrite(st, p)
    ensures Old(st.table, st.processes[p].cutoff) <= Elements(st.processes[p].events) <= Elements(st.archive)
  {
    var process := st.processes[p];
    assert ProcessFits(st, process);
    forall e | e in Elements(process.events) ensures e in st.archive {
      var i :| 0 <= i < |process.events| && process.events[i] == e;
    }
  }

  lemma {:induction false} RunKeeps(cfg: Setup, now: int, steps: seq<Step>)
    requires cfg.archiving && cfg.lag <= DAY
    ensures ProcessesFit(Exec(cfg, Initial(now), steps)) && Conserved(Exec(cfg, Initial(now), steps))
  {
    if steps != [] {
      var st := Exec(cfg, Initial(now), steps[..|steps| - 1]);
      var step := steps[|steps| - 1];
      RunKeeps(cfg, now, steps[..|steps| - 1]);
      StepKeepsProcesses(cfg, st, step);
      if step.Delete? && Apply(cfg, st, step) != st {
        DeletedIsArchived(st, step.process);
        assert forall e :: e in Old(st.table, st.processes[step.process].cutoff) ==> e in Elements(st.archive);
      }
    }
  }

  // ---------------------------------------------------------------- runs that lose an event

  lemma ExecSnoc(cfg: Setup, st: State, steps: seq<Step>, step: Step)
    ensures Exec(cfg, st, steps + [step]) == Apply(cfg, Exec(cfg, st, steps), step)
  {
    assert (steps + [step])[..|steps|] == steps;
  }

  lemma TwoSteps(cfg: Setup, st: State, a: Step, b: Step)
    ensures Exec(cfg, st, [a, b]) == Apply(cfg, Apply(cfg, st, a), b)
  {
    ExecSnoc(cfg, st, [], a);
    ExecSnoc(cfg, st, [a], b);
    assert [] + [a] == [a] && [a] + [b] == [a, b];
  }

  lemma FourSteps(cfg: Setup, st: State, a: Step, b: Step, c: Step, d: Step)
    ensures Exec(cfg, st, [a, b, c, d]) == Apply(cfg, Apply(cfg, Apply(cfg, Apply(cfg, st, a), b), c), d)
  {
    TwoSteps(cfg, st, a, b);
    ExecSnoc(cfg, st, [a, b], c);
    ExecSnoc(cfg, st, [a, b, c], d);
    assert [a, b] + [c] == [a, b, c] && [a, b, c] + [d] == [a, b, c, d];
  }

  // Without archiving, an event that has grown old is deleted for good.
  lemma Unarchived(cfg: Setup, now: int) returns (steps: seq<Step>)
    requires !cfg.archiving
    ensures !Conserved(Exec(cfg, Initial(now), steps))
  {
    var e := Event(0, now, "");
    var later := now + 2 * DAY;
    var reading := [Record(e), Tick(later), Start(0, 1), Read(0, [e])];
    steps := reading + [Delete(0)];
    FourSteps(cfg, Initial(now), Record(e), Tick(later), Start(0, 1), Read(0, [e]));
    ExecSnoc(cfg, Initial(now), reading, Delete(0));
    assert Elements([e]) == {e} == Old({e}, now + DAY);
    var st := State(later, {e}, [], {e}, map[0 := Reading(now + DAY)]);
    assert Apply(cfg, st, Read(0, [e])).processes == map[0 := Archiving(now + DAY, [e], 0)];
    assert Exec(cfg, Initial(now), steps) == State(later, {}, [], {e}, map[]);
    assert e in Exec(cfg, Initial(now), steps).recorded;
  }

  // An event stored more than a day after its creation slips in between the reading and the deletion,
  // below the cutoff, and is deleted by a process that never read it.
  lemma StoredLate(cfg: Setup, now: int) returns (steps: seq<Step>)
    requires cfg.lag > DAY
    ensures OnlyProcess(steps, 0) && !DeletesItsReading(cfg, Exec(cfg, Initial(now), steps), 0)
    ensures !Conserved(Exec(cfg, Initial(now), steps + [Delete(0)]))
  {
    var e := Event(0, now - DAY - 1, "");
    steps := [Tick(now), Start(0, 1), Read(0, []), Record(e)];
    FourSteps(cfg, Initial(now), Tick(now), Start(0, 1), Read(0, []), Record(e));
    ExecSnoc(cfg, Initial(now), steps, Delete(0));
    assert Elements([]) == {} == Old({}, now - DAY);
    var st := State(now, {e}, [], {e}, map[0 := Archiving(now - DAY, [], 0)]);
    assert Exec(cfg, Initial(now), steps) == st;
    assert Old({e}, now - DAY) == {e};
    assert Apply(cfg, st, Delete(0)) == State(now, {}, [], {e}, map[]);
    assert e in st.recorded && e in st.table - Apply(cfg, st, Delete(0)).table;
  }

  // ---------------------------------------------------------------- the main results

  // No event is ever lost, over every interleaving of recording with any number of retention
  // processes and their crashes, exactly when archiving is on and no event is stored more than a day,
  // the shortest retention there is, after its creation.
  lemma RetentionConserves(cfg: Setup, now: int)
    ensures (forall steps :: Conserved(Exec(cfg, Initial(now), steps))) <==> cfg.archiving && cfg.lag <= DAY
  {
    if cfg.archiving && cfg.lag <= DAY {
      forall steps ensures Conserved(Exec(cfg, Initial(now), steps)) {
        RunKeeps(cfg, now, steps);
      }
    } else if !cfg.archiving {
      var steps := Unarchived(cfg, now);
      assert !Conserved(Exec(cfg, Initial(now), steps));
    } else {
      var steps := StoredLate(cfg, now);
      assert !Conserved(Exec(cfg, Initial(now), steps + [Delete(0)]));
    }
  }

  ghost predicate OnlyProcess(steps: seq<Step>, p: nat) {
    forall i :: 0 <= i < |steps| ==>
      match steps[i]
      case Tick(_) => true
      case Record(_) => true
      case Start(q, _) => q == p
      case Read(q, _) => q == p
      case Write(q) => q == p
      case Delete(q) => q == p
      case Crash(q) => q == p
  }

  // What process p deletes if it deletes now: exactly the events it read, and with archiving on all of
  // these are in the archive.
  ghost predicate DeletesItsReading(cfg: Setup, st: State, p: nat) {
    var after := Apply(cfg, st, Delete(p));
    after != st ==>
      && p in st.processes && st.processes[p].Archiving?
      && st.table - after.table == Elements(st.processes[p].events)
      && (cfg.archiving ==> Elements(st.processes[p].events) <= Elements(after.archive))
  }

  ghost predicate ReadsExactly(st: State, p: nat) {
    && st.processes.Keys <= {p}
    && (p in st.processes && st.processes[p].Archiving? ==>
          Elements(st.processes[p].events) == Old(st.table, st.processes[p].cutoff))
  }

  lemma SingleStep(cfg: Setup, st: State, step: Step, p: nat)
    requires ProcessesFit(st) && cfg.lag <= DAY
    requires ReadsExactly(st, p) && OnlyProcess([step], p)
    ensures ReadsExactly(Apply(cfg, st, step), p)
  {
    var after := Apply(cfg, st, step);
    assert [step][0] == step;
    if p in st.processes && step.Record? {
      assert ProcessFits(st, st.processes[p]);
      assert Old(after.table, st.processes[p].cutoff) == Old(st.table, st.processes[p].cutoff);
    }
  }

  lemma {:induction false} SingleRun(cfg: Setup, now: int, steps: seq<Step>, p: nat)
    requires OnlyProcess(steps, p) && cfg.lag <= DAY
    ensures ProcessesFit(Exec(cfg, Initial(now), steps)) && ReadsExactly(Exec(cfg, Initial(now), steps), p)
  {
    if steps != [] {
      var n := |steps| - 1;
      assert OnlyProcess(steps[..n], p);
      SingleRun(cfg, now, steps[..n], p);
      StepKeepsProcesses(cfg, Exec(cfg, Initial(now), steps[..n]), steps[n]);
      SingleStep(cfg, Exec(cfg, Initial(now), steps[..n]), steps[n], p);
    }
  }

  // A process that is alone deletes exactly what it read, and so exactly what it archived, however
  // much is recorded meanwhile: over all runs, exactly when no event is stored more than a day late.
  lemma SingleProcessExact(cfg: Setup, now: int)
    ensures (forall steps, p :: OnlyProcess(steps, p) ==> DeletesItsReading(cfg, Exec(cfg, Initial(now), steps), p))
       <==> cfg.lag <= DAY
  {
    if cfg.lag <= DAY {
      forall steps, p | OnlyProcess(steps, p) ensures DeletesItsReading(cfg, Exec(cfg, Initial(now), steps), p) {
        var st := Exec(cfg, Initial(now), steps);
        SingleRun(cfg, now, steps, p);
        if Apply(cfg, st, Delete(p)) != st {
          assert st.table - Apply(cfg, st, Delete(p)).table == Old(st.table, st.processes[p].cutoff);
          if cfg.archiving { DeletedIsArchived(st, p); }
        }
      }
    } else {
      var steps := StoredLate(cfg, now);
      assert OnlyProcess(steps, 0) && !DeletesItsReading(cfg, Exec(cfg, Initial(now), steps), 0);
    }
  }

  // ---------------------------------------------------------------- one process from start to end

  function Writes(p: nat, n: nat): seq<Step> {
    seq(n, i => Write(p))
  }

  // The steps of one uninterrupted pass that reads these events.
  function Pass(cfg: Setup, p: nat, days: nat, events: seq<Event>): seq<Step> {
    [Start(p, days), Read(p, events)] + Writes(p, if cfg.archiving then |events| else 0) + [Delete(p)]
  }

  ghost function Written(st: State, p: nat, n: nat): State
    requires p in st.processes && st.processes[p].Archiving? && n <= |st.processes[p].events|
  {
    st.(archive := st.archive + st.processes[p].events[..n],
        processes := st.processes[p := st.processes[p].(written := n)])
  }

  lemma WriteNext(cfg: Setup, st: State, p: nat, n: nat)
    requires cfg.archiving && CompletelyUnwritten(st, p) && n < |st.processes[p].events|
    ensures Apply(cfg, Written(st, p, n), Write(p)) == Written(st, p, n + 1)
  {
    var events := st.processes[p].events;
    assert events[..n + 1] == events[..n] + [events[n]];
  }

  lemma {:induction false} WritesAll(cfg: Setup, st: State, steps: seq<Step>, p: nat, n: nat)
    requires cfg.archiving && CompletelyUnwritten(Exec(cfg, st, steps), p)
    requires n <= |Exec(cfg, st, steps).processes[p].events|
    ensures Exec(cfg, st, steps + Writes(p, n)) == Written(Exec(cfg, st, steps), p, n)
  {
    var mid := Exec(cfg, st, steps);
    if n == 0 {
      assert steps + Writes(p, 0) == steps;
      assert mid.processes[p := mid.processes[p]] == mid.processes;
    } else {
      WritesAll(cfg, st, steps, p, n - 1);
      ExecSnoc(cfg, st, steps + Writes(p, n - 1), Write(p));
      assert steps + Writes(p, n - 1) + [Write(p)] == steps + Writes(p, n);
      WriteNext(cfg, mid, p, n - 1);
    }
  }

  lemma OpeningResult(cfg: Setup, st: State, p: nat, days: nat, events: seq<Event>)
    requires p !in st.processes && days >= 1 && Lists(events, st.table, st.now - days * DAY)
    ensures Exec(cfg, st, [Start(p, days), Read(p, events)])
         == st.(processes := st.processes[p := Archiving(st.now - days * DAY, events, 0)])
  {
    TwoSteps(cfg, st, Start(p, days), Read(p, events));
  }

  // Up to the deletion: everything read is written, if archiving is on.
  lemma WrittenResult(cfg: Setup, st: State, steps: seq<Step>, p: nat)
    requires CompletelyUnwritten(Exec(cfg, st, steps), p)
    ensures
      var mid := Exec(cfg, st, steps);
      var events := mid.processes[p].events;
      var after := Exec(cfg, st, steps + Writes(p, if cfg.archiving then |events| else 0));
      && p in after.processes && after.processes[p].Archiving? && (cfg.archiving ==> !CanWrite(after, p))
      && after == mid.(archive := mid.archive + (if cfg.archiving then events else []), processes := after.processes)
      && after.processes[p].cutoff == mid.processes[p].cutoff && after.processes - {p} == mid.processes - {p}
  {
    var events := Exec(cfg, st, steps).processes[p].events;
    if cfg.archiving {
      WritesAll(cfg, st, steps, p, |events|);
      assert events[..|events|] == events;
    } else {
      assert steps + Writes(p, 0) == steps;
    }
  }

  predicate CompletelyUnwritten(st: State, p: nat) {
    p in st.processes && st.processes[p].Archiving? && st.processes[p].written == 0
  }

  // An uninterrupted pass archives what it read, if that is on, and deletes it.
  lemma PassResult(cfg: Setup, st: State, p: nat, days: nat, events: seq<Event>)
    requires p !in st.processes && days >= 1 && Lists(events, st.table, st.now - days * DAY)
    ensures Exec(cfg, st, Pass(cfg, p, days, events))
         == st.(table := st.table - Elements(events), archive := st.archive + (if cfg.archiving then events else []))
  {
    var opening := [Start(p, days), Read(p, events)];
    var written := Writes(p, if cfg.archiving then |events| else 0);
    OpeningResult(cfg, st, p, days, events);
    WrittenResult(cfg, st, opening, p);
    ExecSnoc(cfg, st, opening + written, Delete(p));
    assert Exec(cfg, st, opening).processes - {p} == st.processes;
  }

  // ---------------------------------------------------------------- the service

  datatype Report = Report(cutoff: int, archived: nat, deleted: nat)

  class AuditService {
    var table: set<Event>
    var archive: seq<Event>

    constructor ()
      ensures table == {} && archive == []
    {
      table, archive := {}, [];
    }

    method Record(event: Event)
      modifies this`table
      ensures table == old(table) + {event}
    {
      table := table + {event};
    }

    method Before(cutoff: int) returns (events: seq<Event>)
      ensures Lists(events, table, cutoff) && |events| == |Old(table, cutoff)|
      ensures forall e :: e in events <==> e in table && e.createdAt < cutoff
    {
      var rest := Old(table, cutoff);
      ghost var all := rest;
      events := [];
      while rest != {}
        invariant rest <= all && Elements(events) == all - rest
        invariant |events| == |all| - |rest|
        invariant forall i, j :: 0 <= i < j < |events| ==> events[i] != events[j]
        decreases rest
      {
        var e :| e in rest;
        assert e !in Elements(events);
        rest := rest - {e};
        assert Elements(events + [e]) == Elements(events) + {e};
        events := events + [e];
      }
      assert forall e :: e in events <==> e in Elements(events);
    }

    // The service as a state of the protocol with no process under way.
    ghost function Idle(now: int): State
      reads this
    {
      State(now, table, archive, table + Elements(archive), map[])
    }

    // Alone, retention archives the old events and deletes exactly these: it is a pass of the protocol.
    method ApplyRetention(now: int, retentionDays: nat, archiveEnabled: bool)
      returns (report: Report, ghost events: seq<Event>)
      modifies this
      ensures Lists(events, old(table), report.cutoff)
      ensures report.cutoff == now - retentionDays * 86400
      ensures forall e :: e in events <==> e in old(table) && e.createdAt < report.cutoff
      ensures forall e :: e in table <==> e in old(table) && e.createdAt >= report.cutoff
      ensures archive == if archiveEnabled then old(archive) + events else old(archive)
      ensures report.deleted == |events| && report.archived == (if archiveEnabled then |events| else 0)
      ensures retentionDays >= 1 ==>
        var after := Exec(Setup(archiveEnabled, DAY), old(Idle(now)),
            Pass(Setup(archiveEnabled, DAY), 0, retentionDays, events));
        table == after.table && archive == after.archive && after.processes == map[]
      ensures report.cutoff == now - retentionDays * DAY
      ensures table == old(table) - Old(old(table), report.cutoff)
      ensures report.deleted == |Old(old(table), report.cutoff)|
      ensures if archiveEnabled then
                report.archived == report.deleted
                && old(archive) <= archive && Lists(archive[|old(archive)|..], old(table), report.cutoff)
              else report.archived == 0 && archive == old(archive)
      ensures archiveEnabled ==> old(table) <= table + Elements(archive)
    {
      var cutoff := now - retentionDays * DAY;
      var read := Before(cutoff);
      events := read;
      assert forall e :: e in events <==> e in Elements(events);
      if archiveEnabled && read != [] {
        for i := 0 to |read|
          invariant archive == old(archive) + read[..i]
          invariant table == old(table)
        {
          archive := archive + [read[i]];
        }
        assert read[..|read|] == read;
      }
      assert archive == old(archive) + (if archiveEnabled then read else []);
      if retentionDays >= 1 {
        PassResult(Setup(archiveEnabled, DAY), old(Idle(now)), 0, retentionDays, events);
      }
      table := table - Old(table, cutoff);
      report := Report(cutoff, if archiveEnabled then |read| else 0, |read|);
      if archiveEnabled {
        assert archive[|old(archive)|..] == events;
        assert forall e :: e in events ==> e in archive;
        assert forall e :: e in Old(old(table), cutoff) ==> e in Elements(events);
      }
    }
  }
}
