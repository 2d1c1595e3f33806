/**
 * The round-robin schedule checker of sched_test/scheduller.cpp, `schedule`, as a state machine.
 * One `Step` dequeues the least event; a READY or SCHED event puts its process in the ready set,
 * a WAIT event queues the end of the I/O burst, and every WAIT, SCHED or FINISH event is a decision
 * point at which one `(time, name)` decision is read and checked against the eligible class.
 * `Run` repeats steps until no process is active or the run stops; `Simulate` starts it from the
 * initial queue. The method `Checker.Schedule` runs the same loop imperatively.
 */
module Simulation {
  import opened Timeline
  import Ordered

  /** Which process an entry refers to: the idle pseudo-process or a position in the process list. */
  datatype Pid = Idle | Proc(index: nat)

  /** "At `global`, process `pid` makes transition `kind`, at local time `local`." */
  datatype QueueEvent = QueueEvent(kind: Kind, pid: Pid, global: nat, local: nat)

  /** A ready process with the local time until its next transition, computed on entry. */
  datatype ReadyProcess = ReadyProcess(pid: Pid, local: nat, remain: nat)

  /** One line of the decision stream. */
  datatype Decision = Decision(time: nat, name: string)

  /** One accepted decision of the trace. */
  datatype Reschedule = Reschedule(time: nat, id: string)

  /** The event queue is ordered by global time, then by kind. */
  function EventKey(e: QueueEvent): Ordered.Key {
    (e.global, Rank(e.kind))
  }

  /** The ready queue is ordered by remaining time alone. */
  function ReadyKey(r: ReadyProcess): Ordered.Key {
    (r.remain, 0)
  }

  /** `operator<` on queue events: the earlier event first; at the same time READY, then SCHED,
      then WAIT, then FINISH. */
  lemma EventOrder(a: QueueEvent, b: QueueEvent)
    ensures a.global < b.global ==> Ordered.Less(EventKey(a), EventKey(b))
    ensures Ordered.Less(EventKey(a), EventKey(b)) ==> a.global <= b.global
    ensures a.global == b.global ==>
      (Ordered.Less(EventKey(a), EventKey(b)) <==>
         || (a.kind == Ready && b.kind != Ready)
         || (a.kind == Sched && (b.kind == Wait || b.kind == Finish))
         || (a.kind == Wait && b.kind == Finish))
  {
  }

  /** `operator<` on ready entries compares `remain` alone: entries with equal `remain` are
      unordered, and the multiset keeps them in insertion order. */
  lemma ReadyOrder(a: ReadyProcess, b: ReadyProcess)
    ensures Ordered.Less(ReadyKey(a), ReadyKey(b)) <==> a.remain < b.remain
    ensures a.remain == b.remain ==> !Ordered.Less(ReadyKey(a), ReadyKey(b)) && !Ordered.Less(ReadyKey(b), ReadyKey(a))
  {
  }

  const IdleName: string := "IDLE"

  /** `Process idle("IDLE", 0, MAX)`: no I/O, and its FINISH is at MAX. */
  function IdleRecord(): (p: ProcessRecord)
    ensures ValidRecord(p)
  {
    ProcessRecord(IdleName, 0, MAX, NewTimeline(MAX))
  }

  /** Every process is well-formed and has a non-empty name, as the line reader produces them. */
  ghost predicate WellFormed(procs: seq<ProcessRecord>) {
    forall i :: 0 <= i < |procs| ==> procs[i].id != "" && ValidRecord(procs[i])
  }

  predicate Known(procs: seq<ProcessRecord>, pid: Pid) {
    pid.Proc? ==> pid.index < |procs|
  }

  function RecordOf(procs: seq<ProcessRecord>, pid: Pid): (p: ProcessRecord)
    requires Known(procs, pid)
    ensures WellFormed(procs) ==> ValidRecord(p) && p.id != ""
  {
    if pid.Idle? then IdleRecord() else procs[pid.index]
  }

  function Name(procs: seq<ProcessRecord>, pid: Pid): string
    requires Known(procs, pid)
  {
    RecordOf(procs, pid).id
  }

  /** Everything the loop of `schedule` keeps between iterations; `consumed` counts the decisions read. */
  datatype Sim = Sim(queue: seq<QueueEvent>, ready: seq<ReadyProcess>, active: nat, consumed: nat,
                     trace: seq<Reschedule>)

  ghost predicate AllKnown(procs: seq<ProcessRecord>, q: seq<QueueEvent>, ready: seq<ReadyProcess>) {
    && (forall e :: e in q ==> Known(procs, e.pid))
    && (forall r :: r in ready ==> Known(procs, r.pid))
  }

  ghost predicate Inv(procs: seq<ProcessRecord>, ds: seq<Decision>, s: Sim) {
    && WellFormed(procs)
    && s.consumed <= |ds|
    && Ordered.Sorted(s.queue, EventKey)
    && Ordered.Sorted(s.ready, ReadyKey)
    && AllKnown(procs, s.queue, s.ready)
  }

  /** Behaviour the source leaves undefined, or `size_t` arithmetic that would wrap. */
  datatype Failure = EmptyQueue | EmptyReady | ChosenNotReady | TimeOverflow

  /** How a run ends. Each outcome carries the decisions accepted before it. */
  datatype Outcome =
    | Finished(trace: seq<Reschedule>)
    | Desynchronized(expected: nat, received: nat, trace: seq<Reschedule>)
    | IdleWhileEligible(time: nat, eligible: seq<string>, trace: seq<Reschedule>)
    | NoneEligible(time: nat, trace: seq<Reschedule>)
    | NotEligible(time: nat, eligible: seq<string>, trace: seq<Reschedule>)
    | Undefined(why: Failure, trace: seq<Reschedule>)
  {
    /** One of the three `exit(-1)` verdicts on an illegal choice. */
    predicate Rejected() {
      IdleWhileEligible? || NoneEligible? || NotEligible?
    }
  }

  datatype StepResult = Continue(next: Sim) | Stop(outcome: Outcome)

  /** The decision read at a decision point; past the end of the stream the variables keep their
      initial values, time 0 and the empty name. */
  function ReadDecision(ds: seq<Decision>, n: nat): Decision {
    if n < |ds| then ds[n] else Decision(0, "")
  }

  /** Membership of the eligible class: not named IDLE, and classed by `remain <= quant` the same
      way as the ready minimum. */
  predicate InClass(procs: seq<ProcessRecord>, quant: nat, inQuant: bool, r: ReadyProcess)
    requires Known(procs, r.pid)
  {
    Name(procs, r.pid) != IdleName && (r.remain <= quant) == inQuant
  }

  /** The class `app` that the scan of the ready queue builds, in ready-queue order. */
  function Eligible(procs: seq<ProcessRecord>, ready: seq<ReadyProcess>, quant: nat, inQuant: bool)
    : (app: seq<ReadyProcess>)
    requires forall r :: r in ready ==> Known(procs, r.pid)
    ensures forall r :: r in app <==> r in ready && InClass(procs, quant, inQuant, r)
  {
    if ready == [] then []
    else
      var last := ready[|ready| - 1];
      var init := ready[..|ready| - 1];
      assert ready == init + [last];
      Eligible(procs, init, quant, inQuant) + if InClass(procs, quant, inQuant, last) then [last] else []
  }

  function Names(procs: seq<ProcessRecord>, app: seq<ReadyProcess>): seq<string>
    requires forall r :: r in app ==> Known(procs, r.pid)
  {
    seq(|app|, i requires 0 <= i < |app| => Name(procs, app[i].pid))
  }

  /** Position of the first entry whose process is called `name`, or the length if there is none. */
  function FindNamed(procs: seq<ProcessRecord>, s: seq<ReadyProcess>, name: string): (k: nat)
    requires forall r :: r in s ==> Known(procs, r.pid)
    ensures k <= |s|
    ensures k < |s| ==> Name(procs, s[k].pid) == name
    ensures forall j :: 0 <= j < k ==> Name(procs, s[j].pid) != name
  {
    if s == [] then 0
    else if Name(procs, s[0].pid) == name then 0
    else 1 + FindNamed(procs, s[1..], name)
  }

  /** A choice is legal when IDLE is chosen and the class is empty, or when the chosen name belongs
      to a member of the class. */
  ghost predicate Legal(procs: seq<ProcessRecord>, name: string, app: seq<ReadyProcess>)
    requires forall r :: r in app ==> Known(procs, r.pid)
  {
    if name == IdleName then app == [] else exists r :: r in app && Name(procs, r.pid) == name
  }

  function Min(a: nat, b: nat): nat {
    if a <= b then a else b
  }

  /** The one event queued for the chosen process. */
  function FollowUp(procs: seq<ProcessRecord>, quant: nat, ev: QueueEvent, q: seq<QueueEvent>,
                    proc: ReadyProcess): (e: QueueEvent)
    requires WellFormed(procs) && Known(procs, proc.pid)
    requires q != [] ==> q[0].global >= ev.global
    ensures e.pid == proc.pid && e.global >= ev.global
    ensures proc.pid == Idle && q != [] ==>
      && e.kind == Sched
      && e.global == Min(q[0].global, ev.global + quant)
      && e.local == ev.local + (e.global - ev.global)
    ensures !(proc.pid == Idle && q != []) && quant < proc.remain ==>
      e == QueueEvent(Sched, proc.pid, ev.global + quant, proc.local + quant)
    ensures !(proc.pid == Idle && q != []) && proc.remain <= quant ==>
      && e.global == ev.global + proc.remain
      && e.local == proc.local + proc.remain
      && e.kind == StateAt(RecordOf(procs, proc.pid).events, e.local)
  {
    if proc.pid == Idle && q != [] then
      var delta := Min(q[0].global - ev.global, quant);
      QueueEvent(Sched, proc.pid, ev.global + delta, ev.local + delta)
    else if proc.remain > quant then
      QueueEvent(Sched, proc.pid, ev.global + quant, proc.local + quant)
    else
      var local := proc.local + proc.remain;
      QueueEvent(StateAt(RecordOf(procs, proc.pid).events, local), proc.pid, ev.global + proc.remain, local)
  }

  /** Every queued event is due at or after `t`. */
  ghost predicate AtOrAfter(q: seq<QueueEvent>, t: nat) {
    forall e :: e in q ==> e.global >= t
  }

  lemma InsertAtOrAfter(q: seq<QueueEvent>, x: QueueEvent, t: nat)
    requires AtOrAfter(q, t) && x.global >= t
    ensures AtOrAfter(Ordered.Insert(q, x, EventKey), t)
  {
    var r := Ordered.Insert(q, x, EventKey);
    forall e | e in r ensures e.global >= t {
      assert e in multiset(r);
    }
  }

  /** The head of a sorted queue is due no later than any other event in it. */
  lemma HeadIsEarliest(q: seq<QueueEvent>)
    requires q != [] && Ordered.Sorted(q, EventKey)
    ensures AtOrAfter(q, q[0].global)
  {
    forall e | e in q ensures e.global >= q[0].global {
      var j :| 0 <= j < |q| && q[j] == e;
      if j > 0 {
        assert !Ordered.Less(EventKey(q[j]), EventKey(q[0]));
      }
    }
  }

  /** An accepted choice (lines 257-290): take the first ready entry called `name` out of the ready
      set, queue its follow-up event and record the decision. */
  function Commit(procs: seq<ProcessRecord>, quant: nat, ds: seq<Decision>, s: Sim, ev: QueueEvent,
                  q: seq<QueueEvent>, ready: seq<ReadyProcess>, active: nat, name: string): (res: StepResult)
    requires WellFormed(procs) && s.consumed < |ds| && 0 < active
    requires Ordered.Sorted(q, EventKey) && Ordered.Sorted(ready, ReadyKey) && AllKnown(procs, q, ready)
    requires AtOrAfter(q, ev.global)
    ensures res.Stop? ==> res.outcome.trace == s.trace && res.outcome.Undefined?
    ensures res.Continue? ==>
      && Inv(procs, ds, res.next)
      && res.next.active == active
      && res.next.consumed == s.consumed + 1
      && AtOrAfter(res.next.queue, ev.global)
    ensures res.Continue? ==>
      var k := FindNamed(procs, ready, name);
      && k < |ready|
      && res.next.ready == ready[..k] + ready[k + 1..]
      && res.next.queue == Ordered.Insert(q, FollowUp(procs, quant, ev, q, ready[k]), EventKey)
      && res.next.trace == s.trace + [Reschedule(ev.global, name)]
  {
    var k := FindNamed(procs, ready, name);
    if k == |ready| then Stop(Undefined(ChosenNotReady, s.trace))
    else Take(procs, quant, ds, s, ev, q, ready, active, k)
  }

  /** Lines 257-290 once the chosen entry has been found at position `k` of the ready set: it is
      erased, its follow-up event is queued and the decision is recorded. */
  function Take(procs: seq<ProcessRecord>, quant: nat, ds: seq<Decision>, s: Sim, ev: QueueEvent,
                q: seq<QueueEvent>, ready: seq<ReadyProcess>, active: nat, k: nat): (res: StepResult)
    requires WellFormed(procs) && s.consumed < |ds| && 0 < active && k < |ready|
    requires Ordered.Sorted(q, EventKey) && Ordered.Sorted(ready, ReadyKey) && AllKnown(procs, q, ready)
    requires AtOrAfter(q, ev.global)
    ensures res.Stop? ==> res.outcome == Undefined(TimeOverflow, s.trace)
    ensures res.Continue? ==>
      && Inv(procs, ds, res.next)
      && res.next.active == active
      && res.next.consumed == s.consumed + 1
      && AtOrAfter(res.next.queue, ev.global)
    ensures res.Continue? ==>
      && ready[k] in ready && (q != [] ==> q[0].global >= ev.global)
      && res.next.ready == ready[..k] + ready[k + 1..]
      && res.next.queue == Ordered.Insert(q, FollowUp(procs, quant, ev, q, ready[k]), EventKey)
      && res.next.trace == s.trace + [Reschedule(ev.global, Name(procs, ready[k].pid))]
  {
    var proc := ready[k];
    assert proc in ready;
    assert q != [] ==> q[0] in q;
    var e := FollowUp(procs, quant, ev, q, proc);
    if e.global > MAX || e.local > MAX then Stop(Undefined(TimeOverflow, s.trace))
    else
      Ordered.RemoveSorted(ready, k, ReadyKey);
      InsertAtOrAfter(q, e, ev.global);
      CommitKnown(procs, q, ready, k, e);
      Continue(Sim(Ordered.Insert(q, e, EventKey), ready[..k] + ready[k + 1..], active, s.consumed + 1,
                   s.trace + [Reschedule(ev.global, Name(procs, proc.pid))]))
  }

  /** Queuing an event of a known process and removing a ready entry keeps every pid known. */
  lemma CommitKnown(procs: seq<ProcessRecord>, q: seq<QueueEvent>, ready: seq<ReadyProcess>, k: nat,
                    e: QueueEvent)
    requires AllKnown(procs, q, ready) && k < |ready| && Known(procs, e.pid)
    ensures AllKnown(procs, Ordered.Insert(q, e, EventKey), ready[..k] + ready[k + 1..])
  {
    var q' := Ordered.Insert(q, e, EventKey);
    forall x | x in q' ensures Known(procs, x.pid) {
      assert x in multiset(q');
    }
    forall r | r in ready[..k] + ready[k + 1..] ensures Known(procs, r.pid) {
      assert r in ready;
    }
  }

  datatype Option<T> = None | Some(value: T)

  /** The three legality checks of lines 226-255 on the eligible class `app`: `None` accepts the
      choice, `Some` is the verdict of `exit(-1)`. */
  function Verdict(procs: seq<ProcessRecord>, time: nat, name: string, app: seq<ReadyProcess>,
                   trace: seq<Reschedule>): (v: Option<Outcome>)
    requires forall r :: r in app ==> Known(procs, r.pid)
    ensures v.None? <==> Legal(procs, name, app)
    ensures v.Some? ==> v.value.Rejected() && v.value.trace == trace
    ensures name == IdleName && app != [] ==> v == Some(IdleWhileEligible(time, Names(procs, app), trace))
    ensures name != IdleName && app == [] ==> v == Some(NoneEligible(time, trace))
    ensures name != IdleName && app != [] && !Legal(procs, name, app) ==>
      v == Some(NotEligible(time, Names(procs, app), trace))
  {
    var found := FindNamed(procs, app, name) < |app|;
    assert found ==> app[FindNamed(procs, app, name)] in app;
    if name == IdleName && app != [] then Some(IdleWhileEligible(time, Names(procs, app), trace))
    else if name != IdleName && app == [] then Some(NoneEligible(time, trace))
    else if !found && name != IdleName then Some(NotEligible(time, Names(procs, app), trace))
    else None
  }

  /** The decision point for event `ev`, with `q` the queue and `ready` the ready set as they are
      once the event has been taken (lines 205-255). */
  function Decide(procs: seq<ProcessRecord>, quant: nat, ds: seq<Decision>, s: Sim, ev: QueueEvent,
                  q: seq<QueueEvent>, ready: seq<ReadyProcess>, active: nat): (res: StepResult)
    requires WellFormed(procs) && s.consumed <= |ds| && 0 < active
    requires Ordered.Sorted(q, EventKey) && Ordered.Sorted(ready, ReadyKey) && AllKnown(procs, q, ready)
    requires AtOrAfter(q, ev.global)
    ensures res.Stop? ==> res.outcome.trace == s.trace
    ensures res.Continue? ==>
      && Inv(procs, ds, res.next)
      && res.next.active == active
      && res.next.consumed == s.consumed + 1
      && AtOrAfter(res.next.queue, ev.global)
    ensures ready != [] && ReadDecision(ds, s.consumed).time != ev.global ==>
      res == Stop(Desynchronized(ev.global, ReadDecision(ds, s.consumed).time, s.trace))
    ensures ready != [] && ReadDecision(ds, s.consumed).time == ev.global ==>
      var d := ReadDecision(ds, s.consumed);
      var app := Eligible(procs, ready, quant, ready[0].remain <= quant);
      (res.Stop? && res.outcome.Rejected() <==> !Legal(procs, d.name, app))
    ensures res.Continue? ==>
      var d := ReadDecision(ds, s.consumed);
      && ready != []
      && d.time == ev.global
      && Legal(procs, d.name, Eligible(procs, ready, quant, ready[0].remain <= quant))
      && res == Commit(procs, quant, ds, s, ev, q, ready, active, d.name)
      && res.next.trace == s.trace + [Reschedule(ev.global, d.name)]
  {
    if ready == [] then Stop(Undefined(EmptyReady, s.trace))
    else
      var inQuant := ready[0].remain <= quant;
      var d := ReadDecision(ds, s.consumed);
      if d.time != ev.global then Stop(Desynchronized(ev.global, d.time, s.trace))
      else
        var app := Eligible(procs, ready, quant, inQuant);
        match Verdict(procs, d.time, d.name, app, s.trace)
        case Some(o) => Stop(o)
        case None =>
          LegalWithinStream(procs, ds, s.consumed, app);
          Commit(procs, quant, ds, s, ev, q, ready, active, d.name)
  }

  /** Past the end of the stream the name read is empty, and no process is called that: a choice
      that passes the checks was read from the stream. */
  lemma LegalWithinStream(procs: seq<ProcessRecord>, ds: seq<Decision>, n: nat, app: seq<ReadyProcess>)
    requires WellFormed(procs) && forall r :: r in app ==> Known(procs, r.pid)
    requires Legal(procs, ReadDecision(ds, n).name, app)
    ensures n < |ds|
  {
  }

  /** `proc->remain(local)`: the time from `local` to the process's next transition. */
  function RemainOf(procs: seq<ProcessRecord>, pid: Pid, local: nat): (r: nat)
    requires WellFormed(procs) && Known(procs, pid) && local < MAX
    ensures r >= 1
  {
    Remain(RecordOf(procs, pid).events, local)
  }

  /** The ready-set entry of a process that becomes ready at local time `local`. */
  function Arrival(procs: seq<ProcessRecord>, pid: Pid, local: nat): (r: ReadyProcess)
    requires WellFormed(procs) && Known(procs, pid) && local < MAX
    ensures r.pid == pid && r.local == local && r.remain >= 1
  {
    ReadyProcess(pid, local, RemainOf(procs, pid, local))
  }

  /** The state just after the dequeued event `ev` has been taken from the queue `s.queue == [ev] + rest`. */
  ghost predicate Dequeued(procs: seq<ProcessRecord>, ds: seq<Decision>, s: Sim, ev: QueueEvent, rest: seq<QueueEvent>) {
    && WellFormed(procs) && s.consumed <= |ds| && 0 < s.active
    && Ordered.Sorted(rest, EventKey) && Ordered.Sorted(s.ready, ReadyKey)
    && AllKnown(procs, rest, s.ready) && Known(procs, ev.pid)
    && AtOrAfter(rest, ev.global)
  }

  /** A READY or SCHED event: the process enters the ready set (line 191); SCHED is also a decision
      point. */
  function Enter(procs: seq<ProcessRecord>, quant: nat, ds: seq<Decision>, s: Sim, ev: QueueEvent,
                 rest: seq<QueueEvent>): (res: StepResult)
    requires Dequeued(procs, ds, s, ev, rest) && (ev.kind == Ready || ev.kind == Sched)
    ensures res.Stop? ==> res.outcome.trace == s.trace
    ensures res.Continue? ==>
      && Inv(procs, ds, res.next)
      && res.next.active == s.active
      && AtOrAfter(res.next.queue, ev.global)
      && (ev.kind == Sched ==> res.next.consumed == s.consumed + 1)
      && (ev.kind == Sched ==> res.next.trace == s.trace + [Reschedule(ev.global, ReadDecision(ds, s.consumed).name)])
    ensures res.Continue? && ev.kind == Ready ==>
      && ev.local < MAX
      && res.next == s.(queue := rest, ready := Ordered.Insert(s.ready, Arrival(procs, ev.pid, ev.local), ReadyKey))
  {
    if ev.local >= MAX then Stop(Undefined(TimeOverflow, s.trace))
    else
      var ready := Ordered.Insert(s.ready, Arrival(procs, ev.pid, ev.local), ReadyKey);
      assert AllKnown(procs, rest, ready) by {
        forall r | r in ready ensures Known(procs, r.pid) {
          assert r in multiset(ready);
        }
      }
      if ev.kind == Ready then Continue(s.(queue := rest, ready := ready))
      else Decide(procs, quant, ds, s, ev, rest, ready, s.active)
  }

  /** The READY event that ends the I/O burst starting with WAIT event `ev`: due after the time the
      process's timeline gives to its next transition. `None` when a time would leave `size_t`. */
  function IoEnd(procs: seq<ProcessRecord>, ev: QueueEvent): (back: Option<QueueEvent>)
    requires WellFormed(procs) && Known(procs, ev.pid)
    ensures back.Some? <==> ev.local < MAX && ev.global + RemainOf(procs, ev.pid, ev.local) <= MAX
    ensures back.Some? ==>
      && back.value.kind == Ready && back.value.pid == ev.pid
      && ev.local < back.value.local && back.value.global <= MAX
      && back.value.global - ev.global == back.value.local - ev.local
  {
    if ev.local >= MAX then None
    else
      var remain := RemainOf(procs, ev.pid, ev.local);
      if ev.global + remain > MAX then None
      else Some(QueueEvent(Ready, ev.pid, ev.global + remain, ev.local + remain))
  }

  /** The I/O burst ends at the process's next transition: the READY is due at the least key of its
      timeline after the WAIT's local time, shifted to global time by the same amount. */
  lemma IoEndNextTransition(procs: seq<ProcessRecord>, ev: QueueEvent)
    requires WellFormed(procs) && Known(procs, ev.pid)
    ensures IoEnd(procs, ev).Some? ==>
      var back := IoEnd(procs, ev).value;
      var es := RecordOf(procs, ev.pid).events;
      && back.local in Keys(es)
      && (forall k :: k in Keys(es) && ev.local < k ==> back.local <= k)
  {
    if ev.local < MAX {
      RemainNextKey(RecordOf(procs, ev.pid).events, ev.local);
    }
  }

  /** The queue once the end of the I/O burst has been added to it. */
  function WithIoEnd(procs: seq<ProcessRecord>, rest: seq<QueueEvent>, ev: QueueEvent, back: QueueEvent)
    : (q: seq<QueueEvent>)
    requires AllKnown(procs, rest, []) && Known(procs, back.pid) && AtOrAfter(rest, ev.global)
    requires Ordered.Sorted(rest, EventKey) && back.global >= ev.global
    ensures q == Ordered.Insert(rest, back, EventKey)
    ensures Ordered.Sorted(q, EventKey) && AtOrAfter(q, ev.global)
    ensures forall e :: e in q ==> Known(procs, e.pid)
  {
    var q := Ordered.Insert(rest, back, EventKey);
    InsertAtOrAfter(rest, back, ev.global);
    assert forall e :: e in q ==> e in multiset(q);
    q
  }

  /** A WAIT event: the READY that ends the I/O burst is queued (lines 193-198), then a decision. */
  function StartIo(procs: seq<ProcessRecord>, quant: nat, ds: seq<Decision>, s: Sim, ev: QueueEvent,
                   rest: seq<QueueEvent>): (res: StepResult)
    requires Dequeued(procs, ds, s, ev, rest) && ev.kind == Wait
    ensures res.Stop? ==> res.outcome.trace == s.trace
    ensures res.Continue? ==>
      && Inv(procs, ds, res.next)
      && res.next.active == s.active
      && AtOrAfter(res.next.queue, ev.global)
      && res.next.consumed == s.consumed + 1
      && res.next.trace == s.trace + [Reschedule(ev.global, ReadDecision(ds, s.consumed).name)]
  {
    match IoEnd(procs, ev)
    case None => Stop(Undefined(TimeOverflow, s.trace))
    case Some(back) =>
      var q := WithIoEnd(procs, rest, ev, back);
      Decide(procs, quant, ds, s, ev, q, s.ready, s.active)
  }

  /** A WAIT event queues the end of its I/O burst before the decision, or stops when that end
      would leave `size_t`. */
  lemma StartIoCases(procs: seq<ProcessRecord>, quant: nat, ds: seq<Decision>, s: Sim, ev: QueueEvent,
                     rest: seq<QueueEvent>)
    requires Dequeued(procs, ds, s, ev, rest) && ev.kind == Wait
    ensures IoEnd(procs, ev).None? ==> StartIo(procs, quant, ds, s, ev, rest) == Stop(Undefined(TimeOverflow, s.trace))
    ensures IoEnd(procs, ev).Some? ==>
      var back := IoEnd(procs, ev).value;
      && WithIoEnd(procs, rest, ev, back) == Ordered.Insert(rest, back, EventKey)
      && StartIo(procs, quant, ds, s, ev, rest)
           == Decide(procs, quant, ds, s, ev, WithIoEnd(procs, rest, ev, back), s.ready, s.active)
  {
  }

  /** One iteration of the `while (active > 0)` loop (lines 188-291). */
  function Step(procs: seq<ProcessRecord>, quant: nat, ds: seq<Decision>, s: Sim): (res: StepResult)
    requires Inv(procs, ds, s) && 0 < s.active
    ensures res.Stop? ==> res.outcome.trace == s.trace
    ensures res.Continue? ==>
      && Inv(procs, ds, res.next)
      && 0 < res.next.active
      && s.queue != []
      && AtOrAfter(res.next.queue, s.queue[0].global)
      && res.next.active == (if s.queue[0].kind == Finish then s.active - 1 else s.active)
      && (s.queue[0].kind == Ready ==> res.next.consumed == s.consumed)
      && (s.queue[0].kind != Ready ==> res.next.consumed == s.consumed + 1)
      && (s.queue[0].kind != Ready ==>
            res.next.trace == s.trace + [Reschedule(s.queue[0].global, ReadDecision(ds, s.consumed).name)])
    ensures res.Continue? && s.queue[0].kind == Ready ==>
      && res.next.queue == s.queue[1..]
      && res.next.trace == s.trace
      && s.queue[0].local < MAX
      && multiset(res.next.ready) == multiset(s.ready) + multiset{Arrival(procs, s.queue[0].pid, s.queue[0].local)}
    ensures s.queue != [] && s.queue[0].kind == Finish && s.active == 1 ==> res == Stop(Finished(s.trace))
  {
    if s.queue == [] then Stop(Undefined(EmptyQueue, s.trace))
    else
      var ev := s.queue[0];
      var rest := s.queue[1..];
      assert s.queue == [ev] + rest;
      assert ev in s.queue;
      HeadIsEarliest(s.queue);
      assert Dequeued(procs, ds, s, ev, rest);
      match ev.kind
      case Ready => Enter(procs, quant, ds, s, ev, rest)
      case Sched => Enter(procs, quant, ds, s, ev, rest)
      case Wait => StartIo(procs, quant, ds, s, ev, rest)
      case Finish => Leave(procs, quant, ds, s, ev, rest)
  }

  /** A FINISH event (line 202): one process fewer is active; the run ends with the last one,
      otherwise a decision follows. */
  function Leave(procs: seq<ProcessRecord>, quant: nat, ds: seq<Decision>, s: Sim, ev: QueueEvent,
                 rest: seq<QueueEvent>): (res: StepResult)
    requires Dequeued(procs, ds, s, ev, rest) && ev.kind == Finish
    ensures s.active == 1 ==> res == Stop(Finished(s.trace))
    ensures res.Stop? ==> res.outcome.trace == s.trace
    ensures res.Continue? ==>
      && Inv(procs, ds, res.next)
      && res.next.active == s.active - 1
      && 0 < res.next.active
      && AtOrAfter(res.next.queue, ev.global)
      && res.next.consumed == s.consumed + 1
      && res.next.trace == s.trace + [Reschedule(ev.global, ReadDecision(ds, s.consumed).name)]
  {
    if s.active == 1 then Stop(Finished(s.trace))
    else Decide(procs, quant, ds, s, ev, rest, s.ready, s.active - 1)
  }

  /** Which function `Step` hands the dequeued event to. */
  lemma StepCases(procs: seq<ProcessRecord>, quant: nat, ds: seq<Decision>, s: Sim)
    requires Inv(procs, ds, s) && 0 < s.active && s.queue != []
    ensures Dequeued(procs, ds, s, s.queue[0], s.queue[1..])
    ensures s.queue[0].kind == Ready || s.queue[0].kind == Sched ==>
      Step(procs, quant, ds, s) == Enter(procs, quant, ds, s, s.queue[0], s.queue[1..])
    ensures s.queue[0].kind == Wait ==>
      Step(procs, quant, ds, s) == StartIo(procs, quant, ds, s, s.queue[0], s.queue[1..])
    ensures s.queue[0].kind == Finish ==>
      Step(procs, quant, ds, s) == Leave(procs, quant, ds, s, s.queue[0], s.queue[1..])
  {
    var ev := s.queue[0];
    assert s.queue == [ev] + s.queue[1..];
    assert ev in s.queue;
    HeadIsEarliest(s.queue);
  }

  /** What `Enter` does with the ready set, or why it stops first. */
  lemma EnterCases(procs: seq<ProcessRecord>, quant: nat, ds: seq<Decision>, s: Sim, ev: QueueEvent,
                   rest: seq<QueueEvent>)
    requires Dequeued(procs, ds, s, ev, rest) && (ev.kind == Ready || ev.kind == Sched)
    ensures ev.local >= MAX ==> Enter(procs, quant, ds, s, ev, rest) == Stop(Undefined(TimeOverflow, s.trace))
    ensures ev.local < MAX ==>
      var ready := Ordered.Insert(s.ready, Arrival(procs, ev.pid, ev.local), ReadyKey);
      && AllKnown(procs, rest, ready)
      && (ev.kind == Ready ==> Enter(procs, quant, ds, s, ev, rest) == Continue(s.(queue := rest, ready := ready)))
      && (ev.kind == Sched ==> Enter(procs, quant, ds, s, ev, rest) == Decide(procs, quant, ds, s, ev, rest, ready, s.active))
  {
    if ev.local < MAX {
      var ready := Ordered.Insert(s.ready, Arrival(procs, ev.pid, ev.local), ReadyKey);
      assert AllKnown(procs, rest, ready) by {
        forall r | r in ready ensures Known(procs, r.pid) {
          assert r in multiset(ready);
        }
      }
    }
  }

  /** The loop run to its end from state `s`. Every step either reads a decision or takes a READY
      event off the queue without adding one. */
  function Run(procs: seq<ProcessRecord>, quant: nat, ds: seq<Decision>, s: Sim): (o: Outcome)
    requires Inv(procs, ds, s)
    ensures s.trace <= o.trace
    decreases |ds| - s.consumed, |s.queue|
  {
    if s.active == 0 then Finished(s.trace)
    else
      match Step(procs, quant, ds, s)
      case Stop(o) => o
      case Continue(next) => Run(procs, quant, ds, next)
  }

  /** The queue before the loop: SCHED for the idle process at time 0, then READY at its start time
      for each of the first `n` processes, in the order of the process set. */
  function InitialQueue(procs: seq<ProcessRecord>, n: nat): (q: seq<QueueEvent>)
    requires n <= |procs|
    ensures Ordered.Sorted(q, EventKey)
    ensures forall e :: e in q ==> Known(procs, e.pid) && e.local == 0
    ensures multiset(q) == multiset{QueueEvent(Sched, Idle, 0, 0)} + multiset(Starts(procs, n))
  {
    if n == 0 then
      assert Starts(procs, 0) == [];
      [QueueEvent(Sched, Idle, 0, 0)]
    else
      var q := InitialQueue(procs, n - 1);
      var x := QueueEvent(Ready, Proc(n - 1), procs[n - 1].start, 0);
      var q' := Ordered.Insert(q, x, EventKey);
      assert forall e :: e in q' ==> e in multiset(q');
      StartsSnoc(procs, n);
      AddToBoth(multiset(q), multiset(q'), multiset(Starts(procs, n - 1)), multiset(Starts(procs, n)), x,
                QueueEvent(Sched, Idle, 0, 0));
      q'
  }

  lemma AddToBoth<T>(a: multiset<T>, b: multiset<T>, sa: multiset<T>, sb: multiset<T>, x: T, y: T)
    requires a == multiset{y} + sa && b == a + multiset{x} && sb == sa + multiset{x}
    ensures b == multiset{y} + sb
  {
  }

  lemma StartsSnoc(procs: seq<ProcessRecord>, n: nat)
    requires 0 < n <= |procs|
    ensures multiset(Starts(procs, n))
      == multiset(Starts(procs, n - 1)) + multiset{QueueEvent(Ready, Proc(n - 1), procs[n - 1].start, 0)}
  {
    assert Starts(procs, n) == Starts(procs, n - 1) + [QueueEvent(Ready, Proc(n - 1), procs[n - 1].start, 0)];
  }

  /** READY at its start time, at local time 0, for each of the first `n` processes. */
  function Starts(procs: seq<ProcessRecord>, n: nat): seq<QueueEvent>
    requires n <= |procs|
  {
    seq(n, i requires 0 <= i < n => QueueEvent(Ready, Proc(i), procs[i].start, 0))
  }

  function Initial(procs: seq<ProcessRecord>): Sim {
    Sim(InitialQueue(procs, |procs|), [], |procs|, 0, [])
  }

  /** `schedule(proces, events, quant)` with the decision stream `ds`. */
  function Simulate(procs: seq<ProcessRecord>, quant: nat, ds: seq<Decision>): (o: Outcome)
    requires WellFormed(procs)
    ensures Chronological(o.trace)
    ensures EchoesStream(o.trace, ds)
  {
    RunChronological(procs, quant, ds, Initial(procs));
    RunEchoes(procs, quant, ds, Initial(procs));
    Run(procs, quant, ds, Initial(procs))
  }

  /** The trace is the stream's first lines, each recorded as read: its time and its name. */
  ghost predicate EchoesStream(trace: seq<Reschedule>, ds: seq<Decision>) {
    |trace| <= |ds| && forall i :: 0 <= i < |trace| ==> trace[i] == Reschedule(ds[i].time, ds[i].name)
  }

  /** A step that reads a decision and goes on read the time of the event it handles. */
  lemma StepRecordsDecision(procs: seq<ProcessRecord>, quant: nat, ds: seq<Decision>, s: Sim)
    requires Inv(procs, ds, s) && 0 < s.active && s.queue != [] && s.queue[0].kind != Ready
    requires Step(procs, quant, ds, s).Continue?
    ensures ReadDecision(ds, s.consumed).time == s.queue[0].global
  {
    StepCases(procs, quant, ds, s);
    var ev := s.queue[0];
    if ev.kind == Sched {
      EnterCases(procs, quant, ds, s, ev, s.queue[1..]);
    } else if ev.kind == Wait {
      StartIoCases(procs, quant, ds, s, ev, s.queue[1..]);
    }
  }

  /** Recording the line at position `|trace|` keeps the trace an echo of the stream. */
  lemma EchoNext(trace: seq<Reschedule>, ds: seq<Decision>, time: nat, name: string)
    requires EchoesStream(trace, ds) && |trace| < |ds|
    requires ReadDecision(ds, |trace|) == Decision(time, name)
    ensures EchoesStream(trace + [Reschedule(time, name)], ds)
  {
  }

  /** Every accepted decision is recorded exactly as it was read: the trace of every outcome is
      the stream's first lines, in order. */
  lemma {:induction false} RunEchoes(procs: seq<ProcessRecord>, quant: nat, ds: seq<Decision>, s: Sim)
    requires Inv(procs, ds, s) && |s.trace| == s.consumed && EchoesStream(s.trace, ds)
    ensures EchoesStream(Run(procs, quant, ds, s).trace, ds)
    decreases |ds| - s.consumed, |s.queue|
  {
    if s.active > 0 {
      var res := Step(procs, quant, ds, s);
      if res.Continue? {
        if s.queue[0].kind != Ready {
          StepRecordsDecision(procs, quant, ds, s);
          EchoNext(s.trace, ds, s.queue[0].global, ReadDecision(ds, s.consumed).name);
        }
        RunEchoes(procs, quant, ds, res.next);
      }
    }
  }

  /** Accepted decisions are recorded in non-decreasing time order. */
  ghost predicate Chronological(trace: seq<Reschedule>) {
    forall i, j :: 0 <= i < j < |trace| ==> trace[i].time <= trace[j].time
  }

  /** No recorded decision is later than an event still in the queue. */
  ghost predicate RecordedBefore(trace: seq<Reschedule>, q: seq<QueueEvent>) {
    forall r, e :: r in trace && e in q ==> r.time <= e.global
  }

  /** Events leave the queue in non-decreasing global time, so the trace the loop builds is
      chronological, whatever the decisions are and however the run ends. */
  lemma {:induction false} RunChronological(procs: seq<ProcessRecord>, quant: nat, ds: seq<Decision>, s: Sim)
    requires Inv(procs, ds, s) && Chronological(s.trace) && RecordedBefore(s.trace, s.queue)
    ensures Chronological(Run(procs, quant, ds, s).trace)
    decreases |ds| - s.consumed, |s.queue|
  {
    if s.active > 0 {
      var res := Step(procs, quant, ds, s);
      if res.Continue? {
        StepChronological(procs, quant, ds, s);
        RunChronological(procs, quant, ds, res.next);
      }
    }
  }

  /** One step keeps the trace chronological and no later than anything still queued. */
  lemma StepChronological(procs: seq<ProcessRecord>, quant: nat, ds: seq<Decision>, s: Sim)
    requires Inv(procs, ds, s) && 0 < s.active && Chronological(s.trace) && RecordedBefore(s.trace, s.queue)
    requires Step(procs, quant, ds, s).Continue?
    ensures var next := Step(procs, quant, ds, s).next;
      Chronological(next.trace) && RecordedBefore(next.trace, next.queue)
  {
    var next := Step(procs, quant, ds, s).next;
    var ev := s.queue[0];
    assert ev in s.queue;
    assert forall r :: r in s.trace ==> r.time <= ev.global;
    assert Chronological(next.trace);
    forall r, e | r in next.trace && e in next.queue ensures r.time <= e.global {
      assert e.global >= ev.global;
    }
  }

  /** The process of the single-burst scenario: length 5, no I/O. */
  function BurstA(): ProcessRecord {
    ProcessRecord("A", 0, 5, [Entry(0, Ready), Entry(5, Finish), Entry(MAX, Finish)])
  }

  /** The idle process is always classed as not fitting a quantum below MAX: its remain at local
      time 0 is MAX. */
  lemma IdleRemainsMax()
    ensures Remain(IdleRecord().events, 0) == MAX
  {
    FirstBurst(MAX);
  }

  lemma BurstAWellFormed()
    ensures WellFormed([BurstA()])
  {
    assert ValidRecord(BurstA());
  }

  lemma ScenarioArrival(s0: Sim)
    requires s0 == Initial([BurstA()])
    ensures WellFormed([BurstA()])
    ensures Step([BurstA()], 10, [Decision(0, "A")], s0)
      == Continue(Sim([QueueEvent(Sched, Idle, 0, 0)], [ReadyProcess(Proc(0), 0, 5)], 1, 0, []))
  {
    BurstAWellFormed();
    var procs := [BurstA()];
    var idle0 := QueueEvent(Sched, Idle, 0, 0);
    var a0 := QueueEvent(Ready, Proc(0), 0, 0);
    assert InitialQueue(procs, 0) == [idle0];
    assert Ordered.UpperBound([idle0], a0, EventKey) == 0;
    assert s0.queue == [a0, idle0];
    var a := Arrival(procs, Proc(0), 0);
    assert a == ReadyProcess(Proc(0), 0, 5) by {
      assert Entry(5, Finish) in BurstA().events;
    }
    assert Ordered.Insert([], a, ReadyKey) == [a];
    assert Enter(procs, 10, [Decision(0, "A")], s0, a0, [idle0]) == Continue(s0.(queue := [idle0], ready := [a]));
  }

  /** The idle process enters the ready set with remain MAX. */
  lemma ScenarioIdleArrival()
    ensures WellFormed([BurstA()])
    ensures Arrival([BurstA()], Idle, 0) == ReadyProcess(Idle, 0, MAX)
  {
    BurstAWellFormed();
    IdleRemainsMax();
  }

  /** The idle process, with remain MAX, goes behind A in the ready set. */
  lemma ScenarioReadySet()
    ensures Ordered.Insert([ReadyProcess(Proc(0), 0, 5)], ReadyProcess(Idle, 0, MAX), ReadyKey)
      == [ReadyProcess(Proc(0), 0, 5), ReadyProcess(Idle, 0, MAX)]
  {
    var a := ReadyProcess(Proc(0), 0, 5);
    var idle := ReadyProcess(Idle, 0, MAX);
    assert forall y :: y in [a] ==> !Ordered.Less(ReadyKey(idle), ReadyKey(y));
    Ordered.InsertLast([a], idle, ReadyKey);
  }

  /** At the first decision point the queue is empty and the ready set holds A before the idle
      process: a state the decision functions accept. */
  ghost predicate FirstDecision() {
    && WellFormed([BurstA()])
    && Ordered.Sorted([ReadyProcess(Proc(0), 0, 5), ReadyProcess(Idle, 0, MAX)], ReadyKey)
    && AllKnown([BurstA()], [], [ReadyProcess(Proc(0), 0, 5), ReadyProcess(Idle, 0, MAX)])
    && AtOrAfter([], 0)
  }

  lemma ScenarioReadyValid()
    ensures FirstDecision()
  {
    BurstAWellFormed();
  }

  lemma ScenarioEligible()
    ensures Eligible([BurstA()], [ReadyProcess(Proc(0), 0, 5), ReadyProcess(Idle, 0, MAX)], 10, true)
      == [ReadyProcess(Proc(0), 0, 5)]
  {
    var procs := [BurstA()];
    var a := ReadyProcess(Proc(0), 0, 5);
    var idle := ReadyProcess(Idle, 0, MAX);
    var ready := [a, idle];
    assert ready[..1] == [a];
    assert [a][..0] == [];
    assert Eligible(procs, [], 10, true) == [];
    assert Eligible(procs, [a], 10, true) == [a];
  }

  /** Choosing A while A is eligible stands. */
  lemma ScenarioVerdict()
    ensures Verdict([BurstA()], 0, "A", [ReadyProcess(Proc(0), 0, 5)], []) == None
  {
    assert FindNamed([BurstA()], [ReadyProcess(Proc(0), 0, 5)], "A") == 0;
  }

  /** A, chosen at time 0 with remain 5 under quantum 10, is next heard of at its FINISH. */
  lemma ScenarioFollowUp()
    ensures WellFormed([BurstA()])
    ensures FollowUp([BurstA()], 10, QueueEvent(Sched, Idle, 0, 0), [], ReadyProcess(Proc(0), 0, 5))
      == QueueEvent(Finish, Proc(0), 5, 5)
  {
    BurstAWellFormed();
    StateAtKey(BurstA().events, 5, Finish);
  }

  lemma ScenarioCommit()
    ensures FirstDecision() && Commit([BurstA()], 10, [Decision(0, "A")],
                   Sim([QueueEvent(Sched, Idle, 0, 0)], [ReadyProcess(Proc(0), 0, 5)], 1, 0, []),
                   QueueEvent(Sched, Idle, 0, 0), [], [ReadyProcess(Proc(0), 0, 5), ReadyProcess(Idle, 0, MAX)], 1, "A")
      == Continue(Sim([QueueEvent(Finish, Proc(0), 5, 5)], [ReadyProcess(Idle, 0, MAX)], 1, 1, [Reschedule(0, "A")]))
  {
    ScenarioReadyValid();
    ScenarioTake();
    assert FindNamed([BurstA()], [ReadyProcess(Proc(0), 0, 5), ReadyProcess(Idle, 0, MAX)], "A") == 0;
  }

  /** A, at the head of the ready set, is taken out of it and its FINISH is queued. */
  lemma ScenarioTake()
    ensures FirstDecision() && Take([BurstA()], 10, [Decision(0, "A")],
                 Sim([QueueEvent(Sched, Idle, 0, 0)], [ReadyProcess(Proc(0), 0, 5)], 1, 0, []),
                 QueueEvent(Sched, Idle, 0, 0), [], [ReadyProcess(Proc(0), 0, 5), ReadyProcess(Idle, 0, MAX)], 1, 0)
      == Continue(Sim([QueueEvent(Finish, Proc(0), 5, 5)], [ReadyProcess(Idle, 0, MAX)], 1, 1, [Reschedule(0, "A")]))
  {
    ScenarioReadyValid();
    ScenarioFollowUp();
    var ready := [ReadyProcess(Proc(0), 0, 5), ReadyProcess(Idle, 0, MAX)];
    assert ready[..0] + ready[1..] == [ReadyProcess(Idle, 0, MAX)] by {
      assert ready[..0] + ready[1..] == ready[1..];
    }
    var e := QueueEvent(Finish, Proc(0), 5, 5);
    assert Ordered.Insert([], e, EventKey) == [e];
  }

  lemma ScenarioDecide(s1: Sim)
    requires s1 == Sim([QueueEvent(Sched, Idle, 0, 0)], [ReadyProcess(Proc(0), 0, 5)], 1, 0, [])
    ensures FirstDecision() && Decide([BurstA()], 10, [Decision(0, "A")], s1, QueueEvent(Sched, Idle, 0, 0), [],
                   [ReadyProcess(Proc(0), 0, 5), ReadyProcess(Idle, 0, MAX)], 1)
      == Continue(Sim([QueueEvent(Finish, Proc(0), 5, 5)], [ReadyProcess(Idle, 0, MAX)], 1, 1, [Reschedule(0, "A")]))
  {
    ScenarioReadyValid();
    ScenarioEligible();
    ScenarioVerdict();
    ScenarioCommit();
    assert ReadDecision([Decision(0, "A")], 0) == Decision(0, "A");
  }

  lemma ScenarioInv(s1: Sim)
    requires s1 == Sim([QueueEvent(Sched, Idle, 0, 0)], [ReadyProcess(Proc(0), 0, 5)], 1, 0, [])
    ensures Inv([BurstA()], [Decision(0, "A")], s1)
  {
    BurstAWellFormed();
  }

  lemma ScenarioDispatch(s1: Sim)
    requires s1 == Sim([QueueEvent(Sched, Idle, 0, 0)], [ReadyProcess(Proc(0), 0, 5)], 1, 0, [])
    requires Inv([BurstA()], [Decision(0, "A")], s1)
    ensures Step([BurstA()], 10, [Decision(0, "A")], s1)
      == Enter([BurstA()], 10, [Decision(0, "A")], s1, QueueEvent(Sched, Idle, 0, 0), [])
  {
    assert s1.queue[0] == QueueEvent(Sched, Idle, 0, 0) && s1.queue[1..] == [];
  }

  lemma ScenarioEnter(s1: Sim)
    requires s1 == Sim([QueueEvent(Sched, Idle, 0, 0)], [ReadyProcess(Proc(0), 0, 5)], 1, 0, [])
    ensures WellFormed([BurstA()])
    ensures Inv([BurstA()], [Decision(0, "A")], s1)
    ensures Enter([BurstA()], 10, [Decision(0, "A")], s1, QueueEvent(Sched, Idle, 0, 0), [])
      == Continue(Sim([QueueEvent(Finish, Proc(0), 5, 5)], [ReadyProcess(Idle, 0, MAX)], 1, 1, [Reschedule(0, "A")]))
  {
    ScenarioInv(s1);
    ScenarioIdleArrival();
    ScenarioReadySet();
    ScenarioDecide(s1);
  }

  lemma ScenarioDecision(s1: Sim)
    requires s1 == Sim([QueueEvent(Sched, Idle, 0, 0)], [ReadyProcess(Proc(0), 0, 5)], 1, 0, [])
    ensures WellFormed([BurstA()])
    ensures Step([BurstA()], 10, [Decision(0, "A")], s1)
      == Continue(Sim([QueueEvent(Finish, Proc(0), 5, 5)], [ReadyProcess(Idle, 0, MAX)], 1, 1, [Reschedule(0, "A")]))
  {
    ScenarioEnter(s1);
    ScenarioDispatch(s1);
  }

  /** A single process of length 5 and no I/O, with quantum 10: one decision at time 0 chooses it,
      its FINISH at time 5 ends the run. */
  lemma ScenarioSingleBurst()
    ensures WellFormed([BurstA()])
    ensures Simulate([BurstA()], 10, [Decision(0, "A")]) == Finished([Reschedule(0, "A")])
  {
    var procs := [BurstA()];
    var ds := [Decision(0, "A")];
    var s0 := Initial(procs);
    var s1 := Sim([QueueEvent(Sched, Idle, 0, 0)], [ReadyProcess(Proc(0), 0, 5)], 1, 0, []);
    var s2 := Sim([QueueEvent(Finish, Proc(0), 5, 5)], [ReadyProcess(Idle, 0, MAX)], 1, 1, [Reschedule(0, "A")]);
    ScenarioArrival(s0);
    ScenarioDecision(s1);
    assert Step(procs, 10, ds, s2) == Stop(Finished([Reschedule(0, "A")]));
    assert Run(procs, 10, ds, s1) == Run(procs, 10, ds, s2);
  }
}
