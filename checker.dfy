/**
 * `schedule` of sched_test/scheduller.cpp as the loop it is: the queue, the ready set, the count of
 * active processes and the position in the decision stream are local variables that each iteration
 * updates in place. Every method here is proved to compute what the state machine of module
 * `Simulation` specifies, so the properties proved there hold of the loop.
 */
module Checker {
  import opened Timeline
  import Ordered
  import opened Simulation

  /** The scan that builds `app`: each ready entry of the minimum's class that is not the idle
      process goes into an ordered multiset of its own. Scanning in ready order means each insert
      appends. */
  method EligibleClass(procs: seq<ProcessRecord>, ready: seq<ReadyProcess>, quant: nat, inQuant: bool)
    returns (app: seq<ReadyProcess>)
    requires forall r :: r in ready ==> Known(procs, r.pid)
    requires Ordered.Sorted(ready, ReadyKey)
    ensures app == Eligible(procs, ready, quant, inQuant)
  {
    app := [];
    for i := 0 to |ready|
      invariant app == Eligible(procs, ready[..i], quant, inQuant)
    {
      var r := ready[i];
      assert ready[..i + 1][..i] == ready[..i];
      if InClass(procs, quant, inQuant, r) {
        forall y | y in app ensures !Ordered.Less(ReadyKey(r), ReadyKey(y)) {
          var j :| 0 <= j < i && ready[j] == y;
        }
        Ordered.InsertLast(app, r, ReadyKey);
        app := Ordered.Insert(app, r, ReadyKey);
      }
    }
    assert ready[..|ready|] == ready;
  }

  /** The scans for a name, over `app` (lines 239-244) and over the ready set (lines 257-266): the
      position of the first entry called `name`, or the length when there is none. */
  method FindByName(procs: seq<ProcessRecord>, s: seq<ReadyProcess>, name: string) returns (k: nat)
    requires forall r :: r in s ==> Known(procs, r.pid)
    ensures k == FindNamed(procs, s, name)
  {
    k := 0;
    var found := false;
    while k < |s| && !found
      invariant k <= |s|
      invariant found ==> k < |s| && Name(procs, s[k].pid) == name
      invariant forall j :: 0 <= j < k ==> Name(procs, s[j].pid) != name
      decreases |s| - k, !found
    {
      assert s[k] in s;
      if Name(procs, s[k].pid) == name {
        found := true;
      } else {
        k := k + 1;
      }
    }
  }

  /** The three legality checks of lines 226-255 on the eligible class `app`: `None` when the
      choice stands, otherwise the verdict the program exits with. */
  method CheckChoice(procs: seq<ProcessRecord>, time: nat, name: string, app: seq<ReadyProcess>,
                     trace: seq<Reschedule>)
    returns (v: Option<Outcome>)
    requires forall r :: r in app ==> Known(procs, r.pid)
    ensures v == Verdict(procs, time, name, app, trace)
  {
    if name == IdleName && app != [] {
      return Some(IdleWhileEligible(time, Names(procs, app), trace));
    }
    if name != IdleName && app == [] {
      return Some(NoneEligible(time, trace));
    }
    var at := FindByName(procs, app, name);
    if at == |app| && name != IdleName {
      return Some(NotEligible(time, Names(procs, app), trace));
    }
    return None;
  }

  /** Lines 257-290: erase the first ready entry called `name`, queue its follow-up event and
      record the decision. */
  method TakeChosen(procs: seq<ProcessRecord>, quant: nat, ds: seq<Decision>, s: Sim, ev: QueueEvent,
                    q: seq<QueueEvent>, ready: seq<ReadyProcess>, active: nat, name: string)
    returns (res: StepResult)
    requires WellFormed(procs) && s.consumed < |ds| && 0 < active
    requires Ordered.Sorted(q, EventKey) && Ordered.Sorted(ready, ReadyKey) && AllKnown(procs, q, ready)
    requires AtOrAfter(q, ev.global)
    ensures res == Commit(procs, quant, ds, s, ev, q, ready, active, name)
  {
    var k := FindByName(procs, ready, name);
    if k == |ready| {
      return Stop(Undefined(ChosenNotReady, s.trace));
    }
    assert Commit(procs, quant, ds, s, ev, q, ready, active, name) == Take(procs, quant, ds, s, ev, q, ready, active, k);
    var proc := ready[k];
    assert proc in ready;
    assert q != [] ==> q[0] in q;
    var e := FollowUp(procs, quant, ev, q, proc);
    if e.global > MAX || e.local > MAX {
      return Stop(Undefined(TimeOverflow, s.trace));
    }
    var rest := ready[..k] + ready[k + 1..];
    var queue := Ordered.Insert(q, e, EventKey);
    res := Continue(Sim(queue, rest, active, s.consumed + 1, s.trace + [Reschedule(ev.global, Name(procs, proc.pid))]));
  }

  /** Lines 205-290 for the event `ev`: read a decision, check it against the eligible class of the
      ready minimum, then commit it. */
  method DecisionPoint(procs: seq<ProcessRecord>, quant: nat, ds: seq<Decision>, s: Sim, ev: QueueEvent,
                       q: seq<QueueEvent>, ready: seq<ReadyProcess>, active: nat)
    returns (res: StepResult)
    requires WellFormed(procs) && s.consumed <= |ds| && 0 < active
    requires Ordered.Sorted(q, EventKey) && Ordered.Sorted(ready, ReadyKey) && AllKnown(procs, q, ready)
    requires AtOrAfter(q, ev.global)
    ensures res == Decide(procs, quant, ds, s, ev, q, ready, active)
  {
    if ready == [] {
      return Stop(Undefined(EmptyReady, s.trace));
    }
    var inQuant := ready[0].remain <= quant;
    var d := ReadDecision(ds, s.consumed);
    if d.time != ev.global {
      return Stop(Desynchronized(ev.global, d.time, s.trace));
    }
    var app := EligibleClass(procs, ready, quant, inQuant);
    var verdict := CheckChoice(procs, d.time, d.name, app, s.trace);
    if verdict.Some? {
      return Stop(verdict.value);
    }
    res := TakeChosen(procs, quant, ds, s, ev, q, ready, active, d.name);
  }

  /** A READY or SCHED event (line 191): the process joins the ready set; at SCHED a decision
      follows. */
  method Arrive(procs: seq<ProcessRecord>, quant: nat, ds: seq<Decision>, s: Sim, ev: QueueEvent,
                rest: seq<QueueEvent>)
    returns (res: StepResult)
    requires Dequeued(procs, ds, s, ev, rest) && (ev.kind == Ready || ev.kind == Sched)
    ensures res == Enter(procs, quant, ds, s, ev, rest)
  {
    EnterCases(procs, quant, ds, s, ev, rest);
    if ev.local >= MAX {
      return Stop(Undefined(TimeOverflow, s.trace));
    }
    var ready := Ordered.Insert(s.ready, Arrival(procs, ev.pid, ev.local), ReadyKey);
    if ev.kind == Ready {
      return Continue(s.(queue := rest, ready := ready));
    }
    res := DecisionPoint(procs, quant, ds, s, ev, rest, ready, s.active);
  }

  /** A WAIT event (lines 193-198): the READY that ends the I/O burst is queued, then a decision
      follows. */
  method BeginIo(procs: seq<ProcessRecord>, quant: nat, ds: seq<Decision>, s: Sim, ev: QueueEvent,
                 rest: seq<QueueEvent>)
    returns (res: StepResult)
    requires Dequeued(procs, ds, s, ev, rest) && ev.kind == Wait
    ensures res == StartIo(procs, quant, ds, s, ev, rest)
  {
    if ev.local >= MAX {
      assert IoEnd(procs, ev) == None;
      return Stop(Undefined(TimeOverflow, s.trace));
    }
    var remain := RemainOf(procs, ev.pid, ev.local);
    if ev.global + remain > MAX {
      assert IoEnd(procs, ev) == None;
      return Stop(Undefined(TimeOverflow, s.trace));
    }
    var back := QueueEvent(Ready, ev.pid, ev.global + remain, ev.local + remain);
    assert IoEnd(procs, ev) == Some(back);
    var queue := WithIoEnd(procs, rest, ev, back);
    res := DecisionPoint(procs, quant, ds, s, ev, queue, s.ready, s.active);
  }

  /** One iteration of the `while (active > 0)` loop (lines 188-291): the least event is taken off
      the queue and handled according to its kind. */
  method Iteration(procs: seq<ProcessRecord>, quant: nat, ds: seq<Decision>, s: Sim) returns (res: StepResult)
    requires Inv(procs, ds, s) && 0 < s.active
    ensures res == Step(procs, quant, ds, s)
  {
    if s.queue == [] {
      return Stop(Undefined(EmptyQueue, s.trace));
    }
    var ev := s.queue[0];
    var rest := s.queue[1..];
    StepCases(procs, quant, ds, s);
    match ev.kind
    case Ready =>
      res := Arrive(procs, quant, ds, s, ev, rest);
    case Sched =>
      res := Arrive(procs, quant, ds, s, ev, rest);
    case Wait =>
      res := BeginIo(procs, quant, ds, s, ev, rest);
    case Finish =>
      res := Retire(procs, quant, ds, s, ev, rest);
  }

  /** A FINISH event (line 202): `--active == 0` ends the run, otherwise a decision follows. */
  method Retire(procs: seq<ProcessRecord>, quant: nat, ds: seq<Decision>, s: Sim, ev: QueueEvent,
                rest: seq<QueueEvent>)
    returns (res: StepResult)
    requires Dequeued(procs, ds, s, ev, rest) && ev.kind == Finish
    ensures res == Leave(procs, quant, ds, s, ev, rest)
  {
    var active := s.active - 1;
    if active == 0 {
      return Stop(Finished(s.trace));
    }
    assert Leave(procs, quant, ds, s, ev, rest) == Decide(procs, quant, ds, s, ev, rest, s.ready, active);
    res := DecisionPoint(procs, quant, ds, s, ev, rest, s.ready, active);
  }

  /** `schedule(proces, events, quant)`, with the decision stream `ds` in place of standard input;
      what it prints before returning or exiting is the outcome. */
  method Schedule(procs: seq<ProcessRecord>, quant: nat, ds: seq<Decision>) returns (outcome: Outcome)
    requires WellFormed(procs)
    ensures outcome == Simulate(procs, quant, ds)
  {
    var active: nat := |procs|;
    var queue := [QueueEvent(Sched, Idle, 0, 0)];
    for n := 0 to |procs|
      invariant queue == InitialQueue(procs, n)
    {
      queue := Ordered.Insert(queue, QueueEvent(Ready, Proc(n), procs[n].start, 0), EventKey);
    }
    var ready: seq<ReadyProcess> := [];
    var consumed: nat := 0;
    var trace: seq<Reschedule> := [];
    while active > 0
      invariant Inv(procs, ds, Sim(queue, ready, active, consumed, trace))
      invariant Run(procs, quant, ds, Sim(queue, ready, active, consumed, trace)) == Simulate(procs, quant, ds)
      decreases |ds| - consumed, |queue|
    {
      var res := Iteration(procs, quant, ds, Sim(queue, ready, active, consumed, trace));
      match res
      case Stop(o) =>
        return o;
      case Continue(next) =>
        queue, ready, active, consumed, trace := next.queue, next.ready, next.active, next.consumed, next.trace;
    }
    return Finished(trace);
  }
}
