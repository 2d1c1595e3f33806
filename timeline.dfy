/**
 * The per-process timeline of sched_test/scheduller.cpp. A `Process` owns an ordered map from
 * process-local elapsed time to the `Kind` of transition entered at that time; the map is kept
 * here as a sequence of entries with strictly increasing keys, so that `lower_bound` is the first
 * entry whose key is at least the given time.
 */
module Timeline {

  /** `static_cast<std::size_t>(-1)`: the largest 64-bit `size_t`, the timeline's last key. */
  const MAX: nat := 0xFFFF_FFFF_FFFF_FFFF

  /** Number of `size_t` values; unsigned arithmetic wraps modulo this. */
  const WORD: nat := 0x1_0000_0000_0000_0000

  /** Kinds of transition, declared in the order that breaks ties between simultaneous events. */
  datatype Kind = Ready | Sched | Wait | Finish

  /** The enumerator's value: READY < SCHED < WAIT < FINISH. */
  function Rank(k: Kind): (r: nat)
    ensures r < 4
    ensures k == Ready <==> r == 0
    ensures k == Sched <==> r == 1
    ensures k == Finish <==> r == 3
  {
    match k
    case Ready => 0
    case Sched => 1
    case Wait => 2
    case Finish => 3
  }

  /** One key/value pair of the map: at local time `at` the process enters `kind`. */
  datatype Entry = Entry(at: nat, kind: Kind)

  /** Keys strictly increase along the sequence, so each key occurs once. */
  ghost predicate Increasing(es: seq<Entry>) {
    forall i, j :: 0 <= i < j < |es| ==> es[i].at < es[j].at
  }

  ghost function Keys(es: seq<Entry>): set<nat> {
    set e | e in es :: e.at
  }

  /** `std::map::lower_bound`: index of the first entry whose key is at least `t`. */
  function LowerBound(es: seq<Entry>, t: nat): (i: nat)
    ensures i <= |es|
    ensures forall j :: 0 <= j < i ==> es[j].at < t
    ensures i < |es| ==> es[i].at >= t
  {
    if es == [] || es[0].at >= t then 0 else 1 + LowerBound(es[1..], t)
  }

  /** `map[k] = v`: adds the pair, replacing the kind already stored at `k` if there is one. */
  function Assign(es: seq<Entry>, k: nat, v: Kind): (r: seq<Entry>)
    requires Increasing(es)
    ensures Increasing(r)
    ensures Entry(k, v) in r
    ensures forall e :: e in es && e.at != k ==> e in r
    ensures forall e :: e in r ==> e in es || e == Entry(k, v)
  {
    if es == [] then [Entry(k, v)]
    else if k < es[0].at then [Entry(k, v)] + es
    else if k == es[0].at then [Entry(k, v)] + es[1..]
    else [es[0]] + Assign(es[1..], k, v)
  }

  /** `map.insert(std::make_pair(k, v))`: adds the pair only when `k` is not a key yet. */
  function Insert(es: seq<Entry>, k: nat, v: Kind): (r: seq<Entry>)
    requires Increasing(es)
    ensures Increasing(r)
    ensures k in Keys(es) ==> r == es
    ensures k !in Keys(es) ==> Entry(k, v) in r
    ensures forall e :: e in es ==> e in r
    ensures forall e :: e in r ==> e in es || e == Entry(k, v)
  {
    if es == [] then [Entry(k, v)]
    else
      Behind(es);
      if k < es[0].at then
        Prepend(Entry(k, v), es);
        [Entry(k, v)] + es
      else if k == es[0].at then es
      else
        var tail := Insert(es[1..], k, v);
        assert k in Keys(es) ==> k in Keys(es[1..]);
        Prepend(es[0], tail);
        [es[0]] + tail
  }

  /** Past the head of an increasing sequence: the rest is increasing and every key in it is
      greater than the head's. */
  lemma Behind(es: seq<Entry>)
    requires Increasing(es) && es != []
    ensures Increasing(es[1..])
    ensures forall x :: x in es[1..] ==> es[0].at < x.at
  {
  }

  /** An entry whose key is below every key of an increasing sequence can go in front of it. */
  lemma Prepend(e: Entry, rest: seq<Entry>)
    requires Increasing(rest) && forall x :: x in rest ==> e.at < x.at
    ensures Increasing([e] + rest)
  {
    var r := [e] + rest;
    forall i, j | 0 <= i < j < |r| ensures r[i].at < r[j].at {
      assert r[j] == rest[j - 1];
      if i > 0 {
        assert r[i] == rest[i - 1];
      }
    }
  }

  /** The transitions every timeline has: READY at 0, FINISH at `length` and at MAX, and no key
      beyond MAX. */
  ghost predicate ValidTimeline(es: seq<Entry>, length: nat) {
    && Increasing(es)
    && (forall e :: e in es ==> e.at <= MAX)
    && Entry(0, Ready) in es
    && Entry(length, Finish) in es
    && Entry(MAX, Finish) in es
  }

  /** The timeline the constructor builds, by the three assignments of its body. */
  function NewTimeline(length: nat): (es: seq<Entry>)
    requires 0 < length <= MAX
    ensures ValidTimeline(es, length)
    ensures forall e :: e in es ==> e.at == 0 || e.at == length || e.at == MAX
  {
    var e1 := Assign([], 0, Ready);
    assert e1 == [Entry(0, Ready)];
    var e2 := Assign(e1, length, Finish);
    assert Entry(0, Ready) in e2;
    assert forall e :: e in e2 ==> e.at == 0 || e.at == length;
    var e3 := Assign(e2, MAX, Finish);
    assert Entry(length, Finish) in e3;
    e3
  }

  /** `Process::state`: the kind of the first transition at or after `t`; FINISH past the last key. */
  function StateAt(es: seq<Entry>, t: nat): (k: Kind)
    requires Increasing(es)
    ensures (forall e :: e in es ==> e.at < t) ==> k == Finish
    ensures forall j :: 0 <= j < |es| && t <= es[j].at && (j == 0 || es[j - 1].at < t) ==> k == es[j].kind
  {
    var i := LowerBound(es, t);
    if i == |es| then Finish else es[i].kind
  }

  /** At a key, `state` is the kind stored at that key. */
  lemma StateAtKey(es: seq<Entry>, k: nat, v: Kind)
    requires Increasing(es) && Entry(k, v) in es
    ensures StateAt(es, k) == v
  {
    var j :| 0 <= j < |es| && es[j] == Entry(k, v);
    assert j == 0 || es[j - 1].at < k;
  }

  /** `Process::remain`: local time from `t` to the first key strictly after `t`. The key MAX makes
      that key exist whenever `t < MAX`. */
  function Remain(es: seq<Entry>, t: nat): (r: nat)
    requires Increasing(es) && Entry(MAX, Finish) in es && t < MAX
    ensures r >= 1
  {
    var i := LowerBound(es, t + 1);
    assert i < |es| by {
      var j :| 0 <= j < |es| && es[j] == Entry(MAX, Finish);
      assert j >= i;
    }
    es[i].at - t
  }

  /** `remain(t)` reaches the next transition: `t + remain(t)` is a key, and no key lies strictly
      between `t` and it. */
  lemma RemainNextKey(es: seq<Entry>, t: nat)
    requires Increasing(es) && Entry(MAX, Finish) in es && t < MAX
    ensures t + Remain(es, t) in Keys(es)
    ensures forall k :: k in Keys(es) && t < k ==> t + Remain(es, t) <= k
  {
    var i := LowerBound(es, t + 1);
    assert es[i] in es;
    forall k | k in Keys(es) && t < k ensures t + Remain(es, t) <= k {
      var j :| 0 <= j < |es| && es[j].at == k;
      assert j >= i;
    }
  }

  /** A new process first runs for its whole length: from local time 0, `remain` reaches FINISH. */
  lemma FirstBurst(length: nat)
    requires 0 < length <= MAX
    ensures Remain(NewTimeline(length), 0) == length
  {
    var es := NewTimeline(length);
    RemainNextKey(es, 0);
    assert length in Keys(es) by {
      assert Entry(length, Finish) in es;
    }
    var e :| e in es && e.at == Remain(es, 0);
  }

  /** A process's fixed description, as the scheduler reads it. */
  datatype ProcessRecord = ProcessRecord(id: string, start: nat, length: nat, events: seq<Entry>)

  ghost predicate ValidRecord(p: ProcessRecord) {
    0 < p.length <= MAX && p.start <= MAX && ValidTimeline(p.events, p.length)
  }

  /** A process under construction: the constructor and `add_io` update its map in place. */
  class Process {
    const id: string
    const start: nat
    const length: nat
    var events: seq<Entry>

    ghost predicate Valid()
      reads this
    {
      0 < length <= MAX && start <= MAX && ValidTimeline(events, length)
    }

    /** `Process(id, start, length)`; the assertion `length > 0` is the precondition, and both
        times are `size_t` values. */
    constructor (id: string, start: nat, length: nat)
      requires 0 < length <= MAX && start <= MAX
      ensures Valid()
      ensures this.id == id && this.start == start && this.length == length
      ensures events == NewTimeline(length)
    {
      this.id := id;
      this.start := start;
      this.length := length;
      var es := Assign([], 0, Ready);
      es := Assign(es, length, Finish);
      es := Assign(es, MAX, Finish);
      assert es == NewTimeline(length);
      events := es;
    }

    /** `add_io(start, length)`: WAIT at the burst's start and READY at its end, where those keys
        are still free; the end is computed in wrapping `size_t` arithmetic. */
    method AddIo(ioStart: nat, ioLength: nat)
      requires Valid() && ioStart <= MAX && ioLength <= MAX
      modifies this`events
      ensures Valid()
      ensures events == Insert(Insert(old(events), ioStart, Wait), (ioStart + ioLength) % WORD, Ready)
    {
      events := Insert(events, ioStart, Wait);
      events := Insert(events, (ioStart + ioLength) % WORD, Ready);
    }
  }

  /** `add_io` never replaces a transition that is already there; it adds WAIT at the burst's start
      when that key is free, READY at its end when that key is free, and nothing else. */
  lemma AddIoKeepsTransitions(es: seq<Entry>, ioStart: nat, ioLength: nat)
    requires Increasing(es)
    ensures var ioEnd := (ioStart + ioLength) % WORD;
      var r := Insert(Insert(es, ioStart, Wait), ioEnd, Ready);
      && (forall e :: e in es ==> e in r)
      && (ioStart !in Keys(es) ==> Entry(ioStart, Wait) in r)
      && (ioEnd !in Keys(es) && ioEnd != ioStart ==> Entry(ioEnd, Ready) in r)
      && (forall e :: e in r ==> e in es || e == Entry(ioStart, Wait) || e == Entry(ioEnd, Ready))
  {
  }
}
