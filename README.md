# Schedule checker and address translator, modelled in Dafny

This project models two small programs from an operating-systems course repository.

**The round-robin schedule checker** (`sched_test/scheduller.cpp`) replays a set of processes as a
discrete-event simulation. Each process has CPU bursts and I/O bursts. At every decision point the
checker reads one `(time, name)` line of a proposed schedule and rejects the schedule when the
choice is illegal.
- `Timeline` models a process's map from local elapsed time to the transition (`Kind`) entered
  then. The map is a strictly increasing sequence of entries. `Process` is a class whose
  constructor and `AddIo` update that map in place.
- `Ordered` models the two `std::multiset` queues as sequences kept in key order. Insertion is
  stable.
- `Simulation` is the `schedule` loop as a state machine. `Step` handles one event, `Run`
  repeats it and `Simulate` starts from the initial queue. A run ends in one of several `Outcome`s:
  - `Finished`: the last process finished.
  - `Desynchronized`: the early `return` on a time mismatch.
  - `IdleWhileEligible`, `NoneEligible` and `NotEligible`: the three `exit(-1)` verdicts.
  - `Undefined`: a case the source leaves undefined, or where its `size_t` arithmetic wraps.

  Every outcome carries the accepted decisions (the trace).
- `Checker.Schedule` is the same loop written imperatively. It is proved to return exactly
  `Simulate`'s outcome, so the lemmas about the state machine hold of the loop.

**The x86 logical-to-physical translator** (`vm_test/mysoln/vm.cpp`, module `Translate`) works
like this:
- It decodes a selector, a segment descriptor and a linear address from raw words by division and
  remainder, least significant field first (module `Bits` gives `<<` and `|`).
- It then makes its checks in the source's order: null selector, present bit, limit, wraparound,
  page-directory entry, page-table entry.
- `ConvertL2P` takes a `Reading`. `AsWritten` is the function as the source has it, and every
  property below is proved for it. `Intended` corrects the two expressions listed under Findings.

Facts about `schedule` that the model keeps:
- The idle process is not always in the ready set. It is erased when it is chosen
  (`sched_test/scheduller.cpp:263`) and re-inserted only when its SCHED event is dequeued (line 191).
- The eligible class is the set of ready entries classed like the ready-queue minimum
  (`ready.begin()`, line 205), not like the dequeued event.
- Every accepted decision is recorded exactly as it was read, so the trace of every outcome is the
  first lines of the decision stream (`Simulation.Simulate`).

## Model

| member | source | states |
|---|---|---|
| `Timeline.Rank` | sched_test/scheduller.cpp:14-20 | The kinds are ranked in declaration order: READY 0, SCHED 1, WAIT 2, FINISH 3. |
| `Timeline.LowerBound` | sched_test/scheduller.cpp:56 | `lower_bound`: every entry before the index has a key below `t`, and the entry at the index (if any) has a key of at least `t`. |
| `Timeline.Assign` | sched_test/scheduller.cpp:31-33 | `map[k] = v` keeps keys strictly increasing, stores `(k, v)`, keeps every entry at another key and adds nothing else. |
| `Timeline.Insert` | sched_test/scheduller.cpp:50-51 | `map.insert` leaves the map unchanged when `k` is already a key (it never overwrites), adds `(k, v)` otherwise, loses nothing and adds nothing else. |
| `Timeline.NewTimeline` | sched_test/scheduller.cpp:25-34 | A new timeline maps 0 to READY, `length` to FINISH and MAX to FINISH, and has no other key. |
| `Timeline.StateAt` | sched_test/scheduller.cpp:54-60 | `state(t)` is the kind at the least key at or after `t`, or FINISH when every key is before `t`. |
| `Timeline.StateAtKey` | sched_test/scheduller.cpp:54-60 | At a key, `state` returns the kind stored there. |
| `Timeline.Remain` | sched_test/scheduller.cpp:62-63 | For `t < MAX` on a timeline that ends with FINISH at MAX, `remain(t)` is at least 1. |
| `Timeline.RemainNextKey` | sched_test/scheduller.cpp:62-63 | `t + remain(t)` is a key of the timeline, and no key lies strictly between `t` and it. |
| `Timeline.FirstBurst` | sched_test/scheduller.cpp:25-34 | On a new timeline of length `length`, `remain(0)` is `length`: the first burst runs to the end. |
| `Timeline.Process.constructor` | sched_test/scheduller.cpp:25-34 | The constructor (with `length > 0` asserted) builds exactly the new timeline and keeps the timeline invariant. |
| `Timeline.Process.AddIo` | sched_test/scheduller.cpp:48-52 | `add_io` inserts WAIT at the start, then READY at the `size_t`-wrapped end, and keeps the timeline invariant. |
| `Timeline.AddIoKeepsTransitions` | sched_test/scheduller.cpp:48-52 | `add_io` keeps every existing transition. It adds WAIT where the start was free and READY where the end was free, and nothing else. |
| `Ordered.UpperBound` | sched_test/scheduller.cpp:138-150 | The insert position of a multiset comes after every element whose key is not greater and before the first greater one. |
| `Ordered.Insert` | sched_test/scheduller.cpp:138-150 | Multiset insert adds exactly the element (a multiset equality), keeps the queue sorted, and the new head is the element or the old head. |
| `Ordered.InsertStable` | sched_test/scheduller.cpp:138-150 | Insert is stable: the new element follows every element with a key not above its own and precedes every element with a greater key, so equal keys leave in insertion order. |
| `Ordered.InsertLast` | sched_test/scheduller.cpp:218-224 | Inserting an element that no present element exceeds appends it, as the scan building `app` does. |
| `Ordered.RemoveSorted` | sched_test/scheduller.cpp:257-266 | Erasing one element from a sorted queue keeps it sorted. |
| `Simulation.IdleRecord` | sched_test/scheduller.cpp:180 | The idle process `("IDLE", 0, MAX)` is a valid process. |
| `Simulation.IdleRemainsMax` | sched_test/scheduller.cpp:62-63 | The idle process's `remain` at local time 0 is MAX. |
| `Simulation.Eligible` | sched_test/scheduller.cpp:218-224 | The eligible class contains exactly the ready entries that are not named IDLE and whose `remain <= quant` matches the given classification. |
| `Simulation.FindNamed` | sched_test/scheduller.cpp:239-244 | The name scan returns the first position whose process has the name, or the length when none does. |
| `Simulation.FollowUp` | sched_test/scheduller.cpp:268-288 | The follow-up event has three cases. IDLE with a non-empty queue gives SCHED at `global + min(next - global, quant)`. `remain > quant` gives SCHED at `+quant`. Otherwise the event is `state(local + remain)` at `+remain`. It is never earlier than the current event. |
| `Simulation.InsertAtOrAfter` | sched_test/scheduller.cpp:196-197 | Inserting an event due no earlier than `t` into a queue due no earlier than `t` keeps that bound. |
| `Simulation.HeadIsEarliest` | sched_test/scheduller.cpp:188 | The head of the sorted event queue is due no later than any queued event. |
| `Simulation.EventOrder` | sched_test/scheduller.cpp:139-148 | `operator<` on events: an earlier event comes first, and at equal times READY precedes SCHED, SCHED precedes WAIT, and WAIT precedes FINISH. |
| `Simulation.ReadyOrder` | sched_test/scheduller.cpp:168-169 | `operator<` on ready entries compares `remain` alone, so entries with equal `remain` are unordered. |
| `Simulation.Verdict` | sched_test/scheduller.cpp:226-255 | A choice is accepted exactly when it is legal: IDLE with an empty class, or a name in the class. IDLE with a non-empty class gets `IdleWhileEligible` listing the class's names (line 226). A name with an empty class gets `NoneEligible` (line 235). A name not in a non-empty class gets `NotEligible` listing the class's names (line 248). Every verdict keeps the trace. |
| `Simulation.Commit` | sched_test/scheduller.cpp:257-290 | An accepted choice removes the first ready entry with that name and queues its follow-up event. It appends `(event.global, name)` and keeps the invariant. A name missing from `ready` is undefined behaviour. |
| `Simulation.Take` | sched_test/scheduller.cpp:257-290 | Taking the ready entry at `k` erases exactly that entry and queues its follow-up event. It appends `(event.global, name)` and keeps the invariant; otherwise a time overflows `size_t`. |
| `Simulation.CommitKnown` | sched_test/scheduller.cpp:262-288 | Queuing the follow-up and erasing the chosen entry keep every queued and ready pid known. |
| `Simulation.Decide` | sched_test/scheduller.cpp:205-290 | A time mismatch ends the run as `Desynchronized` with nothing appended. With a matching time, the run is refused exactly when the choice is illegal for the class of the ready minimum. Continuing appends exactly one decision and consumes one line. |
| `Simulation.Arrival` | sched_test/scheduller.cpp:157-161 | A process entering the ready set keeps its pid and local time and gets `remain` at least 1. |
| `Simulation.RemainOf` | sched_test/scheduller.cpp:195 | The time to a known process's next transition is at least 1 before MAX. |
| `Simulation.Enter` | sched_test/scheduller.cpp:190-191 | READY adds exactly the arrival entry to the ready set, reads no decision and appends nothing. SCHED adds it and then makes a decision. |
| `Simulation.IoEnd` | sched_test/scheduller.cpp:193-198 | WAIT queues a READY event of the same process, due later by the same amount in global and local time and at most MAX. It is queued exactly when the local time is below MAX and the due time fits `size_t`. |
| `Simulation.IoEndNextTransition` | sched_test/scheduller.cpp:62-63 | The READY that ends an I/O burst is due at the least key of the process's timeline after the WAIT's local time. |
| `Simulation.WithIoEnd` | sched_test/scheduller.cpp:196-197 | Queuing the end of an I/O burst keeps the queue sorted and no earlier than the current event. |
| `Simulation.StartIo` | sched_test/scheduller.cpp:193-198 | A WAIT event keeps the invariant, then consumes one decision and appends one. |
| `Simulation.StartIoCases` | sched_test/scheduller.cpp:193-205 | A WAIT event whose I/O end overflows stops with `TimeOverflow`. Otherwise the READY is inserted into the queue first, and the decision is made on that queue and the unchanged ready set. |
| `Simulation.Step` | sched_test/scheduller.cpp:188-203 | One iteration keeps the invariant and queues nothing earlier than the dequeued event. FINISH decrements `active` and, when it reaches 0, stops without a decision. READY adds one ready entry and consumes nothing. Every other kind consumes one decision and appends it. |
| `Simulation.Leave` | sched_test/scheduller.cpp:200-203 | FINISH with one active process ends the run with the trace so far. Otherwise `active` drops by one and a decision follows, keeping the invariant. |
| `Simulation.StepChronological` | sched_test/scheduller.cpp:186-291 | A step that continues keeps the trace chronological and every queued event no earlier than the last decision. |
| `Simulation.InitialQueue` | sched_test/scheduller.cpp:180-184 | The initial queue is sorted, and as a multiset it holds exactly SCHED for the idle process at time 0 plus READY at `start` and local time 0 for each process. |
| `Simulation.RunChronological` | sched_test/scheduller.cpp:186-291 | Events leave the queue in non-decreasing time, so every run records its decisions in chronological order, however it ends. |
| `Simulation.Run` | sched_test/scheduller.cpp:186-291 | Decisions are only appended: the outcome's trace extends the trace of the state the run starts from. |
| `Simulation.RunEchoes` | sched_test/scheduller.cpp:208-289 | Each accepted decision is recorded as read, with its time and name, so a trace that echoes the stream so far still does at the end of the run. |
| `Simulation.Simulate` | sched_test/scheduller.cpp:173-293 | The trace of every run of `schedule` is chronological, and it is the decision stream's first lines, each recorded with its own time and name. |
| `Simulation.LegalWithinStream` | sched_test/scheduller.cpp:206-209 | A read past the end of the stream yields the empty name, which no process has, so an accepted choice was read from the stream. |
| `Simulation.ScenarioSingleBurst` | sched_test/scheduller.cpp:173-293 | Process A of length 5 with quantum 10 is one decision `(0, A)`, and its FINISH at 5 ends the run with trace `[(0, A)]`. |
| `Checker.EligibleClass` | sched_test/scheduller.cpp:218-224 | The loop over `ready` that inserts each member of the class into `app` builds exactly the eligible class. |
| `Checker.FindByName` | sched_test/scheduller.cpp:239-244 | The `found` scan stops at the first entry with the name, or at the end. |
| `Checker.CheckChoice` | sched_test/scheduller.cpp:226-255 | The three `if (...) exit(-1)` checks give exactly the verdict of the legality rules. |
| `Checker.TakeChosen` | sched_test/scheduller.cpp:257-290 | Erasing the chosen entry, queuing its follow-up and appending the decision compute exactly the committed state. |
| `Checker.DecisionPoint` | sched_test/scheduller.cpp:205-290 | Reading, checking and committing one decision computes exactly the state machine's decision point. |
| `Checker.Arrive` | sched_test/scheduller.cpp:190-191 | Handling a READY or SCHED event computes exactly the state machine's step. |
| `Checker.BeginIo` | sched_test/scheduller.cpp:193-198 | Handling a WAIT event computes exactly the state machine's step. |
| `Checker.Retire` | sched_test/scheduller.cpp:200-203 | `--active == 0` returning, or else a decision, computes exactly `Leave`. |
| `Checker.Iteration` | sched_test/scheduller.cpp:186-291 | One pass of the loop body computes exactly `Step`. |
| `Checker.Schedule` | sched_test/scheduller.cpp:173-293 | The `while (active > 0)` loop returns exactly the outcome of `Simulate`, so it terminates and all its traces are chronological. |
| `Bits.OrDisjoint` | vm_test/mysoln/vm.cpp:144 | `a << k \| b` with `b < 2^k` is `a * 2^k + b`: the two operands share no bit. |
| `Bits.OrBelow` | vm_test/mysoln/vm.cpp:137 | Or-ing two values below `2^n` stays below `2^n`. |
| `Translate.DecodeSelector` | vm_test/mysoln/vm.cpp:13-22 | The selector's RPL is below 4 and its index below 8192. |
| `Translate.SelectorRoundTrip` | vm_test/mysoln/vm.cpp:13-22 | Re-encoding the decoded fields gives back the raw selector. |
| `Translate.SelectorFieldsRoundTrip` | vm_test/mysoln/vm.cpp:13-22 | Fields that fit their widths encode into 16 bits and decode back to themselves. |
| `Translate.DecodeSegment` | vm_test/mysoln/vm.cpp:27-41 | Every decoded descriptor field fits its width. |
| `Translate.SegmentRoundTrip` | vm_test/mysoln/vm.cpp:27-41 | Re-encoding a decoded descriptor gives back the raw word. |
| `Translate.SegmentFieldsRoundTrip` | vm_test/mysoln/vm.cpp:27-41 | Fitting descriptor fields encode into 64 bits and decode back to themselves. |
| `Translate.SegmentBitPositions` | vm_test/mysoln/vm.cpp:27-41 | Each field is the slice of the word at its position: present at bit 47, limit 19:16 at bits 48-51, granularity at bit 55, base 31:24 at bits 56-63. |
| `Translate.DecodeLinear` | vm_test/mysoln/vm.cpp:46-55 | Offset, table index and directory index fit 12, 10 and 10 bits. |
| `Translate.LinearRoundTrip` | vm_test/mysoln/vm.cpp:46-55 | Re-encoding a decoded linear address gives back the raw word. |
| `Translate.LinearFieldsRoundTrip` | vm_test/mysoln/vm.cpp:46-55 | Fitting fields encode into 32 bits and decode back to themselves. |
| `Translate.TableChoice` | vm_test/mysoln/vm.cpp:131-132 | With TI set the GDT does not affect the translation, and with TI clear the LDT does not. |
| `Translate.BaseAddress` | vm_test/mysoln/vm.cpp:144 | With `base_hi < 128`, `base_hi << 24 \| base_low` is `base_hi * 2^24 + base_low`, below `2^31`. |
| `Translate.LimitBound` | vm_test/mysoln/vm.cpp:137 | The limit is at least `limit_low` and fits 16 bits as written, 20 bits as intended. As intended, its low 16 bits are exactly `limit_low`. |
| `Translate.SegmentSizeBound` | vm_test/mysoln/vm.cpp:137-138 | `seg_size` is at least 1. It is at most 512 MiB as written and 4 GiB as intended. |
| `Translate.FaultOrder` | vm_test/mysoln/vm.cpp:127-148 | Each fault occurs exactly when every earlier check passed and its own check fails. Checks run in order: null selector, then present bit, then `seg_size <= laddr`, then the wraparound assertion. |
| `Translate.PageFaultOrder` | vm_test/mysoln/vm.cpp:146-153 | Once the segment checks pass and `base + laddr` fits 32 bits, the result is the page walk of that address. |
| `Translate.WalkFaults` | vm_test/mysoln/vm.cpp:153-168 | The walk fails with "page table not present" exactly when the directory entry for bits 31:22 is absent. It fails with "page not present" exactly when that entry is present and the table entry for bits 21:12 is absent. |
| `Translate.ConvertL2P` | vm_test/mysoln/vm.cpp:124-169 | As written, the wraparound assertion never fails. The base is below `2^31` and a segment holds at most `2^29` bytes. |
| `Translate.LinearWraps` | vm_test/mysoln/vm.cpp:146-148 | The assertion fails exactly when `base + laddr` does not fit 32 bits. Otherwise the linear address is that sum. |
| `Translate.LdtIndexZeroAccepted` | vm_test/mysoln/vm.cpp:127-132 | LDT index 0 is not the null selector, and it selects `ldt[0]`. |
| `Translate.RplIgnored` | vm_test/mysoln/vm.cpp:126-132 | Selectors that differ only in RPL translate every address alike. |
| `Translate.TranslationInSegment` | vm_test/mysoln/vm.cpp:127-148 | A success passed the selector and present checks and is inside the segment. Its linear address is `base + laddr` without wraparound, and its result is the page walk of that address. |
| `Translate.WalkInPage` | vm_test/mysoln/vm.cpp:153-168 | A successful walk found the PDE at `dir_i` and the PTE at `table_i` present. The result keeps the low 12 bits of the linear address and takes its frame from the PTE. |
| `Translate.AsWrittenLimitBelow64K` | vm_test/mysoln/vm.cpp:137 | As written, the limit is always below 65536. |
| `Translate.IntendedLimit` | vm_test/mysoln/vm.cpp:137 | As intended, the limit is the 20-bit value `limit_hi * 65536 + limit_low`. |
| `Translate.AsWrittenGranule` | vm_test/mysoln/vm.cpp:138 | As written, a set granularity bit scales the limit by 8192. |
| `Translate.IntendedGranule` | vm_test/mysoln/vm.cpp:138 | As intended, a page-granular segment accepts exactly the offsets up to `limit * 4096 + 4095`. |
| `Translate.LimitHiShiftedTooLittle` | vm_test/mysoln/vm.cpp:137-142 | A descriptor with `limit_hi = 1` and `limit_low = 0` rejects offset 0x11 as written and translates it as intended. |
| `Translate.PageGranuleDoubled` | vm_test/mysoln/vm.cpp:138-142 | A one-page segment accepts offset 0x1000 as written and rejects it as intended. |

## Left out

Input, output and process handling:
- All input and output is left out: `main` in both files, the process-line parser `operator>>`, `initTable` and all printing. This includes the `Reschedule` output operator, which `main` never uses. The decision stream is a parameter, and a read past its end yields `(0, "")`. The tables are parameters as raw words. What the program prints before returning or exiting is represented by the outcome or fault variant, not by its text or the exit status.
- The `std::multiset<Process>` ordered by id is a sequence of process records. The caller supplies them in the order the set iterates, and the model does not sort them. `WellFormed` requires every record to have a non-empty id, a positive length, a start within `size_t` and a valid timeline. The source does not guarantee this: a process line holding only an id, or only whitespace, leaves the default-constructed `Process` with an empty id, an indeterminate start and no transitions (scheduller.cpp:36, 86-95, 316-317), and `schedule` then reads that start and dereferences `end()` in `remain`. The model excludes these inputs because the source's behaviour on them is undefined; termination of `Run` also relies on the non-empty ids.
- Pointer identity of processes is replaced by positions in that sequence and an `Idle` variant. Names are still compared as strings, as the source compares ids.

Undefined behaviour and `size_t`:
- The following become an explicit `Undefined` outcome instead of a precondition, because they depend on the decisions read during the run:
  - dequeuing from an empty queue;
  - reading `ready.begin()` on an empty ready set;
  - using the unassigned `ReadyProcess` when the chosen name is not in the ready set.

  No lemma shows that they cannot happen for particular inputs.
- `Simulation.Step`: a run stops with `Undefined(TimeOverflow)` where the source's unsigned arithmetic would wrap. This happens in two cases:
  - a global or local event time would pass `size_t`'s maximum;
  - a READY, SCHED or WAIT event arrives at local time exactly MAX. There the source's `remain(MAX)` wraps `time + 1` to 0 and returns 1, and the model stops instead (`Simulation.Enter`, `Simulation.IoEnd`).

  `Process::AddIo` does model the wrap of `start + length`.
- `Timeline.Remain` requires `t < MAX`. At `t == MAX`, the source's `time + 1` wraps to 0.

The translator:
- `Translate.ConvertL2P` requires `Defined`: every table entry it reads must exist, and `base_hi < 128` must hold once the base address is formed. The source leaves out-of-range `std::vector` indexing and the `int` overflow of `base_hi << 24` undefined.
- Bit-field layout is implementation-defined. The model assumes fields are allocated from the least significant bit, as on the usual x86 compilers.
- The failed `assert` at vm_test/mysoln/vm.cpp:148 is the `Wraparound` fault. A build with `NDEBUG` would skip it; that build is not modelled. As written the fault cannot occur: the base is below `2^31` and a segment holds at most `2^29` bytes (`Translate.ConvertL2P`). Under the corrected reading it can.

## Findings

| source | as written | input that shows it | evidently intended | confidence | as-written member | corrected member |
|---|---|---|---|---|---|---|
| vm_test/mysoln/vm.cpp:137 | `limit_hi << 4 \| limit_low`: bits 19:16 of the limit overlap bits 7:4, so the limit stays below 65536 | GDT descriptor, present, byte-granular, base 0, `limit_hi = 1`, `limit_low = 0`; `laddr = 0x11` is rejected with "Offset is greater than seg. limit" | `limit_hi << 16 \| limit_low`, the 20-bit limit of the segment descriptor (section 3.4.5 of the Intel SDM, Vol. 3A); offset 0x11 is inside a 65537-byte segment | not executed; high | `Translate.LimitHiShiftedTooLittle` (also `Translate.AsWrittenLimitBelow64K`) | `Translate.IntendedLimit` |
| vm_test/mysoln/vm.cpp:138 | granularity factor `2 << 12`, which is 8192 | GDT descriptor, present, page-granular, limit 0, base 0; `laddr = 0x1000` is translated, although the segment is one 4 KiB page | `1 << 12`, a 4 KiB granule, so that the last valid offset is `limit * 4096 + 4095` | not executed; high | `Translate.PageGranuleDoubled` (also `Translate.AsWrittenGranule`) | `Translate.IntendedGranule` |
