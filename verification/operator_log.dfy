/** The operator log of the destructive audit run: records are written ahead of, and after, each batch. */
module OperatorLog {
  import opened Wrappers

  datatype LogRecord =
    | Refused | Start | Batch(index: nat, deleted: nat) | End(completed: bool, totalDeleted: nat, batches: nat)

  /** An append is confirmed by fsync, or it fails, with or without the line in the file: the write itself
      can fail, or the fsync after it. */
  datatype AppendResult = Confirmed | Unconfirmed | NotWritten

  /** What happens to the log and to the audit table, in order. */
  datatype Event = Append(record: LogRecord, result: AppendResult) | Delete(count: nat)

  datatype Failure =
    | GuardRefused | LogWriteFailed | FreeSpaceFloorBreached | FreeSpaceDropped
    | ProbeFailed | VacuumFailed | BatchFailed

  datatype StopReason = MaxBatches | Drained | StoppedBy(failure: Failure)

  // ---- The discipline, as an automaton over the events ----

  datatype Phase =
    | Fresh
    | StartFailed
    | Started(recorded: nat, total: nat)
    | Pending(recorded: nat, total: nat, deleted: nat)
    | RecordFailed(batches: nat, total: nat)
    | Over

  function Advance(phase: Phase, e: Event): Option<Phase> {
    match (phase, e)
    case (Fresh, Append(Start, result)) => Some(if result.Confirmed? then Started(0, 0) else StartFailed)
    case (Fresh, Append(Refused, _)) => Some(Over)
    case (StartFailed, Append(Refused, _)) => Some(Over)
    case (Started(n, total), Delete(d)) => Some(Pending(n, total, d))
    case (Started(n, total), Append(End(_, t, b), _)) => if t == total && b == n then Some(Over) else None
    case (Pending(n, total, d), Append(Batch(i, count), result)) =>
      if i != n + 1 || count != d then None
      else Some(if result.Confirmed? then Started(i, total + d) else RecordFailed(i, total + d))
    case (RecordFailed(n, total), Append(End(completed, t, b), _)) =>
      if !completed && t == total && b == n then Some(Over) else None
    case _ => None
  }

  function PhaseOf(events: seq<Event>): Option<Phase> {
    if events == [] then Some(Fresh)
    else
      match PhaseOf(events[..|events| - 1])
      case None => None
      case Some(phase) => Advance(phase, events[|events| - 1])
  }

  predicate Disciplined(events: seq<Event>) {
    PhaseOf(events).Some?
  }

  lemma PhaseNext(events: seq<Event>, e: Event)
    ensures PhaseOf(events + [e]) == if PhaseOf(events).Some? then Advance(PhaseOf(events).value, e) else None
  {
    assert (events + [e])[..|events|] == events;
  }

  /** A run that is killed leaves a disciplined history too. */
  lemma {:induction false} KilledIsDisciplined(events: seq<Event>, n: nat)
    requires Disciplined(events) && n <= |events|
    ensures Disciplined(events[..n])
    decreases |events|
  {
    if n < |events| {
      KilledIsDisciplined(events[..|events| - 1], n);
      assert events[..|events| - 1][..n] == events[..n];
    } else {
      assert events[..n] == events;
    }
  }

  // ---- What a disciplined history guarantees ----

  function TotalDeleted(events: seq<Event>): nat {
    if events == [] then 0
    else
      var e := events[|events| - 1];
      TotalDeleted(events[..|events| - 1]) + if e.Delete? then e.count else 0
  }

  function Deletes(events: seq<Event>): nat {
    if events == [] then 0 else Deletes(events[..|events| - 1]) + if events[|events| - 1].Delete? then 1 else 0
  }

  /** The records whose append was confirmed. */
  function ConfirmedRecords(events: seq<Event>): seq<LogRecord> {
    if events == [] then []
    else
      var e := events[|events| - 1];
      ConfirmedRecords(events[..|events| - 1]) + if e.Append? && e.result.Confirmed? then [e.record] else []
  }

  predicate HasLine(e: Event) {
    e.Append? && !e.result.NotWritten?
  }

  /** The lines of the log file, those of appends that failed after the write included. */
  function Lines(events: seq<Event>): seq<LogRecord> {
    if events == [] then []
    else
      var e := events[|events| - 1];
      Lines(events[..|events| - 1]) + if HasLine(e) then [e.record] else []
  }

  /** The batch records 1 to n of a log, n being the number of them. */
  predicate BatchRun(records: seq<LogRecord>) {
    forall i | 0 <= i < |records| :: records[i].Batch? && records[i].index == i + 1
  }

  /** What a log can look like. */
  datatype LogShape =
    | EmptyLog
    | RefusedLog
    | RetractedLog
    | OpenLog(batches: seq<LogRecord>)
    | ClosedLog(batches: seq<LogRecord>, end: LogRecord)
  {
    function Records(): seq<LogRecord> {
      match this
      case EmptyLog => []
      case RefusedLog => [Refused]
      case RetractedLog => [Start, Refused]
      case OpenLog(b) => [Start] + b
      case ClosedLog(b, e) => [Start] + b + [e]
    }

    predicate Valid() {
      match this
      case OpenLog(b) => BatchRun(b)
      case ClosedLog(b, e) => BatchRun(b) && e.End?
      case _ => true
    }
  }

  /** The shape of the confirmed records in each phase. */
  predicate Fits(phase: Phase, shape: LogShape) {
    shape.Valid() && !shape.RetractedLog? &&
    match phase
    case Fresh => shape.EmptyLog?
    case StartFailed => shape.EmptyLog?
    case Started(n, _) => shape.OpenLog? && |shape.batches| == n
    case Pending(n, _, _) => shape.OpenLog? && |shape.batches| == n
    case RecordFailed(n, _) => shape.OpenLog? && |shape.batches| + 1 == n
    case Over => true
  }

  /** The confirmed records are nothing, a refusal, or a start with its batches in order and perhaps an end. */
  lemma {:induction false} ConfirmedHaveShape(events: seq<Event>) returns (shape: LogShape)
    requires Disciplined(events)
    ensures Fits(PhaseOf(events).value, shape) && ConfirmedRecords(events) == shape.Records()
  {
    if events == [] {
      shape := EmptyLog;
    } else {
      var front, e := events[..|events| - 1], events[|events| - 1];
      var before := ConfirmedHaveShape(front);
      shape := before;
      if e.Append? && e.result.Confirmed? {
        match e.record
        case Refused => shape := RefusedLog;
        case Start => shape := OpenLog([]);
        case Batch(_, _) => shape := OpenLog(before.batches + [e.record]);
        case End(_, _, _) => shape := ClosedLog(before.batches, e.record);
      }
    }
  }

  /** The shape of the file in each phase. */
  predicate FileFits(phase: Phase, shape: LogShape) {
    shape.Valid() &&
    match phase
    case Fresh => shape.EmptyLog?
    case StartFailed => shape.EmptyLog? || shape == OpenLog([])
    case Started(n, _) => shape.OpenLog? && |shape.batches| == n
    case Pending(n, _, _) => shape.OpenLog? && |shape.batches| == n
    case RecordFailed(n, _) => shape.OpenLog? && |shape.batches| <= n <= |shape.batches| + 1
    case Over => true
  }

  lemma LinesNext(events: seq<Event>, e: Event)
    ensures Lines(events + [e]) == Lines(events) + if HasLine(e) then [e.record] else []
  {
    assert (events + [e])[..|events|] == events;
  }

  /** One event, and what it does to the shape of the file. */
  lemma FileStep(phase: Phase, e: Event, before: LogShape) returns (shape: LogShape)
    requires Advance(phase, e).Some? && FileFits(phase, before)
    ensures FileFits(Advance(phase, e).value, shape)
    ensures shape.Records() == before.Records() + if HasLine(e) then [e.record] else []
  {
    shape := before;
    if HasLine(e) {
      match e.record
      case Refused => shape := if before.EmptyLog? then RefusedLog else RetractedLog;
      case Start => shape := OpenLog([]);
      case Batch(_, _) => shape := OpenLog(before.batches + [e.record]);
      case End(_, _, _) => shape := ClosedLog(before.batches, e.record);
    }
  }

  lemma NoFile()
    ensures PhaseOf([]) == Some(Fresh) && Lines([]) == [] && FileFits(Fresh, EmptyLog) && EmptyLog.Records() == []
  {
  }

  /** The lines of the file are nothing, a refusal, a start followed by a refusal, or a start with its batches
      in order and perhaps an end. */
  lemma {:induction false} LogHasShape(events: seq<Event>) returns (shape: LogShape)
    requires Disciplined(events)
    ensures FileFits(PhaseOf(events).value, shape) && Lines(events) == shape.Records()
  {
    hide PhaseOf, Advance, FileFits, Lines, HasLine, LogShape.Records;
    NoFile();
    if events == [] {
      shape := EmptyLog;
    } else {
      var front, e := events[..|events| - 1], events[|events| - 1];
      assert events == front + [e];
      PhaseNext(front, e);
      LinesNext(front, e);
      var before := LogHasShape(front);
      shape := FileStep(PhaseOf(front).value, e, before);
    }
  }

  /** The batch records in the file are numbered by their places. */
  lemma BatchesInOrder(events: seq<Event>, i: nat)
    requires Disciplined(events) && i < |Lines(events)| && Lines(events)[i].Batch?
    ensures Lines(events)[i].index == i
  {
    hide Lines, PhaseOf;
    var shape := LogHasShape(events);
    hide FileFits;
  }

  /** Where a line comes from. */
  lemma {:induction false} LineWritten(events: seq<Event>, r: LogRecord) returns (i: nat)
    requires r in Lines(events)
    ensures i < |events| && HasLine(events[i]) && events[i].record == r
  {
    var n := |events| - 1;
    if HasLine(events[n]) && events[n].record == r {
      i := n;
    } else {
      i := LineWritten(events[..n], r);
    }
  }

  /** Before a start has been confirmed, the history is no more than the attempt. */
  lemma {:induction false} EarlyPhases(events: seq<Event>)
    requires Disciplined(events)
    ensures PhaseOf(events) == Some(Fresh) <==> events == []
    ensures PhaseOf(events) == Some(StartFailed) ==>
      |events| == 1 && events[0].Append? && events[0].record == Start && !events[0].result.Confirmed?
  {
    if events != [] {
      var front := events[..|events| - 1];
      EarlyPhases(front);
      assert events == front + [events[|events| - 1]];
    }
  }

  lemma OneLine(e: Event)
    ensures Lines([e]) == if HasLine(e) then [e.record] else []
  {
    assert [e] == [] + [e] && Lines([]) == [];
    LinesNext([], e);
  }

  lemma TwoLines(events: seq<Event>)
    requires |events| == 2
    ensures Lines(events) == Lines([events[0]]) + Lines([events[1]])
  {
    assert events == [events[0]] + [events[1]];
    LinesNext([events[0]], events[1]);
    OneLine(events[1]);
  }

  /** A refusal in the file is the last event, after a failed start or nothing at all. */
  lemma RefusedIsLast(events: seq<Event>)
    requires Disciplined(events) && Refused in Lines(events)
    ensures 1 <= |events| <= 2 && HasLine(events[|events| - 1]) && events[|events| - 1].record == Refused
    ensures |events| == 2 ==> events[0].Append? && events[0].record == Start && !events[0].result.Confirmed?
  {
    hide Lines, PhaseOf, Advance;
    var i := LineWritten(events, Refused);
    OverIsLast(events, i);
    var front, e := events[..i], events[i];
    assert events == front + [e];
    PhaseNext(front, e);
    RefusedEarly(PhaseOf(front).value, e);
    EarlyPhases(front);
  }

  lemma RefusedEarly(phase: Phase, e: Event)
    requires e.Append? && e.record == Refused && Advance(phase, e).Some?
    ensures phase.Fresh? || phase.StartFailed?
  {
  }

  /** The file says that a run had started and was then refused exactly if the start was written but not
      confirmed, and the refusal was written. */
  lemma RetractedExactly(events: seq<Event>)
    requires Disciplined(events)
    ensures Lines(events) == [Start, Refused] <==>
      (|events| == 2 && events[0] == Append(Start, Unconfirmed) && HasLine(events[1]) && events[1].record == Refused)
  {
    hide PhaseOf, Lines;
    if Lines(events) == [Start, Refused] {
      assert Refused in [Start, Refused];
      RefusedIsLast(events);
      if |events| == 1 {
        assert events == [events[0]];
        OneLine(events[0]);
      }
    }
    if |events| == 2 {
      TwoLines(events);
      OneLine(events[0]);
      OneLine(events[1]);
    }
  }

  /** The file says that the run was completed. */
  ghost predicate SaysCompleted(events: seq<Event>) {
    exists r :: r in Lines(events) && r.End? && r.completed
  }

  /** It says so exactly if the last event is an append of such a record that reached the file. */
  lemma CompletedExactly(events: seq<Event>)
    requires Disciplined(events)
    ensures SaysCompleted(events) <==>
      (events != [] && var e := events[|events| - 1]; HasLine(e) && e.record.End? && e.record.completed)
  {
    if SaysCompleted(events) {
      var r :| r in Lines(events) && r.End? && r.completed;
      var i := LineWritten(events, r);
      OverIsLast(events, i);
    }
    if events != [] && HasLine(events[|events| - 1]) {
      assert events[|events| - 1].record in Lines(events);
    }
  }

  /** The number and the amount of the deletions that the phase knows of. */
  predicate Accounts(phase: Phase, deletes: nat, total: nat) {
    match phase
    case Fresh => deletes == 0 && total == 0
    case StartFailed => deletes == 0 && total == 0
    case Started(n, t) => deletes == n && total == t
    case Pending(n, t, d) => deletes == n + 1 && total == t + d
    case RecordFailed(n, t) => deletes == n && total == t
    case Over => true
  }

  lemma {:induction false} DeletesAccounted(events: seq<Event>)
    requires Disciplined(events)
    ensures Accounts(PhaseOf(events).value, Deletes(events), TotalDeleted(events))
  {
    if events != [] { DeletesAccounted(events[..|events| - 1]); }
  }

  predicate HasStart(events: seq<Event>) {
    Append(Start, Confirmed) in events
  }

  predicate Going(phase: Phase) {
    phase.Started? || phase.Pending? || phase.RecordFailed?
  }

  lemma StartedBy(phase: Phase, e: Event)
    requires Advance(phase, e).Some? && Going(Advance(phase, e).value)
    ensures Going(phase) || e == Append(Start, Confirmed)
  {
  }

  lemma {:induction false} PhaseHasStart(events: seq<Event>)
    requires Disciplined(events)
    ensures Going(PhaseOf(events).value) ==> HasStart(events)
  {
    if events != [] {
      var front, e := events[..|events| - 1], events[|events| - 1];
      assert events == front + [e];
      PhaseNext(front, e);
      hide PhaseOf, Advance;
      PhaseHasStart(front);
      if Going(PhaseOf(events).value) { StartedBy(PhaseOf(front).value, e); }
    }
  }

  /** Nothing is deleted before the start record has been confirmed. */
  lemma NoDeleteBeforeStart(events: seq<Event>, i: nat)
    requires Disciplined(events) && i < |events| && events[i].Delete?
    ensures Append(Start, Confirmed) in events[..i]
  {
    KilledIsDisciplined(events, i + 1);
    assert events[..i + 1][..i] == events[..i];
    PhaseHasStart(events[..i]);
  }

  function CountBatches(records: seq<LogRecord>): nat {
    if records == [] then 0 else CountBatches(records[..|records| - 1]) + if records[|records| - 1].Batch? then 1 else 0
  }

  /** How many committed batches have no confirmed record, in each phase. */
  predicate Recorded(phase: Phase, deletes: nat, records: nat) {
    match phase
    case Fresh => deletes == 0
    case StartFailed => deletes == 0
    case Started(_, _) => deletes == records
    case Pending(_, _, _) => deletes == records + 1
    case RecordFailed(_, _) => deletes == records + 1
    case Over => records <= deletes <= records + 1
  }

  lemma CountNext(records: seq<LogRecord>, r: LogRecord)
    ensures CountBatches(records + [r]) == CountBatches(records) + if r.Batch? then 1 else 0
    ensures CountBatches(records + []) == CountBatches(records)
  {
    assert (records + [r])[..|records|] == records && records + [] == records;
  }

  /** At every instant, at most one committed batch has no confirmed record. */
  lemma {:induction false} AtMostOneUnrecorded(events: seq<Event>)
    requires Disciplined(events)
    ensures Recorded(PhaseOf(events).value, Deletes(events), CountBatches(ConfirmedRecords(events)))
    ensures CountBatches(ConfirmedRecords(events)) <= Deletes(events) <= CountBatches(ConfirmedRecords(events)) + 1
  {
    hide CountBatches;
    if events != [] {
      var front, e := events[..|events| - 1], events[|events| - 1];
      AtMostOneUnrecorded(front);
      CountNext(ConfirmedRecords(front), if e.Append? then e.record else Start);
    } else {
      NoBatches();
    }
  }

  lemma NoBatches()
    ensures CountBatches([]) == 0
  {
  }

  /** The totals in an end record are the true ones. */
  lemma EndTellsTheTruth(events: seq<Event>, i: nat)
    requires Disciplined(events) && i < |events| && events[i].Append? && events[i].record.End?
    ensures events[i].record.totalDeleted == TotalDeleted(events) && events[i].record.batches == Deletes(events)
    ensures i == |events| - 1
  {
    KilledIsDisciplined(events, i + 1);
    assert events[..i + 1][..i] == events[..i];
    DeletesAccounted(events[..i]);
    OverIsLast(events, i);
    assert events[..i] == events[..|events| - 1];
  }

  /** So are those of a batch record: it follows the deletion that it counts, and has that deletion's number. */
  lemma BatchTellsTheTruth(events: seq<Event>, i: nat)
    requires Disciplined(events) && i < |events| && events[i].Append? && events[i].record.Batch?
    ensures i > 0 && events[i - 1] == Delete(events[i].record.deleted)
    ensures events[i].record.index == Deletes(events[..i])
  {
    KilledIsDisciplined(events, i + 1);
    var front := events[..i];
    assert events[..i + 1] == front + [events[i]];
    PhaseNext(front, events[i]);
    DeletesAccounted(front);
    PendingIsLast(front);
    hide PhaseOf, Deletes, TotalDeleted;
    assert front[i - 1] == events[i - 1];
  }

  lemma PendingIsLast(events: seq<Event>)
    requires Disciplined(events) && PhaseOf(events).value.Pending?
    ensures events != [] && events[|events| - 1] == Delete(PhaseOf(events).value.deleted)
  {
    var e := events[|events| - 1];
    assert events == events[..|events| - 1] + [e];
    PhaseNext(events[..|events| - 1], e);
  }

  /** A log says that the run was completed only if every batch that was committed has its confirmed record. */
  lemma CompletedMeansRecorded(events: seq<Event>)
    requires Disciplined(events) && SaysCompleted(events)
    ensures Deletes(events) == CountBatches(ConfirmedRecords(events))
  {
    CompletedExactly(events);
    var front, e := events[..|events| - 1], events[|events| - 1];
    assert events == front + [e];
    PhaseNext(front, e);
    KilledIsDisciplined(events, |front|);
    AtMostOneUnrecorded(front);
    CountNext(ConfirmedRecords(front), e.record);
    hide CountBatches;
  }

  /** Nothing follows once the run is over. */
  lemma {:induction false} OverEnds(events: seq<Event>, n: nat)
    requires Disciplined(events) && n <= |events| && PhaseOf(events[..n]) == Some(Over)
    ensures n == |events|
    decreases |events|
  {
    if n < |events| {
      var front := events[..|events| - 1];
      assert front[..n] == events[..n];
      OverEnds(front, n);
    }
  }

  lemma OverIsLast(events: seq<Event>, i: nat)
    requires Disciplined(events) && i < |events| && events[i].Append?
    requires (events[i].record.End? || events[i].record.Refused?)
    ensures i == |events| - 1
  {
    KilledIsDisciplined(events, i + 1);
    assert events[..i + 1][..i] == events[..i];
    OverEnds(events, i + 1);
  }

  // ---- The run ----

  datatype Options = Options(maxBatches: nat, floorBytes: nat, maxDropBytes: nat, vacuumEvery: nat)

  /** Everything outside that a run meets: by batch number, the rows deleted (None if the batch fails and
      is rolled back), the free space measured after it and after a vacuum (None if the probe fails), and
      whether the vacuum works. */
  datatype Outside = Outside(batch: nat -> Option<nat>, free: nat -> Option<nat>,
                             vacuum: nat -> bool, freeAfterVacuum: nat -> Option<nat>)

  function RequireFreeSpace(free: nat, previous: Option<nat>, options: Options): Option<Failure> {
    if free < options.floorBytes then Some(FreeSpaceFloorBreached)
    else if previous.Some? && previous.value - free > options.maxDropBytes then Some(FreeSpaceDropped)
    else None
  }

  /** The rows deleted by the first n batches. */
  function BatchSum(outside: Outside, n: nat): nat {
    if n == 0 then 0
    else
      BatchSum(outside, n - 1) + match outside.batch(n)
                                 case None => 0
                                 case Some(deleted) => deleted
  }

  lemma BatchSumNext(outside: Outside, n: nat)
    ensures n == 0 ==> BatchSum(outside, n) == 0
    ensures n > 0 && outside.batch(n).Some? ==>
      BatchSum(outside, n) == BatchSum(outside, n - 1) + outside.batch(n).value
  {
  }

  predicate EnoughSpace(measured: Option<nat>, options: Options) {
    measured.Some? && measured.value >= options.floorBytes
  }

  predicate VacuumDue(options: Options, outside: Outside, b: nat) {
    options.vacuumEvery > 0 && b % options.vacuumEvery == 0 && outside.batch(b).Some? && outside.batch(b).value > 0
  }

  /** What stops the run after this batch, when `last` was the free space measured before it: a probe that fails,
      that is below the floor, or that is more than the allowed drop below the one before it; or the vacuum. */
  function Trouble(options: Options, outside: Outside, last: nat, b: nat): Option<Failure> {
    match outside.free(b)
    case None => Some(ProbeFailed)
    case Some(now) =>
      if now < options.floorBytes then Some(FreeSpaceFloorBreached)
      else if last > now + options.maxDropBytes then Some(FreeSpaceDropped)
      else if !VacuumDue(options, outside, b) then None
      else if !outside.vacuum(b) then Some(VacuumFailed)
      else
        match outside.freeAfterVacuum(b)
        case None => Some(ProbeFailed)
        case Some(after) =>
          if after < options.floorBytes then Some(FreeSpaceFloorBreached)
          else if now > after + options.maxDropBytes then Some(FreeSpaceDropped)
          else None
  }

  /** The probes that batch b adds. */
  function ProbesAt(options: Options, outside: Outside, b: nat): seq<nat> {
    (if outside.free(b).Some? then [outside.free(b).value] else [])
    + if VacuumDue(options, outside, b) && outside.freeAfterVacuum(b).Some?
      then [outside.freeAfterVacuum(b).value] else []
  }

  /** All probes up to batch n, the first one included. */
  function Probes(options: Options, outside: Outside, initial: nat, n: nat): (probes: seq<nat>)
    ensures probes != []
  {
    if n == 0 then [initial] else Probes(options, outside, initial, n - 1) + ProbesAt(options, outside, n)
  }

  /** The free space measured last, after n batches. */
  function Measured(options: Options, outside: Outside, initial: nat, n: nat): nat {
    var probes := Probes(options, outside, initial, n);
    probes[|probes| - 1]
  }

  /** No probe but the first is below the floor, and from each to the next the free space falls by no more than is
      allowed. */
  predicate SteadySpace(options: Options, probes: seq<nat>) {
    forall i | 0 < i < |probes| ::
      probes[i] >= options.floorBytes && probes[i - 1] - probes[i] <= options.maxDropBytes
  }

  lemma SteadyOn(options: Options, outside: Outside, last: nat, b: nat, probes: seq<nat>)
    requires probes != [] && probes[|probes| - 1] == last && SteadySpace(options, probes)
    requires Trouble(options, outside, last, b).None?
    ensures SteadySpace(options, probes + ProbesAt(options, outside, b))
  {
    var more := ProbesAt(options, outside, b);
    assert 1 <= |more| <= 2 && more[0] == outside.free(b).value;
    assert |more| == 2 ==> more[1] == outside.freeAfterVacuum(b).value;
  }

  /** How many batches there are from this one on if nothing fails: up to the first empty one, or the limit. */
  function Extent(options: Options, outside: Outside, b: nat): (n: nat)
    ensures 1 <= b <= options.maxBatches ==> b <= n <= options.maxBatches
    ensures b > options.maxBatches ==> n == options.maxBatches
    decreases options.maxBatches + 1 - b
  {
    if b > options.maxBatches then options.maxBatches
    else if outside.batch(b) == Some(0) then b
    else Extent(options, outside, b + 1)
  }

  /** What happens up to the record of batch n. */
  function Story(outside: Outside, log: nat -> AppendResult, n: nat): (events: seq<Event>)
    requires forall b | 1 <= b <= n :: outside.batch(b).Some?
    ensures |events| == 2 * n + 1
  {
    if n == 0 then [Append(Start, log(0))]
    else
      var d := outside.batch(n).value;
      Story(outside, log, n - 1) + [Delete(d), Append(Batch(n, d), log(2 * n))]
  }

  /** Batch b passes, and its record is confirmed. */
  predicate Sound(options: Options, outside: Outside, initial: nat, log: nat -> AppendResult, b: nat)
    requires b > 0
  {
    && outside.batch(b).Some? && Trouble(options, outside, Measured(options, outside, initial, b - 1), b).None?
    && log(2 * b).Confirmed?
  }

  /** There is room at first, and every batch up to the last is sound. */
  predicate AllSound(options: Options, initial: nat, outside: Outside, log: nat -> AppendResult) {
    && initial >= options.floorBytes
    && forall b | 1 <= b <= Extent(options, outside, 1) :: Sound(options, outside, initial, log, b)
  }

  /** What stops a run after n committed batches, the ones before the last of them being sound: there is no room at
      first, the next batch fails, the last one's record is not confirmed, or something is wrong after it. */
  ghost predicate StopsAt(options: Options, initial: nat, outside: Outside, log: nat -> AppendResult, n: nat,
                          failure: Failure)
  {
    if initial < options.floorBytes then n == 0 && failure == FreeSpaceFloorBreached
    else
      && (forall b | 1 <= b < n :: Sound(options, outside, initial, log, b))
      && if n == 0 || Sound(options, outside, initial, log, n)
         then n < options.maxBatches && outside.batch(n + 1).None? && failure == BatchFailed
         else
           && outside.batch(n).Some?
           && Some(failure) == if !log(2 * n).Confirmed? then Some(LogWriteFailed)
                               else Trouble(options, outside, Measured(options, outside, initial, n - 1), n)
  }

  /** Exactly then a run goes through: nothing refuses it, the batches are sound, and the first and the last append
      are confirmed too. */
  predicate GoesThrough(refusal: Option<Failure>, options: Options, initial: nat, outside: Outside,
                        log: nat -> AppendResult)
  {
    && refusal.None? && log(0).Confirmed? && AllSound(options, initial, outside, log)
    && log(2 * Extent(options, outside, 1) + 1).Confirmed?
  }

  /** Nothing about this batch gives a reason to stop. */
  predicate Healthy(options: Options, outside: Outside, b: nat) {
    && outside.batch(b).Some? && EnoughSpace(outside.free(b), options)
    && (VacuumDue(options, outside, b) ==> outside.vacuum(b) && EnoughSpace(outside.freeAfterVacuum(b), options))
  }

  class Run {
    var events: seq<Event>
    /** The free space measured so far. */
    var probes: seq<nat>
    const log: nat -> AppendResult

    constructor (log: nat -> AppendResult)
      ensures this.log == log && events == [] && probes == []
    {
      this.log, events, probes := log, [], [];
    }

    /** Append and fsync. */
    method Write(record: LogRecord) returns (ok: bool, ghost result: AppendResult)
      modifies `events
      ensures events == old(events) + [Append(record, result)] && (ok <==> result.Confirmed?)
      ensures result == log(|old(events)|)
    {
      result := log(|events|);
      ok := log(|events|).Confirmed?;
      events := events + [Append(record, log(|events|))];
    }

    /** A probe, kept, and checked against the floor and against the one before it. */
    method Measure(measured: Option<nat>, options: Options) returns (failure: Option<Failure>)
      requires probes != []
      modifies `probes
      ensures failure.None? <==>
        && measured.Some? && measured.value >= options.floorBytes
        && old(probes)[|old(probes)| - 1] - measured.value <= options.maxDropBytes
      ensures failure.Some? ==>
        failure.value == if measured.None? then ProbeFailed
                         else if measured.value < options.floorBytes then FreeSpaceFloorBreached
                         else FreeSpaceDropped
      ensures probes == old(probes) + if measured.Some? then [measured.value] else []
    {
      if measured.None? { return Some(ProbeFailed); }
      var previous := probes[|probes| - 1];
      probes := probes + [measured.value];
      failure := RequireFreeSpace(measured.value, Some(previous), options);
    }

    /** The probe after a committed batch, and the vacuum with a probe of its own when one is due. */
    method Inspect(options: Options, outside: Outside, b: nat) returns (failure: Option<Failure>)
      requires outside.batch(b).Some? && b > 0 && probes != []
      modifies `probes
      ensures failure == Trouble(options, outside, old(probes)[|old(probes)| - 1], b)
      ensures failure.None? ==> Healthy(options, outside, b)
      ensures failure.None? ==> probes == old(probes) + ProbesAt(options, outside, b)
      ensures old(probes) <= probes
    {
      failure := Measure(outside.free(b), options);
      if failure.None? && options.vacuumEvery > 0 && outside.batch(b).value > 0 && b % options.vacuumEvery == 0 {
        if outside.vacuum(b) {
          failure := Measure(outside.freeAfterVacuum(b), options);
        } else {
          failure := Some(VacuumFailed);
        }
      }
    }

    /** One batch: it is committed, inspected and recorded. */
    method ApplyBatch(options: Options, initial: nat, outside: Outside, b: nat, ghost total: nat)
      returns (failure: Option<Failure>, deleted: nat)
      requires b > 0 && PhaseOf(events) == Some(Started(b - 1, total))
      requires (forall c | 1 <= c < b :: outside.batch(c).Some?) && events == Story(outside, log, b - 1)
      requires probes == Probes(options, outside, initial, b - 1)
      modifies this
      ensures failure.None? <==> Sound(options, outside, initial, log, b)
      ensures outside.batch(b).None? ==> failure == Some(BatchFailed) && events == old(events)
      ensures outside.batch(b).Some? ==>
        && deleted == outside.batch(b).value && events == Story(outside, log, b)
        && PhaseOf(events) == Some(if log(2 * b).Confirmed? then Started(b, total + deleted)
                                   else RecordFailed(b, total + deleted))
        && failure == if !log(2 * b).Confirmed? then Some(LogWriteFailed)
                      else Trouble(options, outside, Measured(options, outside, initial, b - 1), b)
      ensures failure.None? ==> Healthy(options, outside, b) && probes == Probes(options, outside, initial, b)
      ensures failure.None? && SteadySpace(options, old(probes)) ==> SteadySpace(options, probes)
    {
      hide PhaseOf, Trouble, ProbesAt, Probes, SteadySpace, Healthy, Story;
      var result := outside.batch(b);
      if result.None? { return Some(BatchFailed), 0; }
      deleted := result.value;
      PhaseNext(events, Delete(deleted));
      events := events + [Delete(deleted)];
      ghost var last := Measured(options, outside, initial, b - 1);
      failure := Inspect(options, outside, b);
      if failure.None? && SteadySpace(options, old(probes)) { SteadyOn(options, outside, last, b, old(probes)); }
      ProbesNext(options, outside, initial, b);
      ghost var before := events;
      var recorded, r := Write(Batch(b, deleted));
      PhaseNext(before, Append(Batch(b, deleted), r));
      StoryNext(outside, log, b);
      if !recorded { failure := Some(LogWriteFailed); }
    }

    /** runAuditPhaseAApply: batches until one is empty, a limit is reached or something fails; every batch
        that was committed is recorded before the next one. It stops without a failure if and only if there is
        room at first and every batch up to the last is sound; otherwise what stops it is the first thing wrong. */
    method ApplyBatches(options: Options, initial: nat, outside: Outside)
      returns (reason: StopReason, totalDeleted: nat, batches: nat)
      requires PhaseOf(events) == Some(Started(0, 0)) && events == [Append(Start, log(0))] && probes == []
      modifies this
      ensures Disciplined(events) && TotalDeleted(events) == totalDeleted
      ensures Deletes(events) == batches <= options.maxBatches
      ensures PhaseOf(events) == Some(Started(batches, totalDeleted))
              || (PhaseOf(events) == Some(RecordFailed(batches, totalDeleted)) && reason == StoppedBy(LogWriteFailed))
      ensures totalDeleted == BatchSum(outside, batches)
      ensures reason == MaxBatches ==> batches == options.maxBatches
      ensures reason == Drained ==> batches > 0 && outside.batch(batches) == Some(0)
      ensures forall b | 1 <= b < batches :: Healthy(options, outside, b) && outside.batch(b) != Some(0)
      ensures !reason.StoppedBy? && batches > 0 ==> Healthy(options, outside, batches)
      ensures (forall b | 1 <= b <= batches :: outside.batch(b).Some?) && events == Story(outside, log, batches)
      ensures !reason.StoppedBy? ==> batches == Extent(options, outside, 1)
      ensures !reason.StoppedBy? <==> AllSound(options, initial, outside, log)
      ensures !reason.StoppedBy? ==>
        probes == Probes(options, outside, initial, batches) && SteadySpace(options, probes)
      ensures reason.StoppedBy? ==> StopsAt(options, initial, outside, log, batches, reason.failure)
    {
      hide PhaseOf, TotalDeleted, Deletes, Trouble, Healthy, BatchSum, Sound, Probes, Story, SteadySpace,
        Went, AllSound, StopsAt, Extent;
      BatchSumNext(outside, 0);
      NoStory(options, outside, log, initial);
      reason, totalDeleted, batches := MaxBatches, 0, 0;
      DeletesAccounted(events);
      var floor := RequireFreeSpace(initial, None, options);
      if floor.Some? {
        NoRoom(options, initial, outside, log);
        return StoppedBy(floor.value), 0, 0;
      }
      probes := [initial];
      var index := 1;
      while index <= options.maxBatches
        invariant batches == index - 1 <= options.maxBatches && PhaseOf(events) == Some(Started(batches, totalDeleted))
        invariant reason == MaxBatches && totalDeleted == BatchSum(outside, batches)
        invariant forall b | 1 <= b < index :: Went(options, outside, initial, log, b)
        invariant forall b | 1 <= b < index :: outside.batch(b).Some?
        invariant events == Story(outside, log, batches) && probes == Probes(options, outside, initial, batches)
        invariant SteadySpace(options, probes) && initial >= options.floorBytes
        invariant Extent(options, outside, index) == Extent(options, outside, 1)
        decreases options.maxBatches + 1 - index
      {
        var failure: Option<Failure>;
        var deleted;
        AllWent(options, outside, initial, log, index - 1);
        failure, deleted := ApplyBatch(options, initial, outside, index, totalDeleted);
        DeletesAccounted(events);
        if outside.batch(index).None? {
          BatchFails(options, initial, outside, log, batches);
          return StoppedBy(BatchFailed), totalDeleted, batches;
        }
        totalDeleted, batches := totalDeleted + deleted, batches + 1;
        BatchSumNext(outside, index);
        ExtentNext(options, outside, index);
        if failure.Some? {
          BatchStops(options, initial, outside, log, index, failure.value);
          return StoppedBy(failure.value), totalDeleted, batches;
        }
        BatchWent(options, outside, initial, log, index);
        if deleted == 0 {
          GoesOn(options, initial, outside, log, index);
          return Drained, totalDeleted, batches;
        }
        index := index + 1;
      }
      AllWent(options, outside, initial, log, index - 1);
      ExtentNext(options, outside, index);
      GoesOn(options, initial, outside, log, index - 1);
      DeletesAccounted(events);
    }

    /** A refusal, recorded before anything is deleted. */
    method Refuse()
      requires PhaseOf(events) in {Some(Fresh), Some(StartFailed)}
      requires TotalDeleted(events) == 0 && Deletes(events) == 0
      modifies `events
      ensures events == old(events) + [Append(Refused, log(|old(events)|))]
      ensures Disciplined(events) && TotalDeleted(events) == 0 && Deletes(events) == 0 && !SaysCompleted(events)
    {
      ghost var before := events;
      var _, r := Write(Refused);
      PhaseNext(before, Append(Refused, r));
      AppendKeepsTotals(before, Append(Refused, r));
      CompletedExactly(events);
    }

    /** runPhaseA with --apply, from the opened log on. `refusal` is what the guards and the first probe
        decide. The call returns normally exactly if an end record that says `completed` was confirmed; when
        it throws, the file says `completed` exactly if that record was written without being confirmed. */
    method RunPhaseA(refusal: Option<Failure>, options: Options, initial: nat, outside: Outside)
      returns (failure: Option<Failure>, totalDeleted: nat)
      requires events == [] && probes == []
      modifies this
      ensures Disciplined(events) && TotalDeleted(events) == totalDeleted
      ensures failure.None? <==> GoesThrough(refusal, options, initial, outside, log)
      ensures refusal.Some? ==> events == [Append(Refused, log(0))]
      ensures refusal.None? && !log(0).Confirmed? ==>
        failure == Some(LogWriteFailed) && events == [Append(Start, log(0)), Append(Refused, log(1))]
      ensures refusal.None? && log(0).Confirmed? ==>
        var n, sound := Deletes(events), AllSound(options, initial, outside, log);
        && (forall b | 1 <= b <= n :: outside.batch(b).Some?)
        && events == Story(outside, log, n) + [Append(End(sound, BatchSum(outside, n), n), log(2 * n + 1))]
        && (sound ==> n == Extent(options, outside, 1) && (failure.Some? ==> failure.value.LogWriteFailed?))
        && (!sound ==> failure.Some? && StopsAt(options, initial, outside, log, n, failure.value))
      ensures failure.None? <==>
        events != [] && events[|events| - 1] == Append(End(true, TotalDeleted(events), Deletes(events)), Confirmed)
      ensures failure.Some? ==>
        (SaysCompleted(events) <==>
         events != [] && events[|events| - 1] == Append(End(true, TotalDeleted(events), Deletes(events)), Unconfirmed))
      ensures refusal.Some? ==> failure == refusal && Deletes(events) == 0
      ensures failure.None? ==> forall b | 1 <= b <= Deletes(events) :: Healthy(options, outside, b)
      ensures failure.None? ==>
        && probes == Probes(options, outside, initial, Deletes(events))
        && forall i | 0 < i < |probes| ::
             probes[i] >= options.floorBytes && probes[i - 1] - probes[i] <= options.maxDropBytes
    {
      hide PhaseOf, TotalDeleted, Deletes, Healthy, BatchSum, SaysCompleted, Story, AllSound, Extent, StopsAt;
      totalDeleted := 0;
      Empty();
      if refusal.Some? {
        failure := refusal;
        Refuse();
        return;
      }
      var started, r := Write(Start);
      PhaseNext([], Append(Start, r));
      AppendKeepsTotals([], Append(Start, r));
      if !started {
        failure := Some(LogWriteFailed);
        Refuse();
        return;
      }
      var reason: StopReason;
      var batches: nat;
      reason, totalDeleted, batches := ApplyBatches(options, initial, outside);
      failure := if reason.StoppedBy? then Some(reason.failure) else None;
      ghost var before := events;
      var end := End(failure.None?, totalDeleted, batches);
      var ended, q := Write(end);
      PhaseNext(before, Append(end, q));
      AppendKeepsTotals(before, Append(end, q));
      CompletedExactly(events);
      if !ended && failure.None? { failure := Some(LogWriteFailed); }
    }
  }

  lemma NoStory(options: Options, outside: Outside, log: nat -> AppendResult, initial: nat)
    ensures Story(outside, log, 0) == [Append(Start, log(0))] && Probes(options, outside, initial, 0) == [initial]
    ensures SteadySpace(options, [initial])
  {
  }

  lemma StoryNext(outside: Outside, log: nat -> AppendResult, n: nat)
    requires n > 0 && forall b | 1 <= b <= n :: outside.batch(b).Some?
    ensures var d := outside.batch(n).value;
      Story(outside, log, n) == Story(outside, log, n - 1) + [Delete(d)] + [Append(Batch(n, d), log(2 * n))]
  {
  }

  /** Batch b went by without giving a reason to stop, and was not the last. */
  ghost predicate Went(options: Options, outside: Outside, initial: nat, log: nat -> AppendResult, b: nat)
    requires b > 0
  {
    && outside.batch(b).Some? && outside.batch(b) != Some(0) && Healthy(options, outside, b)
    && Sound(options, outside, initial, log, b)
  }

  lemma BatchWent(options: Options, outside: Outside, initial: nat, log: nat -> AppendResult, b: nat)
    requires b > 0 && outside.batch(b).Some? && Healthy(options, outside, b) && Sound(options, outside, initial, log, b)
    ensures outside.batch(b) != Some(0) ==> Went(options, outside, initial, log, b)
  {
  }

  lemma AllWent(options: Options, outside: Outside, initial: nat, log: nat -> AppendResult, n: nat)
    requires forall b | 1 <= b <= n :: Went(options, outside, initial, log, b)
    ensures forall b | 1 <= b <= n :: outside.batch(b).Some? && outside.batch(b) != Some(0)
    ensures forall b | 1 <= b <= n :: Healthy(options, outside, b)
    ensures forall b | 1 <= b <= n :: Sound(options, outside, initial, log, b)
  {
    hide Healthy, Sound;
    forall b | 1 <= b <= n
      ensures outside.batch(b).Some? && outside.batch(b) != Some(0) && Healthy(options, outside, b)
      ensures Sound(options, outside, initial, log, b)
    {
      assert Went(options, outside, initial, log, b);
    }
  }

  lemma ExtentNext(options: Options, outside: Outside, b: nat)
    ensures Extent(options, outside, b) ==
      if b > options.maxBatches then options.maxBatches
      else if outside.batch(b) == Some(0) then b else Extent(options, outside, b + 1)
    ensures b <= options.maxBatches ==> b <= Extent(options, outside, b)
  {
  }

  lemma NoRoom(options: Options, initial: nat, outside: Outside, log: nat -> AppendResult)
    requires initial < options.floorBytes
    ensures !AllSound(options, initial, outside, log)
    ensures StopsAt(options, initial, outside, log, 0, FreeSpaceFloorBreached)
  {
  }

  lemma BatchFails(options: Options, initial: nat, outside: Outside, log: nat -> AppendResult, n: nat)
    requires n < options.maxBatches && outside.batch(n + 1).None? && initial >= options.floorBytes
    requires forall b | 1 <= b <= n :: Sound(options, outside, initial, log, b)
    requires Extent(options, outside, n + 1) == Extent(options, outside, 1)
    ensures !AllSound(options, initial, outside, log)
    ensures StopsAt(options, initial, outside, log, n, BatchFailed)
  {
    assert !Sound(options, outside, initial, log, n + 1);
    hide Sound;
  }

  lemma BatchStops(options: Options, initial: nat, outside: Outside, log: nat -> AppendResult, n: nat, failure: Failure)
    requires 0 < n <= options.maxBatches && outside.batch(n).Some? && initial >= options.floorBytes
    requires forall b | 1 <= b < n :: Sound(options, outside, initial, log, b)
    requires !Sound(options, outside, initial, log, n) && Extent(options, outside, n) == Extent(options, outside, 1)
    requires Some(failure) == if !log(2 * n).Confirmed? then Some(LogWriteFailed)
                              else Trouble(options, outside, Measured(options, outside, initial, n - 1), n)
    ensures !AllSound(options, initial, outside, log)
    ensures StopsAt(options, initial, outside, log, n, failure)
  {
    hide Sound, Trouble, Measured;
  }

  lemma GoesOn(options: Options, initial: nat, outside: Outside, log: nat -> AppendResult, n: nat)
    requires forall b | 1 <= b <= n :: Sound(options, outside, initial, log, b)
    requires n == Extent(options, outside, 1) && initial >= options.floorBytes
    ensures AllSound(options, initial, outside, log)
  {
    hide Sound;
  }

  lemma ProbesNext(options: Options, outside: Outside, initial: nat, n: nat)
    requires n > 0
    ensures Probes(options, outside, initial, n)
         == Probes(options, outside, initial, n - 1) + ProbesAt(options, outside, n)
  {
  }

  /** At an input: the start line is written but not confirmed, and the file says `start` and then `refused`. */
  method RetractStart(options: Options, initial: nat, outside: Outside) returns (run: Run, failure: Option<Failure>)
    ensures failure == Some(LogWriteFailed) && Lines(run.events) == [Start, Refused]
  {
    run := new Run(n => if n == 0 then Unconfirmed else Confirmed);
    var total;
    failure, total := run.RunPhaseA(None, options, initial, outside);
    assert run.log(0) == Unconfirmed && run.log(1) == Confirmed;
    RetractedExactly(run.events);
  }

  /** At an input: the end line is written but not confirmed, and the file says `completed` although the call
      throws. */
  method CompleteAndThrow(floor: nat, outside: Outside) returns (run: Run, failure: Option<Failure>)
    ensures failure == Some(LogWriteFailed) && SaysCompleted(run.events)
  {
    run := new Run(n => if n == 1 then Unconfirmed else Confirmed);
    var total;
    failure, total := run.RunPhaseA(None, Options(0, floor, 0, 0), floor, outside);
    assert run.log(0) == Confirmed && run.log(1) == Unconfirmed;
  }

  /** At an input: a batch after which far less space is free than before it stops the run, although there is still
      more than the floor; the batch is recorded, and the end says that the run was not completed. */
  method StopOnDrop() returns (run: Run, failure: Option<Failure>)
    ensures failure == Some(FreeSpaceDropped)
    ensures run.events == [Append(Start, Confirmed), Delete(5000), Append(Batch(1, 5000), Confirmed),
                           Append(End(false, 5000, 1), Confirmed)]
  {
    run := new Run(n => Confirmed);
    var outside := Outside(n => Some(5000), n => Some(1000), n => true, n => None);
    var options := Options(1, 0, 500, 0);
    var total;
    failure, total := run.RunPhaseA(None, options, 100000, outside);
    assert Probes(options, outside, 100000, 0) == [100000];
    assert Trouble(options, outside, 100000, 1) == Some(FreeSpaceDropped);
    assert Extent(options, outside, 1) == 1;
    assert !Sound(options, outside, 100000, run.log, 1);
    StoryNext(outside, run.log, 1);
    assert Story(outside, run.log, 0) == [Append(Start, Confirmed)];
    BatchSumNext(outside, 0);
    BatchSumNext(outside, 1);
  }

  lemma Empty()
    ensures PhaseOf([]) == Some(Fresh) && TotalDeleted([]) == 0 && Deletes([]) == 0
  {
  }

  lemma AppendKeepsTotals(events: seq<Event>, e: Event)
    requires e.Append?
    ensures TotalDeleted(events + [e]) == TotalDeleted(events) && Deletes(events + [e]) == Deletes(events)
  {
    assert (events + [e])[..|events|] == events;
  }
}
