/**
 The delivery protocol between the audit log, the shipper and the external witness,
 as a system of atomic steps.

 Appends, offers, trims, the receiver and the worker interleave freely between any two
 steps. A step that is not possible in a state leaves the state alone, so every list of
 steps is a run. Erasing an entry changes nothing a record carries, so the log is kept
 as the records the witness is owed.
 */
module Delivery {
  import opened Prelude
  import opened Runs
  import opened Chain
  import opened Records

  /** The store reads at most this many entries at once, whatever it is asked for. */
  const PAGE_CAP := 10000
  const PAGE_DEFAULT := 100

  datatype Config = Config(hash: HashFn, batchSize: nat, bufferSize: nat)

  /** How far delivery has got. No hash means one was never recorded. */
  datatype Mark = Mark(number: Int64, hash: Bytes)

  const NO_MARK := Mark(0, [])

  /** Where a batch came from; a full page of the log is followed by another read. */
  datatype Origin = FromQueue | FromLog(full: bool)

  /** Where the worker stands between two steps. */
  datatype Worker =
    | Stopped
    | Idle(pending: seq<Record>)
    | Checking
    | Reading
    | Posting(batch: seq<Record>, origin: Origin)
    | Acknowledged(batch: seq<Record>, origin: Origin)
    | Saved(batch: seq<Record>, origin: Origin)
    | Clearing

  datatype State = State(
    log: seq<Record>,        // every entry ever committed
    trimmed: nat,            // how many of them retention has removed
    queue: seq<Record>,
    resync: bool,
    worker: Worker,
    mark: Mark,              // in memory
    disk: Mark,              // in the file
    wire: set<seq<Record>>,  // batches that have left for the receiver
    arrived: seq<Record>)    // what the receiver stored, copies included

  datatype ReadOutcome = Read | ReadFailed | Cancelled

  datatype Step =
    | Append(record: Record)
    | Trim(upTo: nat)
    | Offer(index: nat)
    | Take
    | Discard
    | Decide
    | CheckHead(readable: bool)
    | ReadPage(outcome: ReadOutcome)
    | Send
    | Deliver(batch: seq<Record>)
    | Answer
    | PostFails
    | Persist
    | PersistFails(moved: bool)
    | Remember
    | ClearResync
    | HeartbeatFails
    | Crash
    | Restart
    | LoseFile
    | ForgetHash

  // The log

  function LastNumber(log: seq<Record>): Int64 {
    if |log| == 0 then 0 else log[|log| - 1].number
  }

  /** The records numbered from `from` on. */
  function From(stored: seq<Record>, from: int): seq<Record> {
    if |stored| == 0 then []
    else if stored[0].number >= from then [stored[0]] + From(stored[1..], from)
    else From(stored[1..], from)
  }

  function ClampLimit(limit: int): nat {
    if limit <= 0 then PAGE_DEFAULT else if limit > PAGE_CAP then PAGE_CAP else limit
  }

  /** A page holds what was asked for, but never nothing and never more than the cap. */
  lemma ClampIsNearest(limit: int)
    ensures 1 <= ClampLimit(limit) <= 10000 && (1 <= limit <= 10000 ==> ClampLimit(limit) == limit)
    ensures (limit > 10000 ==> ClampLimit(limit) == 10000) && (limit <= 0 ==> ClampLimit(limit) == 100)
  {
  }

  /** A page of the stored log, in order, starting at a number. */
  function ReadRange(stored: seq<Record>, from: int, limit: int): seq<Record> {
    var matching := From(stored, if from < 1 then 1 else from);
    var n := ClampLimit(limit);
    if |matching| <= n then matching else matching[..n]
  }

  // The shipper's own decisions

  /** The hash whatever is delivered next has to chain onto; empty when unknown. */
  function Expected(h: HashFn, mark: Mark): Bytes {
    if mark.number == 0 then Genesis(h) else mark.hash
  }

  /** The queued records that continue the receiver's history, or None when they do not. */
  function UsableBatch(pending: seq<Record>, delivered: Int64, chainOnto: Bytes): Option<seq<Record>> {
    if |pending| == 0 then Some([])
    else if pending[0].number <= delivered then UsableBatch(pending[1..], delivered, chainOnto)
    else if |chainOnto| == 0 || pending[0].prevHash != chainOnto then None
    else
      match UsableBatch(pending[1..], delivered, pending[0].entryHash)
      case None => None
      case Some(rest) => Some([pending[0]] + rest)
  }

  function MarkOf(batch: seq<Record>): Mark
    requires |batch| > 0
  {
    Mark(batch[|batch| - 1].number, batch[|batch| - 1].entryHash)
  }

  /** A hash that is not the length of a chain hash is dropped when the file is read. */
  function Loaded(disk: Mark): Mark {
    if disk.number <= 0 then NO_MARK
    else if |disk.hash| == HASH_SIZE then disk
    else Mark(disk.number, [])
  }

  function AfterDelivery(origin: Origin): Worker {
    match origin
    case FromQueue => Idle([])
    case FromLog(full) => if full then Reading else Clearing
  }

  // The receiver

  /** What the receiver holds once copies of a number it already has are dropped. */
  function Dedup(arrived: seq<Record>): (held: seq<Record>)
  {
    if |arrived| == 0 then []
    else
      var held, last := Dedup(arrived[..|arrived| - 1]), arrived[|arrived| - 1];
      if exists r <- held :: r.number == last.number then held else held + [last]
  }

  // The steps

  function Failed(s: State): State {
    s.(resync := true, worker := Idle([]))
  }

  predicate Chains(c: Config, log: seq<Record>, r: Record) {
    r.number > LastNumber(log) && RecordVerifies(c.hash, r, LastHash(log, Genesis(c.hash)))
  }

  function Offered(c: Config, s: State, r: Record): State {
    if |s.queue| < c.bufferSize then s.(queue := s.queue + [r]) else s.(resync := true)
  }

  function Decided(c: Config, s: State, pending: seq<Record>): State {
    match UsableBatch(pending, s.mark.number, Expected(c.hash, s.mark))
    case None => s.(worker := Checking)
    case Some(batch) =>
      if s.resync then s.(worker := Checking)
      else if |batch| == 0 then s.(worker := Idle([]))
      else s.(worker := Posting(batch, FromQueue))
  }

  /** What retention has left in the log. */
  function Stored(s: State): seq<Record> {
    if s.trimmed <= |s.log| then s.log[s.trimmed..] else []
  }

  function NextPage(c: Config, s: State): seq<Record> {
    ReadRange(Stored(s), s.mark.number + 1, c.batchSize)
  }

  function PageRead(c: Config, s: State): State {
    var page := NextPage(c, s);
    if |page| == 0 then s.(worker := Clearing)
    else s.(worker := Posting(page, FromLog(|page| >= c.batchSize)))
  }

  function Persisted(s: State, batch: seq<Record>, origin: Origin): State
    requires |batch| > 0
  {
    if MarkOf(batch).number < s.mark.number then s.(worker := AfterDelivery(origin))
    else s.(disk := MarkOf(batch), worker := Saved(batch, origin))
  }

  function Restarted(s: State): State {
    s.(mark := Loaded(s.disk), disk := Loaded(s.disk), queue := [], resync := true, worker := Idle([]))
  }

  function Apply(c: Config, s: State, step: Step): State {
    match step
    case Append(r) => if Chains(c, s.log, r) then s.(log := s.log + [r]) else s
    case Trim(n) => if s.trimmed <= n <= |s.log| && n <= |Dedup(s.arrived)| then s.(trimmed := n) else s
    case Offer(i) => if i < |s.log| then Offered(c, s, s.log[i]) else s
    case Take =>
      if s.worker.Idle? && |s.queue| > 0 && |s.worker.pending| < c.batchSize
      then s.(queue := s.queue[1..], worker := Idle(s.worker.pending + [s.queue[0]])) else s
    case Discard =>
      if s.worker.Idle? then s.(resync := s.resync || |s.worker.pending| > 0, worker := Idle([])) else s
    case Decide => if s.worker.Idle? then Decided(c, s, s.worker.pending) else s
    case CheckHead(readable) =>
      if !s.worker.Checking? then s
      else if readable && s.mark.number <= LastNumber(s.log) then s.(worker := Reading) else Failed(s)
    case ReadPage(outcome) =>
      if !s.worker.Reading? then s
      else if outcome == Cancelled then s.(worker := Idle([]))
      else if outcome == ReadFailed then Failed(s) else PageRead(c, s)
    case Send => if s.worker.Posting? then s.(wire := s.wire + {s.worker.batch}) else s
    case Deliver(b) => if b in s.wire then s.(arrived := s.arrived + b) else s
    case Answer =>
      if s.worker.Posting? && s.worker.batch in s.wire && (forall r <- s.worker.batch :: r in s.arrived)
      then s.(worker := Acknowledged(s.worker.batch, s.worker.origin)) else s
    case PostFails => if s.worker.Posting? then Failed(s) else s
    case Persist =>
      if s.worker.Acknowledged? && |s.worker.batch| > 0
      then Persisted(s, s.worker.batch, s.worker.origin) else s
    case PersistFails(moved) =>
      if s.worker.Acknowledged? && |s.worker.batch| > 0
      then Failed(if moved then s.(disk := MarkOf(s.worker.batch)) else s) else s
    case Remember =>
      if s.worker.Saved? && |s.worker.batch| > 0
      then s.(mark := MarkOf(s.worker.batch), worker := AfterDelivery(s.worker.origin)) else s
    case ClearResync => if s.worker.Clearing? then s.(resync := false, worker := Idle([])) else s
    case HeartbeatFails => if s.worker.Idle? then s.(resync := true) else s
    case Crash => s.(worker := Stopped, queue := [], mark := NO_MARK)
    case Restart => if s.worker.Stopped? then Restarted(s) else s
    case LoseFile => s.(disk := NO_MARK)
    case ForgetHash => s.(disk := Mark(s.disk.number, []))
  }

  function Next(c: Config): (State, Step) -> State {
    (s, step) => Apply(c, s, step)
  }

  /** The state a run has reached. */
  function After(c: Config, s: State, steps: seq<Step>): State {
    Run(Next(c), s, steps)
  }

  /** A first start: some log, nothing delivered, no watermark file. */
  predicate Init(c: Config, s: State) {
    Accepted(c.hash, s.log, Genesis(c.hash)) && (forall r <- s.log :: r.number > 0) &&
    s.trimmed == 0 && s.queue == [] && s.worker == Stopped && s.mark == NO_MARK && s.disk == NO_MARK &&
    s.wire == {} && s.arrived == []
  }
}
