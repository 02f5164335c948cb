// The logger of core/src/klogger.c: a pool of records, a queue of pointers to them, any number of
// submitting tasks and one consuming task. The steps are what other tasks cannot come between: the
// critical sections, and in between them single reads and writes of shared memory. Above all the
// consumer's check of a record walks the free list without a critical section, so that a submitter may
// take and fill the very block the walk stands on.

module Logger {
  import opened Basics
  import opened Mem

  const LOG_POOL_SIZE: nat := 16
  const RECORD_BYTES: nat := 72 // the time stamp, 64 characters and the level

  // A submitter between its allocation and its send.
  datatype Sub = Sub(r: nat, filled: bool)

  // The consumer: away, suspended in its receive, with a record it waits to print (Got) or is to consume
  // (Ready), walking the free list for it, about to print it, about to give it back.
  // `start` is the free list as the walk found it, by address; the walk stands at address `at`, its i-th,
  // and has or has not compared it yet.
  datatype Consumer =
    | Away
    | Waiting
    | Got(r: nat)
    | Ready(r: nat)
    | Walking(r: nat, final: bool, start: seq<nat>, i: nat, at: nat, compared: bool)
    | Passed(r: nat)
    | Shown(r: nat)

  datatype Outcome = Printed(text: string) | Lost(text: string)

  datatype State = State(
    base: nat,                // address of the record pool
    pool: Pool,
    words: map<nat, nat>,     // the first word of every record, by address: its time stamp, or a link
    texts: map<nat, string>,
    submitting: map<Tid, Sub>,
    queue: seq<nat>,
    consumer: Consumer,
    outputOn: bool,
    errSend: nat, errPool: nat, errConsume: nat,
    accepted: seq<string>,    // the text of every send that succeeded
    outcomes: seq<Outcome>,   // what became of them
    leaked: set<nat>)         // records that were refused, and so never freed

  datatype Step =
    | Take(t: Tid) | Fill(t: Tid, text: string, tick: nat) | Send(t: Tid)
    | Receive | Check | Compare | Follow(junk: nat) | Print | Release
    | SetOutput(on: bool)

  function Addr(base: nat, b: nat): nat {
    base + b * RECORD_BYTES
  }

  function Addrs(base: nat, blocks: seq<nat>): seq<nat> {
    AddrsOf(base, RECORD_BYTES, blocks)
  }

  // The partition is threaded, the queue empty.
  function Initial(base: nat): State {
    var free := seq(LOG_POOL_SIZE, i => i);
    State(base, FreshPool(LOG_POOL_SIZE), Threaded(base, LOG_POOL_SIZE), map[], map[], [], Away, true, 0, 0, 0, [], [], {})
  }

  function Threaded(base: nat, n: nat): map<nat, nat>
    requires n <= LOG_POOL_SIZE
  {
    if n == 0 then map[]
    else Threaded(base, n - 1)[Addr(base, n - 1) := if n < LOG_POOL_SIZE then Addr(base, n) else 0]
  }

  // ---- submitters -----------------------------------------------------------------------------------------

  // The allocation of logSubmit_
  function TakeRecord(s: State, t: Tid): State {
    var (pool, got) := s.pool.Take();
    match got
    case None => s.(errPool := s.errPool + 1)
    case Some(r) => s.(pool := pool, submitting := s.submitting[t := Sub(r, false)])
  }

  // The record is written: its time stamp lies where the link was.
  function FillRecord(s: State, t: Tid, text: string, tick: nat): State
    requires t in s.submitting
  {
    var r := s.submitting[t].r;
    s.(words := s.words[Addr(s.base, r) := tick], texts := s.texts[r := text],
       submitting := s.submitting[t := Sub(r, true)])
  }

  function TextOf(s: State, r: nat): string {
    if r in s.texts then s.texts[r] else ""
  }

  // The send: a consumer suspended in its receive is handed the pointer, a full queue refuses it.
  function SendRecord(s: State, t: Tid): State
    requires t in s.submitting
  {
    var r := s.submitting[t].r;
    var sent := s.(submitting := s.submitting - {t});
    if s.consumer.Waiting? then sent.(consumer := Got(r), accepted := s.accepted + [TextOf(s, r)])
    else if |s.queue| >= LOG_POOL_SIZE then GiveBack(sent, r).(errSend := s.errSend + 1)
    else sent.(queue := s.queue + [r], accepted := s.accepted + [TextOf(s, r)])
  }

  function GiveBack(s: State, r: nat): State {
    s.(pool := s.pool.Give(r), words := s.words[Addr(s.base, r) := AddrFrom(Addrs(s.base, s.pool.free), 0)])
  }

  // ---- the consumer -----------------------------------------------------------------------------------------

  function ReceiveRecord(s: State): State {
    if s.queue == [] then s.(consumer := Waiting) else s.(queue := s.queue[1..], consumer := Got(s.queue[0]))
  }

  // logRecordValid_ reads the head of the free list. A queued pointer passes its range tests.
  function StartCheck(s: State): State
    requires s.consumer.Got? || s.consumer.Ready?
  {
    var start := Addrs(s.base, s.pool.free);
    s.(consumer := Walking(s.consumer.r, s.consumer.Ready?, start, 0, AddrFrom(start, 0), false))
  }

  // What a finished check leads to. The waiting loop goes round while output is off and the record looks
  // valid; logConsume_ refuses a record that does not.
  function Conclude(s: State, valid: bool): State
    requires s.consumer.Walking?
  {
    var r := s.consumer.r;
    if !s.consumer.final then s.(consumer := if valid && !s.outputOn then Got(r) else Ready(r))
    else if valid then s.(consumer := Passed(r))
    else s.(consumer := Away, errConsume := s.errConsume + 1, leaked := s.leaked + {r},
            outcomes := s.outcomes + [Lost(TextOf(s, r))])
  }

  // The loop condition, with the number of free blocks as it is now, and the comparison.
  function CompareBlock(s: State): State
    requires s.consumer.Walking?
  {
    var w := s.consumer;
    if w.i >= |s.pool.free| || w.at == 0 then Conclude(s, true)
    else if w.at == Addr(s.base, w.r) then Conclude(s, false)
    else s.(consumer := w.(compared := true))
  }

  // The link is read, from a record or from whatever memory the walk came to.
  function FollowLink(s: State, junk: nat): State
    requires s.consumer.Walking?
  {
    var w := s.consumer;
    s.(consumer := w.(i := w.i + 1, at := if w.at in s.words then s.words[w.at] else junk, compared := false))
  }

  function PrintRecord(s: State): State
    requires s.consumer.Passed?
  {
    s.(consumer := Shown(s.consumer.r), outcomes := s.outcomes + [Printed(TextOf(s, s.consumer.r))])
  }

  // kMemPartitionFree
  function ReleaseRecord(s: State): State
    requires s.consumer.Shown?
  {
    GiveBack(s, s.consumer.r).(consumer := Away)
  }

  // ---- runs -------------------------------------------------------------------------------------------------

  predicate Enabled(s: State, step: Step) {
    match step
    case Take(t) => t !in s.submitting
    case Fill(t, _, _) => t in s.submitting && !s.submitting[t].filled
    case Send(t) => t in s.submitting && s.submitting[t].filled
    case Receive => s.consumer.Away?
    case Check => s.consumer.Got? || s.consumer.Ready?
    case Compare => s.consumer.Walking? && !s.consumer.compared
    case Follow(_) => s.consumer.Walking? && s.consumer.compared
    case Print => s.consumer.Passed?
    case Release => s.consumer.Shown?
    case SetOutput(_) => true
  }

  // A step that is not possible is passed over.
  function Apply(s: State, step: Step): State {
    if !Enabled(s, step) then s
    else match step
      case Take(t) => TakeRecord(s, t)
      case Fill(t, text, tick) => FillRecord(s, t, text, tick)
      case Send(t) => SendRecord(s, t)
      case Receive => ReceiveRecord(s)
      case Check => StartCheck(s)
      case Compare => CompareBlock(s)
      case Follow(junk) => FollowLink(s, junk)
      case Print => PrintRecord(s)
      case Release => ReleaseRecord(s)
      case SetOutput(on) => s.(outputOn := on)
  }

  function RunFrom(s: State, steps: seq<Step>): State {
    if steps == [] then s else Apply(RunFrom(s, steps[..|steps| - 1]), steps[|steps| - 1])
  }

  function Run(base: nat, steps: seq<Step>): State {
    RunFrom(Initial(base), steps)
  }
}
