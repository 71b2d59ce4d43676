/**
 * The bounded history receiver and the service that runs it: connection slots, reserved payload bytes and the
 * queue of completed deliveries, as a state machine over the steps of the accept loop, the connection handlers,
 * the writer and shutdown.
 */
module HistoryReceiver {
  import opened Wrappers

  const MAX_PAYLOAD_SIZE := 0x100_0000
  const TWO_64 := 0x1_0000_0000_0000_0000

  type Uint64 = x: nat | x < TWO_64

  function Add64(a: Uint64, b: Uint64): Uint64 {
    if a + b < TWO_64 then a + b else a + b - TWO_64
  }

  function Sub64(a: Uint64, b: Uint64): Uint64 {
    if b <= a then a - b else a - b + TWO_64
  }

  datatype Limits = Limits(receivers: nat, bytes: Uint64, queue: nat)

  // Whether a message is a validation, an identify or shutdown request, or something else.
  datatype Kind = Validation | Control | Unexpected

  // Where the handler of one connection is.
  datatype Pc =
    | Started
    | HeaderRead(length: Uint64)
    | Reading
    | Decoded(kind: Kind)
    | Refused   // no reservation was made
    | Dropped   // the handler released its reservation
    | Handed    // the reservation went to the queue of completed deliveries

  // One admitted connection: its handler, whether it still has its slot, the size of its reservation, how often
  // the reservation was released, how often its event was inserted, and whether cancellation cut it off.
  datatype Connection = Connection(pc: Pc, slot: bool, size: Uint64, releases: nat, inserts: nat, cutOff: bool)

  datatype Writer = Selecting | Taken(delivery: nat) | Inserted(delivery: nat) | Exited

  // The serving thread: accepting, admitting one connection, then shutting down.
  datatype Serve =
    | Accepting
    | Arrived
    | Unstopped    // the first look at `stopped` found it unset
    | Pushed       // holds a slot and has not looked at `stopped` again
    | Withdrawing
    | Admitted
    | Stopping
    | Joining      // waiting for the connection handlers
    | Joined
    | ReceiversCancelled
    | AwaitingWriter
    | Draining
    | Drained(delivery: nat)
    | Returned

  datatype State = State(
    limits: Limits,
    slots: nat,
    reserved: Uint64,
    queue: seq<nat>,
    connections: seq<Connection>,
    writer: Writer,
    serve: Serve,
    stopped: bool,
    closed: bool,
    cancelled: bool,
    writesCancelled: bool)

  function Initial(limits: Limits): State {
    State(limits, 0, 0, [], [], Selecting, Accepting, false, false, false, false)
  }

  // ---- Steps. A step that is not possible gives None.

  datatype Action =
    | Accept(accept: AcceptStep)
    | Handle(i: nat, handler: HandlerStep)
    | Write(write: WriterStep)
    | Stop | CloseListener | CancelContext
    | Shutdown(shutdown: ShutdownStep)

  datatype AcceptStep = Arrive | AcceptFails | LookAtStopped | Push | LookAgain | Withdraw | Spawn

  datatype HandlerStep =
    | ReadHeader(length: Uint64) | FailHeader | Reserve | ReadPayload(kind: Kind) | FailPayload | Dispatch | Finish
    | CutOff

  datatype WriterStep = Take | Insert | Release | Exit

  datatype ShutdownStep =
    | StopReturns | Join | CancelReceivers | CancelWrites | SeeWriterDone | DrainTake | DrainRelease | Return

  // The accept loop. `closed` makes accepting fail; so may any other error.
  function DoAccept(s: State, step: AcceptStep): Option<State> {
    match step
    case Arrive => if s.serve.Accepting? && !s.closed then Some(s.(serve := Arrived)) else None
    case AcceptFails => if s.serve.Accepting? then Some(s.(serve := Stopping)) else None
    case LookAtStopped =>
      if s.serve.Arrived? then Some(s.(serve := if s.stopped then Accepting else Unstopped)) else None
    case Push =>
      if !s.serve.Unstopped? then None
      else if s.slots < s.limits.receivers then Some(s.(serve := Pushed, slots := s.slots + 1))
      else Some(s.(serve := Accepting))
    case LookAgain =>
      if s.serve.Pushed? then Some(s.(serve := if s.stopped then Withdrawing else Admitted)) else None
    case Withdraw =>
      if s.serve.Withdrawing? && 0 < s.slots then Some(s.(serve := Accepting, slots := s.slots - 1)) else None
    case Spawn =>
      if s.serve.Admitted? then
        Some(s.(serve := Accepting, connections := s.connections + [Connection(Started, true, 0, 0, 0, false)]))
      else None
  }

  // The first release of a reservation returns its bytes; later ones do nothing.
  function BytesAfterRelease(c: Connection, reserved: Uint64): Uint64 {
    if c.releases == 0 then Sub64(reserved, c.size) else reserved
  }

  function ReleaseReservation(s: State, i: nat): State
    requires i < |s.connections|
  {
    var c := s.connections[i];
    s.(reserved := BytesAfterRelease(c, s.reserved),
       connections := s.connections[i := c.(releases := c.releases + 1)])
  }

  // What a step of a handler does: its connection, the reserved bytes, and whether it joins the queue.
  datatype Effect = Effect(connection: Connection, reserved: Uint64, queued: bool)

  function Moved(c: Connection, pc: Pc, reserved: Uint64): Option<Effect> {
    Some(Effect(c.(pc := pc), reserved, false))
  }

  function Drop(c: Connection, reserved: Uint64): Option<Effect> {
    Some(Effect(c.(pc := Dropped, releases := c.releases + 1), BytesAfterRelease(c, reserved), false))
  }

  function Step(c: Connection, limits: Limits, reserved: Uint64, queued: nat, done: bool,
      step: HandlerStep): Option<Effect>
  {
    match step
    case ReadHeader(length) =>
      if c.pc.Started? && 1 <= length <= MAX_PAYLOAD_SIZE then Moved(c, HeaderRead(length), reserved) else None
    case FailHeader => if c.pc.Started? then Moved(c, Refused, reserved) else None
    case Reserve =>
      if !c.pc.HeaderRead? then None
      else if c.pc.length > Sub64(limits.bytes, reserved) then Moved(c, Refused, reserved)
      else Some(Effect(c.(pc := Reading, size := c.pc.length), Add64(reserved, c.pc.length), false))
    case ReadPayload(kind) => if c.pc.Reading? then Moved(c, Decoded(kind), reserved) else None
    case FailPayload => if c.pc.Reading? then Drop(c, reserved) else None
    case Dispatch =>
      if !c.pc.Decoded? then None
      else if c.pc.kind.Validation? && queued < limits.queue then Some(Effect(c.(pc := Handed), reserved, true))
      else Drop(c, reserved)
    case Finish =>
      if c.pc.Refused? || c.pc.Dropped? || c.pc.Handed? then Some(Effect(c.(slot := false), reserved, false)) else None
    case CutOff =>
      if !done then None
      else if c.pc.Started? then Moved(c.(cutOff := true), Refused, reserved)
      else if c.pc.Reading? || c.pc == Decoded(Control) then Drop(c.(cutOff := true), reserved)
      else None
  }

  // The context of the handlers: it ends with that of the service, and when the service cancels its receivers.
  predicate ReceiversDone(s: State) {
    s.cancelled || s.serve.ReceiversCancelled? || s.serve.AwaitingWriter? || PastWriter(s.serve)
  }

  // The handler of connection `i`.
  function DoHandler(s: State, i: nat, step: HandlerStep): Option<State> {
    if |s.connections| <= i || !s.connections[i].slot || (step.Finish? && s.slots == 0) then None
    else match Step(s.connections[i], s.limits, s.reserved, |s.queue|, ReceiversDone(s), step)
      case None => None
      case Some(e) =>
        Some(s.(connections := s.connections[i := e.connection],
                reserved := e.reserved,
                queue := if e.queued then s.queue + [i] else s.queue,
                slots := if e.connection.slot then s.slots else s.slots - 1))
  }

  predicate WritesDone(s: State) {
    s.cancelled || s.writesCancelled
  }

  // The writer: it may leave only once its context is done, and may still take a delivery then.
  function DoWriter(s: State, step: WriterStep): Option<State> {
    match step
    case Take =>
      if s.writer.Selecting? && s.queue != []
      then Some(s.(writer := Taken(s.queue[0]), queue := s.queue[1..]))
      else None
    case Insert =>
      if s.writer.Taken? && !WritesDone(s) && s.writer.delivery < |s.connections| then
        var i := s.writer.delivery;
        var c := s.connections[i];
        Some(s.(writer := Inserted(i), connections := s.connections[i := c.(inserts := c.inserts + 1)]))
      else None
    case Release =>
      if (s.writer.Inserted? || (s.writer.Taken? && WritesDone(s))) && s.writer.delivery < |s.connections| then
        Some(ReleaseReservation(s, s.writer.delivery).(writer := Selecting))
      else None
    case Exit => if s.writer.Selecting? && WritesDone(s) then Some(s.(writer := Exited)) else None
  }

  // No handler is running.
  predicate AllFinished(s: State) {
    forall i | 0 <= i < |s.connections| :: !s.connections[i].slot
  }

  // Shutdown of the serving thread.
  function DoShutdown(s: State, step: ShutdownStep): Option<State> {
    match step
    case StopReturns => if s.serve.Stopping? && s.stopped && s.closed then Some(s.(serve := Joining)) else None
    case Join => if s.serve.Joining? && AllFinished(s) then Some(s.(serve := Joined)) else None
    case CancelReceivers => if s.serve.Joined? then Some(s.(serve := ReceiversCancelled)) else None
    case CancelWrites =>
      if s.serve.ReceiversCancelled? then Some(s.(serve := AwaitingWriter, writesCancelled := true)) else None
    case SeeWriterDone => if s.serve.AwaitingWriter? && s.writer.Exited? then Some(s.(serve := Draining)) else None
    case DrainTake =>
      if s.serve.Draining? && s.queue != [] then Some(s.(serve := Drained(s.queue[0]), queue := s.queue[1..])) else None
    case DrainRelease =>
      if s.serve.Drained? && s.serve.delivery < |s.connections| then
        Some(ReleaseReservation(s, s.serve.delivery).(serve := Draining))
      else None
    case Return => if s.serve.Draining? && s.queue == [] then Some(s.(serve := Returned)) else None
  }

  // Stopping happens on a shutdown request, on cancellation, or when accepting ends.
  function Do(s: State, action: Action): Option<State> {
    match action
    case Accept(step) => DoAccept(s, step)
    case Handle(i, step) => DoHandler(s, i, step)
    case Write(step) => DoWriter(s, step)
    case Stop => if s.stopped then None else Some(s.(stopped := true))
    case CloseListener => if s.stopped && !s.closed then Some(s.(closed := true)) else None
    case CancelContext => if s.cancelled then None else Some(s.(cancelled := true))
    case Shutdown(step) => DoShutdown(s, step)
  }

  function Run(s: State, trace: seq<Action>): Option<State>
    decreases |trace|
  {
    if trace == [] then Some(s)
    else match Do(s, trace[0])
      case None => None
      case Some(next) => Run(next, trace[1..])
  }

  // ---- Sums over the connections.

  function Sum(connections: seq<Connection>, weight: Connection -> nat): nat {
    if connections == [] then 0 else weight(connections[0]) + Sum(connections[1..], weight)
  }

  function Slot(c: Connection): nat {
    if c.slot then 1 else 0
  }

  predicate HasReservation(c: Connection) {
    c.pc.Reading? || c.pc.Decoded? || c.pc.Dropped? || c.pc.Handed?
  }

  // The bytes of a reservation that was not released.
  function Charge(c: Connection): nat {
    if HasReservation(c) && c.releases == 0 then c.size else 0
  }

  lemma {:induction false} SumUpdate(connections: seq<Connection>, i: nat, c: Connection, weight: Connection -> nat)
    requires i < |connections|
    ensures Sum(connections[i := c], weight) == Sum(connections, weight) - weight(connections[i]) + weight(c)
  {
    if i == 0 {
      assert connections[i := c][1..] == connections[1..];
    } else {
      assert connections[i := c][1..] == connections[1..][i - 1 := c];
      SumUpdate(connections[1..], i - 1, c, weight);
    }
  }

  lemma {:induction false} SumAppend(connections: seq<Connection>, c: Connection, weight: Connection -> nat)
    ensures Sum(connections + [c], weight) == Sum(connections, weight) + weight(c)
  {
    if connections == [] {
      assert connections + [c] == [c];
    } else {
      assert (connections + [c])[1..] == connections[1..] + [c];
      SumAppend(connections[1..], c, weight);
    }
  }

  lemma {:induction false} SumAtLeast(connections: seq<Connection>, i: nat, weight: Connection -> nat)
    requires i < |connections|
    ensures weight(connections[i]) <= Sum(connections, weight)
  {
    if i != 0 {
      SumAtLeast(connections[1..], i - 1, weight);
    }
  }

  lemma {:induction false} SumOfZeros(connections: seq<Connection>, weight: Connection -> nat)
    requires forall i | 0 <= i < |connections| :: weight(connections[i]) == 0
    ensures Sum(connections, weight) == 0
  {
    if connections != [] {
      assert forall i | 0 <= i < |connections[1..]| :: weight(connections[1..][i]) == weight(connections[i + 1]);
      SumOfZeros(connections[1..], weight);
    }
  }

  // ---- What every step keeps.

  predicate HoldsSlot(serve: Serve) {
    serve.Pushed? || serve.Withdrawing? || serve.Admitted?
  }

  // The slots in use are those of live connections and of the one being admitted.
  predicate SlotsCounted(s: State) {
    && s.slots == Sum(s.connections, Slot) + (if HoldsSlot(s.serve) then 1 else 0)
    && s.slots <= s.limits.receivers
  }

  // The reserved bytes are those of unreleased reservations.
  predicate BytesCounted(s: State) {
    s.reserved == Sum(s.connections, Charge) && s.reserved <= s.limits.bytes
  }

  predicate InHand(s: State, i: nat) {
    ((s.writer.Taken? || s.writer.Inserted?) && s.writer.delivery == i) || s.serve == Drained(i)
  }

  // What a handler keeps of its own connection: it releases a reservation once, unless it hands it over.
  predicate Sensible(c: Connection) {
    && c.releases <= 1
    && c.inserts <= 1
    && (!c.pc.Refused? && !c.pc.Dropped? && !c.pc.Handed? ==> c.slot)
    && (c.pc.Dropped? ==> c.releases == 1)
    && (!c.pc.Dropped? && !c.pc.Handed? ==> c.releases == 0)
    && (!c.pc.Handed? ==> c.inserts == 0)
  }

  // A reservation that was handed over is in exactly one place, the queue or the hand of the writer or the
  // drain, until it is released.
  predicate Owned(s: State, i: nat)
    requires i < |s.connections|
  {
    var c := s.connections[i];
    && Sensible(c)
    && (c.pc.Handed? && c.releases == 0 <==> i in s.queue || InHand(s, i))
    && !(i in s.queue && InHand(s, i))
    && (s.writer == Taken(i) || i in s.queue ==> c.inserts == 0)
  }

  predicate AllOwned(s: State) {
    forall i | 0 <= i < |s.connections| :: Owned(s, i)
  }

  predicate QueueGood(s: State) {
    && |s.queue| <= s.limits.queue
    && (forall k | 0 <= k < |s.queue| :: s.queue[k] < |s.connections|)
    && (forall k, m | 0 <= k < m < |s.queue| :: s.queue[k] != s.queue[m])
    && (s.writer.Taken? || s.writer.Inserted? ==> s.writer.delivery < |s.connections|)
    && (s.serve.Drained? ==> s.serve.delivery < |s.connections|)
  }

  predicate PastJoin(serve: Serve) {
    serve.Joined? || serve.ReceiversCancelled? || serve.AwaitingWriter? || PastWriter(serve)
  }

  predicate PastWriter(serve: Serve) {
    serve.Draining? || serve.Drained? || serve.Returned?
  }

  predicate ShutdownInOrder(s: State) {
    && (PastJoin(s.serve) ==> AllFinished(s))
    && (s.serve.AwaitingWriter? || PastWriter(s.serve) ==> s.writesCancelled)
    && (s.writesCancelled ==> s.serve.AwaitingWriter? || PastWriter(s.serve))
    && (PastWriter(s.serve) ==> s.writer.Exited?)
    && (s.serve.Returned? ==> s.queue == [])
    && (s.closed ==> s.stopped)
    && (s.serve.Joining? || PastJoin(s.serve) ==> s.stopped && s.closed)
  }

  // Only cancellation of the service cuts a handler off: when the service cancels its receivers, none is left.
  predicate NoneCutOff(s: State) {
    !s.cancelled ==> forall i | 0 <= i < |s.connections| :: !s.connections[i].cutOff
  }

  predicate Inv(s: State) {
    SlotsCounted(s) && BytesCounted(s) && QueueGood(s) && AllOwned(s) && ShutdownInOrder(s)
  }

  lemma InitialInv(limits: Limits)
    ensures Inv(Initial(limits))
  {
  }

  // What only the accept loop and the handlers' places in line decide.
  lemma OwnedStays(s: State, t: State)
    requires AllOwned(s) && |s.connections| <= |t.connections| && t.connections[..|s.connections|] == s.connections
    requires t.queue == s.queue && t.writer == s.writer
    requires forall i | 0 <= i < |s.connections| :: t.serve == Drained(i) <==> s.serve == Drained(i)
    ensures forall i | 0 <= i < |s.connections| :: Owned(t, i)
  {
    forall i | 0 <= i < |s.connections|
      ensures Owned(t, i)
    {
      assert Owned(s, i);
      assert t.connections[i] == t.connections[..|s.connections|][i];
    }
  }

  lemma AcceptKeeps(s: State, step: AcceptStep, t: State)
    requires Inv(s) && DoAccept(s, step) == Some(t) && !step.Spawn?
    ensures Inv(t)
  {
    hide Sum, Owned;
    assert t.connections[..|s.connections|] == s.connections;
    OwnedStays(s, t);
  }

  lemma SpawnKeeps(s: State, t: State)
    requires Inv(s) && DoAccept(s, Spawn) == Some(t)
    ensures Inv(t)
  {
    hide Owned;
    var c := Connection(Started, true, 0, 0, 0, false);
    SumAppend(s.connections, c, Slot);
    SumAppend(s.connections, c, Charge);
    assert t.connections[..|s.connections|] == s.connections;
    OwnedStays(s, t);
    NewOwned(s, t);
  }

  lemma NewOwned(s: State, t: State)
    requires Inv(s) && DoAccept(s, Spawn) == Some(t)
    ensures Owned(t, |s.connections|)
  {
    hide Sum;
  }

  // ---- Handler steps.

  lemma HandlerSlots(s: State, i: nat, step: HandlerStep, t: State)
    requires SlotsCounted(s) && DoHandler(s, i, step) == Some(t)
    ensures SlotsCounted(t)
  {
    hide Sum, Step;
    SumUpdate(s.connections, i, t.connections[i], Slot);
  }

  // The charge of a connection and the reserved bytes change together.
  lemma StepCharge(c: Connection, limits: Limits, reserved: Uint64, queued: nat, done: bool, step: HandlerStep)
    requires Step(c, limits, reserved, queued, done, step).Some?
    requires Charge(c) <= reserved <= limits.bytes && (c.pc.Reading? || c.pc.Decoded? ==> c.releases == 0)
    requires c.pc.HeaderRead? ==> c.releases == 0
    ensures var e := Step(c, limits, reserved, queued, done, step).value;
      e.reserved == reserved - Charge(c) + Charge(e.connection) && e.reserved <= limits.bytes
  {
  }

  lemma HandlerBytes(s: State, i: nat, step: HandlerStep, t: State)
    requires BytesCounted(s) && AllOwned(s) && DoHandler(s, i, step) == Some(t)
    ensures BytesCounted(t)
  {
    hide Sum, Step, Charge;
    assert Owned(s, i);
    SumAtLeast(s.connections, i, Charge);
    StepCharge(s.connections[i], s.limits, s.reserved, |s.queue|, ReceiversDone(s), step);
    SumUpdate(s.connections, i, t.connections[i], Charge);
  }

  // A step that changes one connection, and the place of no other, leaves the others owned as they were.
  lemma OthersOwned(s: State, i: nat, t: State)
    requires AllOwned(s) && i < |s.connections| && |t.connections| == |s.connections|
    requires t.connections == s.connections[i := t.connections[i]]
    requires forall j: nat | j != i && j < |s.connections| :: (j in t.queue <==> j in s.queue)
    requires forall j: nat | j != i ::
      (InHand(t, j) <==> InHand(s, j)) && (t.writer == Taken(j) ==> s.writer == Taken(j))
    ensures forall j | 0 <= j < |s.connections| && j != i :: Owned(t, j)
  {
    forall j | 0 <= j < |s.connections| && j != i
      ensures Owned(t, j)
    {
      assert Owned(s, j);
      assert t.connections[j] == s.connections[j];
    }
  }

  lemma StepSensible(c: Connection, limits: Limits, reserved: Uint64, queued: nat, done: bool, step: HandlerStep)
    requires Sensible(c) && Step(c, limits, reserved, queued, done, step).Some?
    ensures var e := Step(c, limits, reserved, queued, done, step).value;
      && Sensible(e.connection)
      && (e.queued <==> !c.pc.Handed? && e.connection.pc.Handed?)
      && (e.queued ==> queued < limits.queue && e.connection.releases == 0 && e.connection.inserts == 0)
      && (c.pc.Handed? ==> e.connection == c.(slot := false))
  {
    hide Sub64, Add64;
  }

  lemma HandlerOwned(s: State, i: nat, step: HandlerStep, t: State)
    requires AllOwned(s) && QueueGood(s) && DoHandler(s, i, step) == Some(t)
    ensures AllOwned(t) && QueueGood(t)
  {
    hide Step;
    assert Owned(s, i);
    StepSensible(s.connections[i], s.limits, s.reserved, |s.queue|, ReceiversDone(s), step);
    HandlerOwns(s, i, step, t);
    OthersOwned(s, i, t);
  }

  lemma HandlerOwns(s: State, i: nat, step: HandlerStep, t: State)
    requires DoHandler(s, i, step) == Some(t) && Owned(s, i)
    ensures |t.connections| == |s.connections| && Owned(t, i)
  {
    hide Step;
    StepSensible(s.connections[i], s.limits, s.reserved, |s.queue|, ReceiversDone(s), step);
  }

  lemma HandlerInOrder(s: State, i: nat, step: HandlerStep, t: State)
    requires ShutdownInOrder(s) && DoHandler(s, i, step) == Some(t)
    ensures ShutdownInOrder(t)
  {
    hide Step;
  }

  lemma HandlerKeeps(s: State, i: nat, step: HandlerStep, t: State)
    requires Inv(s) && DoHandler(s, i, step) == Some(t)
    ensures Inv(t)
  {
    hide *;
    InvParts(s);
    HandlerSlots(s, i, step, t);
    HandlerBytes(s, i, step, t);
    HandlerOwned(s, i, step, t);
    HandlerInOrder(s, i, step, t);
    InvParts(t);
  }

  lemma InvParts(s: State)
    ensures Inv(s) <==> SlotsCounted(s) && BytesCounted(s) && QueueGood(s) && AllOwned(s) && ShutdownInOrder(s)
  {
  }

  // ---- Releasing a delivery that the writer or the drain has in hand.

  lemma ReleaseCounts(s: State, i: nat, t: State)
    requires SlotsCounted(s) && BytesCounted(s) && AllOwned(s) && i < |s.connections| && InHand(s, i)
    requires t.connections == ReleaseReservation(s, i).connections && t.reserved == ReleaseReservation(s, i).reserved
    requires t.slots == s.slots && t.limits == s.limits && HoldsSlot(t.serve) == HoldsSlot(s.serve)
    ensures SlotsCounted(t) && BytesCounted(t)
  {
    hide Sum;
    assert Owned(s, i);
    SumUpdate(s.connections, i, t.connections[i], Slot);
    SumUpdate(s.connections, i, t.connections[i], Charge);
    SumAtLeast(s.connections, i, Charge);
  }

  lemma ReleaseOwned(s: State, i: nat, t: State)
    requires AllOwned(s) && i < |s.connections| && InHand(s, i)
    requires t.connections == ReleaseReservation(s, i).connections && t.queue == s.queue
    requires forall j: nat :: !InHand(t, j)
    requires forall j: nat | j != i :: !InHand(s, j)
    ensures AllOwned(t)
  {
    assert Owned(s, i);
    OthersOwned(s, i, t);
    assert Owned(t, i);
  }

  // ---- Taking the first delivery off the queue.

  lemma TakeOwned(s: State, t: State)
    requires AllOwned(s) && QueueGood(s) && s.queue != [] && t.connections == s.connections && t.queue == s.queue[1..]
    requires forall j: nat :: !InHand(s, j)
    requires forall j: nat :: InHand(t, j) <==> j == s.queue[0]
    ensures AllOwned(t)
  {
    var i := s.queue[0];
    assert t.connections == s.connections[i := t.connections[i]];
    forall j: nat | j < |s.connections|
      ensures Owned(t, j)
    {
      assert Owned(s, j);
      assert j in s.queue <==> j == i || j in t.queue;
    }
  }

  lemma WriterKeeps(s: State, step: WriterStep, t: State)
    requires Inv(s) && DoWriter(s, step) == Some(t)
    ensures Inv(t)
  {
    match step
    case Take => WriterTakes(s, t);
    case Insert => WriterInserts(s, t);
    case Release => WriterReleases(s, t);
    case Exit => WriterExits(s, t);
  }

  lemma WriterTakes(s: State, t: State)
    requires Inv(s) && DoWriter(s, Take) == Some(t)
    ensures Inv(t)
  {
    hide Sum, Owned;
    TakeOwned(s, t);
  }

  lemma WriterInserts(s: State, t: State)
    requires Inv(s) && DoWriter(s, Insert) == Some(t)
    ensures Inv(t)
  {
    hide Sum;
    var i := s.writer.delivery;
    assert Owned(s, i);
    SumUpdate(s.connections, i, t.connections[i], Slot);
    SumUpdate(s.connections, i, t.connections[i], Charge);
    OthersOwned(s, i, t);
    assert Owned(t, i);
  }

  lemma WriterReleases(s: State, t: State)
    requires Inv(s) && DoWriter(s, Release) == Some(t)
    ensures Inv(t)
  {
    hide Sum, Owned, Charge, BytesAfterRelease;
    ReleaseCounts(s, s.writer.delivery, t);
    ReleaseOwned(s, s.writer.delivery, t);
  }

  lemma WriterExits(s: State, t: State)
    requires Inv(s) && DoWriter(s, Exit) == Some(t)
    ensures Inv(t)
  {
    hide Sum;
    forall i | 0 <= i < |t.connections|
      ensures Owned(t, i)
    {
      assert Owned(s, i);
    }
  }

  lemma ShutdownKeeps(s: State, step: ShutdownStep, t: State)
    requires Inv(s) && DoShutdown(s, step) == Some(t)
    ensures Inv(t)
  {
    match step
    case DrainTake => DrainTakes(s, t);
    case DrainRelease => DrainReleases(s, t);
    case _ => ShutdownMoves(s, step, t);
  }

  lemma ShutdownMoves(s: State, step: ShutdownStep, t: State)
    requires Inv(s) && DoShutdown(s, step) == Some(t) && !step.DrainTake? && !step.DrainRelease?
    ensures Inv(t)
  {
    hide Sum, Owned;
    assert t.connections[..|s.connections|] == s.connections;
    OwnedStays(s, t);
  }

  lemma DrainTakes(s: State, t: State)
    requires Inv(s) && DoShutdown(s, DrainTake) == Some(t)
    ensures Inv(t)
  {
    hide Sum, Owned;
    TakeOwned(s, t);
  }

  lemma DrainReleases(s: State, t: State)
    requires Inv(s) && DoShutdown(s, DrainRelease) == Some(t)
    ensures Inv(t)
  {
    hide Sum, Owned, Charge, BytesAfterRelease;
    ReleaseCounts(s, s.serve.delivery, t);
    ReleaseOwned(s, s.serve.delivery, t);
  }

  lemma SignalKeeps(s: State, action: Action, t: State)
    requires Inv(s) && Do(s, action) == Some(t) && (action.Stop? || action.CloseListener? || action.CancelContext?)
    ensures Inv(t)
  {
    hide Sum, Owned;
    assert t.connections[..|s.connections|] == s.connections;
    OwnedStays(s, t);
  }

  lemma StepKeeps(s: State, action: Action, t: State)
    requires Inv(s) && Do(s, action) == Some(t)
    ensures Inv(t)
  {
    hide Inv, DoAccept, DoHandler, DoWriter, DoShutdown;
    match action
    case Accept(step) =>
      if step.Spawn? {
        SpawnKeeps(s, t);
      } else {
        AcceptKeeps(s, step, t);
      }
    case Handle(i, step) => HandlerKeeps(s, i, step, t);
    case Write(step) => WriterKeeps(s, step, t);
    case Shutdown(step) => ShutdownKeeps(s, step, t);
    case _ => SignalKeeps(s, action, t);
  }

  lemma {:induction false} RunKeeps(s: State, trace: seq<Action>, t: State)
    requires Inv(s) && Run(s, trace) == Some(t)
    ensures Inv(t)
    decreases |trace|
  {
    hide Inv, Do;
    if trace != [] {
      var next := Do(s, trace[0]).value;
      StepKeeps(s, trace[0], next);
      RunKeeps(next, trace[1..], t);
    }
  }

  /**
   * In every state of every run the slots in use are those of the admitted connections, the reserved bytes are
   * those of the unreleased reservations, neither passes its limit, and no reservation is released twice.
   */
  lemma Conserved(limits: Limits, trace: seq<Action>, s: State)
    requires Run(Initial(limits), trace) == Some(s)
    ensures s.limits == limits
    ensures s.slots == Sum(s.connections, Slot) + (if HoldsSlot(s.serve) then 1 else 0) <= limits.receivers
    ensures s.reserved == Sum(s.connections, Charge) <= limits.bytes
    ensures |s.queue| <= limits.queue
    ensures forall i | 0 <= i < |s.connections| :: s.connections[i].releases <= 1 && s.connections[i].inserts <= 1
    ensures forall i: nat | i < |s.connections| && HasReservation(s.connections[i]) && !s.connections[i].slot ::
              s.connections[i].releases == 1 || (i in s.queue && !InHand(s, i)) || (InHand(s, i) && i !in s.queue)
  {
    hide Sum, Run, Charge;
    InitialInv(limits);
    RunKeeps(Initial(limits), trace, s);
    RunLimits(Initial(limits), trace, s);
    forall i: nat | i < |s.connections|
      ensures s.connections[i].releases <= 1 && s.connections[i].inserts <= 1
      ensures HasReservation(s.connections[i]) && !s.connections[i].slot ==>
        s.connections[i].releases == 1 || (i in s.queue && !InHand(s, i)) || (InHand(s, i) && i !in s.queue)
    {
      assert Owned(s, i);
    }
  }

  lemma StepLimits(s: State, action: Action, t: State)
    requires Do(s, action) == Some(t)
    ensures t.limits == s.limits
  {
    hide Step;
  }

  lemma {:induction false} RunLimits(s: State, trace: seq<Action>, t: State)
    requires Run(s, trace) == Some(t)
    ensures t.limits == s.limits
    decreases |trace|
  {
    hide Do;
    if trace != [] {
      var next := Do(s, trace[0]).value;
      StepLimits(s, trace[0], next);
      RunLimits(next, trace[1..], t);
    }
  }

  /** When the service returns nothing is held: every slot is free and every reservation was released exactly once. */
  lemma ReturnsClean(limits: Limits, trace: seq<Action>, s: State)
    requires Run(Initial(limits), trace) == Some(s) && s.serve.Returned?
    ensures s.slots == 0 && s.reserved == 0 && s.queue == [] && s.writer.Exited?
    ensures forall i | 0 <= i < |s.connections| :: !s.connections[i].slot
    ensures forall i | 0 <= i < |s.connections| && HasReservation(s.connections[i]) :: s.connections[i].releases == 1
  {
    hide Sum, Run;
    InitialInv(limits);
    RunKeeps(Initial(limits), trace, s);
    forall i: nat | i < |s.connections|
      ensures Owned(s, i) && Charge(s.connections[i]) == 0 && Slot(s.connections[i]) == 0
      ensures HasReservation(s.connections[i]) ==> s.connections[i].releases == 1
    {
    }
    SumOfZeros(s.connections, Charge);
    SumOfZeros(s.connections, Slot);
  }

  lemma HandlerNotCutOff(s: State, i: nat, step: HandlerStep, t: State)
    requires ShutdownInOrder(s) && NoneCutOff(s) && DoHandler(s, i, step) == Some(t)
    ensures NoneCutOff(t)
  {
    hide Sub64, Add64;
    if !s.cancelled {
      var c := s.connections[i];
      assert !ReceiversDone(s);
      assert !Step(c, s.limits, s.reserved, |s.queue|, false, step).value.connection.cutOff;
    }
  }

  lemma AcceptNotCutOff(s: State, step: AcceptStep, t: State)
    requires NoneCutOff(s) && DoAccept(s, step) == Some(t)
    ensures NoneCutOff(t)
  {
  }

  lemma WriterNotCutOff(s: State, step: WriterStep, t: State)
    requires NoneCutOff(s) && DoWriter(s, step) == Some(t)
    ensures NoneCutOff(t)
  {
    hide BytesAfterRelease;
  }

  lemma ShutdownNotCutOff(s: State, step: ShutdownStep, t: State)
    requires NoneCutOff(s) && DoShutdown(s, step) == Some(t)
    ensures NoneCutOff(t)
  {
    hide BytesAfterRelease;
  }

  lemma SignalNotCutOff(s: State, action: Action, t: State)
    requires NoneCutOff(s) && Do(s, action) == Some(t)
    requires action.Stop? || action.CloseListener? || action.CancelContext?
    ensures NoneCutOff(t)
  {
  }

  lemma {:induction false} RunNotCutOff(s: State, trace: seq<Action>, t: State)
    requires Inv(s) && NoneCutOff(s) && Run(s, trace) == Some(t)
    ensures NoneCutOff(t)
    decreases |trace|
  {
    hide Inv, NoneCutOff, DoAccept, DoHandler, DoWriter, DoShutdown;
    if trace != [] {
      var next := Do(s, trace[0]).value;
      InvParts(s);
      match trace[0] {
        case Accept(step) => AcceptNotCutOff(s, step, next);
        case Handle(i, step) => HandlerNotCutOff(s, i, step, next);
        case Write(step) => WriterNotCutOff(s, step, next);
        case Shutdown(step) => ShutdownNotCutOff(s, step, next);
        case _ => SignalNotCutOff(s, trace[0], next);
      }
      StepKeeps(s, trace[0], next);
      RunNotCutOff(next, trace[1..], t);
    }
  }

  /**
   * The order of shutdown, in every state of every run: handlers are joined only after admission has stopped and the
   * listener is closed; writes are cancelled exactly once all handlers have finished and the receivers are cancelled;
   * the queue is drained only after the writer has exited, and is empty when serve returns.
   */
  lemma ShutdownIsOrdered(limits: Limits, trace: seq<Action>, s: State)
    requires Run(Initial(limits), trace) == Some(s)
    ensures match s.serve
      case Joining => s.stopped && s.closed && !s.writesCancelled
      case Joined => s.stopped && s.closed && !s.writesCancelled && AllFinished(s)
      case ReceiversCancelled => s.stopped && s.closed && !s.writesCancelled && AllFinished(s)
      case AwaitingWriter => s.stopped && s.closed && s.writesCancelled && AllFinished(s)
      case Draining => s.stopped && s.closed && s.writesCancelled && AllFinished(s) && s.writer.Exited?
      case Drained(_) => s.stopped && s.closed && s.writesCancelled && AllFinished(s) && s.writer.Exited?
      case Returned =>
        s.stopped && s.closed && s.writesCancelled && AllFinished(s) && s.writer.Exited? && s.queue == []
      case _ => !s.writesCancelled
  {
    hide Sum, Run, SlotsCounted, BytesCounted, QueueGood, AllOwned, AllFinished;
    InitialInv(limits);
    RunKeeps(Initial(limits), trace, s);
  }

  /**
   * Unless the service itself is cancelled, the handlers' context ends only after every handler has finished, and no
   * handler, such as one that answers a control request, is ever cut off.
   */
  lemma ResponsesAreFlushed(limits: Limits, trace: seq<Action>, s: State)
    requires Run(Initial(limits), trace) == Some(s) && !s.cancelled
    ensures ReceiversDone(s) ==> AllFinished(s)
    ensures forall i | 0 <= i < |s.connections| :: !s.connections[i].cutOff
  {
    hide Sum, Run;
    InitialInv(limits);
    RunKeeps(Initial(limits), trace, s);
    RunNotCutOff(Initial(limits), trace, s);
  }

  /** Cancelling the service can cut off a handler that answers a control request. */
  lemma CancellationCutsOff(limits: Limits) returns (answering: seq<Action>, trace: seq<Action>)
    requires limits.receivers >= 1 && limits.bytes >= 1
    ensures answering <= trace && Run(Initial(limits), answering).Some? && Run(Initial(limits), trace).Some?
    ensures var s := Run(Initial(limits), answering).value;
      |s.connections| == 1 && s.connections[0].pc == Decoded(Control) && s.connections[0].slot
    ensures var s := Run(Initial(limits), trace).value; |s.connections| == 1 && s.connections[0].cutOff
  {
    hide Run;
    trace := AdmitOne(limits);
    trace := OneMore(limits, trace, Handle(0, ReadHeader(1)));
    trace := OneMore(limits, trace, Handle(0, Reserve));
    trace := OneMore(limits, trace, Handle(0, ReadPayload(Control)));
    answering := trace;
    trace := OneMore(limits, trace, CancelContext);
    trace := OneMore(limits, trace, Handle(0, CutOff));
  }

  lemma AdmitOne(limits: Limits) returns (trace: seq<Action>)
    requires limits.receivers >= 1
    ensures Run(Initial(limits), trace) ==
            Some(Initial(limits).(slots := 1, connections := [Connection(Started, true, 0, 0, 0, false)]))
  {
    hide Run;
    trace := [];
    RunNothing(Initial(limits));
    trace := OneMore(limits, trace, Accept(Arrive));
    trace := OneMore(limits, trace, Accept(LookAtStopped));
    trace := OneMore(limits, trace, Accept(Push));
    trace := OneMore(limits, trace, Accept(LookAgain));
    trace := OneMore(limits, trace, Accept(Spawn));
    var c := Connection(Started, true, 0, 0, 0, false);
    assert [] + [c] == [c];
  }

  lemma RunNothing(s: State)
    ensures Run(s, []) == Some(s)
  {
  }

  lemma OneMore(limits: Limits, trace: seq<Action>, action: Action) returns (longer: seq<Action>)
    requires Run(Initial(limits), trace).Some? && Do(Run(Initial(limits), trace).value, action).Some?
    ensures trace <= longer && Run(Initial(limits), longer) == Do(Run(Initial(limits), trace).value, action)
  {
    longer := trace + [action];
    RunSnoc(Initial(limits), trace, action);
  }

  lemma {:induction false} RunSnoc(s: State, trace: seq<Action>, action: Action)
    requires Run(s, trace).Some?
    ensures Run(s, trace + [action]) == Do(Run(s, trace).value, action)
    decreases |trace|
  {
    hide Do;
    if trace == [] {
      assert trace + [action] == [action];
    } else {
      assert (trace + [action])[1..] == trace[1..] + [action];
      RunSnoc(Do(s, trace[0]).value, trace[1..], action);
    }
  }

  // ---- Shutdown ends.

  predicate ShuttingDown(serve: Serve) {
    serve.Stopping? || serve.Joining? || PastJoin(serve)
  }

  function ServeWork(serve: Serve): nat {
    match serve
    case Stopping => 7
    case Joining => 6
    case Joined => 5
    case ReceiversCancelled => 4
    case AwaitingWriter => 3
    case Drained(_) => 2
    case Draining => 1
    case _ => 0
  }

  function WriterWork(writer: Writer): nat {
    match writer
    case Taken(_) => 3
    case Inserted(_) => 2
    case Selecting => 1
    case Exited => 0
  }

  function HandlerWork(c: Connection): nat {
    match c.pc
    case Started => 8
    case HeaderRead(_) => 7
    case Reading => 6
    case Decoded(_) => 5
    case _ => if c.slot then 1 else 0
  }

  // The steps that are left at most.
  function Work(s: State): nat {
    ServeWork(s.serve) + WriterWork(s.writer) + Sum(s.connections, HandlerWork) + 3 * |s.queue| +
    (if s.stopped then 0 else 1) + (if s.closed then 0 else 1) + (if s.cancelled then 0 else 1)
  }

  lemma StepWork(c: Connection, limits: Limits, reserved: Uint64, queued: nat, done: bool, step: HandlerStep)
    requires c.slot && Step(c, limits, reserved, queued, done, step).Some?
    ensures var e := Step(c, limits, reserved, queued, done, step).value;
      HandlerWork(e.connection) + (if e.queued then 3 else 0) < HandlerWork(c)
  {
    hide Sub64, Add64;
  }

  lemma HandlerWorks(s: State, i: nat, step: HandlerStep, t: State)
    requires DoHandler(s, i, step) == Some(t)
    ensures Work(t) < Work(s) && t.serve == s.serve
  {
    hide Sum, Step, HandlerWork;
    StepWork(s.connections[i], s.limits, s.reserved, |s.queue|, ReceiversDone(s), step);
    SumUpdate(s.connections, i, t.connections[i], HandlerWork);
  }

  lemma WriterWorks(s: State, step: WriterStep, t: State)
    requires DoWriter(s, step) == Some(t)
    ensures Work(t) < Work(s) && t.serve == s.serve
  {
    hide Sum;
    if step.Insert? || step.Release? {
      SumUpdate(s.connections, s.writer.delivery, t.connections[s.writer.delivery], HandlerWork);
    }
  }

  lemma ShutdownWorks(s: State, step: ShutdownStep, t: State)
    requires DoShutdown(s, step) == Some(t)
    ensures Work(t) < Work(s) && ShuttingDown(t.serve)
  {
    hide Sum;
    if step.DrainRelease? {
      SumUpdate(s.connections, s.serve.delivery, t.connections[s.serve.delivery], HandlerWork);
    }
  }

  /** Once the service shuts down, every run is bounded: each step of anyone leaves less to do. */
  lemma {:induction false} ShutdownIsBounded(s: State, trace: seq<Action>, t: State)
    requires ShuttingDown(s.serve) && Run(s, trace) == Some(t)
    ensures ShuttingDown(t.serve) && |trace| + Work(t) <= Work(s)
    decreases |trace|
  {
    hide Work, DoHandler, DoWriter, DoShutdown;
    if trace != [] {
      var next := Do(s, trace[0]).value;
      match trace[0] {
        case Handle(i, step) => HandlerWorks(s, i, step, next);
        case Write(step) => WriterWorks(s, step, next);
        case Shutdown(step) => ShutdownWorks(s, step, next);
        case _ => SignalWorks(s, trace[0], next);
      }
      ShutdownIsBounded(next, trace[1..], t);
    }
  }

  lemma SignalWorks(s: State, action: Action, t: State)
    requires ShuttingDown(s.serve) && Do(s, action) == Some(t)
    requires action.Accept? || action.Stop? || action.CloseListener? || action.CancelContext?
    ensures Work(t) < Work(s) && ShuttingDown(t.serve)
  {
    hide Sum;
  }

  /** ... and until it has returned some thread can take a step, so every run of a shutdown ends with a return. */
  lemma ShutdownNeverSticks(limits: Limits, trace: seq<Action>, s: State) returns (action: Action)
    requires Run(Initial(limits), trace) == Some(s) && ShuttingDown(s.serve) && !s.serve.Returned?
    ensures !action.CancelContext? && Do(s, action).Some?
  {
    hide Run, Sum;
    InitialInv(limits);
    RunKeeps(Initial(limits), trace, s);
    match s.serve
    case Stopping => action := if !s.stopped then Stop else if !s.closed then CloseListener else Shutdown(StopReturns);
    case Joining =>
      if AllFinished(s) {
        action := Shutdown(Join);
      } else {
        var i :| 0 <= i < |s.connections| && s.connections[i].slot;
        SumAtLeast(s.connections, i, Slot);
        action := Handle(i, NextStep(s.connections[i].pc));
      }
    case Joined => action := Shutdown(CancelReceivers);
    case ReceiversCancelled => action := Shutdown(CancelWrites);
    case AwaitingWriter =>
      action := match s.writer
        case Selecting => Write(Exit)
        case Exited => Shutdown(SeeWriterDone)
        case _ => Write(Release);
    case Draining => action := if s.queue == [] then Shutdown(Return) else Shutdown(DrainTake);
    case Drained(_) => action := Shutdown(DrainRelease);
  }

  function NextStep(pc: Pc): HandlerStep {
    match pc
    case Started => FailHeader
    case HeaderRead(_) => Reserve
    case Reading => FailPayload
    case Decoded(_) => Dispatch
    case _ => Finish
  }

  // ---- Which messages reach the writer.

  /** A handler hands over a validation when there is room in the queue, and drops every other message it has read. */
  lemma DispatchExactly(s: State, i: nat)
    requires i < |s.connections| && s.connections[i].slot && s.connections[i].pc.Decoded?
    ensures DoHandler(s, i, Dispatch).Some?
    ensures var t, c := DoHandler(s, i, Dispatch).value, s.connections[i];
      if c.pc == Decoded(Validation) && |s.queue| < s.limits.queue
      then t == s.(queue := s.queue + [i], connections := s.connections[i := c.(pc := Handed)])
      else
        && t.queue == s.queue && t.connections[i] == c.(pc := Dropped, releases := c.releases + 1)
        && (c.releases == 0 && c.size <= s.reserved ==> t.reserved == s.reserved - c.size)
  {
  }

  /** A reservation is made exactly when the declared bytes fit beside those that are reserved. */
  lemma ReserveExactly(s: State, i: nat)
    requires i < |s.connections| && s.connections[i].slot && s.connections[i].pc.HeaderRead?
    requires s.reserved <= s.limits.bytes
    ensures DoHandler(s, i, Reserve).Some?
    ensures var t, length := DoHandler(s, i, Reserve).value, s.connections[i].pc.length;
      if s.reserved + length <= s.limits.bytes
      then t.reserved == s.reserved + length && t.connections[i].pc == Reading && t.connections[i].size == length
      else t.reserved == s.reserved && t.connections[i].pc == Refused
  {
  }

  /** A handler is cut off exactly while it reads or answers, once its context is done; what it reserved is released. */
  lemma CutOffExactly(s: State, i: nat)
    requires i < |s.connections| && s.connections[i].slot
    ensures var c, r := s.connections[i], DoHandler(s, i, CutOff);
      && (r.Some? <==> ReceiversDone(s) && (c.pc.Started? || c.pc.Reading? || c.pc == Decoded(Control)))
      && (r.Some? ==> r.value.queue == s.queue && r.value.connections[i].cutOff)
      && (r.Some? && c.pc.Started? ==> r.value.connections[i].pc == Refused && r.value.reserved == s.reserved)
      && (r.Some? && !c.pc.Started? ==>
            r.value.connections[i].pc == Dropped && r.value.connections[i].releases == c.releases + 1)
  {
  }

  // Connection `i` has read a validation at some point of the run.
  ghost predicate HadValidation(s: State, trace: seq<Action>, i: nat) {
    exists k ::
      && 0 <= k <= |trace| && Run(s, trace[..k]).Some?
      && i < |Run(s, trace[..k]).value.connections| && Run(s, trace[..k]).value.connections[i].pc == Decoded(Validation)
  }

  ghost predicate IsHanded(s: State, i: nat) {
    i < |s.connections| && s.connections[i].pc.Handed?
  }

  // A step hands a connection over only if it had read a validation.
  lemma HandedByDispatch(s: State, action: Action, t: State, i: nat)
    requires Do(s, action) == Some(t) && IsHanded(t, i) && !IsHanded(s, i)
    ensures i < |s.connections| && s.connections[i].pc == Decoded(Validation)
  {
    hide Sub64, Add64, BytesAfterRelease;
    match action
    case Handle(k, step) => HandedByHandler(s, k, step, t, i);
    case _ => OthersHandNothing(s, action, t, i);
  }

  lemma HandedByHandler(s: State, k: nat, step: HandlerStep, t: State, i: nat)
    requires DoHandler(s, k, step) == Some(t) && IsHanded(t, i) && !IsHanded(s, i)
    ensures i < |s.connections| && s.connections[i].pc == Decoded(Validation)
  {
    hide Sub64, Add64, BytesAfterRelease;
  }

  // The other threads move no handler.
  predicate HandlersStay(s: State, t: State) {
    && |s.connections| <= |t.connections|
    && (forall i | 0 <= i < |s.connections| :: t.connections[i].pc == s.connections[i].pc)
    && (forall i | |s.connections| <= i < |t.connections| :: t.connections[i].pc == Started)
  }

  lemma AcceptHandsNothing(s: State, step: AcceptStep, t: State)
    requires DoAccept(s, step) == Some(t)
    ensures HandlersStay(s, t)
  {
  }

  lemma WriterHandsNothing(s: State, step: WriterStep, t: State)
    requires DoWriter(s, step) == Some(t)
    ensures HandlersStay(s, t) && |t.connections| == |s.connections|
  {
    hide BytesAfterRelease;
  }

  lemma ShutdownHandsNothing(s: State, step: ShutdownStep, t: State)
    requires DoShutdown(s, step) == Some(t)
    ensures HandlersStay(s, t) && |t.connections| == |s.connections|
  {
    hide BytesAfterRelease;
  }

  lemma OthersHandNothing(s: State, action: Action, t: State, i: nat)
    requires Do(s, action) == Some(t) && !action.Handle? && IsHanded(t, i)
    ensures IsHanded(s, i)
  {
    hide DoAccept, DoWriter, DoShutdown;
    match action
    case Accept(step) => AcceptHandsNothing(s, step, t);
    case Write(step) => WriterHandsNothing(s, step, t);
    case Shutdown(step) => ShutdownHandsNothing(s, step, t);
    case _ =>
  }

  /** Over every run, only a connection that had read a validation is ever handed to the writer. */
  lemma {:induction false} OnlyValidationsAreHanded(s: State, trace: seq<Action>, t: State, i: nat)
    requires Run(s, trace) == Some(t) && IsHanded(t, i) && !IsHanded(s, i)
    ensures HadValidation(s, trace, i)
    decreases |trace|
  {
    hide Do, IsHanded;
    var next := Do(s, trace[0]).value;
    if IsHanded(next, i) {
      HandedByDispatch(s, trace[0], next, i);
      assert trace[..0] == [];
      RunNothing(s);
    } else {
      OnlyValidationsAreHanded(next, trace[1..], t, i);
      LaterValidation(s, trace, next, i);
    }
  }

  lemma LaterValidation(s: State, trace: seq<Action>, next: State, i: nat)
    requires trace != [] && Do(s, trace[0]) == Some(next) && HadValidation(next, trace[1..], i)
    ensures HadValidation(s, trace, i)
  {
    hide Do;
    var k :|
      && 0 <= k <= |trace[1..]| && Run(next, trace[1..][..k]).Some?
      && i < |Run(next, trace[1..][..k]).value.connections|
      && Run(next, trace[1..][..k]).value.connections[i].pc == Decoded(Validation);
    assert trace[..k + 1][1..] == trace[1..][..k] && trace[..k + 1][0] == trace[0];
    assert Run(s, trace[..k + 1]) == Run(next, trace[1..][..k]);
  }

  // ---- What becomes of a delivery.

  // A delivery in the writer's hand after its insert was inserted; one that was released without an insert was so
  // because writes were done.
  predicate IsDelivered(s: State, i: nat)
    requires i < |s.connections|
  {
    var c := s.connections[i];
    && (s.writer == Inserted(i) ==> c.inserts == 1)
    && (c.pc.Handed? && c.releases >= 1 && c.inserts == 0 ==> WritesDone(s))
  }

  predicate AllDelivered(s: State) {
    forall i | 0 <= i < |s.connections| :: IsDelivered(s, i)
  }

  lemma AcceptDelivers(s: State, step: AcceptStep, t: State)
    requires Inv(s) && AllDelivered(s) && DoAccept(s, step) == Some(t)
    ensures AllDelivered(t)
  {
    hide Sum, Owned;
    forall i: nat | i < |t.connections|
      ensures IsDelivered(t, i)
    {
      if i < |s.connections| { assert IsDelivered(s, i) && t.connections[i] == s.connections[i]; }
    }
  }

  lemma HandlerDelivers(s: State, k: nat, step: HandlerStep, t: State)
    requires Inv(s) && AllDelivered(s) && DoHandler(s, k, step) == Some(t)
    ensures AllDelivered(t)
  {
    hide Sum, Step, ShutdownInOrder, BytesCounted, SlotsCounted;
    assert Owned(s, k) && IsDelivered(s, k);
    StepSensible(s.connections[k], s.limits, s.reserved, |s.queue|, ReceiversDone(s), step);
    forall i: nat | i < |t.connections|
      ensures IsDelivered(t, i)
    {
      assert IsDelivered(s, i);
    }
  }

  lemma WriterDelivers(s: State, step: WriterStep, t: State)
    requires Inv(s) && AllDelivered(s) && DoWriter(s, step) == Some(t)
    ensures AllDelivered(t)
  {
    hide Sum, ShutdownInOrder, BytesCounted, SlotsCounted, BytesAfterRelease;
    forall i: nat | i < |t.connections|
      ensures IsDelivered(t, i)
    {
      assert Owned(s, i) && IsDelivered(s, i);
    }
  }

  lemma ShutdownDelivers(s: State, step: ShutdownStep, t: State)
    requires Inv(s) && AllDelivered(s) && DoShutdown(s, step) == Some(t)
    ensures AllDelivered(t)
  {
    hide Sum, Owned, BytesCounted, SlotsCounted, BytesAfterRelease;
    forall i: nat | i < |t.connections|
      ensures IsDelivered(t, i)
    {
      assert IsDelivered(s, i);
    }
  }

  lemma SignalDelivers(s: State, action: Action, t: State)
    requires AllDelivered(s) && Do(s, action) == Some(t)
    requires action.Stop? || action.CloseListener? || action.CancelContext?
    ensures AllDelivered(t)
  {
    forall i: nat | i < |t.connections|
      ensures IsDelivered(t, i)
    {
      assert IsDelivered(s, i);
    }
  }

  lemma {:induction false} RunDelivers(s: State, trace: seq<Action>, t: State)
    requires Inv(s) && AllDelivered(s) && Run(s, trace) == Some(t)
    ensures AllDelivered(t)
    decreases |trace|
  {
    hide Inv, AllDelivered, DoAccept, DoHandler, DoWriter, DoShutdown;
    if trace != [] {
      var next := Do(s, trace[0]).value;
      match trace[0] {
        case Accept(step) => AcceptDelivers(s, step, next);
        case Handle(i, step) => HandlerDelivers(s, i, step, next);
        case Write(step) => WriterDelivers(s, step, next);
        case Shutdown(step) => ShutdownDelivers(s, step, next);
        case _ => SignalDelivers(s, trace[0], next);
      }
      StepKeeps(s, trace[0], next);
      RunDelivers(next, trace[1..], t);
    }
  }

  /**
   * In every state of every run, a delivery that was handed over and released was inserted once, unless writes were
   * done; and nothing else was ever inserted.
   */
  lemma EveryDeliveryIsInserted(limits: Limits, trace: seq<Action>, s: State, i: nat)
    requires Run(Initial(limits), trace) == Some(s) && i < |s.connections|
    ensures var c := s.connections[i];
      && (c.pc.Handed? && c.releases == 1 && !WritesDone(s) ==> c.inserts == 1)
      && (c.inserts > 0 ==> c.pc.Handed? && HadValidation(Initial(limits), trace, i))
  {
    hide Run, Sum, HadValidation;
    InitialInv(limits);
    RunKeeps(Initial(limits), trace, s);
    RunDelivers(Initial(limits), trace, s);
    assert Owned(s, i) && IsDelivered(s, i);
    if s.connections[i].pc.Handed? { OnlyValidationsAreHanded(Initial(limits), trace, s, i); }
  }

  // ---- Order.

  // The connection that a step hands over, and the delivery that it takes off the queue.
  function HandedBy(s: State, action: Action, next: State): seq<nat> {
    if action.Handle? && Dispatched(s, next, action.i) then [action.i] else []
  }

  predicate Dispatched(s: State, next: State, i: nat) {
    && i < |s.connections| && i < |next.connections|
    && !s.connections[i].pc.Handed? && next.connections[i].pc.Handed?
  }

  function TakenBy(action: Action, next: State): seq<nat> {
    if action == Write(Take) && next.writer.Taken? then [next.writer.delivery]
    else if action == Shutdown(DrainTake) && next.serve.Drained? then [next.serve.delivery]
    else []
  }

  // Those of a run, in order.
  function HandOvers(s: State, trace: seq<Action>): seq<nat>
    decreases |trace|
  {
    if trace == [] || Do(s, trace[0]).None? then []
    else
      var next := Do(s, trace[0]).value;
      HandedBy(s, trace[0], next) + HandOvers(next, trace[1..])
  }

  function Takes(s: State, trace: seq<Action>): seq<nat>
    decreases |trace|
  {
    if trace == [] || Do(s, trace[0]).None? then []
    else
      var next := Do(s, trace[0]).value;
      TakenBy(trace[0], next) + Takes(next, trace[1..])
  }

  lemma HandlerQueues(s: State, i: nat, step: HandlerStep, t: State)
    requires Inv(s) && DoHandler(s, i, step) == Some(t)
    ensures t.queue == s.queue + if Dispatched(s, t, i) then [i] else []
  {
    hide Sum, Step, ShutdownInOrder, BytesCounted, SlotsCounted;
    assert Owned(s, i);
    StepSensible(s.connections[i], s.limits, s.reserved, |s.queue|, ReceiversDone(s), step);
  }

  lemma OthersQueue(s: State, action: Action, t: State)
    requires Do(s, action) == Some(t) && !action.Handle?
    ensures if action == Write(Take) then t.writer.Taken? && s.queue == [t.writer.delivery] + t.queue
            else if action == Shutdown(DrainTake) then t.serve.Drained? && s.queue == [t.serve.delivery] + t.queue
            else t.queue == s.queue
  {
    hide BytesAfterRelease, DoWriter, DoShutdown;
    match action
    case Write(step) => WriterQueues(s, step, t);
    case Shutdown(step) => ShutdownQueues(s, step, t);
    case _ =>
  }

  lemma WriterQueues(s: State, step: WriterStep, t: State)
    requires Do(s, Write(step)) == Some(t)
    ensures if step == Take then t.writer.Taken? && s.queue == [t.writer.delivery] + t.queue else t.queue == s.queue
  {
    hide BytesAfterRelease;
  }

  lemma ShutdownQueues(s: State, step: ShutdownStep, t: State)
    requires Do(s, Shutdown(step)) == Some(t)
    ensures if step == DrainTake then t.serve.Drained? && s.queue == [t.serve.delivery] + t.queue
            else t.queue == s.queue
  {
    hide BytesAfterRelease;
  }

  lemma QueueStep(s: State, action: Action, t: State)
    requires Inv(s) && Do(s, action) == Some(t)
    ensures s.queue + HandedBy(s, action, t) == TakenBy(action, t) + t.queue
  {
    hide Inv, DoAccept, DoHandler, DoWriter, DoShutdown;
    if action.Handle? {
      HandlerQueues(s, action.i, action.handler, t);
    } else {
      OthersQueue(s, action, t);
    }
  }

  lemma QueuesConcat(a: seq<nat>, h: seq<nat>, k: seq<nat>, b: seq<nat>, later: seq<nat>, laterTaken: seq<nat>,
      c: seq<nat>)
    requires a + h == k + b && b + later == laterTaken + c
    ensures a + (h + later) == (k + laterTaken) + c
  {
    assert a + (h + later) == (a + h) + later;
    assert (k + b) + later == k + (b + later);
    assert k + (laterTaken + c) == (k + laterTaken) + c;
  }

  /** Deliveries are taken in the order in which they were handed over, none is lost and none is taken twice. */
  lemma {:induction false} FirstInFirstOut(s: State, trace: seq<Action>, t: State)
    requires Inv(s) && Run(s, trace) == Some(t)
    ensures s.queue + HandOvers(s, trace) == Takes(s, trace) + t.queue
    decreases |trace|
  {
    hide Inv, Do, HandedBy, TakenBy;
    if trace != [] {
      var next := Do(s, trace[0]).value;
      StepKeeps(s, trace[0], next);
      QueueStep(s, trace[0], next);
      FirstInFirstOut(next, trace[1..], t);
      QueuesConcat(s.queue, HandedBy(s, trace[0], next), TakenBy(trace[0], next), next.queue,
        HandOvers(next, trace[1..]), Takes(next, trace[1..]), t.queue);
    }
  }

  // ---- Admission.

  /** Once the service is stopped no connection is admitted, but for one that had passed the second look by then. */
  lemma {:induction false} StoppedAdmitsNone(s: State, trace: seq<Action>, t: State)
    requires s.stopped && !s.serve.Admitted? && Run(s, trace) == Some(t)
    ensures t.stopped && |t.connections| == |s.connections|
    decreases |trace|
  {
    hide Do;
    if trace != [] {
      var next := Do(s, trace[0]).value;
      StoppedStep(s, trace[0], next);
      StoppedAdmitsNone(next, trace[1..], t);
    }
  }

  lemma StoppedStep(s: State, action: Action, t: State)
    requires s.stopped && !s.serve.Admitted? && Do(s, action) == Some(t)
    ensures t.stopped && !t.serve.Admitted? && |t.connections| == |s.connections|
  {
    hide DoHandler, DoWriter, DoShutdown;
    match action
    case Handle(i, step) => HandlerStaysStopped(s, i, step, t);
    case Write(step) => WriterStaysStopped(s, step, t);
    case Shutdown(step) => ShutdownStaysStopped(s, step, t);
    case _ =>
  }

  lemma HandlerStaysStopped(s: State, i: nat, step: HandlerStep, t: State)
    requires DoHandler(s, i, step) == Some(t)
    ensures t.stopped == s.stopped && t.serve == s.serve && |t.connections| == |s.connections|
  {
    hide Step;
  }

  lemma WriterStaysStopped(s: State, step: WriterStep, t: State)
    requires DoWriter(s, step) == Some(t)
    ensures t.stopped == s.stopped && t.serve == s.serve && |t.connections| == |s.connections|
  {
    hide BytesAfterRelease;
  }

  lemma ShutdownStaysStopped(s: State, step: ShutdownStep, t: State)
    requires DoShutdown(s, step) == Some(t)
    ensures t.stopped == s.stopped && !t.serve.Admitted? && |t.connections| == |s.connections|
  {
    hide BytesAfterRelease;
  }

  /** A validation that arrives can be inserted, released and its connection finished, leaving nothing held. */
  lemma ValidationIsStored(limits: Limits, length: Uint64) returns (trace: seq<Action>)
    requires limits.receivers >= 1 && limits.queue >= 1 && 1 <= length <= limits.bytes && length <= MAX_PAYLOAD_SIZE
    ensures Run(Initial(limits), trace) ==
            Some(Initial(limits).(connections := [Connection(Handed, false, length, 1, 1, false)]))
  {
    hide Run;
    trace := HandOne(limits, length);
    trace := OneMore(limits, trace, Write(Take));
    assert [0][1..] == [];
    trace := OneMore(limits, trace, Write(Insert));
    trace := OneMore(limits, trace, Write(Release));
    trace := OneMore(limits, trace, Handle(0, Finish));
    var c := Connection(Handed, false, length, 1, 1, false);
    var s := Run(Initial(limits), trace).value;
    assert |s.connections| == 1 && s.connections[0] == c;
    assert s.connections == [c];
  }

  lemma HandOne(limits: Limits, length: Uint64) returns (trace: seq<Action>)
    requires limits.receivers >= 1 && limits.queue >= 1 && 1 <= length <= limits.bytes && length <= MAX_PAYLOAD_SIZE
    ensures Run(Initial(limits), trace) ==
            Some(Initial(limits).(slots := 1, reserved := length, queue := [0],
                                  connections := [Connection(Handed, true, length, 0, 0, false)]))
  {
    hide Run;
    trace := AdmitOne(limits);
    trace := OneMore(limits, trace, Handle(0, ReadHeader(length)));
    trace := OneMore(limits, trace, Handle(0, Reserve));
    trace := OneMore(limits, trace, Handle(0, ReadPayload(Validation)));
    trace := OneMore(limits, trace, Handle(0, Dispatch));
    var c := Connection(Handed, true, length, 0, 0, false);
    var s := Run(Initial(limits), trace).value;
    assert |s.connections| == 1 && s.connections[0] == c;
    assert s.connections == [c] && [] + [0] == [0];
  }
}
