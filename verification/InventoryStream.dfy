/** The inventory control stream between an agent and its controller
    (api/client/inventory.go:256-620). Each side has `Send` callers, a send loop, a receive
    loop and a close-once life; the two sides are joined by two FIFO wires. The two Go types
    differ only in their message tables, so one model serves both. */
module InventoryStream {
  import opened Options

  datatype Side = Agent | Controller

  function Peer(side: Side): Side { if side == Agent then Controller else Agent }

  // ---------- Messages and their oneof wrapping ----------

  /** The Go types a caller can pass. `Foreign` is any type neither switch knows. */
  datatype Kind =
    | UpHello | Heartbeat | Pong | AgentMetadata | Goodbye | StopHeartbeat
    | DownHello | Ping | UpdateLabels
    | Foreign

  datatype Msg = Msg(kind: Kind, body: string)

  /** The field set in the oneof that travels; both directions have one called hello. A newer
      peer may set a field this code does not know. */
  datatype Field =
    | HelloField | HeartbeatField | PongField | AgentMetadataField | GoodbyeField | StopHeartbeatField
    | PingField | UpdateLabelsField
    | UnknownField

  datatype Frame = Frame(field: Field, body: string)

  function WrapKind(from: Side, kind: Kind): Option<Field> {
    match (from, kind)
    case (Agent, UpHello) => Some(HelloField)
    case (Agent, Heartbeat) => Some(HeartbeatField)
    case (Agent, Pong) => Some(PongField)
    case (Agent, AgentMetadata) => Some(AgentMetadataField)
    case (Agent, Goodbye) => Some(GoodbyeField)
    case (Agent, StopHeartbeat) => Some(StopHeartbeatField)
    case (Controller, DownHello) => Some(HelloField)
    case (Controller, Ping) => Some(PingField)
    case (Controller, UpdateLabels) => Some(UpdateLabelsField)
    case _ => None
  }

  function UnwrapField(from: Side, field: Field): Option<Kind> {
    match (from, field)
    case (Agent, HelloField) => Some(UpHello)
    case (Agent, HeartbeatField) => Some(Heartbeat)
    case (Agent, PongField) => Some(Pong)
    case (Agent, AgentMetadataField) => Some(AgentMetadata)
    case (Agent, GoodbyeField) => Some(Goodbye)
    case (Agent, StopHeartbeatField) => Some(StopHeartbeat)
    case (Controller, HelloField) => Some(DownHello)
    case (Controller, PingField) => Some(Ping)
    case (Controller, UpdateLabelsField) => Some(UpdateLabels)
    case _ => None
  }

  function Wrap(from: Side, m: Msg): Option<Frame> {
    var f := WrapKind(from, m.kind);
    if f.Some? then Some(Frame(f.value, m.body)) else None
  }

  function Unwrap(from: Side, f: Frame): Option<Msg> {
    var k := UnwrapField(from, f.field);
    if k.Some? then Some(Msg(k.value, f.body)) else None
  }

  /** Wrapping and unwrapping cancel out in both directions, and each side refuses exactly
      the messages the other side could not recognise. */
  lemma WrapUnwrap(from: Side, m: Msg, f: Frame)
    ensures Wrap(from, m) == Some(f) <==> Unwrap(from, f) == Some(m)
  {}

  // ---------- Closing ----------

  datatype Error = EOF | BadParameter | Failed(text: string)

  /** `err` (nil is `None`) and how many times the done channel has been closed. */
  datatype Life = Life(err: Option<Error>, doneCloses: nat)
  {
    predicate Done() { doneCloses > 0 }
  }

  function CloseWith(life: Life, e: Option<Error>): Life {
    if life.err.Some? then life
    else Life(Some(if e.Some? then e.value else EOF), life.doneCloses + 1)
  }

  /** The closable part of a stream object; the mutex makes each method one step. */
  class Closable {
    var err: Option<Error>
    ghost var doneCloses: nat

    ghost function View(): Life
      reads this
    {
      Life(err, doneCloses)
    }

    constructor ()
      ensures View() == Life(None, 0)
    {
      err, doneCloses := None, 0;
    }

    method CloseWithError(e: Option<Error>)
      requires err.None? ==> doneCloses == 0  // closing a closed channel panics
      modifies this
      ensures View() == CloseWith(old(View()), e)
    {
      if err.Some? {
        return;
      }
      if e.Some? {
        err := e;
      } else {
        err := Some(EOF);
      }
      doneCloses := doneCloses + 1;
    }
  }

  // ---------- One side ----------

  datatype Result =
    | Sent | SendFailed(error: Error) | Skipped | NotSentCancelled | NotSentClosed(error: Error) | ExternallyClosed

  /** Where a `Send` is: in its outer select, past the hand-over, woken by Done and about to
      read the error, or back. */
  datatype Phase = Offering | Awaiting | Woken | Returned(result: Result)

  /** `errC` is the reply channel of capacity one; `replies` is everything ever sent on it. */
  datatype Call = Call(msg: Msg, phase: Phase, errC: seq<Option<Error>>, replies: seq<Option<Error>>)

  datatype Sender =
    | Idle
    | Writing(id: nat, frame: Frame)
    | Replying(id: nat, reply: Option<Error>, fatal: bool)
    | Stopping(error: Error)
    | Stopped

  /** A frame that has been put on the wire, with the call it came from; frames of a newer
      peer have none. */
  datatype Entry = Entry(frame: Frame, origin: Option<nat>)

  datatype Tx = Tx(calls: seq<Call>, sender: Sender, put: seq<Entry>)

  datatype Receiver = Receiving | Pushing(msg: Msg) | Failing(error: Error) | Halted(dropped: seq<Msg>)

  /** `taken` counts the peer's entries this side has received. */
  datatype Rx = Rx(receiver: Receiver, taken: nat, delivered: seq<Msg>)

  datatype Node = Node(life: Life, tx: Tx, rx: Rx)

  const FRESH := Node(Life(None, 0), Tx([], Idle, []), Rx(Receiving, 0, []))

  datatype System = System(agent: Node, controller: Node)
  {
    function At(side: Side): Node { if side == Agent then agent else controller }

    function With(side: Side, n: Node): System {
      if side == Agent then this.(agent := n) else this.(controller := n)
    }
  }

  // ---------- Steps ----------

  datatype CallerStep =
    | Invoke(msg: Msg, cancelled: bool) | HandOver(id: nat) | TakeReply(id: nat)
    | GiveUp(id: nat) | NoticeDone(id: nat) | ReadError(id: nat)

  /** What `stream.Send` did; a failed send may or may not have reached the wire. */
  datatype Write = WriteOk | WriteErr(error: Error, reached: bool)

  datatype SenderStep = DoWrite(write: Write) | DoReply | DoStop | SeeDone

  datatype ReceiverStep = RecvFrame | RecvErr(error: Error) | Deliver | DropOnDone | DoHalt

  datatype Act =
    | OfCaller(caller: CallerStep)
    | OfSender(send: SenderStep)
    | OfReceiver(recv: ReceiverStep)
    | Close(error: Option<Error>)
    | NewerFrame(body: string)

  datatype Step = Step(side: Side, act: Act)

  predicate CallerEnabled(n: Node, st: CallerStep) {
    match st
    case Invoke(_, _) => true
    case HandOver(i) => i < |n.tx.calls| && n.tx.calls[i].phase == Offering && n.tx.sender == Idle
    case TakeReply(i) => i < |n.tx.calls| && n.tx.calls[i].phase == Awaiting && n.tx.calls[i].errC != []
    case GiveUp(i) => i < |n.tx.calls| && (n.tx.calls[i].phase == Offering || n.tx.calls[i].phase == Awaiting)
    case NoticeDone(i) => i < |n.tx.calls| && n.tx.calls[i].phase == Offering && n.life.Done()
    case ReadError(i) => i < |n.tx.calls| && n.tx.calls[i].phase == Woken
  }

  function Accept(side: Side, id: nat, m: Msg): Sender {
    var f := Wrap(side, m);
    if f.Some? then Writing(id, f.value) else Replying(id, Some(BadParameter), false)
  }

  function CallerApply(side: Side, n: Node, st: CallerStep): Tx
    requires CallerEnabled(n, st)
  {
    var tx := n.tx;
    match st
    case Invoke(m, cancelled) =>
      tx.(calls := tx.calls + [Call(m, if cancelled then Returned(NotSentCancelled) else Offering, [], [])])
    case HandOver(i) =>
      tx.(calls := tx.calls[i := tx.calls[i].(phase := Awaiting)], sender := Accept(side, i, tx.calls[i].msg))
    case TakeReply(i) =>
      var c := tx.calls[i];
      var r := if c.errC[0].None? then Sent else SendFailed(c.errC[0].value);
      tx.(calls := tx.calls[i := c.(phase := Returned(r), errC := c.errC[1..])])
    case GiveUp(i) =>
      var r := if tx.calls[i].phase == Offering then NotSentCancelled else Skipped;
      tx.(calls := tx.calls[i := tx.calls[i].(phase := Returned(r))])
    case NoticeDone(i) => tx.(calls := tx.calls[i := tx.calls[i].(phase := Woken)])
    case ReadError(i) =>
      var r := if n.life.err.None? then ExternallyClosed else NotSentClosed(n.life.err.value);
      tx.(calls := tx.calls[i := tx.calls[i].(phase := Returned(r))])
  }

  /** Errors other than EOF are rephrased before the stream is closed with them. */
  function Rephrase(e: Error): (r: Error)
    ensures r == EOF <==> e == EOF
  {
    match e
    case EOF => EOF
    case BadParameter => Failed("bad parameter")
    case Failed(t) => Failed(t)
  }

  predicate SenderEnabled(n: Node, st: SenderStep) {
    match st
    case DoWrite(_) => n.tx.sender.Writing?
    case DoReply => n.tx.sender.Replying? && n.tx.sender.id < |n.tx.calls| && n.tx.calls[n.tx.sender.id].errC == []
    case DoStop => n.tx.sender.Stopping?
    case SeeDone => n.tx.sender.Idle? && n.life.Done()
  }

  function SenderApply(n: Node, st: SenderStep): Node
    requires SenderEnabled(n, st)
  {
    var tx := n.tx;
    match st
    case DoWrite(w) =>
      var put := if w.WriteOk? || w.reached then tx.put + [Entry(tx.sender.frame, Some(tx.sender.id))] else tx.put;
      var reply := if w.WriteOk? then None else Some(w.error);
      n.(tx := tx.(put := put, sender := Replying(tx.sender.id, reply, w.WriteErr?)))
    case DoReply =>
      var i, r := tx.sender.id, tx.sender.reply;
      var c := tx.calls[i];
      n.(tx := tx.(calls := tx.calls[i := c.(errC := [r], replies := c.replies + [r])],
                   sender := if tx.sender.fatal && r.Some? then Stopping(Rephrase(r.value)) else Idle))
    case DoStop => n.(life := CloseWith(n.life, Some(tx.sender.error)), tx := tx.(sender := Stopped))
    case SeeDone => n.(tx := tx.(sender := Stopped))
  }

  predicate ReceiverEnabled(n: Node, incoming: seq<Entry>, st: ReceiverStep) {
    match st
    case RecvFrame => n.rx.receiver.Receiving? && n.rx.taken < |incoming|
    case RecvErr(_) => n.rx.receiver.Receiving?
    case Deliver => n.rx.receiver.Pushing?
    case DropOnDone => n.rx.receiver.Pushing? && n.life.Done()
    case DoHalt => n.rx.receiver.Failing?
  }

  function ReceiverApply(side: Side, n: Node, incoming: seq<Entry>, st: ReceiverStep): Node
    requires ReceiverEnabled(n, incoming, st)
  {
    var rx := n.rx;
    match st
    case RecvFrame =>
      var m := Unwrap(Peer(side), incoming[rx.taken].frame);
      n.(rx := rx.(taken := rx.taken + 1, receiver := if m.Some? then Pushing(m.value) else Receiving))
    case RecvErr(e) => n.(rx := rx.(receiver := Failing(Rephrase(e))))
    case Deliver => n.(rx := rx.(delivered := rx.delivered + [rx.receiver.msg], receiver := Receiving))
    case DropOnDone => n.(rx := rx.(receiver := Halted([rx.receiver.msg])))
    case DoHalt => n.(life := CloseWith(n.life, Some(rx.receiver.error)), rx := rx.(receiver := Halted([])))
  }

  predicate Enabled(s: System, step: Step) {
    var n := s.At(step.side);
    match step.act
    case OfCaller(st) => CallerEnabled(n, st)
    case OfSender(st) => SenderEnabled(n, st)
    case OfReceiver(st) => ReceiverEnabled(n, s.At(Peer(step.side)).tx.put, st)
    case Close(_) => true
    case NewerFrame(_) => true
  }

  function NextNode(s: System, step: Step): Node
    requires Enabled(s, step)
  {
    var n := s.At(step.side);
    match step.act
    case OfCaller(st) => n.(tx := CallerApply(step.side, n, st))
    case OfSender(st) => SenderApply(n, st)
    case OfReceiver(st) => ReceiverApply(step.side, n, s.At(Peer(step.side)).tx.put, st)
    case Close(e) => n.(life := CloseWith(n.life, e))
    case NewerFrame(body) => n.(tx := n.tx.(put := n.tx.put + [Entry(Frame(UnknownField, body), None)]))
  }

  function Apply(s: System, step: Step): System
    requires Enabled(s, step)
  {
    s.With(step.side, NextNode(s, step))
  }

  predicate Valid(s: System, steps: seq<Step>)
    decreases |steps|
  {
    steps == [] || (Enabled(s, steps[0]) && Valid(Apply(s, steps[0]), steps[1..]))
  }

  function Exec(s: System, steps: seq<Step>): System
    requires Valid(s, steps)
    decreases |steps|
  {
    if steps == [] then s else Exec(Apply(s, steps[0]), steps[1..])
  }

  ghost predicate Reachable(s: System) {
    exists steps :: Valid(System(FRESH, FRESH), steps) && Exec(System(FRESH, FRESH), steps) == s
  }
}
