/** What holds in every run of the inventory control stream. */
module InventoryRuns {
  import opened Counting
  import opened Options
  import opened InventoryStream

  /** How often call `i` appears on the wire. */
  function Puts(put: seq<Entry>, i: nat): nat { Sum(put, OfCall(i)) }

  function OfCall(i: nat): Entry -> nat { (e: Entry) => if e.origin == Some(i) then 1 else 0 }

  lemma PutsAppend(put: seq<Entry>, e: Entry, i: nat)
    ensures Puts(put + [e], i) == Puts(put, i) + if e.origin == Some(i) then 1 else 0
  {
    SumAppend(put, OfCall(i), e);
  }

  predicate LifeInv(life: Life) {
    life.doneCloses == if life.err.Some? then 1 else 0
  }

  predicate AtWork(sender: Sender, i: nat) {
    (sender.Writing? || sender.Replying?) && sender.id == i
  }

  predicate HandedOver(c: Call) {
    || c.phase == Awaiting
    || (c.phase.Returned? && (c.phase.result == Sent || c.phase.result.SendFailed? || c.phase.result == Skipped))
  }

  /** The state of one call against its phase: before the hand-over nothing has happened to
      it; afterwards it has its one reply unless the send loop is working on it; and its
      message is on the wire once if the reply is nil. */
  predicate CallInv(side: Side, tx: Tx, life: Life, i: nat)
    requires i < |tx.calls|
  {
    var c, n, busy := tx.calls[i], Puts(tx.put, i), AtWork(tx.sender, i);
    && n <= 1
    && (n == 1 ==> Wrap(side, c.msg).Some?)
    && c.phase != Returned(ExternallyClosed)
    && (c.phase == Woken ==> life.err.Some?)
    && (c.phase.Returned? && c.phase.result.NotSentClosed? ==> life.err == Some(c.phase.result.error))
    && (!HandedOver(c) ==> !busy && c.replies == [] && c.errC == [] && n == 0)
    && (HandedOver(c) ==> if busy then c.replies == [] && c.errC == [] else |c.replies| == 1)
    && (c.phase == Awaiting || c.phase == Returned(Skipped) ==> c.errC == c.replies)
    && (c.phase == Returned(Sent) ==> !busy && c.replies == [None])
    && (c.phase.Returned? && c.phase.result.SendFailed? ==> !busy && c.replies == [Some(c.phase.result.error)])
    && (busy && tx.sender.Writing? ==> n == 0 && Wrap(side, c.msg) == Some(tx.sender.frame))
    && (busy && tx.sender.Replying? && tx.sender.reply.None? ==> n == 1)
    && (c.replies == [None] ==> n == 1)
  }

  predicate PutInv(side: Side, tx: Tx, k: nat)
    requires k < |tx.put|
  {
    var e := tx.put[k];
    if e.origin.Some? then e.origin.value < |tx.calls| && Wrap(side, tx.calls[e.origin.value].msg) == Some(e.frame)
    else Unwrap(side, e.frame) == None
  }

  ghost predicate TxInv(side: Side, tx: Tx, life: Life) {
    && (tx.sender.Writing? || tx.sender.Replying? ==> tx.sender.id < |tx.calls|)
    && (forall i :: 0 <= i < |tx.calls| ==> CallInv(side, tx, life, i))
    && (forall i :: |tx.calls| <= i ==> Puts(tx.put, i) == 0)
    && (forall k :: 0 <= k < |tx.put| ==> PutInv(side, tx, k))
  }

  function UnwrapAll(from: Side, put: seq<Entry>): seq<Msg> {
    if put == [] then []
    else
      var m := Unwrap(from, put[|put| - 1].frame);
      UnwrapAll(from, put[..|put| - 1]) + if m.Some? then [m.value] else []
  }

  function Held(r: Receiver): seq<Msg> {
    match r
    case Receiving => []
    case Pushing(m) => [m]
    case Failing(_) => []
    case Halted(dropped) => dropped
  }

  predicate RxInv(side: Side, rx: Rx, incoming: seq<Entry>) {
    && rx.taken <= |incoming|
    && rx.delivered + Held(rx.receiver) == UnwrapAll(Peer(side), incoming[..rx.taken])
  }

  /** A loop leaves only a stream that is closed. */
  predicate LoopInv(n: Node) { n.tx.sender.Stopped? || n.rx.receiver.Halted? ==> n.life.err.Some? }

  /** A side in order, given what its peer has put on the wire. */
  ghost predicate NodeInv(side: Side, n: Node, incoming: seq<Entry>) {
    LifeInv(n.life) && TxInv(side, n.tx, n.life) && LoopInv(n) && RxInv(side, n.rx, incoming)
  }

  ghost predicate Inv(s: System) {
    forall side: Side :: NodeInv(side, s.At(side), s.At(Peer(side)).tx.put)
  }

  // ---------- Every step keeps it ----------

  lemma CallerInvokeInv(side: Side, n: Node, m: Msg, cancelled: bool)
    requires TxInv(side, n.tx, n.life)
    ensures TxInv(side, CallerApply(side, n, Invoke(m, cancelled)), n.life)
  {
    var tx, tx' := n.tx, CallerApply(side, n, Invoke(m, cancelled));
    forall i | 0 <= i < |tx'.calls| ensures CallInv(side, tx', n.life, i) {
      if i < |tx.calls| {
        assert CallInv(side, tx, n.life, i);
      }
    }
    forall k | 0 <= k < |tx'.put| ensures PutInv(side, tx', k) {
      assert PutInv(side, tx, k);
    }
  }

  lemma CallerMoveInv(side: Side, n: Node, st: CallerStep)
    requires LifeInv(n.life) && TxInv(side, n.tx, n.life) && CallerEnabled(n, st) && !st.Invoke?
    ensures TxInv(side, CallerApply(side, n, st), n.life)
  {
    var tx, tx' := n.tx, CallerApply(side, n, st);
    forall i | 0 <= i < |tx'.calls| ensures CallInv(side, tx', n.life, i) {
      assert CallInv(side, tx, n.life, i);
      assert i != st.id ==> tx'.calls[i] == tx.calls[i];
    }
    forall k | 0 <= k < |tx'.put| ensures PutInv(side, tx', k) {
      assert PutInv(side, tx, k);
    }
  }

  lemma WriteInv(side: Side, n: Node, w: Write)
    requires TxInv(side, n.tx, n.life) && n.tx.sender.Writing?
    ensures TxInv(side, SenderApply(n, DoWrite(w)).tx, n.life)
  {
    var tx, tx' := n.tx, SenderApply(n, DoWrite(w)).tx;
    var e := Entry(tx.sender.frame, Some(tx.sender.id));
    assert CallInv(side, tx, n.life, tx.sender.id);
    forall i: nat ensures Puts(tx.put + [e], i) == Puts(tx.put, i) + if e.origin == Some(i) then 1 else 0 {
      PutsAppend(tx.put, e, i);
    }
    forall i | 0 <= i < |tx'.calls| ensures CallInv(side, tx', n.life, i) {
      assert CallInv(side, tx, n.life, i);
    }
    forall k | 0 <= k < |tx'.put| ensures PutInv(side, tx', k) {
      if k < |tx.put| {
        assert PutInv(side, tx, k);
      }
    }
  }

  lemma ReplyInv(side: Side, n: Node)
    requires TxInv(side, n.tx, n.life) && SenderEnabled(n, DoReply)
    ensures TxInv(side, SenderApply(n, DoReply).tx, n.life)
  {
    var tx, tx' := n.tx, SenderApply(n, DoReply).tx;
    forall i | 0 <= i < |tx'.calls| ensures CallInv(side, tx', n.life, i) {
      assert CallInv(side, tx, n.life, i);
    }
    forall k | 0 <= k < |tx'.put| ensures PutInv(side, tx', k) {
      assert PutInv(side, tx, k);
    }
  }

  /** Closing, and a send loop that leaves, disturb no call. */
  lemma ParkedInv(side: Side, tx: Tx, life: Life, sender: Sender, life': Life)
    requires TxInv(side, tx, life)
    requires sender == tx.sender || (sender == Stopped && !tx.sender.Writing? && !tx.sender.Replying?)
    requires life.err.Some? ==> life' == life
    ensures TxInv(side, tx.(sender := sender), life')
  {
    var tx' := tx.(sender := sender);
    forall i | 0 <= i < |tx'.calls| ensures CallInv(side, tx', life', i) {
      assert CallInv(side, tx, life, i);
    }
    forall k | 0 <= k < |tx'.put| ensures PutInv(side, tx', k) {
      assert PutInv(side, tx, k);
    }
  }

  lemma NewerFrameInv(side: Side, tx: Tx, life: Life, e: Entry)
    requires TxInv(side, tx, life) && e.origin == None && Unwrap(side, e.frame) == None
    ensures TxInv(side, tx.(put := tx.put + [e]), life)
  {
    var tx' := tx.(put := tx.put + [e]);
    forall i: nat ensures Puts(tx'.put, i) == Puts(tx.put, i) {
      PutsAppend(tx.put, e, i);
    }
    forall i | 0 <= i < |tx'.calls| ensures CallInv(side, tx', life, i) {
      assert CallInv(side, tx, life, i);
    }
    forall k | 0 <= k < |tx'.put| ensures PutInv(side, tx', k) {
      if k < |tx.put| {
        assert PutInv(side, tx, k);
      }
    }
  }

  lemma ReceiverInv(side: Side, n: Node, incoming: seq<Entry>, st: ReceiverStep)
    requires RxInv(side, n.rx, incoming) && ReceiverEnabled(n, incoming, st)
    ensures RxInv(side, ReceiverApply(side, n, incoming, st).rx, incoming)
  {
    if st.RecvFrame? {
      assert incoming[..n.rx.taken + 1][..n.rx.taken] == incoming[..n.rx.taken];
    }
  }

  /** A longer wire changes nothing for what has been received. */
  lemma LongerWire(side: Side, rx: Rx, incoming: seq<Entry>, more: seq<Entry>)
    requires RxInv(side, rx, incoming) && incoming <= more
    ensures RxInv(side, rx, more)
  {
    assert more[..rx.taken] == incoming[..rx.taken];
  }

  lemma CallerInv(side: Side, n: Node, st: CallerStep)
    requires LifeInv(n.life) && TxInv(side, n.tx, n.life) && CallerEnabled(n, st)
    ensures TxInv(side, CallerApply(side, n, st), n.life) && CallerApply(side, n, st).put == n.tx.put
  {
    if st.Invoke? {
      CallerInvokeInv(side, n, st.msg, st.cancelled);
    } else {
      CallerMoveInv(side, n, st);
    }
  }

  lemma SenderInv(side: Side, n: Node, st: SenderStep)
    requires LifeInv(n.life) && TxInv(side, n.tx, n.life) && SenderEnabled(n, st)
    ensures var n' := SenderApply(n, st);
      LifeInv(n'.life) && TxInv(side, n'.tx, n'.life) && n.tx.put <= n'.tx.put && n'.rx == n.rx
  {
    match st
    case DoWrite(w) => WriteInv(side, n, w);
    case DoReply => ReplyInv(side, n);
    case _ => ParkedInv(side, n.tx, n.life, Stopped, SenderApply(n, st).life);
  }

  lemma HaltInv(side: Side, n: Node, incoming: seq<Entry>, st: ReceiverStep)
    requires LifeInv(n.life) && TxInv(side, n.tx, n.life) && ReceiverEnabled(n, incoming, st)
    ensures var n' := ReceiverApply(side, n, incoming, st);
      LifeInv(n'.life) && TxInv(side, n'.tx, n'.life) && n'.tx == n.tx
  {
    ParkedInv(side, n.tx, n.life, n.tx.sender, ReceiverApply(side, n, incoming, st).life);
  }

  lemma LoopStepInv(s: System, step: Step)
    requires NodeInv(step.side, s.At(step.side), s.At(Peer(step.side)).tx.put) && Enabled(s, step)
    requires step.act.OfCaller? || step.act.OfSender?
    ensures NodeInv(step.side, NextNode(s, step), s.At(Peer(step.side)).tx.put)
    ensures s.At(step.side).tx.put <= NextNode(s, step).tx.put
  {
    match step.act
    case OfCaller(st) => CallerInv(step.side, s.At(step.side), st);
    case OfSender(st) => SenderInv(step.side, s.At(step.side), st);
  }

  lemma OtherStepInv(s: System, step: Step)
    requires NodeInv(step.side, s.At(step.side), s.At(Peer(step.side)).tx.put) && Enabled(s, step)
    requires !step.act.OfCaller? && !step.act.OfSender?
    ensures NodeInv(step.side, NextNode(s, step), s.At(Peer(step.side)).tx.put)
    ensures s.At(step.side).tx.put <= NextNode(s, step).tx.put
  {
    var side, n, incoming := step.side, s.At(step.side), s.At(Peer(step.side)).tx.put;
    match step.act
    case OfReceiver(st) =>
      ReceiverInv(side, n, incoming, st);
      HaltInv(side, n, incoming, st);
    case Close(e) => ParkedInv(side, n.tx, n.life, n.tx.sender, CloseWith(n.life, e));
    case NewerFrame(b) => NewerFrameInv(side, n.tx, n.life, Entry(Frame(UnknownField, b), None));
  }

  /** One step keeps the side that takes it in order and only adds to its wire, so the other
      side stays in order too. */
  lemma StepInv(s: System, step: Step)
    requires Inv(s) && Enabled(s, step)
    ensures Inv(Apply(s, step))
  {
    var s', side, other := Apply(s, step), step.side, Peer(step.side);
    assert NodeInv(side, s.At(side), s.At(other).tx.put);
    if step.act.OfCaller? || step.act.OfSender? { LoopStepInv(s, step); } else { OtherStepInv(s, step); }
    assert NodeInv(other, s.At(other), s.At(Peer(other)).tx.put);
    LongerWire(other, s.At(other).rx, s.At(side).tx.put, s'.At(side).tx.put);
    assert s'.At(other) == s.At(other) && s'.At(side) == NextNode(s, step);
  }

  lemma {:induction false} RunInv(s: System, steps: seq<Step>)
    requires Inv(s) && Valid(s, steps)
    ensures Inv(Exec(s, steps))
    decreases |steps|
  {
    if steps != [] {
      StepInv(s, steps[0]);
      RunInv(Apply(s, steps[0]), steps[1..]);
    }
  }

  lemma InitInv()
    ensures Inv(System(FRESH, FRESH))
  {}

  lemma ReachableInv(s: System)
    requires Reachable(s)
    ensures Inv(s)
  {
    var steps :| Valid(System(FRESH, FRESH), steps) && Exec(System(FRESH, FRESH), steps) == s;
    InitInv();
    RunInv(System(FRESH, FRESH), steps);
  }

  // ---------- Main results ----------

  /** The messages of the calls a side has put on the wire, in wire order. */
  function SentMsgs(tx: Tx, put: seq<Entry>): seq<Msg> {
    if put == [] then []
    else
      var o := put[|put| - 1].origin;
      SentMsgs(tx, put[..|put| - 1]) + if o.Some? && o.value < |tx.calls| then [tx.calls[o.value].msg] else []
  }

  lemma UnwrapSentStep(side: Side, tx: Tx, put: seq<Entry>)
    requires put != []
    requires UnwrapAll(side, put[..|put| - 1]) == SentMsgs(tx, put[..|put| - 1])
    requires var e := put[|put| - 1];
      if e.origin.Some? then
        e.origin.value < |tx.calls| && Wrap(side, tx.calls[e.origin.value].msg) == Some(e.frame)
      else Unwrap(side, e.frame) == None
    ensures UnwrapAll(side, put) == SentMsgs(tx, put)
  {
    var e := put[|put| - 1];
    if e.origin.Some? {
      WrapUnwrap(side, tx.calls[e.origin.value].msg, e.frame);
    }
  }

  lemma {:induction false} UnwrapIsSent(side: Side, tx: Tx, k: nat)
    requires k <= |tx.put|
    requires forall j :: 0 <= j < |tx.put| ==> PutInv(side, tx, j)
    ensures UnwrapAll(side, tx.put[..k]) == SentMsgs(tx, tx.put[..k])
  {
    if k > 0 {
      UnwrapIsSent(side, tx, k - 1);
      var upTo := tx.put[..k];
      assert upTo[..|upTo| - 1] == tx.put[..k - 1] && upTo[|upTo| - 1] == tx.put[k - 1];
      assert PutInv(side, tx, k - 1);
      UnwrapSentStep(side, tx, upTo);
    }
  }

  lemma {:induction false} UnwrapPrefix(from: Side, put: seq<Entry>, k: nat)
    requires k <= |put|
    ensures UnwrapAll(from, put[..k]) <= UnwrapAll(from, put)
  {
    if k == |put| {
      assert put[..k] == put;
    } else {
      UnwrapPrefix(from, put[..|put| - 1], k);
      assert put[..|put| - 1][..k] == put[..k];
    }
  }

  /** End to end, in both directions: what `Recv` has delivered is a prefix, in order, of the
      messages of the peer's calls in the order its send loop put them on the wire, and no
      call is on the wire twice. Only a frame of a newer peer is passed over. */
  lemma DeliveredIsPrefix(s: System, side: Side)
    requires Reachable(s)
    ensures var tx := s.At(Peer(side)).tx;
      && (forall k :: 0 <= k < |tx.put| && tx.put[k].origin.Some? ==> tx.put[k].origin.value < |tx.calls|)
      && s.At(side).rx.delivered <= SentMsgs(tx, tx.put)
      && (forall i: nat :: Puts(tx.put, i) <= 1)
  {
    ReachableInv(s);
    var tx, rx := s.At(Peer(side)).tx, s.At(side).rx;
    var other := Peer(side);
    assert NodeInv(side, s.At(side), tx.put) && NodeInv(other, s.At(other), s.At(Peer(other)).tx.put);
    forall k | 0 <= k < |tx.put| && tx.put[k].origin.Some? ensures tx.put[k].origin.value < |tx.calls| {
      assert PutInv(Peer(side), tx, k);
    }
    UnwrapIsSent(Peer(side), tx, |tx.put|);
    assert tx.put[..|tx.put|] == tx.put;
    UnwrapPrefix(Peer(side), tx.put, rx.taken);
    assert rx.delivered <= rx.delivered + Held(rx.receiver);
    forall i: nat ensures Puts(tx.put, i) <= 1 {
      if i < |tx.calls| { assert CallInv(Peer(side), tx, s.At(Peer(side)).life, i); }
    }
  }

  /** A `Send` that reports success has its message on the wire exactly once; one that reports
      "not sent", for either reason, has never had it there, and neither has one of a type the
      stream does not carry. */
  lemma SendResultTruthful(s: System, side: Side, i: nat)
    requires Reachable(s) && i < |s.At(side).tx.calls|
    ensures var tx := s.At(side).tx; var c := tx.calls[i];
      && (c.phase == Returned(Sent) ==> Puts(tx.put, i) == 1 && Wrap(side, c.msg).Some?)
      && (c.phase == Returned(NotSentCancelled) ==> Puts(tx.put, i) == 0)
      && (c.phase.Returned? && c.phase.result.NotSentClosed? ==> Puts(tx.put, i) == 0)
      && (Wrap(side, c.msg).None? ==> Puts(tx.put, i) == 0)
  {
    ReachableInv(s);
    assert NodeInv(side, s.At(side), s.At(Peer(side)).tx.put);
    assert CallInv(side, s.At(side).tx, s.At(side).life, i);
  }

  /** A call that was handed over has exactly one reply, or the send loop is at work on it; a
      loop that has to reply can always do so at once, even to a caller that gave up. */
  lemma ExactlyOneReply(s: System, side: Side, i: nat)
    requires Reachable(s) && i < |s.At(side).tx.calls|
    ensures var tx := s.At(side).tx; var c := tx.calls[i];
      && |c.replies| == (if HandedOver(c) && !AtWork(tx.sender, i) then 1 else 0)
      && (AtWork(tx.sender, i) && tx.sender.Replying? ==> SenderEnabled(s.At(side), DoReply))
  {
    ReachableInv(s);
    assert NodeInv(side, s.At(side), s.At(Peer(side)).tx.put);
    assert CallInv(side, s.At(side).tx, s.At(side).life, i);
  }

  /** The send loop is not waiting for a caller and can take its next step, for every outcome
      of the write it may be at. */
  ghost predicate LoopCanMove(n: Node) {
    match n.tx.sender
    case Writing(_, _) => forall w :: SenderEnabled(n, DoWrite(w))
    case Replying(_, _, _) => SenderEnabled(n, DoReply)
    case Stopping(_) => SenderEnabled(n, DoStop)
    case _ => false
  }

  /** No `Send` is stuck, open stream or closed. A waiting call can take its reply, or the send
      loop is at work on it and can go on; a woken one can read the error; one that is still
      offering its message can hand it over, or see that the stream is closed, or the loop has
      something else to finish and can go on, whatever the network answers. */
  lemma SendNeverStuck(s: System, side: Side, i: nat)
    requires Reachable(s) && i < |s.At(side).tx.calls|
    ensures var n := s.At(side);
      match n.tx.calls[i].phase
      case Awaiting => CallerEnabled(n, TakeReply(i)) || (AtWork(n.tx.sender, i) && LoopCanMove(n))
      case Woken => CallerEnabled(n, ReadError(i)) && n.life.err.Some?
      case Offering => CallerEnabled(n, if n.life.Done() then NoticeDone(i) else HandOver(i)) || LoopCanMove(n)
      case Returned(_) => true
    ensures s.At(side).life.Done() && s.At(side).tx.calls[i].phase == Offering ==>
      CallerEnabled(s.At(side), NoticeDone(i))
  {
    ReachableInv(s);
    var n := s.At(side);
    assert NodeInv(side, n, s.At(Peer(side)).tx.put);
    assert CallInv(side, n.tx, n.life, i);
    if n.tx.sender.Replying? {
      assert CallInv(side, n.tx, n.life, n.tx.sender.id);
    }
  }

  /** The done channel is closed once, exactly when there is an error, so a `Send` woken by it
      always finds one: the "externally closed" answer is never given. */
  lemma ClosedOnce(s: System, side: Side)
    requires Reachable(s)
    ensures var n := s.At(side);
      && n.life.doneCloses <= 1
      && (n.life.doneCloses == 1 <==> n.life.err.Some?)
      && (forall i :: 0 <= i < |n.tx.calls| ==>
           && (n.tx.calls[i].phase == Woken ==> n.life.err.Some?)
           && n.tx.calls[i].phase != Returned(ExternallyClosed))
  {
    ReachableInv(s);
    var n := s.At(side);
    assert NodeInv(side, n, s.At(Peer(side)).tx.put);
    forall i | 0 <= i < |n.tx.calls|
      ensures (n.tx.calls[i].phase == Woken ==> n.life.err.Some?) && n.tx.calls[i].phase != Returned(ExternallyClosed)
    {
      assert CallInv(side, n.tx, n.life, i);
    }
  }

  /** The first error sticks: no later step of anybody changes it. */
  lemma {:induction false} FirstErrorSticks(s: System, steps: seq<Step>, side: Side)
    requires Valid(s, steps) && s.At(side).life.err.Some?
    ensures Exec(s, steps).At(side).life == s.At(side).life
    decreases |steps|
  {
    if steps != [] {
      assert Apply(s, steps[0]).At(side).life == s.At(side).life;
      FirstErrorSticks(Apply(s, steps[0]), steps[1..], side);
    }
  }

  /** A close of an open stream sets the error for good: the one given, or EOF for none. */
  lemma FirstCloseSets(s: System, side: Side, e: Option<Error>, steps: seq<Step>)
    requires s.At(side).life.err.None? && Valid(Apply(s, Step(side, Close(e))), steps)
    ensures var end := Exec(Apply(s, Step(side, Close(e))), steps);
      end.At(side).life.err == if e.Some? then e else Some(EOF)
  {
    FirstErrorSticks(Apply(s, Step(side, Close(e))), steps, side);
  }

  /** A `Send` refused because the stream is closed reports the error the stream is closed with,
      and a loop that has left has closed it. */
  lemma ClosedErrorReported(s: System, side: Side, i: nat)
    requires Reachable(s) && i < |s.At(side).tx.calls|
    ensures var n := s.At(side); var c := n.tx.calls[i];
      c.phase.Returned? && c.phase.result.NotSentClosed? ==> n.life.err == Some(c.phase.result.error)
    ensures s.At(side).tx.sender.Stopped? || s.At(side).rx.receiver.Halted? ==> s.At(side).life.err.Some?
  {
    ReachableInv(s);
    assert NodeInv(side, s.At(side), s.At(Peer(side)).tx.put);
    assert CallInv(side, s.At(side).tx, s.At(side).life, i);
  }

  // ---------- The wire ----------

  /** Whether a step puts a frame on the wire of a side. */
  function Written(side: Side): Step -> nat {
    (step: Step) =>
      if step.side != side then 0
      else match step.act
        case OfSender(DoWrite(w)) => if w.WriteErr? && !w.reached then 0 else 1
        case NewerFrame(_) => 1
        case _ => 0
  }

  lemma StepWrites(s: System, step: Step, side: Side)
    requires Enabled(s, step)
    ensures |Apply(s, step).At(side).tx.put| == |s.At(side).tx.put| + Written(side)(step)
  {}

  /** On the wire is one frame for each write that reached it, and nothing is ever taken back. */
  lemma {:induction false} WireIsWritten(s: System, steps: seq<Step>, side: Side)
    requires Valid(s, steps)
    ensures |Exec(s, steps).At(side).tx.put| == |s.At(side).tx.put| + Sum(steps, Written(side))
    decreases |steps|
  {
    if steps != [] {
      StepWrites(s, steps[0], side);
      WireIsWritten(Apply(s, steps[0]), steps[1..], side);
    }
  }

  // ---------- A call that has returned ----------

  lemma StepReturned(s: System, step: Step, side: Side, i: nat)
    requires Enabled(s, step) && i < |s.At(side).tx.calls| && s.At(side).tx.calls[i].phase.Returned?
    ensures i < |Apply(s, step).At(side).tx.calls|
    ensures Apply(s, step).At(side).tx.calls[i].phase == s.At(side).tx.calls[i].phase
  {}

  /** What a `Send` has returned stays returned. */
  lemma {:induction false} ReturnedForGood(s: System, steps: seq<Step>, side: Side, i: nat)
    requires Valid(s, steps) && i < |s.At(side).tx.calls| && s.At(side).tx.calls[i].phase.Returned?
    ensures i < |Exec(s, steps).At(side).tx.calls|
    ensures Exec(s, steps).At(side).tx.calls[i].phase == s.At(side).tx.calls[i].phase
    decreases |steps|
  {
    if steps != [] {
      StepReturned(s, steps[0], side, i);
      ReturnedForGood(Apply(s, steps[0]), steps[1..], side, i);
    }
  }

  /** A `Send` whose context is cancelled beforehand never puts its message on the wire, whatever
      happens later. */
  lemma CancelledNeverSent(s: System, side: Side, m: Msg, steps: seq<Step>)
    requires Reachable(s) && Valid(Apply(s, Step(side, OfCaller(Invoke(m, true)))), steps)
    ensures var i := |s.At(side).tx.calls|;
      Puts(Exec(Apply(s, Step(side, OfCaller(Invoke(m, true)))), steps).At(side).tx.put, i) == 0
  {
    var step, i := Step(side, OfCaller(Invoke(m, true))), |s.At(side).tx.calls|;
    ReachableInv(s);
    StepInv(s, step);
    RunInv(Apply(s, step), steps);
    ReturnedForGood(Apply(s, step), steps, side, i);
    var end := Exec(Apply(s, step), steps);
    assert NodeInv(side, end.At(side), end.At(Peer(side)).tx.put);
    assert CallInv(side, end.At(side).tx, end.At(side).life, i);
  }

  // ---------- After a failed write ----------

  /** The send loop is on its way out. */
  predicate Leaving(sender: Sender) {
    sender.Stopping? || sender.Stopped? || (sender.Replying? && sender.fatal && sender.reply.Some?)
  }

  lemma StepLeaving(s: System, step: Step, side: Side, i: nat)
    requires Enabled(s, step) && Leaving(s.At(side).tx.sender)
    ensures Leaving(Apply(s, step).At(side).tx.sender)
    ensures Puts(Apply(s, step).At(side).tx.put, i) == Puts(s.At(side).tx.put, i)
  {
    if step.side == side && step.act.NewerFrame? {
      PutsAppend(s.At(side).tx.put, Entry(Frame(UnknownField, step.act.body), None), i);
    }
  }

  lemma {:induction false} RunLeaving(s: System, steps: seq<Step>, side: Side, i: nat)
    requires Valid(s, steps) && Leaving(s.At(side).tx.sender)
    ensures Leaving(Exec(s, steps).At(side).tx.sender)
    ensures Puts(Exec(s, steps).At(side).tx.put, i) == Puts(s.At(side).tx.put, i)
    decreases |steps|
  {
    if steps != [] {
      StepLeaving(s, steps[0], side, i);
      RunLeaving(Apply(s, steps[0]), steps[1..], side, i);
    }
  }

  /** After a write that failed the send loop never writes again, whatever happens: it replies,
      closes the stream and leaves. */
  lemma FailedWriteIsLast(s: System, side: Side, w: Write, steps: seq<Step>, i: nat)
    requires var step := Step(side, OfSender(DoWrite(w)));
      w.WriteErr? && Enabled(s, step) && Valid(Apply(s, step), steps)
    ensures var after := Apply(s, Step(side, OfSender(DoWrite(w))));
      && Leaving(Exec(after, steps).At(side).tx.sender)
      && Puts(Exec(after, steps).At(side).tx.put, i) == Puts(after.At(side).tx.put, i)
  {
    RunLeaving(Apply(s, Step(side, OfSender(DoWrite(w)))), steps, side, i);
  }

  // ---------- Where errors come from ----------

  /** `stored` holds of every error this step may close the stream with, `write` of every error
      of a write. */
  predicate Allows(step: Step, side: Side, stored: Error -> bool, write: Error -> bool) {
    step.side == side ==>
      match step.act
      case OfSender(DoWrite(WriteErr(e, _))) => write(e) && stored(Rephrase(e))
      case OfReceiver(RecvErr(e)) => stored(Rephrase(e))
      case Close(e) => stored(if e.Some? then e.value else EOF)
      case _ => true
  }

  /** An error a call may be answered with: that of a write, or that its message has no place on
      the wire. */
  predicate Answer(side: Side, m: Msg, e: Error, write: Error -> bool) {
    write(e) || (e == BadParameter && Wrap(side, m).None?)
  }

  predicate CallErrors(side: Side, c: Call, write: Error -> bool) {
    && (forall k :: 0 <= k < |c.errC| && c.errC[k].Some? ==> Answer(side, c.msg, c.errC[k].value, write))
    && (c.phase.Returned? && c.phase.result.SendFailed? ==> Answer(side, c.msg, c.phase.result.error, write))
  }

  predicate LoopErrors(side: Side, n: Node, stored: Error -> bool, write: Error -> bool) {
    && (n.life.err.Some? ==> stored(n.life.err.value))
    && (n.tx.sender.Stopping? ==> stored(n.tx.sender.error))
    && (n.rx.receiver.Failing? ==> stored(n.rx.receiver.error))
    && (n.tx.sender.Replying? && n.tx.sender.reply.Some? ==>
         && n.tx.sender.id < |n.tx.calls|
         && Answer(side, n.tx.calls[n.tx.sender.id].msg, n.tx.sender.reply.value, write)
         && (n.tx.sender.fatal ==> stored(Rephrase(n.tx.sender.reply.value))))
  }

  predicate NodeErrors(side: Side, n: Node, stored: Error -> bool, write: Error -> bool) {
    && LoopErrors(side, n, stored, write)
    && forall i :: 0 <= i < |n.tx.calls| ==> CallErrors(side, n.tx.calls[i], write)
  }

  lemma CallerErrors(side: Side, n: Node, st: CallerStep, stored: Error -> bool, write: Error -> bool)
    requires NodeErrors(side, n, stored, write) && CallerEnabled(n, st)
    ensures NodeErrors(side, n.(tx := CallerApply(side, n, st)), stored, write)
  {
    var tx' := CallerApply(side, n, st);
    forall i | 0 <= i < |tx'.calls| ensures CallErrors(side, tx'.calls[i], write) {
      if i < |n.tx.calls| {
        assert CallErrors(side, n.tx.calls[i], write);
      }
    }
  }

  lemma SenderErrors(side: Side, n: Node, st: SenderStep, stored: Error -> bool, write: Error -> bool)
    requires NodeErrors(side, n, stored, write) && SenderEnabled(n, st)
    requires n.tx.sender.Writing? ==> n.tx.sender.id < |n.tx.calls|
    requires Allows(Step(side, OfSender(st)), side, stored, write)
    ensures NodeErrors(side, SenderApply(n, st), stored, write)
  {
    var n' := SenderApply(n, st);
    forall i | 0 <= i < |n'.tx.calls| ensures CallErrors(side, n'.tx.calls[i], write) {
      assert CallErrors(side, n.tx.calls[i], write);
    }
  }

  lemma StepNodeErrors(s: System, step: Step, side: Side, stored: Error -> bool, write: Error -> bool)
    requires Inv(s) && Enabled(s, step) && NodeErrors(side, s.At(side), stored, write)
    requires Allows(step, side, stored, write)
    ensures NodeErrors(side, Apply(s, step).At(side), stored, write)
  {
    if step.side == side {
      var n := s.At(side);
      assert NodeInv(side, n, s.At(Peer(side)).tx.put);
      match step.act
      case OfCaller(st) => CallerErrors(side, n, st, stored, write);
      case OfSender(st) => SenderErrors(side, n, st, stored, write);
      case _ => assert NextNode(s, step).tx.calls == n.tx.calls;
    }
  }

  lemma {:induction false} RunErrors(
    s: System, steps: seq<Step>, side: Side, stored: Error -> bool, write: Error -> bool)
    requires Inv(s) && Valid(s, steps) && NodeErrors(side, s.At(side), stored, write)
    requires forall k :: 0 <= k < |steps| ==> Allows(steps[k], side, stored, write)
    ensures NodeErrors(side, Exec(s, steps).At(side), stored, write)
    decreases |steps|
  {
    if steps != [] {
      StepNodeErrors(s, steps[0], side, stored, write);
      StepInv(s, steps[0]);
      RunErrors(Apply(s, steps[0]), steps[1..], side, stored, write);
    }
  }

  /** No error is made up. Whatever holds of the errors a run closes a side with, of the errors
      it receives there and of those of its writes, holds of the error that side is closed with;
      and whatever holds of its write errors holds of the errors its calls return, except that a
      message without a place on the wire is answered with a bad-parameter error. */
  lemma ErrorsHaveCauses(steps: seq<Step>, side: Side, stored: Error -> bool, write: Error -> bool)
    requires Valid(System(FRESH, FRESH), steps)
    requires forall k :: 0 <= k < |steps| ==> Allows(steps[k], side, stored, write)
    ensures var n := Exec(System(FRESH, FRESH), steps).At(side);
      && (n.life.err.Some? ==> stored(n.life.err.value))
      && forall i :: 0 <= i < |n.tx.calls| ==> CallErrors(side, n.tx.calls[i], write)
  {
    InitInv();
    RunErrors(System(FRESH, FRESH), steps, side, stored, write);
  }
}
