/** One connection in full: the client's single buffer, the message on its way, the server's single buffer and its
    one posted receive, and the completions the client waits for, under every interleaving of their steps. */
module HandOff {

  /** A request; `asks` tells whether it is answered. */
  datatype Request = Request(id: nat, asks: bool)

  /** What a buffer holds. Both sides use one buffer for requests, replies and received packets. */
  datatype Cell = Blank | Asked(req: Request) | Answer(id: nat)

  datatype Completion = Sent | Received

  datatype Call = Idle | Packet(req: Request) | Direct

  datatype State = State(
    // client
    call: Call,                 // the call in progress
    awaited: nat,               // completions it still waits for
    near: Cell,                 // the client's buffer
    receives: nat,              // receives the client has posted
    queue: seq<Completion>,     // its completion queue
    // between the two
    onWire: bool,               // a posted send, not yet delivered
    unacknowledged: bool,       // delivered, its completion not yet reported
    direct: bool,               // a direct access under way
    replying: bool,             // a posted reply, not yet delivered
    // server
    far: Cell,                  // the server's buffer
    posted: nat,                // receives the server has posted
    arrived: nat,               // receive completions not yet handled
    unposted: nat,              // handled, the receive not yet posted again
    // history
    submitted: seq<Request>, handled: seq<Cell>, results: seq<(Request, Cell)>)

  datatype Step =
    | Submit(req: Request)      // write the request, post a receive if it asks, post the send
    | Access                    // post a direct read or write
    | Deliver | Acknowledge | Handle | Repost | DeliverReply | Finish
    | Poll(n: nat)              // take one or two completions

  const Start := State(Idle, 0, Blank, 1, [], false, false, false, false, Blank, 1, 0, 0, [], [], [])

  function Min(a: nat, b: nat): nat {
    if a <= b then a else b
  }

  function Count(q: seq<Completion>): nat {
    if q == [] then 0 else (if q[0] == Received then 1 else 0) + Count(q[1..])
  }

  predicate Enabled(s: State, step: Step) {
    match step
    case Submit(_) => s.call == Idle
    case Access => s.call == Idle
    case Deliver => s.onWire && s.posted > 0
    case Acknowledge => s.unacknowledged
    case Handle => s.arrived > 0
    case Repost => s.unposted > 0
    case DeliverReply => s.replying && s.receives > 0
    case Finish => s.direct
    case Poll(n) => s.awaited > 0 && 1 <= n <= 2 && n <= |s.queue|
  }

  /** `capacity` is how many receives the client's queue holds; posting beyond it fails and changes nothing. */
  function Apply(capacity: nat, s: State, step: Step): State
    requires Enabled(s, step)
  {
    match step
    case Submit(req) =>
      s.(call := Packet(req), awaited := if req.asks then 2 else 1, near := Asked(req),
         receives := if req.asks then Min(capacity, s.receives + 1) else s.receives,
         onWire := true, submitted := s.submitted + [req])
    case Access =>
      s.(call := Direct, awaited := 1, near := Blank, direct := true)
    case Deliver =>
      s.(far := s.near, onWire := false, unacknowledged := true, posted := s.posted - 1, arrived := s.arrived + 1)
    case Acknowledge =>
      s.(unacknowledged := false, queue := s.queue + [Sent])
    case Handle =>
      var asks := s.far.Asked? && s.far.req.asks;
      s.(handled := s.handled + [s.far], far := if asks then Answer(s.far.req.id) else s.far,
         replying := s.replying || asks, arrived := s.arrived - 1, unposted := s.unposted + 1)
    case Repost =>
      s.(posted := s.posted + 1, unposted := s.unposted - 1)
    case DeliverReply =>
      s.(near := s.far, replying := false, receives := s.receives - 1, queue := s.queue + [Received])
    case Finish =>
      s.(direct := false, queue := s.queue + [Sent])
    case Poll(n) =>
      var left := if n >= s.awaited then 0 else s.awaited - n;
      s.(awaited := left, queue := s.queue[n..], receives := Min(capacity, s.receives + Count(s.queue[..n])),
         call := if left == 0 then Idle else s.call,
         results := if left == 0 && s.call.Packet? && s.call.req.asks then s.results + [(s.call.req, s.near)]
                    else s.results)
  }

  function AllAsked(rs: seq<Request>): seq<Cell> {
    seq(|rs|, i requires 0 <= i < |rs| => Asked(rs[i]))
  }

  /** The requests that are answered, in order. */
  function Asking(rs: seq<Request>): seq<Request> {
    if rs == [] then []
    else Asking(rs[..|rs| - 1]) + if rs[|rs| - 1].asks then [rs[|rs| - 1]] else []
  }

  function Answered(results: seq<(Request, Cell)>): seq<Request> {
    seq(|results|, i requires 0 <= i < |results| => results[i].0)
  }

  /** The current call is a request that will be answered and whose answer has not reached the client. */
  predicate AnswerDue(s: State) {
    s.replying || (s.onWire && s.near.Asked? && s.near.req.asks) || (s.arrived > 0 && s.far.Asked? && s.far.req.asks)
  }

  function One(b: bool): nat {
    if b then 1 else 0
  }

  ghost predicate Inv(s: State) {
    // one receive on the server, in one of three places
    && s.posted + s.arrived + s.unposted == 1
    // every request handled or still in exactly one buffer, in order
    && s.handled + (if s.arrived > 0 then [s.far] else []) + (if s.onWire then [s.near] else []) ==
       AllAsked(s.submitted)
    // the completions still to come are the ones still awaited
    && s.awaited == |s.queue| + One(s.onWire) + One(s.unacknowledged) + One(s.direct) + One(AnswerDue(s))
    && (s.call == Idle <==> s.awaited == 0)
    // what is under way belongs to the current call
    && (s.onWire ==> s.call.Packet? && s.near == Asked(s.call.req) && !s.unacknowledged && !s.replying)
    && (s.direct ==> s.call == Direct)
    && (s.arrived > 0 ==> s.far.Asked? && !s.replying)
    && (s.arrived > 0 && s.far.req.asks ==> s.call == Packet(s.far.req) && !s.onWire)
    && (s.replying ==> s.call.Packet? && s.call.req.asks && s.far == Answer(s.call.req.id))
    // an answer that is no longer due is in the client's buffer
    && (s.call.Packet? && s.call.req.asks && !AnswerDue(s) ==> s.near == Answer(s.call.req.id))
    && (s.call.Packet? && !s.call.req.asks ==> !AnswerDue(s))
    && (s.call == Direct ==> !AnswerDue(s) && !s.unacknowledged)
    // a receive is there when a reply is due
    && s.receives + Count(s.queue) >= 1 && (AnswerDue(s) ==> Count(s.queue) == 0)
    // every call that asked has its result, in order, and got its own answer
    && Answered(s.results) + (if s.call.Packet? && s.call.req.asks then [s.call.req] else []) == Asking(s.submitted)
    && (forall i {:trigger s.results[i]} :: 0 <= i < |s.results| ==> s.results[i].1 == Answer(s.results[i].0.id))
  }

  // ---------- Every step keeps it ----------

  lemma {:induction false} CountSplit(a: seq<Completion>, b: seq<Completion>)
    ensures Count(a + b) == Count(a) + Count(b)
  {
    if a == [] {
      assert a + b == b;
    } else {
      CountSplit(a[1..], b);
      assert (a + b)[1..] == a[1..] + b;
    }
  }

  lemma AllAskedSnoc(rs: seq<Request>, r: Request)
    ensures AllAsked(rs + [r]) == AllAsked(rs) + [Asked(r)]
  {
  }

  lemma ClientStepKeepsInv(capacity: nat, s: State, step: Step)
    requires capacity >= 1 && Inv(s) && Enabled(s, step) && (step.Submit? || step.Access?)
    ensures Inv(Apply(capacity, s, step))
  {
    if step.Submit? {
      AllAskedSnoc(s.submitted, step.req);
      assert (s.submitted + [step.req])[..|s.submitted|] == s.submitted;
    }
  }

  lemma NetworkStepKeepsInv(capacity: nat, s: State, step: Step)
    requires capacity >= 1 && Inv(s) && Enabled(s, step)
    requires step.Deliver? || step.Acknowledge? || step.DeliverReply? || step.Finish?
    ensures Inv(Apply(capacity, s, step))
  {
    if step != Deliver {
      CountSplit(s.queue, [if step == DeliverReply then Received else Sent]);
    }
  }

  lemma ServerStepKeepsInv(capacity: nat, s: State, step: Step)
    requires capacity >= 1 && Inv(s) && Enabled(s, step) && (step.Handle? || step.Repost?)
    ensures Inv(Apply(capacity, s, step))
  {
    if step == Handle {
      assert s.handled + [s.far] + (if s.onWire then [s.near] else []) == AllAsked(s.submitted);
    }
  }

  lemma PollKeepsInv(capacity: nat, s: State, n: nat)
    requires capacity >= 1 && Inv(s) && Enabled(s, Poll(n))
    ensures Inv(Apply(capacity, s, Poll(n)))
  {
    CountSplit(s.queue[..n], s.queue[n..]);
    assert s.queue == s.queue[..n] + s.queue[n..];
  }

  lemma StepKeepsInv(capacity: nat, s: State, step: Step)
    requires capacity >= 1 && Inv(s) && Enabled(s, step)
    ensures Inv(Apply(capacity, s, step))
  {
    match step
    case Submit(_) => ClientStepKeepsInv(capacity, s, step);
    case Access => ClientStepKeepsInv(capacity, s, step);
    case Handle => ServerStepKeepsInv(capacity, s, step);
    case Repost => ServerStepKeepsInv(capacity, s, step);
    case Poll(n) => PollKeepsInv(capacity, s, n);
    case _ => NetworkStepKeepsInv(capacity, s, step);
  }

  // ---------- Whole runs ----------

  ghost predicate IsRun(capacity: nat, states: seq<State>, steps: seq<Step>) {
    && |states| == |steps| + 1 && states[0] == Start
    && forall i {:trigger steps[i]} :: 0 <= i < |steps| ==>
         Enabled(states[i], steps[i]) && states[i + 1] == Apply(capacity, states[i], steps[i])
  }

  lemma {:induction false} RunKeepsInv(capacity: nat, states: seq<State>, steps: seq<Step>, i: nat)
    requires capacity >= 1 && IsRun(capacity, states, steps) && i < |states|
    ensures Inv(states[i])
  {
    if i > 0 {
      RunKeepsInv(capacity, states, steps, i - 1);
      StepKeepsInv(capacity, states[i - 1], steps[i - 1]);
    } else {
      assert AllAsked([]) == [];
    }
  }

  /** Requests are handled in the order they were made, each once; at most two are outstanding. */
  lemma HandledInOrder(capacity: nat, states: seq<State>, steps: seq<Step>, i: nat)
    requires capacity >= 1 && IsRun(capacity, states, steps) && i < |states|
    ensures var s := states[i];
            && s.handled <= AllAsked(s.submitted) && |s.submitted| <= |s.handled| + 2
            && (s.call == Idle ==> |s.submitted| <= |s.handled| + 1)
  {
    RunKeepsInv(capacity, states, steps, i);
  }

  /** A delivery never overwrites a request that is not handled yet, nor a reply the client has not received. */
  lemma DeliveryOverwritesNothing(capacity: nat, states: seq<State>, steps: seq<Step>, i: nat)
    requires capacity >= 1 && IsRun(capacity, states, steps) && i < |steps| && steps[i] == Deliver
    ensures states[i].arrived == 0 && !states[i].replying
  {
    RunKeepsInv(capacity, states, steps, i);
  }

  /** Each call waits for exactly the completions it causes: none is left when the next call starts, nothing is under
      way, and every answered call has found its own answer in the buffer. */
  lemma CallsAreBalanced(capacity: nat, states: seq<State>, steps: seq<Step>, i: nat)
    requires capacity >= 1 && IsRun(capacity, states, steps) && i < |states|
    ensures var s := states[i];
            && (s.call == Idle ==>
                  s.queue == [] && !s.onWire && !s.unacknowledged && !s.direct && !s.replying && s.receives >= 1)
            && (s.replying ==> s.receives >= 1)
            && (s.call == Idle ==> Answered(s.results) == Asking(s.submitted))
            && forall k {:trigger s.results[k]} :: 0 <= k < |s.results| ==> s.results[k].1 == Answer(s.results[k].0.id)
  {
    RunKeepsInv(capacity, states, steps, i);
    assert states[i].queue == [] ==> Count(states[i].queue) == 0;
  }

  // ---------- Every call ends ----------

  /** An upper bound on the steps left before the client is idle and the server has posted its receive. */
  function Work(s: State): nat {
    8 * One(s.onWire) + 4 * s.arrived + s.unposted + 2 * One(s.unacknowledged) + 2 * One(s.replying)
    + 2 * One(s.direct) + |s.queue|
  }

  /** While a call is in progress some step can be taken; every step but the start of a call brings its end nearer. */
  lemma CallsEnd(capacity: nat, states: seq<State>, steps: seq<Step>, i: nat, step: Step)
    requires capacity >= 1 && IsRun(capacity, states, steps) && i < |states|
    ensures states[i].call != Idle ==> exists next: Step ::
              && next in {Deliver, Acknowledge, Handle, Repost, DeliverReply, Finish, Poll(1)}
              && Enabled(states[i], next)
    ensures Enabled(states[i], step) && !step.Submit? && !step.Access? ==>
              Work(Apply(capacity, states[i], step)) < Work(states[i])
  {
    var s := states[i];
    RunKeepsInv(capacity, states, steps, i);
    if s.call != Idle {
      var next := if s.queue != [] then Poll(1) else if s.unacknowledged then Acknowledge else if s.direct then Finish
                  else if s.replying then DeliverReply else if s.arrived > 0 then Handle
                  else if s.unposted > 0 then Repost else Deliver;
      assert Enabled(s, next);
    }
  }

  // ---------- The client's receives ----------

  /** Receives posted or completed and not yet seen: one more for each request that asks, up to what the queue holds. */
  predicate ReceivesCounted(capacity: nat, s: State) {
    s.receives + Count(s.queue) == Min(capacity, 1 + |Asking(s.submitted)|)
  }

  lemma ReceivesStay(capacity: nat, s: State, step: Step)
    requires capacity >= 1 && Inv(s) && Enabled(s, step) && ReceivesCounted(capacity, s)
    ensures ReceivesCounted(capacity, Apply(capacity, s, step))
  {
    match step
    case Submit(req) => assert (s.submitted + [req])[..|s.submitted|] == s.submitted;
    case Acknowledge => CountSplit(s.queue, [Sent]);
    case DeliverReply => CountSplit(s.queue, [Received]);
    case Finish => CountSplit(s.queue, [Sent]);
    case Poll(n) =>
      CountSplit(s.queue[..n], s.queue[n..]);
      assert s.queue == s.queue[..n] + s.queue[n..];
    case _ =>
  }

  /** Over every run the client posts one receive for each request that asks, as long as the queue has room, and gets
      one back for each that completes; it never holds more than the queue does. */
  lemma {:induction false} ReceivesOverRun(capacity: nat, states: seq<State>, steps: seq<Step>, i: nat)
    requires capacity >= 1 && IsRun(capacity, states, steps) && i < |states|
    ensures ReceivesCounted(capacity, states[i]) && states[i].receives <= capacity
  {
    if i > 0 {
      ReceivesOverRun(capacity, states, steps, i - 1);
      RunKeepsInv(capacity, states, steps, i - 1);
      ReceivesStay(capacity, states[i - 1], steps[i - 1]);
    }
  }

  // ---------- Runs that there are ----------

  predicate CanRun(capacity: nat, s: State, steps: seq<Step>)
    decreases |steps|
  {
    steps == [] || (Enabled(s, steps[0]) && CanRun(capacity, Apply(capacity, s, steps[0]), steps[1..]))
  }

  function EndOf(capacity: nat, s: State, steps: seq<Step>): State
    requires CanRun(capacity, s, steps)
    decreases |steps|
  {
    if steps == [] then s else EndOf(capacity, Apply(capacity, s, steps[0]), steps[1..])
  }

  lemma OneStep(capacity: nat, s: State, step: Step, rest: seq<Step>)
    requires Enabled(s, step) && CanRun(capacity, Apply(capacity, s, step), rest)
    ensures CanRun(capacity, s, [step] + rest)
    ensures EndOf(capacity, s, [step] + rest) == EndOf(capacity, Apply(capacity, s, step), rest)
  {
    assert ([step] + rest)[0] == step && ([step] + rest)[1..] == rest;
  }

  /** An idle connection, both sides with one receive posted. */
  predicate AtEase(s: State) {
    && s.call == Idle && s.awaited == 0 && s.queue == [] && s.receives >= 1
    && !s.onWire && !s.unacknowledged && !s.direct && !s.replying && s.posted == 1 && s.arrived == 0 && s.unposted == 0
  }

  /** A request that asks can be answered with its send's completion first and both completions taken at once, or with
      the reply first and the completions taken one by one; its answer is found either way. */
  lemma AnswersEitherWay(capacity: nat, s: State, req: Request)
    requires capacity >= 1 && AtEase(s) && req.asks
    ensures var a := [Submit(req), Deliver, Acknowledge, Handle, Repost, DeliverReply, Poll(2)];
            && CanRun(capacity, s, a) && AtEase(EndOf(capacity, s, a))
            && EndOf(capacity, s, a).results == s.results + [(req, Answer(req.id))]
    ensures var b := [Submit(req), Deliver, Handle, DeliverReply, Acknowledge, Poll(1), Poll(1), Repost];
            && CanRun(capacity, s, b) && AtEase(EndOf(capacity, s, b))
            && EndOf(capacity, s, b).results == s.results + [(req, Answer(req.id))]
  {
    SendFirst(capacity, s, req);
    ReplyFirst(capacity, s, req);
  }

  /** A request that asks has been delivered to a connection at ease. */
  function Delivered(capacity: nat, s: State, req: Request): State
    requires s.posted > 0
  {
    s.(call := Packet(req), awaited := 2, near := Asked(req), far := Asked(req), posted := s.posted - 1,
       receives := Min(capacity, s.receives + 1), unacknowledged := true, arrived := s.arrived + 1,
       submitted := s.submitted + [req])
  }

  lemma Delivers(capacity: nat, s: State, req: Request, rest: seq<Step>)
    requires AtEase(s) && req.asks && CanRun(capacity, Delivered(capacity, s, req), rest)
    ensures CanRun(capacity, s, [Submit(req), Deliver] + rest)
    ensures EndOf(capacity, s, [Submit(req), Deliver] + rest) == EndOf(capacity, Delivered(capacity, s, req), rest)
  {
    var s1 := Apply(capacity, s, Submit(req));
    OneStep(capacity, s1, Deliver, rest);
    OneStep(capacity, s, Submit(req), [Deliver] + rest);
    assert [Submit(req), Deliver] + rest == [Submit(req)] + ([Deliver] + rest);
  }

  lemma SendFirst(capacity: nat, s: State, req: Request)
    requires capacity >= 1 && AtEase(s) && req.asks
    ensures var a := [Submit(req), Deliver, Acknowledge, Handle, Repost, DeliverReply, Poll(2)];
            && CanRun(capacity, s, a) && AtEase(EndOf(capacity, s, a))
            && EndOf(capacity, s, a).results == s.results + [(req, Answer(req.id))]
  {
    var s2 := Delivered(capacity, s, req);
    SendFirstFrom(capacity, s2, s.results, req);
    Delivers(capacity, s, req, [Acknowledge, Handle, Repost, DeliverReply, Poll(2)]);
    assert [Submit(req), Deliver] + [Acknowledge, Handle, Repost, DeliverReply, Poll(2)] ==
           [Submit(req), Deliver, Acknowledge, Handle, Repost, DeliverReply, Poll(2)];
  }

  /** Just delivered, nothing else under way. */
  predicate JustDelivered(s: State, req: Request) {
    && s.call == Packet(req) && s.awaited == 2 && s.queue == [] && s.receives >= 1 && s.far == Asked(req)
    && !s.onWire && s.unacknowledged && !s.direct && !s.replying && s.posted == 0 && s.arrived == 1 && s.unposted == 0
  }

  lemma SendFirstFrom(capacity: nat, s2: State, results: seq<(Request, Cell)>, req: Request)
    requires capacity >= 1 && JustDelivered(s2, req) && req.asks && s2.results == results
    ensures var a := [Acknowledge, Handle, Repost, DeliverReply, Poll(2)];
            && CanRun(capacity, s2, a) && AtEase(EndOf(capacity, s2, a))
            && EndOf(capacity, s2, a).results == results + [(req, Answer(req.id))]
  {
    var s3 := Apply(capacity, s2, Acknowledge);
    var s4 := Apply(capacity, s3, Handle);
    var s5 := Apply(capacity, s4, Repost);
    var s6 := Apply(capacity, s5, DeliverReply);
    assert s6.queue == [Sent, Received];
    TwoTaken(s6.queue);
    var s7 := Apply(capacity, s6, Poll(2));
    assert CanRun(capacity, s7, []) && EndOf(capacity, s7, []) == s7;
    OneStep(capacity, s6, Poll(2), []);
    OneStep(capacity, s5, DeliverReply, [Poll(2)]);
    OneStep(capacity, s4, Repost, [DeliverReply, Poll(2)]);
    OneStep(capacity, s3, Handle, [Repost, DeliverReply, Poll(2)]);
    OneStep(capacity, s2, Acknowledge, [Handle, Repost, DeliverReply, Poll(2)]);
  }

  lemma TwoTaken(q: seq<Completion>)
    requires q == [Sent, Received]
    ensures q[..2] == q && q[2..] == [] && Count(q) == 1
  {
    CountSplit([Sent], [Received]);
    OneTaken([Sent]);
    OneTaken([Received]);
    assert [Sent][..1] == [Sent] && [Received][..1] == [Received] && [Sent] + [Received] == q;
  }

  lemma ReplyFirst(capacity: nat, s: State, req: Request)
    requires capacity >= 1 && AtEase(s) && req.asks
    ensures var b := [Submit(req), Deliver, Handle, DeliverReply, Acknowledge, Poll(1), Poll(1), Repost];
            && CanRun(capacity, s, b) && AtEase(EndOf(capacity, s, b))
            && EndOf(capacity, s, b).results == s.results + [(req, Answer(req.id))]
  {
    var s2 := Delivered(capacity, s, req);
    ReplyFirstFrom(capacity, s2, s.results, req);
    Delivers(capacity, s, req, [Handle, DeliverReply, Acknowledge, Poll(1), Poll(1), Repost]);
    assert [Submit(req), Deliver] + [Handle, DeliverReply, Acknowledge, Poll(1), Poll(1), Repost] ==
           [Submit(req), Deliver, Handle, DeliverReply, Acknowledge, Poll(1), Poll(1), Repost];
  }

  lemma ReplyFirstFrom(capacity: nat, s2: State, results: seq<(Request, Cell)>, req: Request)
    requires capacity >= 1 && JustDelivered(s2, req) && req.asks && s2.results == results
    ensures var b := [Handle, DeliverReply, Acknowledge, Poll(1), Poll(1), Repost];
            && CanRun(capacity, s2, b) && AtEase(EndOf(capacity, s2, b))
            && EndOf(capacity, s2, b).results == results + [(req, Answer(req.id))]
  {
    var s3 := Apply(capacity, s2, Handle);
    var s4 := Apply(capacity, s3, DeliverReply);
    var s5 := Apply(capacity, s4, Acknowledge);
    assert s5.queue == [Received, Sent];
    OneTaken(s5.queue);
    var s6 := Apply(capacity, s5, Poll(1));
    assert s6.queue == [Sent];
    OneTaken(s6.queue);
    var s7 := Apply(capacity, s6, Poll(1));
    var s8 := Apply(capacity, s7, Repost);
    assert CanRun(capacity, s8, []) && EndOf(capacity, s8, []) == s8;
    OneStep(capacity, s7, Repost, []);
    OneStep(capacity, s6, Poll(1), [Repost]);
    OneStep(capacity, s5, Poll(1), [Poll(1), Repost]);
    OneStep(capacity, s4, Acknowledge, [Poll(1), Poll(1), Repost]);
    OneStep(capacity, s3, DeliverReply, [Acknowledge, Poll(1), Poll(1), Repost]);
    OneStep(capacity, s2, Handle, [DeliverReply, Acknowledge, Poll(1), Poll(1), Repost]);
  }

  lemma OneTaken(q: seq<Completion>)
    requires q != []
    ensures Count(q[..1]) == if q[0] == Received then 1 else 0
  {
    assert q[..1] == [q[0]] && [q[0]][1..] == [];
  }

  /** A request that does not ask returns before the server has handled it. The next one is then on its way, but is
      delivered only once the first has been handled and its receive posted again. */
  lemma ReturnsUnhandled(capacity: nat, s: State, first: Request, next: Request)
    requires capacity >= 1 && AtEase(s) && !first.asks
    ensures var a := [Submit(first), Deliver, Acknowledge, Poll(1), Submit(next)];
            && CanRun(capacity, s, a)
            && var t := EndOf(capacity, s, a);
               && t.handled == s.handled && t.far == Asked(first) && t.near == Asked(next) && t.onWire
               && !Enabled(t, Deliver) && CanRun(capacity, t, [Handle, Repost, Deliver])
               && EndOf(capacity, t, [Handle, Repost, Deliver]).far == Asked(next)
  {
    var s1 := Apply(capacity, s, Submit(first));
    var s2 := Apply(capacity, s1, Deliver);
    var s3 := Apply(capacity, s2, Acknowledge);
    assert s3.queue == [Sent];
    var s4 := Apply(capacity, s3, Poll(1));
    var t := Apply(capacity, s4, Submit(next));
    assert CanRun(capacity, t, []) && EndOf(capacity, t, []) == t;
    OneStep(capacity, s4, Submit(next), []);
    OneStep(capacity, s3, Poll(1), [Submit(next)]);
    OneStep(capacity, s2, Acknowledge, [Poll(1), Submit(next)]);
    OneStep(capacity, s1, Deliver, [Acknowledge, Poll(1), Submit(next)]);
    OneStep(capacity, s, Submit(first), [Deliver, Acknowledge, Poll(1), Submit(next)]);
    var t1 := Apply(capacity, t, Handle);
    var t2 := Apply(capacity, t1, Repost);
    var t3 := Apply(capacity, t2, Deliver);
    assert CanRun(capacity, t3, []) && EndOf(capacity, t3, []) == t3;
    OneStep(capacity, t2, Deliver, []);
    OneStep(capacity, t1, Repost, [Deliver]);
    OneStep(capacity, t, Handle, [Repost, Deliver]);
  }

  /** A direct access takes one completion and leaves the server alone. */
  lemma AccessesReturn(capacity: nat, s: State)
    requires capacity >= 1 && AtEase(s)
    ensures CanRun(capacity, s, [Access, Finish, Poll(1)])
    ensures var t := EndOf(capacity, s, [Access, Finish, Poll(1)]);
            AtEase(t) && t.far == s.far && t.handled == s.handled
            && t.results == s.results && t.submitted == s.submitted
  {
    var s1 := Apply(capacity, s, Access);
    var s2 := Apply(capacity, s1, Finish);
    assert s2.queue == [Sent];
    var t := Apply(capacity, s2, Poll(1));
    assert CanRun(capacity, t, []) && EndOf(capacity, t, []) == t && t.queue == [];
    OneStep(capacity, s2, Poll(1), []);
    OneStep(capacity, s1, Finish, [Poll(1)]);
    OneStep(capacity, s, Access, [Finish, Poll(1)]);
  }
}
