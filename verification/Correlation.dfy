/**
 Matching responses to requests: a session keeps one queue of responses per token it waits for.
 */
module Correlation {
  import opened Sequences
  import opened VarInt

  type Token = seq<byte>

  /** A response; one read from a received PDU always carries that PDU's token. */
  datatype Response = Response(token: Option<Token>, body: nat)

  type Queues = map<Token, seq<Response>>

  /** What reading a received PDU as a response ends with. */
  datatype Reading = Parsed(body: nat) | Malformed | Panics

  /** What happens to a session. `sent` tells whether the message could be converted and sent. */
  datatype Op =
    | Send(token: Token, sent: bool)
    | Poll(token: Token)
    | Remove(token: Token)
    | Receive(token: Token, reading: Reading)

  /** What an operation hands out: a batch taken from a queue, or whether a PDU was accepted; or it panics. */
  datatype Effect =
    | Sent(handle: Option<Token>, replaced: seq<Response>)
    | Polled(batch: Option<seq<Response>>)
    | Removed(discarded: seq<Response>)
    | Answered(ok: bool)
    | Panicked

  /** The responses waiting for a token, none when the token is not waited for. */
  function Queue(q: Queues, t: Token): seq<Response> {
    if t in q then q[t] else []
  }

  function Push(q: Queues, r: Response): Queues {
    if r.token.Some? && r.token.value in q then q[r.token.value := q[r.token.value] + [r]] else q
  }

  function Apply(q: Queues, op: Op): (Queues, Effect) {
    match op
    case Send(t, sent) => (q[t := []], Sent(if sent then Some(t) else None, Queue(q, t)))
    case Poll(t) => (q[t := []], Polled(if t in q then Some(q[t]) else None))
    case Remove(t) => (q - {t}, Removed(Queue(q, t)))
    case Receive(t, reading) =>
      if t !in q then (q, Answered(false))
      else
        match reading
        case Parsed(body) => (Push(q, Response(Some(t), body)), Answered(true))
        case Malformed => (q, Answered(false))
        case Panics => (q, Panicked)
  }

  // ---------------------------------------------------------------- runs and their history

  function After(q: Queues, ops: seq<Op>): Queues {
    if ops == [] then q else Apply(After(q, ops[..|ops| - 1]), ops[|ops| - 1]).0
  }

  /** The effect of the k-th operation. */
  function EffectAt(q: Queues, ops: seq<Op>, k: nat): Effect
    requires k < |ops|
  {
    Apply(After(q, ops[..k]), ops[k]).1
  }

  /** The response that one operation gets acknowledged to libcoap with OK, if it is for `t`. */
  function AcceptedBy(q: Queues, op: Op, t: Token): seq<Response> {
    if op.Receive? && op.token == t && op.reading.Parsed? && Apply(q, op).1 == Answered(true)
    then [Response(Some(t), op.reading.body)] else []
  }

  /** The responses for `t` that one operation hands to the application. */
  function DeliveredBy(q: Queues, op: Op, t: Token): seq<Response> {
    if op == Poll(t) && Apply(q, op).1.batch.Some? then Apply(q, op).1.batch.value else []
  }

  /** Like `DeliveredBy`, counting also what a repeated send or a removal throws away. */
  function TakenBy(q: Queues, op: Op, t: Token): seq<Response> {
    if op.token != t then []
    else match Apply(q, op).1
      case Sent(_, replaced) => replaced
      case Polled(batch) => if batch.Some? then batch.value else []
      case Removed(discarded) => discarded
      case Answered(_) => []
      case Panicked => []
  }

  // The same over a whole run, oldest first.

  function Accepted(q: Queues, ops: seq<Op>, t: Token): seq<Response> {
    if ops == [] then []
    else Accepted(q, ops[..|ops| - 1], t) + AcceptedBy(After(q, ops[..|ops| - 1]), ops[|ops| - 1], t)
  }

  function Delivered(q: Queues, ops: seq<Op>, t: Token): seq<Response> {
    if ops == [] then []
    else Delivered(q, ops[..|ops| - 1], t) + DeliveredBy(After(q, ops[..|ops| - 1]), ops[|ops| - 1], t)
  }

  function TakenOut(q: Queues, ops: seq<Op>, t: Token): seq<Response> {
    if ops == [] then []
    else TakenOut(q, ops[..|ops| - 1], t) + TakenBy(After(q, ops[..|ops| - 1]), ops[|ops| - 1], t)
  }

  lemma StepConserves(q: Queues, op: Op, t: Token)
    ensures Queue(q, t) + AcceptedBy(q, op, t) == TakenBy(q, op, t) + Queue(Apply(q, op).0, t)
  {
  }

  lemma Splice<T>(a: seq<T>, b: seq<T>, c: seq<T>, d: seq<T>, x: seq<T>, e: seq<T>, f: seq<T>)
    requires a + b == c + d && d + x == e + f
    ensures a + (b + x) == (c + e) + f
  {
    calc {
      a + (b + x);
      (a + b) + x;
      (c + d) + x;
      c + (d + x);
      c + (e + f);
      (c + e) + f;
    }
  }

  /**
   Conservation over every run from every state: what was queued or accepted for a token is, in that
   order, what was taken out for it followed by what is still queued.
   */
  lemma {:induction false} NothingLostOrDuplicated(q: Queues, ops: seq<Op>, t: Token)
    ensures Queue(q, t) + Accepted(q, ops, t) == TakenOut(q, ops, t) + Queue(After(q, ops), t)
  {
    if ops != [] {
      hide Queue, Apply, AcceptedBy, TakenBy;
      var n := |ops| - 1;
      var was := After(q, ops[..n]);
      NothingLostOrDuplicated(q, ops[..n], t);
      StepConserves(was, ops[n], t);
      Splice(Queue(q, t), Accepted(q, ops[..n], t), TakenOut(q, ops[..n], t), Queue(was, t),
             AcceptedBy(was, ops[n], t), TakenBy(was, ops[n], t), Queue(After(q, ops), t));
    }
  }

  /** The operation throws away responses for `t` that are still queued. */
  predicate Discards(q: Queues, op: Op, t: Token) {
    op.token == t && (op.Send? || op.Remove?) && Queue(q, t) != []
  }

  predicate DiscardsNothing(q: Queues, ops: seq<Op>, t: Token) {
    forall k :: 0 <= k < |ops| ==> !Discards(After(q, ops[..k]), ops[k], t)
  }

  lemma DiscardsNothingSnoc(q: Queues, ops: seq<Op>, t: Token)
    requires ops != []
    ensures var n := |ops| - 1;
            DiscardsNothing(q, ops, t)
            <==> DiscardsNothing(q, ops[..n], t) && !Discards(After(q, ops[..n]), ops[n], t)
  {
    hide Discards, After;
    var n := |ops| - 1;
    forall k | 0 <= k < n
      ensures ops[..n][k] == ops[k] && ops[..n][..k] == ops[..k]
    {
    }
  }

  lemma StepTakes(q: Queues, op: Op, t: Token)
    ensures Discards(q, op, t) ==> |DeliveredBy(q, op, t)| < |TakenBy(q, op, t)|
    ensures !Discards(q, op, t) ==> DeliveredBy(q, op, t) == TakenBy(q, op, t)
  {
  }

  lemma {:induction false} TakenAgainstDelivered(q: Queues, ops: seq<Op>, t: Token)
    ensures |Delivered(q, ops, t)| <= |TakenOut(q, ops, t)|
    ensures |Delivered(q, ops, t)| == |TakenOut(q, ops, t)| <==> DiscardsNothing(q, ops, t)
    ensures DiscardsNothing(q, ops, t) ==> TakenOut(q, ops, t) == Delivered(q, ops, t)
  {
    if ops != [] {
      hide DiscardsNothing, Discards, DeliveredBy, TakenBy, After;
      var n := |ops| - 1;
      TakenAgainstDelivered(q, ops[..n], t);
      DiscardsNothingSnoc(q, ops, t);
      StepTakes(After(q, ops[..n]), ops[n], t);
    }
  }

  /**
   Exactly-once delivery in order: after a request was sent, whatever happened before and to other
   tokens since, the responses polled for it followed by those still queued are the accepted ones.
   This holds exactly when no queued response has been thrown away since.
   */
  lemma ExactlyOnceSinceSend(q: Queues, before: seq<Op>, t: Token, sent: bool, since: seq<Op>)
    ensures var s := After(q, before + [Send(t, sent)]);
            && After(q, before + [Send(t, sent)] + since) == After(s, since)
            && (Delivered(s, since, t) + Queue(After(s, since), t) == Accepted(s, since, t)
                <==> DiscardsNothing(s, since, t))
  {
    hide DiscardsNothing;
    var first := before + [Send(t, sent)];
    var s := After(q, first);
    AfterConcat(q, first, since);
    assert first[..|first| - 1] == before;
    assert Queue(s, t) == [];
    NothingLostOrDuplicated(s, since, t);
    assert Queue(s, t) + Accepted(s, since, t) == Accepted(s, since, t);
    TakenAgainstDelivered(s, since, t);
    if Delivered(s, since, t) + Queue(After(s, since), t) == Accepted(s, since, t) {
      assert |Delivered(s, since, t)| == |TakenOut(s, since, t)|;
    }
  }

  lemma {:induction false} AfterConcat(q: Queues, a: seq<Op>, b: seq<Op>)
    ensures After(q, a + b) == After(After(q, a), b)
  {
    if b == [] {
      assert a + b == a;
    } else {
      var n := |b| - 1;
      assert (a + b)[..|a + b| - 1] == a + b[..n];
      AfterConcat(q, a, b[..n]);
    }
  }

  predicate NeverRemoved(ops: seq<Op>, t: Token) {
    forall k :: 0 <= k < |ops| ==> ops[k] != Remove(t)
  }

  lemma {:induction false} StaysRegistered(q: Queues, ops: seq<Op>, t: Token)
    requires t in q && NeverRemoved(ops, t)
    ensures t in After(q, ops)
  {
    if ops != [] {
      var n := |ops| - 1;
      assert ops[n] != Remove(t);
      StaysRegistered(q, ops[..n], t);
    }
  }

  /**
   What the handle of a successful send is good for: as long as its token is not removed, polling it
   never panics, and it completes the delivery of every response accepted since, unless one was
   thrown away by a repeated send.
   */
  lemma HandleDelivers(q: Queues, before: seq<Op>, t: Token, since: seq<Op>)
    requires NeverRemoved(since, t)
    ensures var handle := EffectAt(q, before + [Send(t, true)], |before|).handle;
            var s := After(q, before + [Send(t, true)]);
            && handle == Some(t)
            && var polled := EffectAt(s, since + [Poll(handle.value)], |since|);
               && polled.batch.Some?
               && (Delivered(s, since, t) + polled.batch.value == Accepted(s, since, t) <==> DiscardsNothing(s, since, t))
  {
    hide DiscardsNothing, Delivered, Accepted;
    var first := before + [Send(t, true)];
    var s := After(q, first);
    assert first[..|before|] == before;
    assert t in s;
    StaysRegistered(s, since, t);
    assert (since + [Poll(t)])[..|since|] == since;
    ExactlyOnceSinceSend(q, before, t, true, since);
  }

  // ---------------------------------------------------------------- which tokens are waited for

  /** The k-th operation makes the session wait for `t`, and nothing since has removed it. */
  predicate RegisteredAt(ops: seq<Op>, t: Token, k: nat) {
    && k < |ops| && ops[k].token == t && (ops[k].Send? || ops[k].Poll?)
    && forall j :: k < j < |ops| ==> ops[j] != Remove(t)
  }

  /** A token is waited for exactly when it was sent or polled and not removed since. */
  lemma {:induction false} WaitingExactly(ops: seq<Op>, t: Token)
    ensures t in After(map[], ops) <==> exists k: nat :: RegisteredAt(ops, t, k)
  {
    if ops != [] {
      var n := |ops| - 1;
      var prior := ops[..n];
      WaitingExactly(prior, t);
      if RegisteredAt(ops, t, n) {
        assert t in After(map[], ops);
      } else if ops[n] != Remove(t) {
        forall k: nat | k < n
          ensures RegisteredAt(ops, t, k) == RegisteredAt(prior, t, k)
        {
          assert forall j :: 0 <= j < n ==> prior[j] == ops[j];
        }
        if k: nat :| RegisteredAt(prior, t, k) {
          assert RegisteredAt(ops, t, k);
        }
        if k: nat :| RegisteredAt(ops, t, k) {
          assert RegisteredAt(prior, t, k);
        }
      } else {
        assert forall k: nat :: RegisteredAt(ops, t, k) ==> k == n;
      }
    }
  }

  /** Every poll of `t` returned instead of panicking. */
  predicate PollsValid(ops: seq<Op>, t: Token) {
    forall k :: 0 <= k < |ops| && ops[k] == Poll(t) ==> EffectAt(map[], ops, k).batch.Some?
  }

  /** As long as no poll panics, a token is waited for exactly when it was sent and not removed since. */
  lemma {:induction false} WaitingIffSent(ops: seq<Op>, t: Token)
    requires PollsValid(ops, t)
    ensures t in After(map[], ops) <==> exists k: nat :: RegisteredAt(ops, t, k) && ops[k].Send?
  {
    WaitingExactly(ops, t);
    if k: nat :| RegisteredAt(ops, t, k) {
      SentBefore(ops, t, k);
    }
  }

  lemma {:induction false} SentBefore(ops: seq<Op>, t: Token, k: nat)
    requires PollsValid(ops, t) && RegisteredAt(ops, t, k)
    ensures exists j: nat :: RegisteredAt(ops, t, j) && ops[j].Send?
    decreases k
  {
    if ops[k].Poll? {
      assert ops[k] == Poll(t) && EffectAt(map[], ops, k).batch.Some?;
      WaitingExactly(ops[..k], t);
      var i: nat :| RegisteredAt(ops[..k], t, i);
      forall j | i < j < |ops|
        ensures ops[j] != Remove(t)
      {
        assert j < k ==> ops[j] == ops[..k][j];
      }
      assert RegisteredAt(ops, t, i);
      SentBefore(ops, t, i);
    }
  }

  /** A response is accepted exactly when its token is waited for and it parses. */
  lemma AcceptedOnlyWhenWaiting(ops: seq<Op>, k: nat)
    requires k < |ops| && ops[k].Receive?
    ensures EffectAt(map[], ops, k) == Answered(true)
            <==> ops[k].reading.Parsed? && exists j: nat :: RegisteredAt(ops[..k], ops[k].token, j)
  {
    WaitingExactly(ops[..k], ops[k].token);
  }

  /**
   How a received PDU is answered: FAIL without being read when its token is not waited for, FAIL when it
   is malformed, and the one panic is that of reading it.
   */
  lemma AnsweredExactly(q: Queues, t: Token, reading: Reading)
    ensures var (r, e) := Apply(q, Receive(t, reading));
            && (e == Answered(false) <==> t !in q || reading == Malformed)
            && (e == Answered(true) <==> t in q && reading.Parsed?)
            && (e == Panicked <==> t in q && reading == Panics)
            && (e != Answered(true) ==> r == q)
  {
  }

  /** Adding a response lengthens the queue of its token, if that is waited for, and nothing else. */
  lemma PushExactly(q: Queues, r: Response, t: Token)
    ensures Push(q, r).Keys == q.Keys
    ensures Queue(Push(q, r), t) == Queue(q, t) + if t in q && r.token == Some(t) then [r] else []
  {
  }

  /** A send that fails returns no handle, but its token stays registered and goes on collecting responses. */
  lemma FailedSendStaysRegistered(t: Token, body: nat)
    ensures var ops := [Send(t, false), Receive(t, Parsed(body))];
            && EffectAt(map[], ops, 0) == Sent(None, [])
            && EffectAt(map[], ops, 1) == Answered(true)
            && After(map[], ops) == map[t := [Response(Some(t), body)]]
  {
    var ops := [Send(t, false), Receive(t, Parsed(body))];
    assert ops[..1] == [Send(t, false)] && ops[..1][..0] == [];
    assert After(map[], ops[..1]) == map[t := []];
    var r := Response(Some(t), body);
    assert After(map[], ops) == Push(map[t := []], r);
    assert [] + [r] == [r];
    assert Push(map[t := []], r) == map[t := [r]];
  }

  /** A poll that panics registers its token, although nothing was ever sent. */
  lemma PanickedPollRegisters(t: Token)
    ensures EffectAt(map[], [Poll(t)], 0) == Polled(None)
    ensures t in After(map[], [Poll(t)])
  {
    assert [Poll(t)][..0] == [];
  }

  // ---------------------------------------------------------------- the session

  class Session {
    var receivedResponses: Queues

    constructor ()
      ensures receivedResponses == map[]
    {
      receivedResponses := map[];
    }

    /** `newToken` is the token libcoap generates for a request that has none. */
    method SendRequest(token: Option<Token>, newToken: Token, sent: bool) returns (handle: Option<Token>)
      modifies this
      ensures var t := if token.Some? then token.value else newToken;
              var (q, e) := Apply(old(receivedResponses), Send(t, sent));
              receivedResponses == q && handle == e.handle && handle == if sent then Some(t) else None
    {
      var t := newToken;
      if token.Some? {
        t := token.value;
      }
      receivedResponses := receivedResponses[t := []];
      handle := if sent then Some(t) else None;
    }

    /** None stands for the panic over a token that is not waited for; the empty queue is inserted before it. */
    method PollHandle(handle: Token) returns (batch: Option<seq<Response>>)
      modifies this
      ensures (receivedResponses, Polled(batch)) == Apply(old(receivedResponses), Poll(handle))
      ensures batch == None <==> handle !in old(receivedResponses)
    {
      batch := if handle in receivedResponses then Some(receivedResponses[handle]) else None;
      receivedResponses := receivedResponses[handle := []];
    }

    method RemoveHandle(handle: Token)
      modifies this
      ensures receivedResponses == Apply(old(receivedResponses), Remove(handle)).0
    {
      receivedResponses := receivedResponses - {handle};
    }

    method IsWaitingForToken(token: Token) returns (waiting: bool)
      ensures waiting <==> token in receivedResponses
    {
      waiting := token in receivedResponses;
    }

    method AddResponse(pdu: Response)
      modifies this
      ensures receivedResponses == Push(old(receivedResponses), pdu)
    {
      if pdu.token.Some? {
        var token := pdu.token.value;
        if token in receivedResponses {
          receivedResponses := receivedResponses[token := receivedResponses[token] + [pdu]];
        }
      }
    }

    /** `session_response_handler`: COAP_RESPONSE_OK is Some(true), None a panic while the PDU is read. */
    method ResponseHandler(token: Token, reading: Reading) returns (ok: Option<bool>)
      modifies this
      ensures (receivedResponses, if ok == None then Panicked else Answered(ok.value))
              == Apply(old(receivedResponses), Receive(token, reading))
    {
      var waiting := IsWaitingForToken(token);
      if !waiting {
        return Some(false);
      }
      match reading {
        case Parsed(b) =>
          AddResponse(Response(Some(token), b));
          ok := Some(true);
        case Malformed =>
          ok := Some(false);
        case Panics =>
          ok := None;
      }
    }
  }
}
