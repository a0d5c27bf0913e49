/**
 Request handlers of a resource: one slot per method, libcoap's registration next to it, and the
 dispatch that takes a handler out of its slot, runs it and puts it back.
 */
module Resource {
  import opened Sequences
  import opened Protocol

  /** Static handlers are called by libcoap itself, dynamic ones through a wrapper shared by them all. */
  datatype Handler = Static(raw: nat) | Dynamic(closure: nat)

  datatype RawHandler = Wrapper | Direct(raw: nat)

  function RawOf(h: Option<Handler>): Option<RawHandler> {
    match h
    case None => None
    case Some(Static(raw)) => Some(Direct(raw))
    case Some(Dynamic(_)) => Some(Wrapper)
  }

  datatype Handlers = Handlers(
    get: Option<Handler>, put: Option<Handler>, delete: Option<Handler>, post: Option<Handler>,
    fetch: Option<Handler>, ipatch: Option<Handler>, patch: Option<Handler>)

  function Slot(h: Handlers, code: Method): Option<Handler> {
    match code
    case Get => h.get
    case Put => h.put
    case Delete => h.delete
    case Post => h.post
    case Fetch => h.fetch
    case IPatch => h.ipatch
    case Patch => h.patch
  }

  function WithSlot(h: Handlers, code: Method, v: Option<Handler>): (r: Handlers)
    ensures forall c :: Slot(r, c) == if c == code then v else Slot(h, c)
  {
    match code
    case Get => h.(get := v)
    case Put => h.(put := v)
    case Delete => h.(delete := v)
    case Post => h.(post := v)
    case Fetch => h.(fetch := v)
    case IPatch => h.(ipatch := v)
    case Patch => h.(patch := v)
  }

  /** The slots and what libcoap calls for each of its method codes. */
  datatype State = State(handlers: Handlers, registered: map<Method, RawHandler>)

  const INITIAL := State(Handlers(None, None, None, None, None, None, None), map[])

  function Registered(s: State, code: Method): Option<RawHandler> {
    if code in s.registered then Some(s.registered[code]) else None
  }

  /** `coap_register_request_handler`. */
  function Register(m: map<Method, RawHandler>, code: Method, raw: Option<RawHandler>): map<Method, RawHandler> {
    match raw
    case None => m - {code}
    case Some(h) => m[code := h]
  }

  /** A call of `set_method_handler`. */
  datatype Call = Call(code: Method, handler: Option<Handler>)

  function Set(s: State, c: Call): State {
    State(WithSlot(s.handlers, c.code, c.handler), Register(s.registered, ToRawRequest(c.code), RawOf(c.handler)))
  }

  function SetAll(s: State, script: seq<Call>): State {
    if script == [] then s else Set(SetAll(s, script[..|script| - 1]), script[|script| - 1])
  }

  /** `script` are the calls the handler makes while it runs; None where dispatching panics. */
  function CallDynamicHandler(s: State, code: Method, script: seq<Call>): Option<State> {
    match Slot(s.handlers, code)
    case None => None
    case Some(Static(_)) => None
    case Some(Dynamic(f)) =>
      var t := SetAll(s.(handlers := WithSlot(s.handlers, code, None)), script);
      if Slot(t.handlers, code) == None then Some(t.(handlers := WithSlot(t.handlers, code, Some(Dynamic(f)))))
      else Some(t)
  }

  /** A request arrives: libcoap calls what is registered for its method, if anything. */
  function Request(s: State, code: Method, script: seq<Call>): Option<State> {
    match Registered(s, code)
    case None => Some(s)
    case Some(Direct(_)) => Some(SetAll(s, script))
    case Some(Wrapper) => CallDynamicHandler(s, code, script)
  }

  // ---------------------------------------------------------------- what dispatch leaves in the slots

  /** The last call that concerned `code`, if any did. */
  function LastSet(script: seq<Call>, code: Method): Option<Option<Handler>> {
    if script == [] then None
    else
      var c := script[|script| - 1];
      if c.code == code then Some(c.handler) else LastSet(script[..|script| - 1], code)
  }

  function OrElse<T>(o: Option<T>, otherwise: T): T {
    if o.Some? then o.value else otherwise
  }

  predicate Avoids(script: seq<Call>, code: Method) {
    forall i :: 0 <= i < |script| ==> script[i].code != code
  }

  /** The i-th call is the last one that concerns `code`. */
  predicate IsLast(script: seq<Call>, code: Method, i: nat) {
    i < |script| && script[i].code == code && forall j :: i < j < |script| ==> script[j].code != code
  }

  lemma {:induction false} LastSetFound(script: seq<Call>, code: Method, i: nat)
    requires IsLast(script, code, i)
    ensures LastSet(script, code) == Some(script[i].handler)
  {
    var n := |script| - 1;
    if i < n {
      assert script[n].code != code;
      assert forall j :: 0 <= j < n ==> script[..n][j] == script[j];
      LastSetFound(script[..n], code, i);
    }
  }

  lemma {:induction false} LastSetAbsent(script: seq<Call>, code: Method)
    requires Avoids(script, code)
    ensures LastSet(script, code) == None
  {
    if script != [] {
      LastSetAbsent(script[..|script| - 1], code);
    }
  }

  lemma {:induction false} SetAllSlots(s: State, script: seq<Call>, code: Method)
    ensures Slot(SetAll(s, script).handlers, code) == OrElse(LastSet(script, code), Slot(s.handlers, code))
  {
    if script != [] {
      SetAllSlots(s, script[..|script| - 1], code);
    }
  }

  lemma DispatchByLastSet(s: State, code: Method, script: seq<Call>, other: Method)
    requires Slot(s.handlers, code).Some? && Slot(s.handlers, code).value.Dynamic?
    ensures CallDynamicHandler(s, code, script).Some?
    ensures var t := CallDynamicHandler(s, code, script).value;
            && Slot(t.handlers, code)
               == (if LastSet(script, code).Some? && LastSet(script, code).value.Some? then LastSet(script, code).value
                   else Slot(s.handlers, code))
            && (other != code ==>
                  Slot(t.handlers, other) == OrElse(LastSet(script, other), Slot(s.handlers, other)))
            && t.registered == SetAll(s, script).registered
  {
    var taken := s.(handlers := WithSlot(s.handlers, code, None));
    SetAllSlots(taken, script, code);
    SetAllSlots(taken, script, other);
    RegistrationsIgnoreSlots(s, taken.handlers, script);
  }

  /**
   After a dispatch every slot is as the last call for it left it, or unchanged without one; only the
   running handler's own slot gets the original back if the last call for it removed it.
   */
  lemma DispatchSlots(s: State, code: Method, script: seq<Call>, c: Method)
    requires Slot(s.handlers, code).Some? && Slot(s.handlers, code).value.Dynamic?
    ensures CallDynamicHandler(s, code, script).Some?
    ensures var t := CallDynamicHandler(s, code, script).value;
            && (Avoids(script, c) ==> Slot(t.handlers, c) == Slot(s.handlers, c))
            && (forall i: nat :: IsLast(script, c, i) ==>
                  Slot(t.handlers, c)
                  == if c == code && script[i].handler == None then Slot(s.handlers, code) else script[i].handler)
  {
    hide Slot, CallDynamicHandler, LastSet;
    DispatchByLastSet(s, code, script, c);
    if Avoids(script, c) {
      LastSetAbsent(script, c);
    }
    forall i: nat | IsLast(script, c, i)
      ensures LastSet(script, c) == Some(script[i].handler)
    {
      LastSetFound(script, c, i);
    }
  }

  lemma {:induction false} RegistrationsIgnoreSlots(s: State, h: Handlers, script: seq<Call>)
    ensures SetAll(s.(handlers := h), script).registered == SetAll(s, script).registered
  {
    if script != [] {
      RegistrationsIgnoreSlots(s, h, script[..|script| - 1]);
    }
  }

  // ---------------------------------------------------------------- slots against registrations

  predicate Agrees(s: State) {
    forall c :: Registered(s, c) == RawOf(Slot(s.handlers, c))
  }

  /** Setting a handler keeps slots and registrations in step, except that Delete is registered as FETCH. */
  lemma SetAgrees(s: State, c: Call)
    requires Agrees(s) && Slot(s.handlers, Delete) == None
    ensures Agrees(Set(s, c)) <==> c.code != Delete || (c.handler == None && Slot(s.handlers, Fetch) == None)
    ensures c.code != Delete ==> Slot(Set(s, c).handlers, Delete) == None
  {
    hide Slot;
    var t := Set(s, c);
    forall k
      ensures Registered(t, k) == if k == ToRawRequest(c.code) then RawOf(c.handler) else Registered(s, k)
    {
      SetRegistered(s, c, k);
    }
    if c.code == Delete {
      assert Registered(t, Fetch) == RawOf(c.handler) && Slot(t.handlers, Fetch) == Slot(s.handlers, Fetch);
      assert Registered(t, Delete) == None && Slot(t.handlers, Delete) == c.handler;
      if c.handler == None && Slot(s.handlers, Fetch) == None {
        assert Agrees(t);
      }
    } else {
      assert Agrees(t);
    }
  }

  /** The method of the last call that libcoap registers as FETCH: Fetch itself, or Delete. */
  function FetchRegistrant(script: seq<Call>): Option<Method> {
    if script == [] then None
    else
      var c := script[|script| - 1];
      if ToRawRequest(c.code) == Fetch then Some(c.code) else FetchRegistrant(script[..|script| - 1])
  }

  lemma {:induction false} FetchRegistrantSet(script: seq<Call>)
    ensures FetchRegistrant(script).Some? ==>
              (FetchRegistrant(script) == Some(Fetch) || FetchRegistrant(script) == Some(Delete))
              && LastSet(script, FetchRegistrant(script).value).Some?
    ensures FetchRegistrant(script) == None ==> LastSet(script, Fetch) == None && LastSet(script, Delete) == None
    ensures Avoids(script, Delete) ==> FetchRegistrant(script) != Some(Delete)
  {
    if script != [] {
      FetchRegistrantSet(script[..|script| - 1]);
    }
  }

  lemma SetRegistered(s: State, c: Call, k: Method)
    ensures Registered(Set(s, c), k) == if k == ToRawRequest(c.code) then RawOf(c.handler) else Registered(s, k)
  {
    hide Slot, RawOf;
  }

  /** What libcoap is told to call: a static handler's own function, or the wrapper for a dynamic one. */
  lemma HandlerIsRegistered(s: State, c: Method, p: nat)
    ensures Registered(Set(s, Call(c, Some(Static(p)))), ToRawRequest(c)) == Some(Direct(p))
    ensures Registered(Set(s, Call(c, Some(Dynamic(p)))), ToRawRequest(c)) == Some(Wrapper)
    ensures Registered(Set(s, Call(c, None)), ToRawRequest(c)) == None
  {
  }

  /** What libcoap calls after a script, method by method. */
  lemma {:induction false} SetAllRegistrations(s: State, script: seq<Call>, c: Method)
    ensures var u := SetAll(s, script);
            && (c != Fetch && c != Delete ==>
                  Registered(u, c)
                  == if LastSet(script, c).Some? then RawOf(LastSet(script, c).value) else Registered(s, c))
            && Registered(u, Delete) == Registered(s, Delete)
            && (FetchRegistrant(script) == None ==> Registered(u, Fetch) == Registered(s, Fetch))
            && (FetchRegistrant(script).Some? && LastSet(script, FetchRegistrant(script).value).Some? ==>
                  Registered(u, Fetch) == RawOf(LastSet(script, FetchRegistrant(script).value).value))
  {
    if script != [] {
      hide Slot, RawOf, Set, Registered;
      var init, last := script[..|script| - 1], script[|script| - 1];
      FetchRegistrantSet(init);
      SetAllRegistrations(s, init, c);
      SetRegistered(SetAll(s, init), last, c);
      SetRegistered(SetAll(s, init), last, Fetch);
      SetRegistered(SetAll(s, init), last, Delete);
    }
  }

  /** The running handler is dynamic and its last call for its own method removes it. */
  predicate RemovesItself(s: State, code: Method, script: seq<Call>) {
    && Slot(s.handlers, code).Some? && Slot(s.handlers, code).value.Dynamic?
    && LastSet(script, code) == Some(None)
  }

  /** No Delete handler is left, and the last registration as FETCH fits what Fetch is left with. */
  predicate DeleteHarmless(s: State, script: seq<Call>) {
    && OrElse(LastSet(script, Delete), None) == None
    && (FetchRegistrant(script) == Some(Delete) ==> OrElse(LastSet(script, Fetch), Slot(s.handlers, Fetch)) == None)
  }

  /** The slots after a request that runs a handler, method by method. */
  lemma RequestSlots(s: State, code: Method, script: seq<Call>, c: Method)
    requires Agrees(s) && Registered(s, code).Some?
    ensures Request(s, code, script).Some?
    ensures var t := Request(s, code, script).value;
            && t.registered == SetAll(s, script).registered
            && Slot(t.handlers, c)
               == if c == code && RemovesItself(s, code, script) then Slot(s.handlers, c)
                  else OrElse(LastSet(script, c), Slot(s.handlers, c))
  {
    hide Slot;
    assert Registered(s, code) == RawOf(Slot(s.handlers, code));
    if Registered(s, code) == Some(Wrapper) {
      DispatchByLastSet(s, code, script, c);
    } else {
      SetAllSlots(s, script, c);
    }
  }

  /**
   A request never panics while slots and registrations agree. They agree afterwards exactly when no
   handler ran, or the one that did neither removed itself nor left a harmful call for Delete.
   */
  lemma RequestAgrees(s: State, code: Method, script: seq<Call>)
    requires Agrees(s) && Delete !in s.registered
    ensures Request(s, code, script).Some? && Delete !in Request(s, code, script).value.registered
    ensures Agrees(Request(s, code, script).value) <==>
            Registered(s, code) == None || (!RemovesItself(s, code, script) && DeleteHarmless(s, script))
  {
    hide Slot, SetAll, Request, LastSet, FetchRegistrant, Agrees;
    if Registered(s, code).Some? {
      RequestSlots(s, code, script, Delete);
      SetAllRegistrations(s, script, Delete);
      AgreesAfter(s, code, script);
      forall c
        ensures c == Delete ==> (MatchesAfter(s, code, script, c) <==> OrElse(LastSet(script, Delete), None) == None)
        ensures c != Delete && OrElse(LastSet(script, Delete), None) == None ==>
                  (MatchesAfter(s, code, script, c) <==>
                   && !(c == code && RemovesItself(s, code, script))
                   && (c == Fetch && FetchRegistrant(script) == Some(Delete) ==>
                         OrElse(LastSet(script, Fetch), Slot(s.handlers, Fetch)) == None))
      {
        MethodAfter(s, code, script, c);
      }
      assert MatchesAfter(s, code, script, Delete) <==> OrElse(LastSet(script, Delete), None) == None;
      assert code != Delete;
      if DeleteHarmless(s, script) {
        assert MatchesAfter(s, code, script, code) <==> !RemovesItself(s, code, script);
      } else if OrElse(LastSet(script, Delete), None) == None {
        assert !MatchesAfter(s, code, script, Fetch);
      }
    } else {
      NothingRuns(s, code, script);
    }
  }

  lemma AgreesAfter(s: State, code: Method, script: seq<Call>)
    requires Request(s, code, script).Some?
    ensures Agrees(Request(s, code, script).value) <==> forall c :: MatchesAfter(s, code, script, c)
  {
    hide Request, Slot;
    var t := Request(s, code, script).value;
    forall c
      ensures MatchesAfter(s, code, script, c) <==> Registered(t, c) == RawOf(Slot(t.handlers, c))
    {
    }
  }

  lemma MethodAfter(s: State, code: Method, script: seq<Call>, c: Method)
    requires Agrees(s) && Delete !in s.registered && Registered(s, code).Some?
    ensures c == Delete ==> (MatchesAfter(s, code, script, c) <==> OrElse(LastSet(script, Delete), None) == None)
    ensures c != Delete && OrElse(LastSet(script, Delete), None) == None ==>
              (MatchesAfter(s, code, script, c) <==>
               && !(c == code && RemovesItself(s, code, script))
               && (c == Fetch && FetchRegistrant(script) == Some(Delete) ==>
                     OrElse(LastSet(script, Fetch), Slot(s.handlers, Fetch)) == None))
  {
    hide Slot, SetAll, Request, LastSet, FetchRegistrant;
    RequestSlots(s, code, script, c);
    SetAllRegistrations(s, script, c);
    FetchRegistrantSet(script);
    assert Registered(s, c) == RawOf(Slot(s.handlers, c));
    assert Registered(s, Delete) == RawOf(Slot(s.handlers, Delete));
  }

  /** In any state, a request panics exactly when the wrapper is called for a slot without a dynamic handler. */
  lemma RequestPanicsExactly(s: State, code: Method, script: seq<Call>)
    ensures Request(s, code, script) == None <==>
            Registered(s, code) == Some(Wrapper)
            && !(Slot(s.handlers, code).Some? && Slot(s.handlers, code).value.Dynamic?)
  {
    hide Slot, SetAll;
  }

  lemma NothingRuns(s: State, code: Method, script: seq<Call>)
    requires Registered(s, code) == None
    ensures Request(s, code, script) == Some(s)
  {
  }

  /** After the request, libcoap calls what the slot of `c` holds. */
  predicate MatchesAfter(s: State, code: Method, script: seq<Call>, c: Method) {
    var t := Request(s, code, script);
    t.Some? && Registered(t.value, c) == RawOf(Slot(t.value.handlers, c))
  }

  // ---------------------------------------------------------------- whole runs

  datatype Op = SetHandler(call: Call) | Incoming(code: Method, script: seq<Call>)

  function Step(s: State, op: Op): Option<State> {
    match op
    case SetHandler(c) => Some(Set(s, c))
    case Incoming(code, script) => Request(s, code, script)
  }

  function Run(s: State, ops: seq<Op>): Option<State>
    decreases |ops|
  {
    if ops == [] then Some(s)
    else match Step(s, ops[0])
      case None => None
      case Some(t) => Run(t, ops[1..])
  }

  /** No handler is ever set for Delete, and no call removes the handler that makes it. */
  predicate Careful(op: Op) {
    match op
    case SetHandler(c) => c.code != Delete
    case Incoming(code, script) => Avoids(script, Delete) && LastSet(script, code) != Some(None)
  }

  /** In every careful run no dispatch panics, and between requests slots and registrations agree. */
  lemma {:induction false} CarefulRunsAgree(s: State, ops: seq<Op>)
    requires Agrees(s) && Delete !in s.registered
    requires forall i :: 0 <= i < |ops| ==> Careful(ops[i])
    ensures Run(s, ops).Some? && Agrees(Run(s, ops).value) && Delete !in Run(s, ops).value.registered
    decreases |ops|
  {
    hide Slot;
    if ops != [] {
      assert Careful(ops[0]);
      assert Registered(s, Delete) == RawOf(Slot(s.handlers, Delete));
      match ops[0] {
        case SetHandler(c) => SetAgrees(s, c);
        case Incoming(code, script) =>
          RequestAgrees(s, code, script);
          LastSetAbsent(script, Delete);
          FetchRegistrantSet(script);
      }
      CarefulRunsAgree(Step(s, ops[0]).value, ops[1..]);
    }
  }

  lemma CarefulResources(ops: seq<Op>)
    requires forall i :: 0 <= i < |ops| ==> Careful(ops[i])
    ensures Run(INITIAL, ops).Some? && Agrees(Run(INITIAL, ops).value)
    ensures var s := Run(INITIAL, ops).value;
            forall c :: match Slot(s.handlers, c)
                        case None => Registered(s, c) == None
                        case Some(Static(p)) => Registered(s, c) == Some(Direct(p))
                        case Some(Dynamic(_)) => Registered(s, c) == Some(Wrapper)
  {
    CarefulRunsAgree(INITIAL, ops);
    hide Run, Slot;
    var s := Run(INITIAL, ops).value;
    forall c
      ensures Registered(s, c) == RawOf(Slot(s.handlers, c))
    {
    }
  }

  /** A handler that removes itself is put back, yet libcoap no longer calls it. */
  lemma SelfRemovalIsUndone(code: Method, f: nat)
    requires code != Delete
    ensures var ops := [SetHandler(Call(code, Some(Dynamic(f)))), Incoming(code, [Call(code, None)])];
            && Run(INITIAL, ops).Some?
            && Slot(Run(INITIAL, ops).value.handlers, code) == Some(Dynamic(f))
            && Registered(Run(INITIAL, ops).value, code) == None
  {
    var s := Set(INITIAL, Call(code, Some(Dynamic(f))));
    var script := [Call(code, None)];
    assert Registered(s, code) == Some(Wrapper);
    DispatchByLastSet(s, code, script, code);
    assert script[..0] == [];
    assert SetAll(s, script) == Set(s, script[0]);
    var ops := [SetHandler(Call(code, Some(Dynamic(f)))), Incoming(code, script)];
    assert ops[1..] == [Incoming(code, script)] && ops[1..][1..] == [];
    assert Run(s, ops[1..]) == Run(Request(s, code, script).value, []);
  }

  /** DELETE requests never reach any handler, in any run. */
  lemma {:induction false} DeleteNeverRegistered(s: State, ops: seq<Op>)
    requires Delete !in s.registered
    ensures Run(s, ops).Some? ==> Delete !in Run(s, ops).value.registered
    decreases |ops|
  {
    if ops != [] && Step(s, ops[0]).Some? {
      match ops[0] {
        case SetHandler(c) =>
        case Incoming(code, script) =>
          ScriptRegistrations(s, script);
          if Registered(s, code) == Some(Wrapper) {
            DispatchByLastSet(s, code, script, code);
          }
      }
      DeleteNeverRegistered(Step(s, ops[0]).value, ops[1..]);
    }
  }

  lemma {:induction false} ScriptRegistrations(s: State, script: seq<Call>)
    requires Delete !in s.registered
    ensures Delete !in SetAll(s, script).registered
  {
    if script != [] {
      ScriptRegistrations(s, script[..|script| - 1]);
    }
  }

  /** A dynamic handler set for Delete is registered as FETCH, so that a FETCH request panics. */
  lemma DeleteHandlerPanicsOnFetch(f: nat, script: seq<Call>)
    ensures Run(INITIAL, [SetHandler(Call(Delete, Some(Dynamic(f)))), Incoming(Fetch, script)]) == None
  {
    var ops := [SetHandler(Call(Delete, Some(Dynamic(f)))), Incoming(Fetch, script)];
    assert ops[1..] == [Incoming(Fetch, script)];
    assert Step(Set(INITIAL, ops[0].call), ops[1]) == None;
  }

  // ---------------------------------------------------------------- the resource

  class CoapResource {
    var handlers: Handlers
    var registered: map<Method, RawHandler>

    constructor ()
      ensures Now() == INITIAL
    {
      handlers, registered := INITIAL.handlers, map[];
    }

    function Now(): State
      reads this
    {
      State(handlers, registered)
    }

    method SetMethodHandler(code: Method, handler: Option<Handler>)
      modifies this
      ensures Now() == Set(old(Now()), Call(code, handler))
      ensures handler.Some? && handler.value.Static? ==>
                Registered(Now(), ToRawRequest(code)) == Some(Direct(handler.value.raw))
    {
      handlers := WithSlot(handlers, code, handler);
      registered := Register(registered, ToRawRequest(code), RawOf(Slot(handlers, code)));
    }

    /**
     Takes the handler out, runs it and puts it back unless it was replaced. A handler that is not
     dynamic makes the call panic after it was taken out. A message that is no request is answered
     with RST; `rstSent` tells whether that could be sent.
     */
    method CallHandler(code: MessageCode, script: seq<Call>, rstSent: bool) returns (panicked: bool)
      modifies this
      ensures !code.RequestCode? ==> panicked == !rstSent && Now() == old(Now())
      ensures code.RequestCode? ==>
                && (panicked <==> CallDynamicHandler(old(Now()), code.verb, script) == None)
                && (!panicked ==> Some(Now()) == CallDynamicHandler(old(Now()), code.verb, script))
                && (panicked ==> Now() == old(Now()).(handlers := WithSlot(old(handlers), code.verb, None)))
    {
      if !code.RequestCode? {
        return !rstSent;
      }
      var taken := Slot(handlers, code.verb);
      handlers := WithSlot(handlers, code.verb, None);
      if taken == None || taken.value.Static? {
        return true;
      }
      ghost var s := Now();
      var i := 0;
      while i < |script|
        invariant 0 <= i <= |script|
        invariant Now() == SetAll(s, script[..i])
      {
        assert script[..i + 1][..i] == script[..i];
        SetMethodHandler(script[i].code, script[i].handler);
        i := i + 1;
      }
      assert script[..i] == script;
      if Slot(handlers, code.verb) == None {
        handlers := WithSlot(handlers, code.verb, taken);
      }
      panicked := false;
    }
  }
}
