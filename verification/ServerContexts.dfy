/**
 The server-session code as it runs: it updates libcoap's counts, the inner sessions and the
 context's session list in place. Every method is tied to the step functions of `ServerSessions`.
 */
module ServerContexts {
  import opened Sequences
  import S = ServerSessions
  import opened ServerSessions


  /** libcoap's event codes, as far as the session list is concerned. */
  datatype EventKind = Connected | New | Del | Other

  function EventOf(r: RawId, kind: EventKind): Event {
    match kind
    case Connected => TcpConnected(r)
    case New => SessionNew(r)
    case Del => SessionDel(r)
    case Other => Enter(r, true)
  }

  /** A context's session list together with the libcoap sessions and inner sessions it refers to. */
  class ServerContext {
    var raws: map<RawId, Raw>
    var cells: map<CellId, RcCell>
    var next: CellId
    var serverSessions: seq<Wrapper>

    constructor ()
      ensures Mem() == INITIAL.mem && serverSessions == []
    {
      raws, cells, next, serverSessions := map[], map[], 0, [];
    }

    function Mem(): Memory
      reads this
    {
      Memory(raws, cells, next)
    }

    /** The whole state, given the handles held by running callbacks and the clones taken of them. */
    ghost function Now(handles: seq<Wrapper>, clones: multiset<RawId>): State
      reads this
    {
      State(Mem(), serverSessions, handles, clones)
    }

    method SessionReference(r: RawId)
      requires r in raws
      modifies this`raws
      ensures Mem() == AddRefs(old(Mem()), r, 1)
    {
      raws := raws[r := raws[r].(refs := raws[r].refs + 1)];
    }

    method SessionRelease(r: RawId)
      requires r in raws
      modifies this`raws
      ensures Mem() == AddRefs(old(Mem()), r, -1)
    {
      raws := raws[r := raws[r].(refs := raws[r].refs - 1)];
    }

    method InitializeRaw(r: RawId) returns (w: Wrapper)
      requires r in raws
      modifies this`raws, this`cells, this`next
      ensures (Mem(), w) == S.InitializeRaw(old(Mem()), r)
    {
      var c := next;
      next := next + 1;
      cells := cells[c := RcCell(r, 1, 0)];
      cells := cells[c := cells[c].(weak := 1)];
      raws := raws[r := raws[r].(appData := Some(c))];
      SessionReference(r);
      w := Wrapper(r, c, true);
      assert cells == old(cells)[c := RcCell(r, 1, 1)];
    }

    method FromRawWithoutRefcount(r: RawId) returns (w: Wrapper)
      requires Restorable(Mem(), r)
      modifies this`cells
      ensures (Mem(), w) == S.FromRawWithoutRefcount(old(Mem()), r)
    {
      var c := raws[r].appData.value;
      cells := cells[c := cells[c].(strong := cells[c].strong + 1)];
      w := Wrapper(r, c, false);
    }

    method FromRaw(r: RawId) returns (w: Wrapper)
      requires Restorable(Mem(), r)
      modifies this`raws, this`cells
      ensures (Mem(), w) == S.FromRaw(old(Mem()), r)
    {
      w := FromRawWithoutRefcount(r);
      SessionReference(r);
      w := w.(refCounted := true);
    }

    /** Dropping the last strong reference runs the inner session's destructor, which takes the weak one back. */
    method ReleaseStrong(w: Wrapper)
      requires Live(Mem(), w)
      modifies this`cells
      ensures Mem() == S.ReleaseStrong(old(Mem()), w)
    {
      var c := cells[w.cell];
      c := c.(strong := c.strong - 1);
      if c.strong == 0 {
        c := c.(weak := c.weak - 1);
      }
      cells := if c.strong == 0 && c.weak == 0 then cells - {w.cell} else cells[w.cell := c];
    }

    method DropWrapper(w: Wrapper)
      requires Live(Mem(), w)
      modifies this`raws, this`cells
      ensures Mem() == S.DropWrapper(old(Mem()), w)
    {
      if w.refCounted {
        SessionRelease(w.raw);
      }
      ReleaseStrong(w);
    }

    method DropExclusively(w: Wrapper) returns (panicked: bool)
      requires Live(Mem(), w)
      modifies this`raws, this`cells
      ensures panicked <==> S.DropExclusively(old(Mem()), w) == None
      ensures !panicked ==> Some(Mem()) == S.DropExclusively(old(Mem()), w)
    {
      cells := cells[w.cell := cells[w.cell].(strong := cells[w.cell].strong + 1)];
      DropWrapper(w);
      panicked := cells[w.cell].strong != 1;
      if !panicked {
        ReleaseStrong(w);
      }
    }

    method FindSession(r: RawId) returns (i: nat)
      ensures i == Position(serverSessions, r)
    {
      i := 0;
      while i < |serverSessions| && serverSessions[i].raw != r
        invariant 0 <= i <= |serverSessions|
        invariant forall j :: 0 <= j < i ==> serverSessions[j].raw != r
      {
        i := i + 1;
      }
    }

    /** The bookkeeping of `handle_event` for a server session, followed by the end of the callback. */
    method HandleEvent(w: Wrapper, kind: EventKind, ghost handles: seq<Wrapper>, ghost clones: multiset<RawId>)
      returns (panicked: bool)
      requires Live(Mem(), w)
      requires kind == Del ==> HandleDel(Now(handles, clones), Mem(), w) != Undefined
      modifies this`raws, this`cells, this`serverSessions
      ensures kind == New ==> !panicked && Now(handles, clones) == old(Now(handles, clones)).(sessions := old(serverSessions) + [w])
      ensures kind == Connected || kind == Other ==>
                !panicked && Now(handles, clones) == old(Now(handles, clones)).(mem := S.DropWrapper(old(Mem()), w))
      ensures kind == Del ==>
                var o := HandleDel(old(Now(handles, clones)), old(Mem()), w);
                (panicked <==> o == Panic) && (!panicked ==> Next(Now(handles, clones)) == o)
    {
      panicked := false;
      if kind == New {
        serverSessions := serverSessions + [w];
      } else if kind == Del {
        var i := FindSession(w.raw);
        if i == |serverSessions| {
          return true;
        }
        var listed := serverSessions[i];
        serverSessions := serverSessions[..i] + serverSessions[i + 1..];
        DropWrapper(listed);
        panicked := DropExclusively(w);
      } else {
        DropWrapper(w);
      }
    }

    /**
     `event_handler_callback` for a server session: it keeps the invariant, panics exactly when it
     deletes a session that a running callback holds, and leaves no trace for any other event.
     */
    method EventHandlerCallback(r: RawId, kind: EventKind, ghost phases: map<RawId, Phase>,
                                ghost handles: seq<Wrapper>, ghost clones: multiset<RawId>)
      returns (panicked: bool)
      requires Inv(phases, Now(handles, clones)) && Legal(phases, EventOf(r, kind))
      modifies this
      ensures panicked <==> kind == Del && Count(handles, r) > 0
      ensures !panicked && kind != Other ==> Next(Now(handles, clones)) == Step(old(Now(handles, clones)), EventOf(r, kind))
      ensures kind == Other ==> Now(handles, clones) == old(Now(handles, clones))
      ensures !panicked ==> Inv(match kind
                                case Connected => phases[r := Unwrapped]
                                case New => phases[r := Open]
                                case Del => phases[r := Unwrapped]
                                case Other => phases, Now(handles, clones))
    {
      hide Count, CountRefs, Taken, Inv, S.FromRaw;
      ghost var was := Now(handles, clones);
      if kind == Connected || kind == New {
        panicked := Announce(r, kind, phases, handles, clones);
      } else {
        InvOpen(phases, was, r);
        if kind == Del {
          ListedOnce(phases, was, r);
          SessionDelKeeps(phases, was, r);
        }
        RestoreThenDrop(was.mem, r);
        var w := FromRaw(r);
        panicked := HandleEvent(w, kind, handles, clones);
      }
    }

    /** The branch of the callback for events that introduce a session libcoap has just created. */
    method Announce(r: RawId, kind: EventKind, ghost phases: map<RawId, Phase>,
                    ghost handles: seq<Wrapper>, ghost clones: multiset<RawId>)
      returns (panicked: bool)
      requires kind == Connected || kind == New
      requires Inv(phases, Now(handles, clones)) && Legal(phases, EventOf(r, kind))
      modifies this
      ensures !panicked && Next(Now(handles, clones)) == Step(old(Now(handles, clones)), EventOf(r, kind))
      ensures Inv(phases[r := if kind == New then Open else Unwrapped], Now(handles, clones))
    {
      hide Count, CountRefs, Taken, Inv;
      ghost var was := Now(handles, clones);
      if kind == New {
        SessionNewKeeps(phases, was, r);
      } else {
        TcpConnectedKeeps(phases, was, r);
        InvKeys(phases, was);
      }
      if r !in raws {
        raws := raws[r := Raw(0, None)];
      }
      var w := InitializeRaw(r);
      panicked := HandleEvent(w, kind, handles, clones);
    }

    /** The session loop in `Drop for CoapContextInner`. */
    method DropSessions(ghost phases: map<RawId, Phase>, ghost handles: seq<Wrapper>, ghost clones: multiset<RawId>)
      returns (panicked: bool)
      requires Inv(phases, Now(handles, clones))
      modifies this`raws, this`cells, this`serverSessions
      ensures panicked <==> handles != []
      ensures !panicked ==> serverSessions == [] && cells == map[]
      ensures !panicked ==> forall r :: r in raws ==> raws[r].refs + Taken(clones, r) == 0
    {
      hide Count, CountRefs, Taken, Inv, S.DropExclusively;
      ghost var was := Now(handles, clones);
      DropSessionsBalances(phases, was);
      panicked := false;
      var taken := serverSessions;
      serverSessions := [];
      var i := 0;
      ghost var p: map<RawId, Phase> := phases;
      while i < |taken| && !panicked
        invariant 0 <= i <= |taken| && serverSessions == []
        invariant !panicked ==> Inv(p, State(Mem(), taken[i..], handles, clones))
        invariant !panicked ==> S.DropSessions(State(Mem(), taken[i..], handles, clones)) == S.DropSessions(was)
        invariant panicked ==> S.DropSessions(was) == Panic
      {
        ghost var s := State(Mem(), taken[i..], handles, clones);
        ExclusiveDropKeeps(p, s, 0);
        assert RemoveAt(s.sessions, 0) == taken[i + 1..];
        panicked := DropExclusively(taken[i]);
        p := p[taken[i].raw := Unwrapped];
        i := i + 1;
      }
    }
  }
}
