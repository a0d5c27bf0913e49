/**
 Ownership of server-side sessions. Three counts run together for every session: the references
 libcoap counts on behalf of the wrappers, the strong and the weak count of the shared inner
 session, whose weak pointer sits in libcoap's app data. libcoap's events drive all three.
 */
module ServerSessions {
  import opened Sequences

  type RawId = nat
  type CellId = nat

  /** Counts of an `Rc`; the allocation is gone once both are zero. */
  datatype RcCell = RcCell(raw: RawId, strong: nat, weak: nat)

  /** The part of libcoap's session that Rust touches: its references and its app data pointer. */
  datatype Raw = Raw(refs: int, appData: Option<CellId>)

  /** A `CoapServerSession`. */
  datatype Wrapper = Wrapper(raw: RawId, cell: CellId, refCounted: bool)

  datatype Memory = Memory(raws: map<RawId, Raw>, cells: map<CellId, RcCell>, next: CellId)

  // ---------------------------------------------------------------- wrappers

  function AddRefs(m: Memory, r: RawId, n: int): Memory
    requires r in m.raws
  {
    m.(raws := m.raws[r := m.raws[r].(refs := m.raws[r].refs + n)])
  }

  /** `initialize_raw`: a new inner session, its weak pointer in the app data, one libcoap reference. */
  function InitializeRaw(m: Memory, r: RawId): (Memory, Wrapper)
    requires r in m.raws
  {
    var c := m.next;
    (AddRefs(m.(raws := m.raws[r := m.raws[r].(appData := Some(c))],
                cells := m.cells[c := RcCell(r, 1, 1)],
                next := c + 1), r, 1),
     Wrapper(r, c, true))
  }

  /** What `from_raw` asks of its callers: the app data refers to an inner session that still lives. */
  predicate Restorable(m: Memory, r: RawId) {
    r in m.raws && m.raws[r].appData.Some?
    && m.raws[r].appData.value in m.cells && m.cells[m.raws[r].appData.value].strong > 0
  }

  function FromRawWithoutRefcount(m: Memory, r: RawId): (Memory, Wrapper)
    requires Restorable(m, r)
  {
    var c := m.raws[r].appData.value;
    (m.(cells := m.cells[c := m.cells[c].(strong := m.cells[c].strong + 1)]), Wrapper(r, c, false))
  }

  function FromRaw(m: Memory, r: RawId): (Memory, Wrapper)
    requires Restorable(m, r)
  {
    var (n, w) := FromRawWithoutRefcount(m, r);
    (AddRefs(n, r, 1), w.(refCounted := true))
  }

  /** A wrapper whose session and inner session both exist, as its destructor relies on. */
  predicate Live(m: Memory, w: Wrapper) {
    && w.raw in m.raws && m.raws[w.raw].appData == Some(w.cell)
    && w.cell in m.cells && m.cells[w.cell].strong > 0 && m.cells[w.cell].weak > 0
  }

  /** Releases a strong reference; the last one drops the inner session and its weak pointer. */
  function ReleaseStrong(m: Memory, w: Wrapper): Memory
    requires Live(m, w)
  {
    var c := m.cells[w.cell];
    if c.strong > 1 then m.(cells := m.cells[w.cell := c.(strong := c.strong - 1)])
    else if c.weak > 1 then m.(cells := m.cells[w.cell := c.(strong := 0, weak := c.weak - 1)])
    else m.(cells := m.cells - {w.cell})
  }

  /** The inner session goes with its last strong reference, its memory once the weak one is gone as well. */
  lemma ReleaseStrongExactly(m: Memory, w: Wrapper)
    requires Live(m, w)
    ensures var c := m.cells[w.cell]; var n := ReleaseStrong(m, w);
            && n.raws == m.raws
            && (w.cell !in n.cells <==> c.strong == 1 && c.weak == 1)
            && (w.cell in n.cells ==>
                  n.cells[w.cell] == RcCell(c.raw, c.strong - 1, if c.strong == 1 then c.weak - 1 else c.weak))
            && forall d :: d != w.cell ==> (d in n.cells <==> d in m.cells) && (d in m.cells ==> n.cells[d] == m.cells[d])
  {
  }

  /** `Drop for CoapServerSession`, followed by the drop of its inner reference. */
  function DropWrapper(m: Memory, w: Wrapper): Memory
    requires Live(m, w)
  {
    ReleaseStrong(if w.refCounted then AddRefs(m, w.raw, -1) else m, w)
  }

  /** `drop_exclusively`; None where it panics because the inner session is still shared. */
  function DropExclusively(m: Memory, w: Wrapper): Option<Memory>
    requires Live(m, w)
  {
    var cloned := m.(cells := m.cells[w.cell := m.cells[w.cell].(strong := m.cells[w.cell].strong + 1)]);
    var dropped := DropWrapper(cloned, w);
    if dropped.cells[w.cell].strong == 1 then Some(ReleaseStrong(dropped, w)) else None
  }

  /** `CoapServerSession` derives `Clone`: the inner reference is cloned, libcoap's count is not raised. */
  function CloneWrapper(m: Memory, w: Wrapper): (Memory, Wrapper)
    requires Live(m, w)
  {
    (m.(cells := m.cells[w.cell := m.cells[w.cell].(strong := m.cells[w.cell].strong + 1)]), w)
  }

  // ---------------------------------------------------------------- the context and its events

  /**
   `handles` are the wrappers held by callbacks that have not returned yet, clones of theirs included.
   `clones` is history: the clones of counted wrappers taken so far, by session.
   */
  datatype State = State(mem: Memory, sessions: seq<Wrapper>, handles: seq<Wrapper>, clones: multiset<RawId>)

  const INITIAL := State(Memory(map[], map[], 0), [], [], multiset{})

  /**
   What libcoap can trigger. `Enter` and `Leave` bracket every callback that restores a session:
   events, request and response handlers (counted) and DTLS callbacks (uncounted). `Clone` clones a
   handle that a callback holds.
   */
  datatype Event =
    | TcpConnected(r: RawId)
    | SessionNew(r: RawId)
    | Enter(r: RawId, counted: bool)
    | Leave(k: nat)
    | Clone(k: nat)
    | SessionDel(r: RawId)

  /** Undefined stands for a restore or a drop that follows a dangling pointer. */
  datatype Outcome = Next(state: State) | Panic | Undefined

  function CountedClone(w: Wrapper): multiset<RawId> {
    if w.refCounted then multiset{w.raw} else multiset{}
  }

  /** How many clones of counted wrappers for `r` were taken. */
  function Taken(clones: multiset<RawId>, r: RawId): nat {
    clones[r]
  }

  function WithRaw(m: Memory, r: RawId): Memory {
    m.(raws := m.raws[r := Raw(0, None)])
  }

  /** The index of the first wrapper for `r`, or the length of the list. */
  function Position(sessions: seq<Wrapper>, r: RawId): (i: nat)
    ensures i <= |sessions|
    ensures i < |sessions| ==> sessions[i].raw == r
    ensures forall j :: 0 <= j < i ==> sessions[j].raw != r
  {
    if sessions == [] then 0
    else if sessions[0].raw == r then 0
    else
      assert forall j :: 0 < j < |sessions| ==> sessions[j] == sessions[1..][j - 1];
      1 + Position(sessions[1..], r)
  }

  function RemoveAt<T>(s: seq<T>, k: nat): seq<T>
    requires k < |s|
  {
    s[..k] + s[k + 1..]
  }

  /** The deletion branch of `handle_event`, given the restored wrapper. */
  function HandleDel(s: State, m: Memory, w: Wrapper): Outcome {
    var i := Position(s.sessions, w.raw);
    if i == |s.sessions| then Panic
    else if !Live(m, s.sessions[i]) then Undefined
    else
      var n := DropWrapper(m, s.sessions[i]);
      if !Live(n, w) then Undefined
      else
        var o := DropExclusively(n, w);
        if o == None then Panic else Next(s.(mem := o.value, sessions := RemoveAt(s.sessions, i)))
  }

  function Step(s: State, e: Event): Outcome {
    match e
    case TcpConnected(r) =>
      var (m, w) := InitializeRaw(WithRaw(s.mem, r), r);
      if Live(m, w) then Next(s.(mem := DropWrapper(m, w))) else Undefined
    case SessionNew(r) =>
      var (m, w) := InitializeRaw(if r in s.mem.raws then s.mem else WithRaw(s.mem, r), r);
      Next(s.(mem := m, sessions := s.sessions + [w]))
    case Enter(r, counted) =>
      if !Restorable(s.mem, r) then Undefined
      else
        var (m, w) := if counted then FromRaw(s.mem, r) else FromRawWithoutRefcount(s.mem, r);
        Next(s.(mem := m, handles := s.handles + [w]))
    case Leave(k) =>
      if k >= |s.handles| then Next(s)
      else if !Live(s.mem, s.handles[k]) then Undefined
      else Next(s.(mem := DropWrapper(s.mem, s.handles[k]), handles := RemoveAt(s.handles, k)))
    case Clone(k) =>
      if k >= |s.handles| then Next(s)
      else if !Live(s.mem, s.handles[k]) then Undefined
      else
        var (m, w) := CloneWrapper(s.mem, s.handles[k]);
        Next(s.(mem := m, handles := s.handles + [w], clones := s.clones + CountedClone(w)))
    case SessionDel(r) =>
      if !Restorable(s.mem, r) then Undefined
      else
        var (m, w) := FromRaw(s.mem, r);
        HandleDel(s, m, w)
  }

  /** libcoap frees its session once the deletion event has been handled. */
  function Freed(s: State, e: Event): State {
    if e.SessionDel? then s.(mem := s.mem.(raws := s.mem.raws - {e.r}), clones := s.clones[e.r := 0]) else s
  }

  // ---------------------------------------------------------------- libcoap's event grammar

  /**
   Where a session libcoap holds is: Unwrapped when TCP_CONNECTED has announced it or the context has
   let go of it, Open from NEW on.
   */
  datatype Phase = Unwrapped | Open

  /** TCP_CONNECTED at most once and only before NEW, one NEW, anything, one DEL. */
  predicate Legal(phases: map<RawId, Phase>, e: Event) {
    match e
    case TcpConnected(r) => r !in phases
    case SessionNew(r) => r !in phases || phases[r] == Unwrapped
    case Enter(r, _) => r in phases && phases[r] == Open
    case SessionDel(r) => r in phases && phases[r] == Open
    case Leave(_) => true
    case Clone(_) => true
  }

  function NextPhases(phases: map<RawId, Phase>, e: Event): map<RawId, Phase> {
    match e
    case TcpConnected(r) => phases[r := Unwrapped]
    case SessionNew(r) => phases[r := Open]
    case SessionDel(r) => phases - {r}
    case _ => phases
  }

  // ---------------------------------------------------------------- the invariant

  function OfRaw(r: RawId): Wrapper -> bool {
    (w: Wrapper) => w.raw == r
  }

  function CountedOf(r: RawId): Wrapper -> bool {
    (w: Wrapper) => w.raw == r && w.refCounted
  }

  /** How many of the wrappers are for `r`, and how many of those are counted by libcoap. */
  function Count(ws: seq<Wrapper>, r: RawId): nat {
    |Filter(ws, OfRaw(r))|
  }

  function CountRefs(ws: seq<Wrapper>, r: RawId): nat {
    |Filter(ws, CountedOf(r))|
  }

  /** The wrapper belongs to the inner session its raw session points to. */
  predicate Attached(m: Memory, phases: map<RawId, Phase>, w: Wrapper) {
    && w.raw in phases && phases[w.raw] == Open
    && w.raw in m.raws && m.raws[w.raw].appData == Some(w.cell)
  }

  predicate AllRefCounted(ws: seq<Wrapper>) {
    forall i :: 0 <= i < |ws| ==> ws[i].refCounted
  }

  predicate AllAttached(m: Memory, phases: map<RawId, Phase>, ws: seq<Wrapper>) {
    forall i :: 0 <= i < |ws| ==> Attached(m, phases, ws[i])
  }

  /**
   The counts of an open session: one wrapper in the context's list, and the handles. Every clone of a
   counted wrapper will be counted as a release that no reference was taken for.
   */
  predicate Balanced(s: State, r: RawId) {
    && r in s.mem.raws && s.mem.raws[r].appData.Some?
    && s.mem.raws[r].appData.value in s.mem.cells
    && s.mem.cells[s.mem.raws[r].appData.value] == RcCell(r, 1 + Count(s.handles, r), 1)
    && s.mem.raws[r].refs == 1 + CountRefs(s.handles, r) - Taken(s.clones, r)
    && Count(s.sessions, r) == 1
  }

  ghost predicate Inv(phases: map<RawId, Phase>, s: State) {
    && s.mem.raws.Keys == phases.Keys
    && (forall r :: r in phases && phases[r] == Open ==> Balanced(s, r))
    && (forall r :: r in phases && phases[r] == Unwrapped ==> s.mem.raws[r].refs + Taken(s.clones, r) == 0)
    && (forall r :: r !in phases ==> Taken(s.clones, r) == 0)
    && AllAttached(s.mem, phases, s.sessions) && AllAttached(s.mem, phases, s.handles)
    && AllRefCounted(s.sessions)
    && (forall c :: c in s.mem.cells ==> c < s.mem.next && OwnedCell(s.mem, phases, c))
  }

  /** No inner session outlives its raw session's pointer to it. */
  predicate OwnedCell(m: Memory, phases: map<RawId, Phase>, c: CellId)
    requires c in m.cells
  {
    var r := m.cells[c].raw;
    r in phases && phases[r] == Open && r in m.raws && m.raws[r].appData == Some(c)
  }

  // ---------------------------------------------------------------- counting

  lemma CountPush(ws: seq<Wrapper>, w: Wrapper, r: RawId)
    ensures Count(ws + [w], r) == Count(ws, r) + if w.raw == r then 1 else 0
    ensures CountRefs(ws + [w], r) == CountRefs(ws, r) + if w.raw == r && w.refCounted then 1 else 0
  {
    FilterSnoc(ws, w, OfRaw(r));
    FilterSnoc(ws, w, CountedOf(r));
  }

  lemma FilterRemove<T>(s: seq<T>, k: nat, p: T -> bool)
    requires k < |s|
    ensures |Filter(RemoveAt(s, k), p)| == |Filter(s, p)| - if p(s[k]) then 1 else 0
  {
    assert s == (s[..k] + [s[k]]) + s[k + 1..];
    FilterConcat(s[..k], s[k + 1..], p);
    FilterConcat(s[..k] + [s[k]], s[k + 1..], p);
    FilterSnoc(s[..k], s[k], p);
  }

  lemma CountRemove(ws: seq<Wrapper>, k: nat, r: RawId)
    requires k < |ws|
    ensures Count(RemoveAt(ws, k), r) == Count(ws, r) - if ws[k].raw == r then 1 else 0
    ensures CountRefs(RemoveAt(ws, k), r) == CountRefs(ws, r) - if ws[k].raw == r && ws[k].refCounted then 1 else 0
  {
    FilterRemove(ws, k, OfRaw(r));
    FilterRemove(ws, k, CountedOf(r));
  }

  lemma {:induction false} CountZero(ws: seq<Wrapper>, r: RawId)
    ensures Count(ws, r) == 0 <==> forall i :: 0 <= i < |ws| ==> ws[i].raw != r
    ensures CountRefs(ws, r) <= Count(ws, r)
  {
    if ws != [] {
      var n := |ws| - 1;
      assert ws == ws[..n] + [ws[n]];
      CountPush(ws[..n], ws[n], r);
      CountZero(ws[..n], r);
      assert forall i :: 0 <= i < n ==> ws[i] == ws[..n][i];
    }
  }

  // ---------------------------------------------------------------- every event keeps the invariant

  lemma InvLive(phases: map<RawId, Phase>, s: State, w: Wrapper)
    requires Inv(phases, s) && Attached(s.mem, phases, w)
    ensures Live(s.mem, w)
  {
    hide Count, CountRefs, Taken;
    assert Balanced(s, w.raw);
  }

  lemma InvOpen(phases: map<RawId, Phase>, s: State, r: RawId)
    requires Inv(phases, s) && r in phases && phases[r] == Open
    ensures Balanced(s, r) && Restorable(s.mem, r)
    ensures AllAttached(s.mem, phases, s.handles) && AllAttached(s.mem, phases, s.sessions)
    ensures AllRefCounted(s.sessions)
  {
    hide Count, CountRefs, Taken, AllAttached, AllRefCounted;
  }

  lemma InvKeys(phases: map<RawId, Phase>, s: State)
    requires Inv(phases, s)
    ensures s.mem.raws.Keys == phases.Keys
  {
  }

  /** A callback that only restores a session and lets go of it again leaves no trace. */
  lemma RestoreThenDrop(m: Memory, r: RawId)
    requires Restorable(m, r) && m.cells[m.raws[r].appData.value].weak > 0
    ensures var (n, w) := FromRaw(m, r);
            w == Wrapper(r, m.raws[r].appData.value, true) && Live(n, w) && n.cells[w.cell].strong > 1
            && DropWrapper(n, w) == m
  {
    var (n, w) := FromRaw(m, r);
    assert DropWrapper(n, w).raws == m.raws && DropWrapper(n, w).cells == m.cells;
  }

  /** Refs and strong count of an open session after its handles changed. */
  function Adjusted(m: Memory, r: RawId, refs: int, strong: nat): Memory
    requires Restorable(m, r)
  {
    var c := m.raws[r].appData.value;
    m.(raws := m.raws[r := m.raws[r].(refs := refs)], cells := m.cells[c := m.cells[c].(strong := strong)])
  }

  lemma EnterEffect(s: State, r: RawId, counted: bool)
    requires Restorable(s.mem, r)
    ensures var c := s.mem.raws[r].appData.value;
            Step(s, Enter(r, counted))
            == Next(s.(mem := Adjusted(s.mem, r, s.mem.raws[r].refs + (if counted then 1 else 0), s.mem.cells[c].strong + 1),
                       handles := s.handles + [Wrapper(r, c, counted)]))
  {
    hide Count, CountRefs, Taken;
    if !counted {
      assert s.mem.raws[r := s.mem.raws[r].(refs := s.mem.raws[r].refs)] == s.mem.raws;
    }
  }

  lemma LeaveEffect(s: State, k: nat)
    requires k < |s.handles| && Live(s.mem, s.handles[k]) && s.mem.cells[s.handles[k].cell].strong > 1
    ensures var w := s.handles[k];
            Step(s, Leave(k))
            == Next(s.(mem := Adjusted(s.mem, w.raw, s.mem.raws[w.raw].refs - (if w.refCounted then 1 else 0), s.mem.cells[w.cell].strong - 1),
                       handles := RemoveAt(s.handles, k)))
  {
    hide Count, CountRefs, Taken;
    var w := s.handles[k];
    if !w.refCounted {
      assert s.mem.raws[w.raw := s.mem.raws[w.raw].(refs := s.mem.raws[w.raw].refs)] == s.mem.raws;
    }
  }

  lemma AttachedRemove(m: Memory, phases: map<RawId, Phase>, ws: seq<Wrapper>, k: nat)
    requires AllAttached(m, phases, ws) && k < |ws|
    ensures AllAttached(m, phases, RemoveAt(ws, k))
    ensures AllRefCounted(ws) ==> AllRefCounted(RemoveAt(ws, k))
  {
    hide Attached;
    forall i | 0 <= i < |ws| - 1
      ensures Attached(m, phases, RemoveAt(ws, k)[i])
      ensures AllRefCounted(ws) ==> RemoveAt(ws, k)[i].refCounted
    {
      assert RemoveAt(ws, k)[i] == ws[if i < k then i else i + 1];
    }
  }

  lemma StillAttached(phases: map<RawId, Phase>, m: Memory, n: Memory, ws: seq<Wrapper>)
    requires AllAttached(m, phases, ws)
    requires forall r :: r in m.raws ==> r in n.raws && n.raws[r].appData == m.raws[r].appData
    ensures AllAttached(n, phases, ws)
  {
  }

  /** The state after the handles of `r` became `hs`, with the counts that go with them. */
  function WithHandles(s: State, r: RawId, hs: seq<Wrapper>, clones: multiset<RawId>): State
    requires Restorable(s.mem, r)
  {
    State(Adjusted(s.mem, r, 1 + CountRefs(hs, r) - Taken(clones, r), 1 + Count(hs, r)), s.sessions, hs, clones)
  }

  /** For every other session neither handles nor clones changed. */
  ghost predicate OnlyFor(s: State, r: RawId, hs: seq<Wrapper>, clones: multiset<RawId>) {
    forall q :: q != r ==>
      Count(hs, q) == Count(s.handles, q) && CountRefs(hs, q) == CountRefs(s.handles, q) && Taken(clones, q) == Taken(s.clones, q)
  }

  lemma AdjustedBalanced(phases: map<RawId, Phase>, s: State, r: RawId, hs: seq<Wrapper>, clones: multiset<RawId>, q: RawId)
    requires Inv(phases, s) && r in phases && phases[r] == Open && Restorable(s.mem, r) && OnlyFor(s, r, hs, clones)
    requires q in phases && phases[q] == Open
    ensures Balanced(WithHandles(s, r, hs, clones), q)
  {
    hide Count, CountRefs, Taken, AllAttached, AllRefCounted;
    assert Balanced(s, r);
    assert Balanced(s, q);
  }

  lemma AdjustedCells(phases: map<RawId, Phase>, s: State, r: RawId, hs: seq<Wrapper>, clones: multiset<RawId>)
    requires Inv(phases, s) && r in phases && phases[r] == Open && Restorable(s.mem, r)
    ensures var t := WithHandles(s, r, hs, clones);
            && t.mem.raws.Keys == s.mem.raws.Keys
            && (forall q :: q in s.mem.raws ==> t.mem.raws[q].appData == s.mem.raws[q].appData)
            && (forall q :: q in s.mem.raws && q != r ==> t.mem.raws[q] == s.mem.raws[q])
            && (forall d :: d in t.mem.cells ==> d < t.mem.next && OwnedCell(t.mem, phases, d))
  {
    hide Count, CountRefs, Taken, AllAttached, AllRefCounted, Balanced;
    var t := WithHandles(s, r, hs, clones);
    assert t.mem.cells.Keys == s.mem.cells.Keys;
    forall d | d in t.mem.cells
      ensures d < t.mem.next && OwnedCell(t.mem, phases, d)
    {
      assert OwnedCell(s.mem, phases, d);
    }
  }

  lemma AdjustedKeeps(phases: map<RawId, Phase>, s: State, r: RawId, hs: seq<Wrapper>, clones: multiset<RawId>)
    requires Inv(phases, s) && r in phases && phases[r] == Open && Restorable(s.mem, r) && OnlyFor(s, r, hs, clones)
    requires AllAttached(s.mem, phases, hs)
    ensures Inv(phases, WithHandles(s, r, hs, clones))
  {
    hide Count, CountRefs, Taken, AllAttached, AllRefCounted, Balanced, OwnedCell, Adjusted;
    var t := WithHandles(s, r, hs, clones);
    forall q | q in phases && phases[q] == Open
      ensures Balanced(t, q)
    {
      AdjustedBalanced(phases, s, r, hs, clones, q);
    }
    AdjustedCells(phases, s, r, hs, clones);
    StillAttached(phases, s.mem, t.mem, hs);
    StillAttached(phases, s.mem, t.mem, s.sessions);
  }

  lemma EnterKeeps(phases: map<RawId, Phase>, s: State, r: RawId, counted: bool)
    requires Inv(phases, s) && Legal(phases, Enter(r, counted))
    ensures Restorable(s.mem, r)
    ensures Step(s, Enter(r, counted)).Next?
    ensures Inv(phases, Step(s, Enter(r, counted)).state)
  {
    hide Count, CountRefs, Taken, Step, Inv, Adjusted;
    InvOpen(phases, s, r);
    var w := Wrapper(r, s.mem.raws[r].appData.value, counted);
    EnterEffect(s, r, counted);
    PushCounts(s.handles, w);
    AdjustedKeeps(phases, s, r, s.handles + [w], s.clones);
  }

  lemma PushCounts(ws: seq<Wrapper>, w: Wrapper)
    ensures forall q :: Count(ws + [w], q) == Count(ws, q) + (if q == w.raw then 1 else 0)
    ensures forall q :: CountRefs(ws + [w], q) == CountRefs(ws, q) + (if q == w.raw && w.refCounted then 1 else 0)
  {
    hide Count, CountRefs, Taken;
    forall q
      ensures Count(ws + [w], q) == Count(ws, q) + (if q == w.raw then 1 else 0)
      ensures CountRefs(ws + [w], q) == CountRefs(ws, q) + (if q == w.raw && w.refCounted then 1 else 0)
    {
      CountPush(ws, w, q);
    }
  }

  lemma RemoveCounts(ws: seq<Wrapper>, k: nat)
    requires k < |ws|
    ensures forall q :: Count(RemoveAt(ws, k), q) == Count(ws, q) - (if q == ws[k].raw then 1 else 0)
    ensures forall q :: CountRefs(RemoveAt(ws, k), q) == CountRefs(ws, q) - (if q == ws[k].raw && ws[k].refCounted then 1 else 0)
  {
    hide Count, CountRefs, Taken, RemoveAt;
    forall q
      ensures Count(RemoveAt(ws, k), q) == Count(ws, q) - (if q == ws[k].raw then 1 else 0)
      ensures CountRefs(RemoveAt(ws, k), q) == CountRefs(ws, q) - (if q == ws[k].raw && ws[k].refCounted then 1 else 0)
    {
      CountRemove(ws, k, q);
    }
  }

  lemma HandleFacts(phases: map<RawId, Phase>, s: State, k: nat)
    requires Inv(phases, s) && k < |s.handles|
    ensures var w := s.handles[k];
            && Attached(s.mem, phases, w) && Live(s.mem, w) && Balanced(s, w.raw) && Restorable(s.mem, w.raw)
            && Count(s.handles, w.raw) > 0
    ensures AllAttached(s.mem, phases, s.handles) && AllAttached(s.mem, phases, RemoveAt(s.handles, k))
  {
    hide Count, CountRefs, Taken, RemoveAt;
    var w := s.handles[k];
    assert Attached(s.mem, phases, w);
    InvOpen(phases, s, w.raw);
    InvLive(phases, s, w);
    CountZero(s.handles, w.raw);
    AttachedRemove(s.mem, phases, s.handles, k);
  }

  lemma LeaveKeeps(phases: map<RawId, Phase>, s: State, k: nat)
    requires Inv(phases, s)
    ensures Step(s, Leave(k)).Next?
    ensures Inv(phases, Step(s, Leave(k)).state)
  {
    if k < |s.handles| {
      DropHandleKeeps(phases, s, k);
    }
  }

  lemma DropHandleKeeps(phases: map<RawId, Phase>, s: State, k: nat)
    requires Inv(phases, s) && k < |s.handles|
    ensures Step(s, Leave(k)).Next?
    ensures Inv(phases, Step(s, Leave(k)).state)
  {
    hide Count, CountRefs, Taken, Step, Inv, Adjusted, AllAttached, RemoveAt;
    HandleFacts(phases, s, k);
    RemoveCounts(s.handles, k);
    LeaveEffect(s, k);
    AdjustedKeeps(phases, s, s.handles[k].raw, RemoveAt(s.handles, k), s.clones);
  }

  lemma CloneEffect(s: State, k: nat)
    requires k < |s.handles| && Live(s.mem, s.handles[k])
    ensures var w := s.handles[k];
            Step(s, Clone(k))
            == Next(State(Adjusted(s.mem, w.raw, s.mem.raws[w.raw].refs, s.mem.cells[w.cell].strong + 1),
                          s.sessions, s.handles + [w], s.clones + CountedClone(w)))
  {
    hide Count, CountRefs, Taken;
    var w := s.handles[k];
    assert s.mem.raws[w.raw := s.mem.raws[w.raw].(refs := s.mem.raws[w.raw].refs)] == s.mem.raws;
  }

  /** A clone counts as a live wrapper, and libcoap's count from then on as one short if it is counted. */
  lemma CloneKeeps(phases: map<RawId, Phase>, s: State, k: nat)
    requires Inv(phases, s)
    ensures Step(s, Clone(k)).Next?
    ensures Inv(phases, Step(s, Clone(k)).state)
  {
    if k < |s.handles| {
      CloneHandleKeeps(phases, s, k);
    }
  }

  lemma TakenPush(clones: multiset<RawId>, w: Wrapper)
    ensures forall q :: Taken(clones + CountedClone(w), q) == Taken(clones, q) + (if q == w.raw && w.refCounted then 1 else 0)
  {
  }

  lemma TakenReset(clones: multiset<RawId>, r: RawId)
    ensures forall q :: Taken(clones[r := 0], q) == if q == r then 0 else Taken(clones, q)
  {
    forall q
      ensures Taken(clones[r := 0], q) == if q == r then 0 else Taken(clones, q)
    {
      assert clones[r := 0][q] == if q == r then 0 else clones[q];
    }
  }

  lemma CloneHandleKeeps(phases: map<RawId, Phase>, s: State, k: nat)
    requires Inv(phases, s) && k < |s.handles|
    ensures Step(s, Clone(k)).Next?
    ensures Inv(phases, Step(s, Clone(k)).state)
  {
    hide Count, CountRefs, Taken, Step, Inv, Adjusted, RemoveAt, CountedClone;
    var w := s.handles[k];
    TakenPush(s.clones, w);
    HandleFacts(phases, s, k);
    PushCounts(s.handles, w);
    CloneEffect(s, k);
    AdjustedKeeps(phases, s, w.raw, s.handles + [w], s.clones + CountedClone(w));
  }

  // ---------------------------------------------------------------- announcing a session

  lemma TcpConnectedEffect(s: State, r: RawId)
    requires s.mem.next !in s.mem.cells
    ensures Step(s, TcpConnected(r))
            == Next(s.(mem := s.mem.(raws := s.mem.raws[r := Raw(0, Some(s.mem.next))], next := s.mem.next + 1)))
  {
    hide Count, CountRefs, Taken;
    var c := s.mem.next;
    assert s.mem.cells[c := RcCell(r, 1, 1)] - {c} == s.mem.cells;
    assert s.mem.raws[r := Raw(0, None)][r := Raw(0, Some(c))][r := Raw(1, Some(c))][r := Raw(0, Some(c))]
        == s.mem.raws[r := Raw(0, Some(c))];
  }

  lemma SessionNewEffect(s: State, r: RawId)
    ensures var c := s.mem.next;
            var refs := if r in s.mem.raws then s.mem.raws[r].refs + 1 else 1;
            Step(s, SessionNew(r))
            == Next(State(Memory(s.mem.raws[r := Raw(refs, Some(c))], s.mem.cells[c := RcCell(r, 1, 1)], c + 1),
                          s.sessions + [Wrapper(r, c, true)], s.handles, s.clones))
  {
    hide Count, CountRefs, Taken;
    var c := s.mem.next;
    if r !in s.mem.raws {
      assert s.mem.raws[r := Raw(0, None)][r := Raw(0, Some(c))][r := Raw(1, Some(c))] == s.mem.raws[r := Raw(1, Some(c))];
    } else {
      var n := s.mem.raws[r].refs;
      assert s.mem.raws[r := Raw(n, Some(c))][r := Raw(n + 1, Some(c))] == s.mem.raws[r := Raw(n + 1, Some(c))];
    }
  }

  /** A session that is not open has neither wrappers nor an inner session. */
  lemma NotOpen(phases: map<RawId, Phase>, s: State, r: RawId)
    requires Inv(phases, s) && !(r in phases && phases[r] == Open)
    ensures Count(s.sessions, r) == 0 && Count(s.handles, r) == 0 && CountRefs(s.handles, r) == 0
    ensures forall c :: c in s.mem.cells ==> s.mem.cells[c].raw != r
  {
    hide Count, CountRefs, Taken;
    CountZero(s.sessions, r);
    CountZero(s.handles, r);
  }

  lemma TcpConnectedKeeps(phases: map<RawId, Phase>, s: State, r: RawId)
    requires Inv(phases, s) && Legal(phases, TcpConnected(r))
    ensures Step(s, TcpConnected(r)).Next?
    ensures Inv(phases[r := Unwrapped], Step(s, TcpConnected(r)).state)
  {
    hide Count, CountRefs, Taken, Step;
    TcpConnectedEffect(s, r);
    var t := Step(s, TcpConnected(r)).state;
    var p := phases[r := Unwrapped];
    forall q | q in p && p[q] == Open
      ensures Balanced(t, q)
    {
      assert Balanced(s, q);
    }
    forall c | c in t.mem.cells
      ensures c < t.mem.next && OwnedCell(t.mem, p, c)
    {
      assert OwnedCell(s.mem, phases, c);
    }
  }

  /** Wrappers of other sessions are not affected by what happens to session `r`. */
  lemma AttachedElsewhere(phases: map<RawId, Phase>, p: map<RawId, Phase>, m: Memory, n: Memory, ws: seq<Wrapper>, r: RawId)
    requires AllAttached(m, phases, ws) && Count(ws, r) == 0
    requires forall q :: q in m.raws && q != r ==> q in n.raws && n.raws[q] == m.raws[q]
    requires forall q :: q in phases && q != r ==> q in p && p[q] == phases[q]
    ensures AllAttached(n, p, ws)
  {
    hide Count, CountRefs;
    CountZero(ws, r);
  }

  lemma AttachedPush(m: Memory, p: map<RawId, Phase>, ws: seq<Wrapper>, w: Wrapper)
    requires AllAttached(m, p, ws) && Attached(m, p, w)
    ensures AllAttached(m, p, ws + [w])
    ensures AllRefCounted(ws) && w.refCounted ==> AllRefCounted(ws + [w])
  {
    hide Attached;
  }

  lemma SessionNewKeeps(phases: map<RawId, Phase>, s: State, r: RawId)
    requires Inv(phases, s) && Legal(phases, SessionNew(r))
    ensures Step(s, SessionNew(r)).Next?
    ensures Inv(phases[r := Open], Step(s, SessionNew(r)).state)
  {
    hide Count, CountRefs, Taken, Step, AllAttached, AllRefCounted;
    SessionNewEffect(s, r);
    NotOpen(phases, s, r);
    var t := Step(s, SessionNew(r)).state;
    var p := phases[r := Open];
    var w := Wrapper(r, s.mem.next, true);
    AttachedElsewhere(phases, p, s.mem, t.mem, s.sessions, r);
    AttachedElsewhere(phases, p, s.mem, t.mem, s.handles, r);
    AttachedPush(t.mem, p, s.sessions, w);
    forall q | q in p && p[q] == Open
      ensures Balanced(t, q)
    {
      CountPush(s.sessions, w, q);
      if q != r {
        assert Balanced(s, q) && OwnedCell(s.mem, phases, s.mem.raws[q].appData.value);
      }
    }
    forall c | c in t.mem.cells
      ensures c < t.mem.next && OwnedCell(t.mem, p, c)
    {
      if c != s.mem.next {
        assert OwnedCell(s.mem, phases, c);
      }
    }
  }

  // ---------------------------------------------------------------- letting go of a session

  lemma DropExclusivelyEffect(m: Memory, w: Wrapper)
    requires Live(m, w) && w.refCounted && m.cells[w.cell].weak == 1
    ensures DropExclusively(m, w)
            == if m.cells[w.cell].strong > 1 then None
               else Some(Memory(m.raws[w.raw := Raw(m.raws[w.raw].refs - 1, m.raws[w.raw].appData)], m.cells - {w.cell}, m.next))
  {
    var c := m.cells[w.cell];
    var cloned := m.(cells := m.cells[w.cell := c.(strong := c.strong + 1)]);
    var dropped := DropWrapper(cloned, w);
    assert dropped.cells[w.cell] == c;
    if c.strong == 1 {
      assert dropped.cells - {w.cell} == m.cells - {w.cell};
    }
  }

  /** Handling DEL amounts to an exclusive drop of the wrapper in the context's list. */
  lemma DelIsExclusiveDrop(s: State, r: RawId, i: nat)
    requires i < |s.sessions| && Position(s.sessions, r) == i && Live(s.mem, s.sessions[i])
    requires s.sessions[i].refCounted && s.mem.cells[s.sessions[i].cell].weak == 1
    ensures Step(s, SessionDel(r))
            == match DropExclusively(s.mem, s.sessions[i])
               case None => Panic
               case Some(n) => Next(s.(mem := n, sessions := RemoveAt(s.sessions, i)))
  {
    hide Count, CountRefs, Taken;
    var w := s.sessions[i];
    var (m, v) := FromRaw(s.mem, r);
    assert v == w;
    var n := DropWrapper(m, w);
    assert n.cells == s.mem.cells;
    assert n.raws == s.mem.raws;
  }

  /** Deleting a session that can be restored but is not listed panics. */
  lemma DelOfUnlistedPanics(s: State, r: RawId)
    requires Restorable(s.mem, r) && forall i :: 0 <= i < |s.sessions| ==> s.sessions[i].raw != r
    ensures Step(s, SessionDel(r)) == Panic
  {
  }

  lemma PositionUnique(ws: seq<Wrapper>, r: RawId)
    requires Count(ws, r) == 1
    ensures var i := Position(ws, r);
            i < |ws| && ws[i].raw == r && forall j :: 0 <= j < |ws| && ws[j].raw == r ==> j == i
  {
    hide Count, CountRefs;
    CountZero(ws, r);
    var i := Position(ws, r);
    CountRemove(ws, i, r);
    var rest := RemoveAt(ws, i);
    CountZero(rest, r);
    forall j | 0 <= j < |ws| && j != i
      ensures ws[j].raw != r
    {
      assert ws[j] == rest[if j < i then j else j - 1];
    }
  }

  lemma ListedOnce(phases: map<RawId, Phase>, s: State, r: RawId)
    requires Inv(phases, s) && r in phases && phases[r] == Open
    ensures var i := Position(s.sessions, r);
            i < |s.sessions| && s.sessions[i].raw == r && s.sessions[i].refCounted
            && Attached(s.mem, phases, s.sessions[i])
            && forall j :: 0 <= j < |s.sessions| && s.sessions[j].raw == r ==> j == i
  {
    hide Count, CountRefs, Taken, Inv, Position;
    InvOpen(phases, s, r);
    PositionUnique(s.sessions, r);
  }

  /**
   Letting go of the listed wrapper of an open session fails exactly when some handle for it is live;
   otherwise the session keeps no inner session, no wrapper and no reference.
   */
  lemma ExclusiveDropKeeps(phases: map<RawId, Phase>, s: State, i: nat)
    requires Inv(phases, s) && i < |s.sessions|
    ensures Live(s.mem, s.sessions[i])
    ensures var o := DropExclusively(s.mem, s.sessions[i]); var r := s.sessions[i].raw;
            && (o == None <==> Count(s.handles, r) > 0)
            && (o.Some? ==> Inv(phases[r := Unwrapped], s.(mem := o.value, sessions := RemoveAt(s.sessions, i))))
  {
    hide Count, CountRefs, Taken, DropExclusively;
    var w := s.sessions[i];
    var r := w.raw;
    assert Attached(s.mem, phases, w);
    InvOpen(phases, s, r);
    DropExclusivelyEffect(s.mem, w);
    if Count(s.handles, r) == 0 {
      var m := Memory(s.mem.raws[r := Raw(s.mem.raws[r].refs - 1, s.mem.raws[r].appData)], s.mem.cells - {w.cell}, s.mem.next);
      UnwrappedKeeps(phases, s, i, m);
    }
  }

  lemma SettledCounts(phases: map<RawId, Phase>, s: State, i: nat)
    requires Inv(phases, s) && i < |s.sessions| && s.sessions[i].raw in phases
    requires phases[s.sessions[i].raw] == Open && Count(s.handles, s.sessions[i].raw) == 0
    ensures var r := s.sessions[i].raw;
            r in s.mem.raws && s.mem.raws[r].refs - 1 + Taken(s.clones, r) == 0 && Count(RemoveAt(s.sessions, i), r) == 0
  {
    hide Count, CountRefs, Taken, RemoveAt, Inv;
    InvOpen(phases, s, s.sessions[i].raw);
    CountZero(s.handles, s.sessions[i].raw);
    CountRemove(s.sessions, i, s.sessions[i].raw);
  }

  lemma UnwrappedKeeps(phases: map<RawId, Phase>, s: State, i: nat, m: Memory)
    requires Inv(phases, s) && i < |s.sessions| && s.sessions[i].raw in phases
    requires phases[s.sessions[i].raw] == Open && Count(s.handles, s.sessions[i].raw) == 0
    requires s.sessions[i].raw in s.mem.raws && s.mem.raws[s.sessions[i].raw].appData == Some(s.sessions[i].cell)
    requires m == Memory(s.mem.raws[s.sessions[i].raw := Raw(s.mem.raws[s.sessions[i].raw].refs - 1, Some(s.sessions[i].cell))],
                         s.mem.cells - {s.sessions[i].cell}, s.mem.next)
    ensures Inv(phases[s.sessions[i].raw := Unwrapped], s.(mem := m, sessions := RemoveAt(s.sessions, i)))
  {
    hide Count, CountRefs, Taken, AllAttached, AllRefCounted, RemoveAt, Balanced, OwnedCell;
    var r := s.sessions[i].raw;
    var p := phases[r := Unwrapped];
    var t := s.(mem := m, sessions := RemoveAt(s.sessions, i));
    SettledCounts(phases, s, i);
    AttachedRemove(s.mem, phases, s.sessions, i);
    AttachedElsewhere(phases, p, s.mem, m, t.sessions, r);
    AttachedElsewhere(phases, p, s.mem, m, t.handles, r);
    UnwrappedBalanced(phases, s, i, t);
    UnwrappedCells(phases, s, i, t);
  }

  lemma UnwrappedCells(phases: map<RawId, Phase>, s: State, i: nat, t: State)
    requires Inv(phases, s) && i < |s.sessions|
    requires t.mem.cells == s.mem.cells - {s.sessions[i].cell} && t.mem.next == s.mem.next
    requires s.sessions[i].raw in s.mem.raws && s.mem.raws[s.sessions[i].raw].appData == Some(s.sessions[i].cell)
    requires forall q :: q in s.mem.raws && q != s.sessions[i].raw ==> q in t.mem.raws && t.mem.raws[q] == s.mem.raws[q]
    ensures forall c :: c in t.mem.cells ==> c < t.mem.next && OwnedCell(t.mem, phases[s.sessions[i].raw := Unwrapped], c)
  {
    hide Count, CountRefs, Taken, AllAttached, AllRefCounted, Balanced;
    forall c | c in t.mem.cells
      ensures c < t.mem.next && OwnedCell(t.mem, phases[s.sessions[i].raw := Unwrapped], c)
    {
      assert OwnedCell(s.mem, phases, c);
    }
  }

  lemma UnwrappedBalanced(phases: map<RawId, Phase>, s: State, i: nat, t: State)
    requires Inv(phases, s) && i < |s.sessions| && t.handles == s.handles && t.clones == s.clones
    requires t.sessions == RemoveAt(s.sessions, i) && t.mem.cells == s.mem.cells - {s.sessions[i].cell}
    requires s.sessions[i].raw in s.mem.raws && s.mem.raws[s.sessions[i].raw].appData == Some(s.sessions[i].cell)
    requires s.sessions[i].raw in phases && phases[s.sessions[i].raw] == Open
    requires forall q :: q in s.mem.raws && q != s.sessions[i].raw ==> q in t.mem.raws && t.mem.raws[q] == s.mem.raws[q]
    ensures forall q :: q in phases && q != s.sessions[i].raw && phases[q] == Open ==> Balanced(t, q)
  {
    hide Count, CountRefs, Taken, AllAttached, AllRefCounted, RemoveAt;
    assert Balanced(s, s.sessions[i].raw);
    forall q | q in phases && q != s.sessions[i].raw && phases[q] == Open
      ensures Balanced(t, q)
    {
      assert Balanced(s, q);
      CountRemove(s.sessions, i, q);
    }
  }

  lemma FreedKeeps(phases: map<RawId, Phase>, s: State, r: RawId)
    requires Inv(phases, s) && r in phases && phases[r] == Unwrapped
    ensures Inv(phases - {r}, Freed(s, SessionDel(r)))
  {
    hide Count, CountRefs, Taken;
    var t := Freed(s, SessionDel(r));
    TakenReset(s.clones, r);
    var p := phases - {r};
    forall q | q in p && p[q] == Open
      ensures Balanced(t, q)
    {
      assert Balanced(s, q);
    }
    forall c | c in t.mem.cells
      ensures c < t.mem.next && OwnedCell(t.mem, p, c)
    {
      assert OwnedCell(s.mem, phases, c);
    }
  }

  lemma SessionDelKeeps(phases: map<RawId, Phase>, s: State, r: RawId)
    requires Inv(phases, s) && Legal(phases, SessionDel(r))
    ensures Step(s, SessionDel(r)) != Undefined
    ensures Step(s, SessionDel(r)) == Panic <==> Count(s.handles, r) > 0
    ensures Step(s, SessionDel(r)).Next? ==> Inv(phases[r := Unwrapped], Step(s, SessionDel(r)).state)
  {
    hide Count, CountRefs, Taken, Step, Inv, DropExclusively;
    InvOpen(phases, s, r);
    ListedOnce(phases, s, r);
    var i := Position(s.sessions, r);
    ExclusiveDropKeeps(phases, s, i);
    DelIsExclusiveDrop(s, r, i);
  }

  // ---------------------------------------------------------------- whole runs

  predicate LegalRun(phases: map<RawId, Phase>, es: seq<Event>)
    decreases |es|
  {
    es == [] || (Legal(phases, es[0]) && LegalRun(NextPhases(phases, es[0]), es[1..]))
  }

  function PhasesAfter(phases: map<RawId, Phase>, es: seq<Event>): map<RawId, Phase>
    decreases |es|
  {
    if es == [] then phases else PhasesAfter(NextPhases(phases, es[0]), es[1..])
  }

  function Run(s: State, es: seq<Event>): Outcome
    decreases |es|
  {
    if es == [] then Next(s)
    else
      match Step(s, es[0])
      case Next(t) => Run(Freed(t, es[0]), es[1..])
      case Panic => Panic
      case Undefined => Undefined
  }

  /** The k-th event deletes a session while a callback still holds a handle for it. */
  predicate DeletesHeld(s: State, es: seq<Event>, k: nat) {
    && k < |es| && es[k].SessionDel? && Run(s, es[..k]).Next?
    && Count(Run(s, es[..k]).state.handles, es[k].r) > 0
  }

  lemma StepKeeps(phases: map<RawId, Phase>, s: State, e: Event)
    requires Inv(phases, s) && Legal(phases, e)
    ensures Step(s, e) != Undefined
    ensures Step(s, e) == Panic <==> e.SessionDel? && Count(s.handles, e.r) > 0
    ensures Step(s, e).Next? ==> Inv(NextPhases(phases, e), Freed(Step(s, e).state, e))
  {
    hide Count, CountRefs, Taken, Step, Inv;
    match e {
      case TcpConnected(r) => TcpConnectedKeeps(phases, s, r);
      case SessionNew(r) => SessionNewKeeps(phases, s, r);
      case Enter(r, counted) => EnterKeeps(phases, s, r, counted);
      case Leave(k) => LeaveKeeps(phases, s, k);
      case Clone(k) => CloneKeeps(phases, s, k);
      case SessionDel(r) =>
        SessionDelKeeps(phases, s, r);
        if Step(s, e).Next? {
          FreedKeeps(phases[r := Unwrapped], Step(s, e).state, r);
          assert phases[r := Unwrapped] - {r} == phases - {r};
        }
    }
  }

  /**
   Under every legal event sequence no restore or drop follows a dangling pointer, the counts stay
   balanced, and the only panic is the deletion of a session a callback still holds.
   */
  lemma {:induction false} LegalRunsAreSafe(phases: map<RawId, Phase>, s: State, es: seq<Event>)
    requires Inv(phases, s) && LegalRun(phases, es)
    ensures Run(s, es) != Undefined
    ensures Run(s, es) == Panic <==> exists k: nat :: DeletesHeld(s, es, k)
    ensures Run(s, es).Next? ==> Inv(PhasesAfter(phases, es), Run(s, es).state)
    decreases |es|
  {
    hide Count, CountRefs, Taken, Step, Inv, Legal, NextPhases, Freed;
    if es != [] {
      StepKeeps(phases, s, es[0]);
      assert es[..0] == [];
      if Step(s, es[0]) == Panic {
        assert DeletesHeld(s, es, 0);
      } else {
        var t := Freed(Step(s, es[0]).state, es[0]);
        LegalRunsAreSafe(NextPhases(phases, es[0]), t, es[1..]);
        assert !DeletesHeld(s, es, 0);
        forall k: nat | k < |es| - 1
          ensures DeletesHeld(s, es, k + 1) == DeletesHeld(t, es[1..], k)
        {
          assert es[..k + 1][1..] == es[1..][..k];
        }
        if k: nat :| DeletesHeld(t, es[1..], k) {
          assert DeletesHeld(s, es, k + 1);
        }
        if k: nat :| DeletesHeld(s, es, k) {
          assert DeletesHeld(t, es[1..], k - 1);
        }
      }
    }
  }

  /** What the invariant says of the counts: each equals the number of live wrappers it stands for. */
  lemma CountsMatchWrappers(phases: map<RawId, Phase>, s: State, r: RawId)
    requires Inv(phases, s) && r in s.mem.raws
    ensures s.mem.raws[r].refs == CountRefs(s.sessions + s.handles, r) - Taken(s.clones, r)
    ensures phases[r] == Open ==> Restorable(s.mem, r)
    ensures phases[r] == Open ==>
              s.mem.cells[s.mem.raws[r].appData.value] == RcCell(r, Count(s.sessions + s.handles, r), 1)
    ensures phases[r] == Unwrapped ==>
              Count(s.sessions + s.handles, r) == 0 && forall c :: c in s.mem.cells ==> s.mem.cells[c].raw != r
  {
    FilterConcat(s.sessions, s.handles, OfRaw(r));
    FilterConcat(s.sessions, s.handles, CountedOf(r));
    AllCounted(s.sessions, r);
    if phases[r] == Open {
      InvOpen(phases, s, r);
    } else {
      NotOpen(phases, s, r);
    }
  }

  lemma {:induction false} AllCounted(ws: seq<Wrapper>, r: RawId)
    requires AllRefCounted(ws)
    ensures CountRefs(ws, r) == Count(ws, r)
  {
    if ws != [] {
      var n := |ws| - 1;
      assert ws == ws[..n] + [ws[n]];
      CountPush(ws[..n], ws[n], r);
      AllCounted(ws[..n], r);
    }
  }

  lemma InitialInv()
    ensures Inv(map[], INITIAL)
  {
  }

  /** Without clones nothing is ever owed. */
  lemma {:induction false} NoClonesNoDebt(s: State, es: seq<Event>)
    requires s.clones == multiset{} && forall i :: 0 <= i < |es| ==> !es[i].Clone?
    ensures Run(s, es).Next? ==> Run(s, es).state.clones == multiset{}
    decreases |es|
  {
    if es != [] && Step(s, es[0]).Next? {
      StepKeepsClones(s, es[0]);
      NoClonesNoDebt(Freed(Step(s, es[0]).state, es[0]), es[1..]);
    }
  }

  lemma StepKeepsClones(s: State, e: Event)
    requires !e.Clone? && Step(s, e).Next?
    ensures Step(s, e).state.clones == s.clones
  {
  }

  /** In runs without clones libcoap's count is exactly the number of live counted wrappers. */
  lemma ExactWithoutClones(es: seq<Event>)
    requires LegalRun(map[], es) && Run(INITIAL, es).Next? && forall i :: 0 <= i < |es| ==> !es[i].Clone?
    ensures var s := Run(INITIAL, es).state;
            forall r :: r in s.mem.raws ==> s.mem.raws[r].refs == CountRefs(s.sessions + s.handles, r)
  {
    hide Count, CountRefs, Run, LegalRun, Inv;
    NoClonesNoDebt(INITIAL, es);
    InitialInv();
    LegalRunsAreSafe(map[], INITIAL, es);
    var s := Run(INITIAL, es).state;
    forall r | r in s.mem.raws
      ensures s.mem.raws[r].refs == CountRefs(s.sessions + s.handles, r)
    {
      CountsMatchWrappers(PhasesAfter(map[], es), s, r);
    }
  }

  /** From an empty context: safety and matching counts in every reachable state. */
  lemma ReachableStates(es: seq<Event>)
    requires LegalRun(map[], es)
    ensures Run(INITIAL, es) != Undefined
    ensures Run(INITIAL, es) == Panic <==> exists k: nat :: DeletesHeld(INITIAL, es, k)
    ensures Run(INITIAL, es).Next? ==>
              var s := Run(INITIAL, es).state;
              var phases := PhasesAfter(map[], es);
              && s.mem.raws.Keys == phases.Keys
              && (forall r :: r in phases ==> s.mem.raws[r].refs == CountRefs(s.sessions + s.handles, r) - Taken(s.clones, r))
              && (forall r :: r in phases && phases[r] == Open ==>
                    && Restorable(s.mem, r) && Count(s.sessions, r) == 1
                    && s.mem.cells[s.mem.raws[r].appData.value] == RcCell(r, Count(s.sessions + s.handles, r), 1))
              && (forall c :: c in s.mem.cells ==> s.mem.cells[c].raw in phases && phases[s.mem.cells[c].raw] == Open)
  {
    hide Count, CountRefs, Taken, Step, LegalRun, Run, PhasesAfter, Restorable;
    InitialInv();
    LegalRunsAreSafe(map[], INITIAL, es);
    if Run(INITIAL, es).Next? {
      var s := Run(INITIAL, es).state;
      var phases := PhasesAfter(map[], es);
      forall r | r in phases
        ensures s.mem.raws[r].refs == CountRefs(s.sessions + s.handles, r) - Taken(s.clones, r)
        ensures phases[r] == Open ==> Restorable(s.mem, r)
        ensures phases[r] == Open ==> Count(s.sessions, r) == 1
        ensures phases[r] == Open ==>
                  s.mem.cells[s.mem.raws[r].appData.value] == RcCell(r, Count(s.sessions + s.handles, r), 1)
      {
        CountsMatchWrappers(phases, s, r);
      }
      forall c | c in s.mem.cells
        ensures s.mem.cells[c].raw in phases && phases[s.mem.cells[c].raw] == Open
      {
        assert OwnedCell(s.mem, phases, c);
      }
    }
  }

  // ---------------------------------------------------------------- dropping the context

  /** The session loop in `Drop for CoapContextInner`. */
  function DropSessions(s: State): Outcome
    decreases |s.sessions|
  {
    if s.sessions == [] then Next(s)
    else if !Live(s.mem, s.sessions[0]) then Undefined
    else
      match DropExclusively(s.mem, s.sessions[0])
      case None => Panic
      case Some(m) => DropSessions(s.(mem := m, sessions := s.sessions[1..]))
  }

  /**
   Dropping the context panics exactly when a handle to one of its sessions is still live; otherwise
   no inner session is left and libcoap holds no reference on Rust's behalf.
   */
  lemma {:induction false} DropSessionsBalances(phases: map<RawId, Phase>, s: State)
    requires Inv(phases, s)
    ensures DropSessions(s) != Undefined
    ensures DropSessions(s) == Panic <==> s.handles != []
    ensures DropSessions(s).Next? ==>
              var t := DropSessions(s).state;
              t.sessions == [] && t.mem.cells == map[] && t.mem.raws.Keys == s.mem.raws.Keys
              && forall r :: r in t.mem.raws ==> t.mem.raws[r].refs + Taken(s.clones, r) == 0
    decreases |s.sessions|
  {
    hide Count, CountRefs, Taken, DropExclusively;
    if s.sessions == [] {
      if s.handles != [] {
        assert Attached(s.mem, phases, s.handles[0]);
        ListedOnce(phases, s, s.handles[0].raw);
      }
      forall r | r in phases
        ensures phases[r] == Unwrapped
      {
        if phases[r] == Open {
          ListedOnce(phases, s, r);
        }
      }
      assert forall c :: c in s.mem.cells ==> !OwnedCell(s.mem, phases, c);
    } else {
      hide Inv;
      var r := s.sessions[0].raw;
      ExclusiveDropKeeps(phases, s, 0);
      CountZero(s.handles, r);
      var o := DropExclusively(s.mem, s.sessions[0]);
      if o.Some? {
        assert RemoveAt(s.sessions, 0) == s.sessions[1..];
        DropSessionsBalances(phases[r := Unwrapped], s.(mem := o.value, sessions := s.sessions[1..]));
        DropExclusivelyKeys(s.mem, s.sessions[0]);
      }
    }
  }

  lemma DropExclusivelyKeys(m: Memory, w: Wrapper)
    requires Live(m, w)
    ensures var o := DropExclusively(m, w); o.Some? ==> o.value.raws.Keys == m.raws.Keys
  {
  }

  // ---------------------------------------------------------------- derived clones

  /**
   Cloning a wrapper and dropping the clone is neutral exactly for uncounted wrappers; for a counted
   one libcoap ends up with one reference less than there are live counted wrappers.
   */
  lemma CloneThenDrop(m: Memory, w: Wrapper)
    requires Live(m, w)
    ensures Live(CloneWrapper(m, w).0, w)
    ensures var n := DropWrapper(CloneWrapper(m, w).0, CloneWrapper(m, w).1);
            && (n == m <==> !w.refCounted)
            && n.cells == m.cells
            && n.raws[w.raw].refs == m.raws[w.raw].refs - if w.refCounted then 1 else 0
  {
    var n := DropWrapper(CloneWrapper(m, w).0, CloneWrapper(m, w).1);
    assert n.cells == m.cells;
    if !w.refCounted {
      assert n.raws == m.raws;
    }
  }
}
