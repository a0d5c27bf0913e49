/**
 The lendable cell: a `RefCell` whose exclusive borrow can be parked in a side slot, picked up by
 re-entrant callbacks on the other side of the FFI barrier, lent again, and handed back on drop.
 */
module LendableCell {
  import opened Sequences

  type Address = nat

  /** The borrow flag of the `RefCell` (-1 exclusive, n readers) and the pointer in the slot. */
  datatype Cell = Cell(flag: int, slot: Option<Address>)

  /** What callers hold: guards (owned or taken out of the slot) and lender tokens. */
  datatype Holder =
    | SharedRef
    | ExclusiveRef
    | TakenRef(ptr: Address)
    | TakenMut(ptr: Address)
    | Lender(ptr: Address, through: nat)

  // ---------------------------------------------------------------- the operations on the two fields

  /** A borrow returns the new cell and a guard; no guard where the source panics. */
  function BorrowMutOf(c: Cell): (Cell, Option<Holder>) {
    if c.slot.Some? then (c.(slot := None), Some(TakenMut(c.slot.value)))
    else if c.flag == 0 then (c.(flag := -1), Some(ExclusiveRef))
    else (c, None)
  }

  function BorrowOf(c: Cell): (Cell, Option<Holder>) {
    if c.slot.Some? then (c.(slot := None), Some(TakenRef(c.slot.value)))
    else if c.flag >= 0 then (c.(flag := c.flag + 1), Some(SharedRef))
    else (c, None)
  }

  /** Parks a pointer in the slot; None where the source panics because it is not the cell's own. */
  function LendOf(address: Address, c: Cell, ptr: Address): Option<Cell> {
    if ptr != address then None else Some(c.(slot := Some(ptr)))
  }

  /** The destructors; None where one of their assertions fails. */
  function DropOf(c: Cell, h: Holder): Option<Cell> {
    match h
    case SharedRef => Some(c.(flag := c.flag - 1))
    case ExclusiveRef => Some(c.(flag := 0))
    case TakenRef(p) => if c.slot.Some? then None else Some(c.(slot := Some(p)))
    case TakenMut(p) => if c.slot.Some? then None else Some(c.(slot := Some(p)))
    case Lender(p, _) => if c.slot == Some(p) then Some(c.(slot := None)) else None
  }

  class LendableFfiRcCell {
    const address: Address
    var flag: int
    var slot: Option<Address>

    function State(): Cell
      reads this
    {
      Cell(flag, slot)
    }

    constructor (address: Address)
      ensures this.address == address && State() == Cell(0, None)
    {
      this.address := address;
      flag, slot := 0, None;
    }

    method BorrowMut() returns (guard: Option<Holder>)
      modifies this
      ensures (State(), guard) == BorrowMutOf(old(State()))
      ensures guard == None ==> State() == old(State())
      ensures guard.Some? ==> Mutable(guard.value)
    {
      var taken := slot;
      slot := None;
      if taken.Some? {
        return Some(TakenMut(taken.value));
      }
      if flag != 0 {
        return None;
      }
      flag := -1;
      return Some(ExclusiveRef);
    }

    method Borrow() returns (guard: Option<Holder>)
      modifies this
      ensures (State(), guard) == BorrowOf(old(State()))
      ensures guard == None ==> State() == old(State())
      ensures guard.Some? ==> !Mutable(guard.value) && !guard.value.Lender?
    {
      var taken := slot;
      slot := None;
      if taken.Some? {
        return Some(TakenRef(taken.value));
      }
      if flag < 0 {
        return None;
      }
      flag := flag + 1;
      return Some(SharedRef);
    }

    method LendRefMut(ptr: Address, through: nat) returns (token: Option<Holder>)
      modifies this
      ensures LendOf(address, old(State()), ptr) == if token.Some? then Some(State()) else None
      ensures token == None ==> State() == old(State())
      ensures token.Some? ==> token.value == Lender(ptr, through)
    {
      if ptr != address {
        return None;
      }
      slot := Some(ptr);
      return Some(Lender(ptr, through));
    }

    method Drop(h: Holder) returns (ok: bool)
      modifies this
      ensures ok <==> DropOf(old(State()), h).Some?
      ensures ok ==> DropOf(old(State()), h) == Some(State())
    {
      match h {
        case SharedRef => flag := flag - 1;
        case ExclusiveRef => flag := 0;
        case TakenRef(p) =>
          if slot.Some? {
            return false;
          }
          slot := Some(p);
        case TakenMut(p) =>
          if slot.Some? {
            return false;
          }
          slot := Some(p);
        case Lender(p, _) =>
          var parked := slot;
          slot := None;
          if parked != Some(p) {
            return false;
          }
      }
      return true;
    }
  }

  // ---------------------------------------------------------------- runs

  /** A cell together with everything held on it, oldest first. */
  datatype State = State(cell: Cell, holders: seq<Holder>)

  const INITIAL := State(Cell(0, None), [])

  /** `Lend(k)` lends through the k-th holder; `DropTop` ends the youngest holder. */
  datatype Action = Borrow | BorrowMut | Lend(k: nat) | DropTop

  predicate Mutable(h: Holder) {
    h.ExclusiveRef? || h.TakenMut?
  }

  predicate Lent(holders: seq<Holder>, k: nat) {
    exists j :: 0 <= j < |holders| && holders[j].Lender? && holders[j].through == k
  }

  /** What the borrow checker lets a caller do: lending needs a mutable guard that is not lent. */
  predicate Permitted(holders: seq<Holder>, a: Action) {
    match a
    case Lend(k) => k < |holders| && Mutable(holders[k]) && !Lent(holders, k)
    case DropTop => holders != [] && !Lent(holders, |holders| - 1)
    case _ => true
  }

  function PointerOf(address: Address, h: Holder): Address {
    if h.TakenMut? then h.ptr else address
  }

  /** The outcome of an action: the next state, a refused borrow, or a failed assertion. */
  datatype Outcome = Done(state: State) | Refused | AssertionFailed

  function Step(address: Address, s: State, a: Action): Outcome
    requires Permitted(s.holders, a)
  {
    match a
    case Borrow =>
      var (c, g) := BorrowOf(s.cell);
      if g == None then Refused else Done(State(c, s.holders + [g.value]))
    case BorrowMut =>
      var (c, g) := BorrowMutOf(s.cell);
      if g == None then Refused else Done(State(c, s.holders + [g.value]))
    case Lend(k) =>
      var p := PointerOf(address, s.holders[k]);
      var c := LendOf(address, s.cell, p);
      if c == None then AssertionFailed else Done(State(c.value, s.holders + [Lender(p, k)]))
    case DropTop =>
      var c := DropOf(s.cell, s.holders[|s.holders| - 1]);
      if c == None then AssertionFailed else Done(State(c.value, s.holders[..|s.holders| - 1]))
  }

  /**
   A last-in-first-out run; None once an assertion has failed. Actions the borrow checker forbids
   do not occur, and a refused borrow leaves the state alone.
   */
  function Run(address: Address, s: State, actions: seq<Action>): Option<State>
    decreases |actions|
  {
    if actions == [] then Some(s)
    else if !Permitted(s.holders, actions[0]) then Run(address, s, actions[1..])
    else
      match Step(address, s, actions[0])
      case Done(t) => Run(address, t, actions[1..])
      case Refused => Run(address, s, actions[1..])
      case AssertionFailed => None
  }

  // ---------------------------------------------------------------- the invariant

  predicate OnlyReaders(holders: seq<Holder>) {
    forall i :: 0 <= i < |holders| ==> holders[i].SharedRef?
  }

  /**
   The only shapes holders can take: readers alone, or one exclusive guard followed by lenders and
   guards taken from them in turn.
   */
  predicate WellStacked(address: Address, holders: seq<Holder>) {
    if holders == [] then true else
    var rest := holders[..|holders| - 1];
    match holders[|holders| - 1]
    case SharedRef => OnlyReaders(rest)
    case ExclusiveRef => rest == []
    case TakenRef(p) => p == address && rest != [] && rest[|rest| - 1].Lender? && WellStacked(address, rest)
    case TakenMut(p) => p == address && rest != [] && rest[|rest| - 1].Lender? && WellStacked(address, rest)
    case Lender(p, k) =>
      p == address && k == |rest| - 1 && rest != [] && Mutable(rest[|rest| - 1]) && WellStacked(address, rest)
  }

  /** The two fields as a function of the holders. */
  function CellOf(address: Address, holders: seq<Holder>): Cell {
    Cell(if holders == [] then 0 else if holders[0].SharedRef? then |holders| else -1,
         if holders != [] && holders[|holders| - 1].Lender? then Some(address) else None)
  }

  predicate Inv(address: Address, s: State) {
    WellStacked(address, s.holders) && s.cell == CellOf(address, s.holders)
  }

  /** Below the youngest holder there are only readers beside readers, lenders, and lent guards. */
  lemma {:induction false} OnlyTopIsFree(address: Address, holders: seq<Holder>, i: nat)
    requires WellStacked(address, holders) && i < |holders| - 1
    ensures holders[|holders| - 1].SharedRef? ==> holders[i].SharedRef?
    ensures !holders[|holders| - 1].SharedRef? ==> holders[i].Lender? || Lent(holders, i)
  {
    var rest, top := holders[..|holders| - 1], holders[|holders| - 1];
    if top.SharedRef? {
      assert rest[i].SharedRef?;
    } else if i < |rest| - 1 {
      OnlyTopIsFree(address, rest, i);
      if Lent(rest, i) {
        var j :| 0 <= j < |rest| && rest[j].Lender? && rest[j].through == i;
        assert holders[j].Lender? && holders[j].through == i;
      }
    } else if top.Lender? {
      assert holders[|rest|].Lender? && holders[|rest|].through == i;
    }
  }

  lemma {:induction false} NoReadersBelow(address: Address, holders: seq<Holder>)
    requires WellStacked(address, holders) && holders != [] && !holders[|holders| - 1].SharedRef?
    ensures holders[0] == ExclusiveRef
  {
    if |holders| > 1 {
      NoReadersBelow(address, holders[..|holders| - 1]);
    }
  }

  lemma {:induction false} LendersPointDown(address: Address, holders: seq<Holder>, j: nat)
    requires WellStacked(address, holders) && j < |holders| && holders[j].Lender?
    ensures holders[j].through + 1 == j
  {
    var rest := holders[..|holders| - 1];
    if j < |rest| {
      assert rest[j] == holders[j];
      LendersPointDown(address, rest, j);
    }
  }

  // ---------------------------------------------------------------- main results

  /** A guard with the right to write (read) right now: it is not lent away. */
  predicate CanWrite(holders: seq<Holder>, i: nat) {
    i < |holders| && Mutable(holders[i]) && !Lent(holders, i)
  }

  predicate CanRead(holders: seq<Holder>, i: nat) {
    i < |holders| && !holders[i].Lender? && !Lent(holders, i)
  }

  /** Aliasing or mutation, never both: a writer is the youngest holder and the only reader. */
  lemma WriterIsAlone(address: Address, holders: seq<Holder>, i: nat, j: nat)
    requires WellStacked(address, holders) && CanWrite(holders, i) && CanRead(holders, j)
    ensures i == j == |holders| - 1
  {
    if i < |holders| - 1 {
      OnlyTopIsFree(address, holders, i);
    }
    if j < |holders| - 1 {
      OnlyTopIsFree(address, holders, j);
    }
  }

  lemma {:induction false} ReadersOnly(address: Address, holders: seq<Holder>)
    requires WellStacked(address, holders) && holders != []
    ensures holders[0].SharedRef? <==> holders[|holders| - 1].SharedRef?
    ensures holders[0].SharedRef? ==> OnlyReaders(holders)
    ensures !holders[0].SharedRef? ==> holders[0] == ExclusiveRef
  {
    if holders[|holders| - 1].SharedRef? {
      assert holders == holders[..|holders| - 1] + [SharedRef];
    } else {
      NoReadersBelow(address, holders);
    }
  }

  lemma AllReadersStack(address: Address, holders: seq<Holder>)
    requires OnlyReaders(holders)
    ensures WellStacked(address, holders)
    ensures CellOf(address, holders) == Cell(|holders|, None)
  {
    assert holders != [] ==> OnlyReaders(holders[..|holders| - 1]);
  }

  /** Pushing a holder on a well-stacked sequence. */
  lemma PushStacked(address: Address, holders: seq<Holder>, h: Holder)
    requires WellStacked(address, holders)
    requires match h
             case SharedRef => holders == [] || holders[0].SharedRef?
             case ExclusiveRef => holders == []
             case Lender(p, k) =>
               holders != [] && p == address && k == |holders| - 1 && Mutable(holders[|holders| - 1])
             case _ => holders != [] && h.ptr == address && holders[|holders| - 1].Lender?
    ensures WellStacked(address, holders + [h])
  {
    assert (holders + [h])[..|holders|] == holders;
    if h.SharedRef? && holders != [] {
      ReadersOnly(address, holders);
    }
  }

  lemma BorrowKeepsInv(address: Address, s: State, a: Action)
    requires Inv(address, s) && (a.Borrow? || a.BorrowMut?)
    ensures Step(address, s, a) != AssertionFailed
    ensures Step(address, s, a).Done? ==> Inv(address, Step(address, s, a).state)
  {
    if s.holders != [] {
      ReadersOnly(address, s.holders);
    }
    if Step(address, s, a).Done? {
      var t := Step(address, s, a).state;
      var h := t.holders[|s.holders|];
      hide WellStacked;
      PushStacked(address, s.holders, h);
    }
  }

  lemma LendKeepsInv(address: Address, s: State, k: nat)
    requires Inv(address, s) && Permitted(s.holders, Lend(k))
    ensures k == |s.holders| - 1
    ensures Step(address, s, Lend(k)).Done?
    ensures Inv(address, Step(address, s, Lend(k)).state)
  {
    assert CanWrite(s.holders, k) && CanRead(s.holders, k);
    WriterIsAlone(address, s.holders, k, k);
    assert PointerOf(address, s.holders[k]) == address;
    ReadersOnly(address, s.holders);
    hide WellStacked;
    PushStacked(address, s.holders, Lender(address, k));
  }

  lemma DropKeepsInv(address: Address, s: State)
    requires Inv(address, s) && s.holders != []
    ensures DropOf(s.cell, s.holders[|s.holders| - 1]) == Some(CellOf(address, s.holders[..|s.holders| - 1]))
    ensures WellStacked(address, s.holders[..|s.holders| - 1])
  {
    var rest := s.holders[..|s.holders| - 1];
    ReadersOnly(address, s.holders);
    if s.holders[0].SharedRef? {
      AllReadersStack(address, rest);
    } else if rest != [] {
      assert rest[0] == s.holders[0];
    }
  }

  /** Every permitted action keeps the invariant and passes its assertions. */
  lemma StepKeepsInv(address: Address, s: State, a: Action)
    requires Inv(address, s) && Permitted(s.holders, a)
    ensures Step(address, s, a) != AssertionFailed
    ensures Step(address, s, a).Done? ==> Inv(address, Step(address, s, a).state)
  {
    hide WellStacked;
    match a
    case Borrow => BorrowKeepsInv(address, s, a);
    case BorrowMut => BorrowKeepsInv(address, s, a);
    case Lend(k) => LendKeepsInv(address, s, k);
    case DropTop => DropKeepsInv(address, s);
  }

  /**
   In every last-in-first-out run, however deeply borrowing and lending are nested, no drop
   assertion fails and the fields always say exactly who holds what; unwinding everything leaves
   the cell unborrowed with an empty slot.
   */
  lemma {:induction false} LifoRunsAreSafe(address: Address, s: State, actions: seq<Action>)
    requires Inv(address, s)
    decreases |actions|
    ensures Run(address, s, actions).Some?
    ensures Inv(address, Run(address, s, actions).value)
    ensures Run(address, s, actions).value.holders == [] ==> Run(address, s, actions) == Some(INITIAL)
  {
    if actions != [] {
      if Permitted(s.holders, actions[0]) {
        StepKeepsInv(address, s, actions[0]);
        match Step(address, s, actions[0])
        case Done(t) => LifoRunsAreSafe(address, t, actions[1..]);
        case Refused => LifoRunsAreSafe(address, s, actions[1..]);
      } else {
        LifoRunsAreSafe(address, s, actions[1..]);
      }
    }
  }

  /**
   The bracket of `do_io`: borrow, lend, let callbacks run, take back, release. Callbacks that
   return everything they took leave the cell exactly as it was.
   */
  lemma DoIoBracket(address: Address, s: State, callbacks: seq<Action>)
    requires Inv(address, s) && Step(address, s, BorrowMut).Done?
    ensures
      var borrowed := Step(address, s, BorrowMut).state;
      var k := |s.holders|;
      && Permitted(borrowed.holders, Lend(k))
      && Step(address, borrowed, Lend(k)).Done?
      && var lent := Step(address, borrowed, Lend(k)).state;
         var back := Run(address, lent, callbacks);
         && back.Some?
         && (back.value.holders == lent.holders ==>
               && back.value == lent
               && Permitted(lent.holders, DropTop)
               && Step(address, lent, DropTop) == Done(borrowed)
               && Permitted(borrowed.holders, DropTop)
               && Step(address, borrowed, DropTop) == Done(s))
  {
    hide WellStacked, Run;
    StepKeepsInv(address, s, BorrowMut);
    var k := |s.holders|;
    var borrowed := Step(address, s, BorrowMut).state;
    assert Mutable(borrowed.holders[k]);
    NothingLentThroughTop(address, borrowed.holders);
    StepKeepsInv(address, borrowed, Lend(k));
    var lent := Step(address, borrowed, Lend(k)).state;
    NothingLentThroughTop(address, lent.holders);
    LifoRunsAreSafe(address, lent, callbacks);
    assert lent.holders[..k + 1] == borrowed.holders && borrowed.holders[..k] == s.holders;
    StepKeepsInv(address, lent, DropTop);
    StepKeepsInv(address, borrowed, DropTop);
  }

  lemma NothingLentThroughTop(address: Address, holders: seq<Holder>)
    requires WellStacked(address, holders) && holders != []
    ensures !Lent(holders, |holders| - 1)
  {
    if Lent(holders, |holders| - 1) {
      var j :| 0 <= j < |holders| && holders[j].Lender? && holders[j].through == |holders| - 1;
      LendersPointDown(address, holders, j);
    }
  }

  // ---------------------------------------------------------------- refinement of a reader-writer cell

  /**
   A plain reader-writer cell; each lend opens a nested one on top of the writer it came from. A nested
   cell admits one reader at a time, the Guest, because the lent reference is handed out only once.
   */
  datatype Frame = Idle | Readers(n: nat) | Guest | Writer

  function WithTop(frames: seq<Frame>, top: Frame): (r: seq<Frame>)
    requires frames != []
    ensures r != [] && |r| == |frames| && r[|r| - 1] == top
  {
    frames[|frames| - 1 := top]
  }

  /** The specification knows no flag and no slot, only nested reader-writer cells. */
  function SpecStep(frames: seq<Frame>, a: Action): Option<seq<Frame>>
    requires frames != []
  {
    var top := frames[|frames| - 1];
    match a
    case Borrow =>
      if top.Writer? || top.Guest? then None
      else if |frames| > 1 then Some(WithTop(frames, Guest))
      else Some(WithTop(frames, Readers(if top.Readers? then top.n + 1 else 1)))
    case BorrowMut => if top.Idle? then Some(WithTop(frames, Writer)) else None
    case Lend(_) => if top.Writer? then Some(frames + [Idle]) else None
    case DropTop =>
      match top
      case Writer => Some(WithTop(frames, Idle))
      case Guest => Some(WithTop(frames, Idle))
      case Readers(n) => Some(WithTop(frames, if n <= 1 then Idle else Readers(n - 1)))
      case Idle => if |frames| == 1 then None else Some(frames[..|frames| - 1])
  }

  function Frames(holders: seq<Holder>): (r: seq<Frame>)
    ensures r != []
  {
    if holders == [] then [Idle]
    else if holders[0].SharedRef? then [Readers(|holders|)]
    else
      var rest := Frames(holders[..|holders| - 1]);
      if holders[|holders| - 1].Lender? then rest + [Idle] else WithTop(rest, FrameOf(holders[|holders| - 1]))
  }

  /** What a guard on an exclusively held cell makes of the innermost cell. */
  function FrameOf(h: Holder): Frame {
    if Mutable(h) then Writer else Guest
  }

  lemma FramesTop(address: Address, holders: seq<Holder>)
    requires WellStacked(address, holders) && holders != [] && !holders[0].SharedRef?
    ensures Frames(holders)[|Frames(holders)| - 1]
            == if holders[|holders| - 1].Lender? then Idle else FrameOf(holders[|holders| - 1])
    ensures holders[|holders| - 1].Lender? ==> |Frames(holders)| > 1
  {
  }

  /** What the youngest holder adds to the nested cells. */
  lemma FramesPush(address: Address, holders: seq<Holder>, h: Holder)
    requires WellStacked(address, holders) && WellStacked(address, holders + [h])
    requires !h.SharedRef?
    ensures Frames(holders + [h]) ==
            if h.Lender? then Frames(holders) + [Idle] else WithTop(Frames(holders), FrameOf(h))
    ensures h.ExclusiveRef? || h.TakenRef? || h.TakenMut? ==> Frames(holders)[|Frames(holders)| - 1] == Idle
  {
    assert (holders + [h])[..|holders|] == holders;
    ReadersOnly(address, holders + [h]);
    if holders != [] {
      ReadersOnly(address, holders);
      FramesTop(address, holders);
    }
  }

  /** Borrowing from a cell that nobody holds, or that only readers hold. */
  lemma BorrowRefinesReaders(address: Address, s: State, a: Action)
    requires Inv(address, s) && (a.Borrow? || a.BorrowMut?) && OnlyReaders(s.holders)
    ensures Step(address, s, a) == Refused <==> SpecStep(Frames(s.holders), a) == None
    ensures Step(address, s, a).Done? ==> SpecStep(Frames(s.holders), a) == Some(Frames(Step(address, s, a).state.holders))
  {
    hide WellStacked;
    var n := |s.holders|;
    assert n > 0 ==> s.holders[0].SharedRef? && s.holders[n - 1].SharedRef?;
    if a.Borrow? {
      assert WithTop(Frames(s.holders), Readers(n + 1)) == Frames(s.holders + [SharedRef]);
    } else if n == 0 {
      assert [ExclusiveRef][..0] == [];
      assert WithTop(Frames(s.holders), Writer) == Frames([ExclusiveRef]);
    }
  }

  /** Borrowing from a cell held exclusively: what a lender offers, and nothing else. */
  lemma BorrowRefinesLent(address: Address, s: State, a: Action)
    requires Inv(address, s) && (a.Borrow? || a.BorrowMut?) && s.holders != [] && !s.holders[0].SharedRef?
    ensures Step(address, s, a) == Refused <==> SpecStep(Frames(s.holders), a) == None
    ensures Step(address, s, a).Done? ==> SpecStep(Frames(s.holders), a) == Some(Frames(Step(address, s, a).state.holders))
  {
    BorrowKeepsInv(address, s, a);
    FramesTop(address, s.holders);
    ReadersOnly(address, s.holders);
    hide WellStacked, Frames;
    if s.holders[|s.holders| - 1].Lender? {
      FramesPush(address, s.holders, if a.Borrow? then TakenRef(address) else TakenMut(address));
    }
  }

  lemma BorrowRefines(address: Address, s: State, a: Action)
    requires Inv(address, s) && (a.Borrow? || a.BorrowMut?)
    ensures Step(address, s, a) == Refused <==> SpecStep(Frames(s.holders), a) == None
    ensures Step(address, s, a).Done? ==> SpecStep(Frames(s.holders), a) == Some(Frames(Step(address, s, a).state.holders))
  {
    if s.holders != [] {
      ReadersOnly(address, s.holders);
    }
    hide WellStacked, Frames, SpecStep, Step;
    if s.holders == [] || s.holders[0].SharedRef? {
      BorrowRefinesReaders(address, s, a);
    } else {
      BorrowRefinesLent(address, s, a);
    }
  }

  lemma LendRefines(address: Address, s: State, k: nat)
    requires Inv(address, s) && Permitted(s.holders, Lend(k))
    ensures Step(address, s, Lend(k)).Done?
    ensures SpecStep(Frames(s.holders), Lend(k)) == Some(Frames(Step(address, s, Lend(k)).state.holders))
  {
    LendKeepsInv(address, s, k);
    ReadersOnly(address, s.holders);
    FramesTop(address, s.holders);
    FramesPush(address, s.holders, Lender(PointerOf(address, s.holders[k]), k));
  }

  lemma DropRefinesReaders(holders: seq<Holder>)
    requires OnlyReaders(holders) && holders != []
    ensures SpecStep(Frames(holders), DropTop) == Some(Frames(holders[..|holders| - 1]))
  {
    var rest := holders[..|holders| - 1];
    assert rest != [] ==> rest[0] == holders[0];
    assert WithTop(Frames(holders), if rest == [] then Idle else Readers(|rest|)) == Frames(rest);
  }

  lemma DropRefinesLent(address: Address, rest: seq<Holder>, top: Holder)
    requires WellStacked(address, rest) && WellStacked(address, rest + [top]) && !top.SharedRef?
    ensures SpecStep(Frames(rest + [top]), DropTop) == Some(Frames(rest))
  {
    FramesPush(address, rest, top);
    hide WellStacked, Frames;
    if top.Lender? {
      assert (Frames(rest) + [Idle])[..|Frames(rest)|] == Frames(rest);
    } else {
      assert WithTop(WithTop(Frames(rest), FrameOf(top)), Idle) == Frames(rest);
    }
  }

  lemma DropRefines(address: Address, s: State)
    requires Inv(address, s) && Permitted(s.holders, DropTop)
    ensures SpecStep(Frames(s.holders), DropTop) == Some(Frames(s.holders[..|s.holders| - 1]))
  {
    var rest, top := s.holders[..|s.holders| - 1], s.holders[|s.holders| - 1];
    DropKeepsInv(address, s);
    ReadersOnly(address, s.holders);
    hide WellStacked, Frames, SpecStep;
    assert s.holders == rest + [top];
    if s.holders[0].SharedRef? {
      DropRefinesReaders(s.holders);
    } else {
      DropRefinesLent(address, rest, top);
    }
  }

  /**
   Refinement: the flag and the slot behave as a stack of nested reader-writer cells. A borrow is
   refused exactly when the innermost cell has a writer or, for an exclusive one, any reader; of a lent
   cell there is one reader at most.
   */
  lemma RefinesReaderWriter(address: Address, s: State, a: Action)
    requires Inv(address, s) && Permitted(s.holders, a)
    ensures Step(address, s, a) == Refused <==> SpecStep(Frames(s.holders), a) == None
    ensures Step(address, s, a).Done? ==> SpecStep(Frames(s.holders), a) == Some(Frames(Step(address, s, a).state.holders))
  {
    hide WellStacked, Frames, SpecStep;
    match a
    case Borrow => BorrowRefines(address, s, a);
    case BorrowMut => BorrowRefines(address, s, a);
    case Lend(k) => LendRefines(address, s, k);
    case DropTop =>
      DropKeepsInv(address, s);
      DropRefines(address, s);
  }

  function SpecRun(frames: seq<Frame>, actions: seq<Action>): seq<Frame>
    requires frames != []
    decreases |actions|
  {
    if actions == [] then frames
    else
      var o := SpecStep(frames, actions[0]);
      SpecRun(if o.Some? && o.value != [] then o.value else frames, actions[1..])
  }

  /** Every action of the run is one the borrow checker lets through. */
  predicate AllPermitted(address: Address, s: State, actions: seq<Action>)
    decreases |actions|
  {
    actions == []
    || (Permitted(s.holders, actions[0])
        && match Step(address, s, actions[0])
           case Done(t) => AllPermitted(address, t, actions[1..])
           case _ => AllPermitted(address, s, actions[1..]))
  }

  /** The refinement over whole runs. */
  lemma {:induction false} RunsRefine(address: Address, s: State, actions: seq<Action>)
    requires Inv(address, s) && AllPermitted(address, s, actions)
    ensures Run(address, s, actions).Some?
    ensures Frames(Run(address, s, actions).value.holders) == SpecRun(Frames(s.holders), actions)
    decreases |actions|
  {
    if actions != [] {
      hide Inv, Frames, SpecStep, Permitted;
      StepKeepsInv(address, s, actions[0]);
      RefinesReaderWriter(address, s, actions[0]);
      match Step(address, s, actions[0])
      case Done(t) => RunsRefine(address, t, actions[1..]);
      case Refused => RunsRefine(address, s, actions[1..]);
    }
  }

  // ---------------------------------------------------------------- who may write

  /** For every holder of a run, the action that made it. */
  function Origins(address: Address, s: State, origins: seq<Action>, actions: seq<Action>): seq<Action>
    decreases |actions|
  {
    if actions == [] then origins
    else if !Permitted(s.holders, actions[0]) then Origins(address, s, origins, actions[1..])
    else
      match Step(address, s, actions[0])
      case Done(t) =>
        Origins(address, t, if |t.holders| > |s.holders| then origins + [actions[0]]
                            else if origins == [] then [] else origins[..|origins| - 1], actions[1..])
      case _ => Origins(address, s, origins, actions[1..])
  }

  /** Every holder is of the kind its action asked for: only an exclusive borrow makes a writer. */
  predicate MadeBy(holders: seq<Holder>, origins: seq<Action>) {
    && |origins| == |holders|
    && forall i :: 0 <= i < |holders| ==>
         && (Mutable(holders[i]) <==> origins[i] == BorrowMut)
         && (holders[i].Lender? <==> origins[i].Lend?)
         && origins[i] != DropTop
  }

  lemma StepMakes(address: Address, s: State, a: Action, origins: seq<Action>)
    requires Permitted(s.holders, a) && Step(address, s, a).Done? && MadeBy(s.holders, origins)
    ensures var t := Step(address, s, a).state;
            && (a != DropTop ==> |t.holders| == |s.holders| + 1 && MadeBy(t.holders, origins + [a]))
            && (a == DropTop ==> |t.holders| < |s.holders| && MadeBy(t.holders, origins[..|origins| - 1]))
  {
  }

  /** In every run a guard can write only if an exclusive borrow made it, and read-only guards stay so. */
  lemma {:induction false} OnlyBorrowMutWrites(address: Address, s: State, origins: seq<Action>, actions: seq<Action>)
    requires MadeBy(s.holders, origins) && Run(address, s, actions).Some?
    ensures MadeBy(Run(address, s, actions).value.holders, Origins(address, s, origins, actions))
    decreases |actions|
  {
    if actions != [] {
      hide MadeBy, Permitted;
      if Permitted(s.holders, actions[0]) {
        match Step(address, s, actions[0])
        case Done(t) =>
          StepMakes(address, s, actions[0], origins);
          assert |origins| == |s.holders| by { MadeByLength(s.holders, origins); }
          OnlyBorrowMutWrites(address, t, if actions[0] != DropTop then origins + [actions[0]] else origins[..|origins| - 1],
                              actions[1..]);
        case Refused => OnlyBorrowMutWrites(address, s, origins, actions[1..]);
      } else {
        OnlyBorrowMutWrites(address, s, origins, actions[1..]);
      }
    }
  }

  lemma MadeByLength(holders: seq<Holder>, origins: seq<Action>)
    requires MadeBy(holders, origins)
    ensures |origins| == |holders|
  {
  }

  // ---------------------------------------------------------------- arbitrary use

  /** When a destructor's assertion fails: a taken guard finds the slot full, a lender not its own pointer. */
  lemma DropFailsExactly(c: Cell, h: Holder)
    ensures DropOf(c, h) == None <==>
            ((h.TakenRef? || h.TakenMut?) && c.slot != None) || (h.Lender? && c.slot != Some(h.ptr))
    ensures h.Lender? && DropOf(c, h).Some? ==> DropOf(c, h).value.slot == None
  {
  }

  /** Only the cell's own reference can be lent. */
  lemma ForeignReferenceRefused(address: Address, c: Cell, ptr: Address)
    ensures LendOf(address, c, ptr) == None <==> ptr != address
    ensures LendOf(address, c, ptr).Some? ==> LendOf(address, c, ptr).value == c.(slot := Some(address))
  {
  }

  /**
   The order matters: ending an outer lender while an inner one is on top passes its check, because
   both parked the same pointer, and only the inner one trips later.
   */
  lemma OutOfOrderLendersPass(address: Address)
    ensures
      var holders := [ExclusiveRef, Lender(address, 0), TakenMut(address), Lender(address, 2)];
      var cell := CellOf(address, holders);
      && Inv(address, State(cell, holders))
      && DropOf(cell, holders[1]) == Some(Cell(-1, None))
      && DropOf(Cell(-1, None), holders[3]) == None
  {
    var h1: seq<Holder> := [ExclusiveRef];
    var h2 := h1 + [Lender(address, 0)];
    var h3 := h2 + [TakenMut(address)];
    assert h1[..0] == [];
    assert WellStacked(address, h1);
    PushStacked(address, h1, Lender(address, 0));
    PushStacked(address, h2, TakenMut(address));
    PushStacked(address, h3, Lender(address, 2));
    assert h3 + [Lender(address, 2)] == [ExclusiveRef, Lender(address, 0), TakenMut(address), Lender(address, 2)];
  }
}
