/**
 Pre-shared keys handed to libcoap: a key is taken apart into raw byte strings on the heap, every
 descriptor given out by an SNI callback is kept, and dropping the context takes all of them back.
 */
module PskKeys {
  import opened Sequences
  import opened CoapOptions

  datatype PskKey = PskKey(identity: Option<Bytes>, data: Bytes)

  /** A boxed slice without bytes has no memory of its own, but its pointer is not null. */
  datatype Ptr = Null | Dangling | At(id: nat)

  /** `coap_bin_const_t`. */
  datatype BinConst = BinConst(s: Ptr, length: nat)

  /** `coap_dtls_spsk_info_t`. */
  datatype SpskInfo = SpskInfo(hint: BinConst, key: BinConst)

  /** One allocation: the bytes of a slice, or a boxed descriptor. */
  datatype Cell = Block(bytes: Bytes) | Descriptor(info: SpskInfo)

  type Cells = map<nat, Cell>

  datatype Heap = Heap(cells: Cells, next: nat)

  predicate Wf(h: Heap) {
    forall id :: id in h.cells ==> id < h.next
  }

  function Alloc(h: Heap, c: Cell): Heap {
    Heap(h.cells[h.next := c], h.next + 1)
  }

  // ---------------------------------------------------------------- keys and their raw form

  function BoxBytes(h: Heap, b: Bytes): (Heap, BinConst) {
    if b == [] then (h, BinConst(Dangling, 0)) else (Alloc(h, Block(b)), BinConst(At(h.next), |b|))
  }

  /** `into_bin_consts`: a missing identity becomes a null pointer. */
  function IntoRaw(h: Heap, k: PskKey): (Heap, SpskInfo) {
    var (h1, hint) := if k.identity == None then (h, BinConst(Null, 0)) else BoxBytes(h, k.identity.value);
    var (h2, key) := BoxBytes(h1, k.data);
    (h2, SpskInfo(hint, key))
  }

  /** Restores and frees a slice; None where that would touch memory that is not such a slice. */
  function TakeBytes(m: Cells, b: BinConst): Option<(Cells, Bytes)> {
    match b.s
    case Null => None
    case Dangling => if b.length == 0 then Some((m, [])) else None
    case At(id) =>
      if id in m && m[id].Block? && |m[id].bytes| == b.length && b.length > 0
      then Some((m - {id}, m[id].bytes)) else None
  }

  /** `from_bin_consts`, followed by the drop of what it restored. */
  function FromRaw(m: Cells, i: SpskInfo): Option<(Cells, PskKey)> {
    if i.hint.s == Null then
      match TakeBytes(m, i.key)
      case None => None
      case Some((n, data)) => Some((n, PskKey(None, data)))
    else
      match TakeBytes(m, i.hint)
      case None => None
      case Some((n, identity)) =>
        match TakeBytes(n, i.key)
        case None => None
        case Some((p, data)) => Some((p, PskKey(Some(identity), data)))
  }

  lemma BoxedBytesComeBack(h: Heap, b: Bytes)
    requires Wf(h)
    ensures var (g, c) := BoxBytes(h, b);
            && Wf(g) && g.next >= h.next && c.s != Null && TakeBytes(g.cells, c) == Some((h.cells, b))
            && (forall id :: id in h.cells ==> id in g.cells && g.cells[id] == h.cells[id])
            && (forall id :: id in g.cells ==> id in h.cells || h.next <= id)
  {
    if b != [] {
      assert h.cells[h.next := Block(b)] - {h.next} == h.cells;
    }
  }

  lemma TwoSlicesComeBack(h: Heap, a: Bytes, b: Bytes)
    requires Wf(h)
    ensures var (h1, hint) := BoxBytes(h, a);
            var (h2, key) := BoxBytes(h1, b);
            && TakeBytes(h2.cells, hint).Some? && TakeBytes(h2.cells, hint).value.1 == a
            && TakeBytes(TakeBytes(h2.cells, hint).value.0, key) == Some((h.cells, b))
  {
    var (h1, hint) := BoxBytes(h, a);
    var (h2, key) := BoxBytes(h1, b);
    var m := TakeBytes(h2.cells, hint).value.0;
    if b != [] {
      assert m - {h1.next} == h.cells;
    } else {
      assert m == h.cells;
    }
  }

  /**
   Taking a key apart and restoring it gives the key back and leaves no memory behind. A missing
   identity and an empty one have different raw forms.
   */
  lemma KeyRoundTrip(h: Heap, k: PskKey)
    requires Wf(h)
    ensures var (g, i) := IntoRaw(h, k);
            && Wf(g) && FromRaw(g.cells, i) == Some((h.cells, k))
            && (i.hint.s == Null <==> k.identity == None)
            && (forall id :: id in h.cells ==> id in g.cells && g.cells[id] == h.cells[id])
            && (forall id :: id in g.cells ==> id in h.cells || h.next <= id) && g.next >= h.next
  {
    hide BoxBytes, TakeBytes;
    if k.identity == None {
      BoxedBytesComeBack(h, k.data);
    } else {
      BoxedBytesComeBack(h, k.identity.value);
      BoxedBytesComeBack(BoxBytes(h, k.identity.value).0, k.data);
      TwoSlicesComeBack(h, k.identity.value, k.data);
    }
  }

  /** The bytes libcoap reads through a byte string; None for a null pointer. */
  function ReadBin(m: Cells, b: BinConst): Option<Bytes> {
    match b.s
    case Null => None
    case Dangling => Some([])
    case At(id) => if id in m && m[id].Block? && |m[id].bytes| == b.length then Some(m[id].bytes) else None
  }

  /** What libcoap reads of a key: the identity through the hint, if there is one, and the data through the key. */
  lemma LibcoapReads(h: Heap, k: PskKey)
    requires Wf(h)
    ensures var (g, i) := IntoRaw(h, k);
            && ReadBin(g.cells, i.hint) == k.identity && ReadBin(g.cells, i.key) == Some(k.data)
            && i.hint.length == (if k.identity == None then 0 else |k.identity.value|) && i.key.length == |k.data|
  {
  }

  /** And of every descriptor given out by a context, as long as the context lives. */
  lemma DescriptorReads(m: Cells, p: nat)
    requires TakeDescriptor(m, p).Some?
    ensures p in m && m[p].Descriptor?
    ensures var k := TakeDescriptor(m, p).value.1;
            ReadBin(m, m[p].info.hint) == k.identity && ReadBin(m, m[p].info.key) == Some(k.data)
  {
  }

  /** Restoring a key neither needs nor touches memory that is not its own. */
  lemma FromRawFrame(m: Cells, x: Cells, i: SpskInfo)
    requires FromRaw(m, i).Some? && m.Keys !! x.Keys
    ensures FromRaw(m + x, i) == Some((FromRaw(m, i).value.0 + x, FromRaw(m, i).value.1))
    ensures FromRaw(m, i).value.0.Keys <= m.Keys
  {
    if i.hint.s != Null {
      TakeFrame(m, x, i.hint);
      TakeFrame(TakeBytes(m, i.hint).value.0, x, i.key);
    } else {
      TakeFrame(m, x, i.key);
    }
  }

  lemma TakeFrame(m: Cells, x: Cells, b: BinConst)
    requires TakeBytes(m, b).Some? && m.Keys !! x.Keys
    ensures TakeBytes(m + x, b) == Some((TakeBytes(m, b).value.0 + x, TakeBytes(m, b).value.1))
    ensures TakeBytes(m, b).value.0.Keys <= m.Keys
  {
    if b.s.At? {
      assert (m + x) - {b.s.id} == (m - {b.s.id}) + x;
    }
  }

  // ---------------------------------------------------------------- the server's context

  datatype Context = Context(heap: Heap, provided: seq<nat>, pskInfo: SpskInfo)

  function NewContext(h: Heap, key: PskKey): Context {
    var (g, i) := IntoRaw(h, key);
    Context(g, [], i)
  }

  /** `sni_callback`: `key` is the key provider's answer, the result the descriptor given to libcoap. */
  function SniCallback(c: Context, key: Option<PskKey>): (Context, Option<nat>) {
    match key
    case None => (c, None)
    case Some(k) =>
      var (g, i) := IntoRaw(c.heap, k);
      (c.(heap := Alloc(g, Descriptor(i)), provided := c.provided + [g.next]), Some(g.next))
  }

  /** Frees a boxed descriptor and the key it describes. */
  function TakeDescriptor(m: Cells, p: nat): Option<(Cells, PskKey)> {
    if p in m && m[p].Descriptor? then FromRaw(m - {p}, m[p].info) else None
  }

  /** The loop of `Drop for ServerPskContextInner`, with the restored keys in order; None for a bad free. */
  function DropProvided(m: Cells, ptrs: seq<nat>): Option<(Cells, seq<PskKey>)> {
    if ptrs == [] then Some((m, []))
    else
      match TakeDescriptor(m, ptrs[0])
      case None => None
      case Some((n, k)) =>
        match DropProvided(n, ptrs[1..])
        case None => None
        case Some((q, ks)) => Some((q, [k] + ks))
  }

  function DropContext(c: Context): Option<(Cells, seq<PskKey>)> {
    match DropProvided(c.heap.cells, c.provided)
    case None => None
    case Some((m, ks)) =>
      match FromRaw(m, c.pskInfo)
      case None => None
      case Some((n, k)) => Some((n, ks + [k]))
  }

  lemma TakeDescriptorFrame(m: Cells, x: Cells, p: nat)
    requires TakeDescriptor(m, p).Some? && m.Keys !! x.Keys
    ensures TakeDescriptor(m + x, p) == Some((TakeDescriptor(m, p).value.0 + x, TakeDescriptor(m, p).value.1))
    ensures TakeDescriptor(m, p).value.0.Keys <= m.Keys - {p}
  {
    assert (m + x) - {p} == (m - {p}) + x;
    FromRawFrame(m - {p}, x, m[p].info);
  }

  lemma {:induction false} DropProvidedFrame(m: Cells, x: Cells, ptrs: seq<nat>)
    requires DropProvided(m, ptrs).Some? && m.Keys !! x.Keys
    ensures DropProvided(m + x, ptrs) == Some((DropProvided(m, ptrs).value.0 + x, DropProvided(m, ptrs).value.1))
    ensures DropProvided(m, ptrs).value.0.Keys <= m.Keys
  {
    hide TakeDescriptor;
    if ptrs != [] {
      TakeDescriptorFrame(m, x, ptrs[0]);
      DropProvidedFrame(TakeDescriptor(m, ptrs[0]).value.0, x, ptrs[1..]);
    }
  }

  lemma {:induction false} DropProvidedConcat(m: Cells, a: seq<nat>, b: seq<nat>)
    requires DropProvided(m, a).Some?
    ensures var (n, ks) := DropProvided(m, a).value;
            DropProvided(m, a + b) == match DropProvided(n, b)
                                      case None => None
                                      case Some((q, ls)) => Some((q, ks + ls))
    decreases |a|
  {
    hide TakeDescriptor;
    if a == [] {
      assert a + b == b;
      assert DropProvided(m, b).Some? ==> [] + DropProvided(m, b).value.1 == DropProvided(m, b).value.1;
    } else {
      var (n, k) := TakeDescriptor(m, a[0]).value;
      DropProvidedConcat(n, a[1..], b);
      assert (a + b)[1..] == a[1..] + b;
      var (q, ks) := DropProvided(n, a[1..]).value;
      if DropProvided(q, b).Some? {
        assert [k] + (ks + DropProvided(q, b).value.1) == ([k] + ks) + DropProvided(q, b).value.1;
      }
    }
  }

  /** What every descriptor still owed says: it is allocated, it describes its key, and it is not listed twice. */
  lemma {:induction false} ProvidedStayValid(m: Cells, ptrs: seq<nat>)
    requires DropProvided(m, ptrs).Some?
    ensures |DropProvided(m, ptrs).value.1| == |ptrs|
    ensures forall i :: 0 <= i < |ptrs| ==>
              TakeDescriptor(m, ptrs[i]).Some? && TakeDescriptor(m, ptrs[i]).value.1 == DropProvided(m, ptrs).value.1[i]
    ensures forall i, j :: 0 <= i < j < |ptrs| ==> ptrs[i] != ptrs[j]
    decreases |ptrs|
  {
    hide TakeDescriptor;
    if ptrs != [] {
      var p := ptrs[0];
      var (n, k) := TakeDescriptor(m, p).value;
      ProvidedStayValid(n, ptrs[1..]);
      TakeDescriptorSub(m, p);
      var rest := DropProvided(n, ptrs[1..]).value.1;
      assert DropProvided(m, ptrs).value.1 == [k] + rest;
      forall i | 1 <= i < |ptrs|
        ensures TakeDescriptor(m, ptrs[i]).Some? && TakeDescriptor(m, ptrs[i]).value.1 == rest[i - 1]
        ensures ptrs[i] != p
      {
        assert ptrs[i] == ptrs[1..][i - 1];
        var x := m - n.Keys;
        assert m == n + x;
        TakeDescriptorFrame(n, x, ptrs[i]);
        TakenWasThere(n, ptrs[i]);
      }
      forall i, j | 0 <= i < j < |ptrs|
        ensures ptrs[i] != ptrs[j]
      {
        assert ptrs[j] == ptrs[1..][j - 1];
        if i > 0 {
          assert ptrs[i] == ptrs[1..][i - 1];
        }
      }
    }
  }

  lemma TakenWasThere(m: Cells, p: nat)
    requires TakeDescriptor(m, p).Some?
    ensures p in m
  {
  }

  lemma TakeDescriptorSub(m: Cells, p: nat)
    requires TakeDescriptor(m, p).Some?
    ensures var n := TakeDescriptor(m, p).value.0;
            p !in n && n.Keys <= m.Keys && forall id :: id in n ==> n[id] == m[id]
  {
    TakeDescriptorFrame(m, map[], p);
  }

  // ---------------------------------------------------------------- whole lives of a context

  /** Dropping the context now would restore the given keys and leave exactly the given memory. */
  ghost predicate Owes(c: Context, m: Cells, keys: seq<PskKey>) {
    Wf(c.heap) && DropContext(c) == Some((m, keys))
  }

  lemma NewContextOwes(h: Heap, key: PskKey)
    requires Wf(h)
    ensures Owes(NewContext(h, key), h.cells, [key])
  {
    KeyRoundTrip(h, key);
    assert [] + [key] == [key];
  }

  lemma SniCallbackOwes(c: Context, m: Cells, keys: seq<PskKey>, default: PskKey, k: PskKey)
    requires Owes(c, m, keys + [default])
    ensures Owes(SniCallback(c, Some(k)).0, m, keys + [k] + [default])
  {
    hide IntoRaw, FromRaw, DropProvided, TakeDescriptor;
    var h := c.heap;
    var (g, i) := IntoRaw(h, k);
    KeyRoundTrip(h, k);
    var p := g.next;
    var after := Alloc(g, Descriptor(i));
    var x := after.cells - h.cells.Keys;
    assert after.cells == h.cells + x;
    DropProvidedFrame(h.cells, x, c.provided);
    var (n, ks) := DropProvided(h.cells, c.provided).value;
    assert keys == ks && default == FromRaw(n, c.pskInfo).value.1 by {
      assert (ks + [FromRaw(n, c.pskInfo).value.1])[..|ks|] == ks;
      assert (keys + [default])[..|keys|] == keys;
    }
    DropProvidedConcat(after.cells, c.provided, [p]);
    LastDescriptor(h, g, i, k, n, x);
  }

  lemma LastDescriptor(h: Heap, g: Heap, i: SpskInfo, k: PskKey, n: Cells, x: Cells)
    requires Wf(h) && Wf(g) && (g, i) == IntoRaw(h, k)
    requires x == Alloc(g, Descriptor(i)).cells - h.cells.Keys && n.Keys <= h.cells.Keys
    ensures DropProvided(n + x, [g.next]) == Some((n, [k]))
  {
    hide IntoRaw, FromRaw;
    var p := g.next;
    KeyRoundTrip(h, k);
    var y := g.cells - h.cells.Keys;
    assert (n + x) - {p} == n + y;
    OwnPart(h, k, n);
    assert p in x && (n + x)[p] == Descriptor(i);
    assert TakeDescriptor(n + x, p) == Some((n, k));
    assert [p][1..] == [] && [k] + [] == [k];
  }

  /** A key just taken apart can be restored whatever else is in memory. */
  lemma OwnPart(h: Heap, k: PskKey, n: Cells)
    requires Wf(h) && n.Keys <= h.cells.Keys
    ensures var (g, i) := IntoRaw(h, k);
            FromRaw(n + (g.cells - h.cells.Keys), i) == Some((n, k))
  {
    hide FromRaw;
    var e := Heap(map[], h.next);
    var (g, i) := IntoRaw(h, k);
    var (f, j) := IntoRaw(e, k);
    KeyRoundTrip(e, k);
    KeyRoundTrip(h, k);
    assert i == j;
    assert f.cells == g.cells - h.cells.Keys;
    FromRawFrame(f.cells, n, i);
    assert f.cells + n == n + f.cells;
    assert map[] + n == n;
  }

  /** The context after a sequence of callbacks, and the descriptors they gave out. */
  function Callbacks(c: Context, answers: seq<Option<PskKey>>): (Context, seq<nat>) {
    if answers == [] then (c, [])
    else
      var (d, given) := Callbacks(c, answers[..|answers| - 1]);
      var (e, p) := SniCallback(d, answers[|answers| - 1]);
      (e, given + OptionToSeq(p))
  }

  function KeysGiven(answers: seq<Option<PskKey>>): seq<PskKey> {
    if answers == [] then [] else KeysGiven(answers[..|answers| - 1]) + OptionToSeq(answers[|answers| - 1])
  }

  lemma {:induction false} CallbacksOwe(h: Heap, default: PskKey, answers: seq<Option<PskKey>>)
    requires Wf(h)
    ensures Owes(Callbacks(NewContext(h, default), answers).0, h.cells, KeysGiven(answers) + [default])
    ensures Callbacks(NewContext(h, default), answers).1 == Callbacks(NewContext(h, default), answers).0.provided
  {
    hide Owes;
    if answers == [] {
      NewContextOwes(h, default);
      assert [] + [default] == [default];
    } else {
      var n := |answers| - 1;
      CallbacksOwe(h, default, answers[..n]);
      var c := Callbacks(NewContext(h, default), answers[..n]).0;
      if answers[n].Some? {
        SniCallbackOwes(c, h.cells, KeysGiven(answers[..n]), default, answers[n].value);
      } else {
        assert KeysGiven(answers) == KeysGiven(answers[..n]);
      }
    }
  }

  /**
   Over every sequence of SNI callbacks: the descriptors given out are pairwise distinct, each is
   allocated and describes its key as long as the context lives, and dropping the context restores each
   of them and the default key once, leaving exactly the memory there was before the context.
   */
  lemma ContextLife(h: Heap, default: PskKey, answers: seq<Option<PskKey>>)
    requires Wf(h)
    ensures var (c, given) := Callbacks(NewContext(h, default), answers);
            var keys := KeysGiven(answers);
            && DropContext(c) == Some((h.cells, keys + [default]))
            && |given| == |keys|
            && (forall i, j :: 0 <= i < j < |given| ==> given[i] != given[j])
            && (forall i :: 0 <= i < |given| ==>
                  TakeDescriptor(c.heap.cells, given[i]).Some?
                  && TakeDescriptor(c.heap.cells, given[i]).value.1 == keys[i])
            && (forall i :: 0 <= i < |given| ==>
                  var d := c.heap.cells[given[i]].info;
                  ReadBin(c.heap.cells, d.hint) == keys[i].identity && ReadBin(c.heap.cells, d.key) == Some(keys[i].data))
  {
    hide Callbacks, KeysGiven, TakeDescriptor, DropProvided, FromRaw;
    CallbacksOwe(h, default, answers);
    var (c, given) := Callbacks(NewContext(h, default), answers);
    ProvidedStayValid(c.heap.cells, c.provided);
    var (n, ks) := DropProvided(c.heap.cells, c.provided).value;
    var keys := KeysGiven(answers);
    var d := FromRaw(n, c.pskInfo).value.1;
    assert ks + [d] == keys + [default];
    assert (ks + [d])[..|ks|] == ks && (keys + [default])[..|keys|] == keys;
    forall i | 0 <= i < |given|
      ensures given[i] in c.heap.cells && c.heap.cells[given[i]].Descriptor?
      ensures var d := c.heap.cells[given[i]].info;
              ReadBin(c.heap.cells, d.hint) == keys[i].identity && ReadBin(c.heap.cells, d.key) == Some(keys[i].data)
    {
      DescriptorReads(c.heap.cells, given[i]);
    }
  }

  // ---------------------------------------------------------------- choosing a key

  function FirstIndex(keys: seq<PskKey>, identity: Option<Bytes>): (i: nat)
    ensures i <= |keys|
    ensures i < |keys| ==> keys[i].identity == identity
    ensures forall j :: 0 <= j < i ==> keys[j].identity != identity
  {
    if keys == [] || keys[0].identity == identity then 0
    else
      assert forall j :: 0 < j < |keys| ==> keys[j] == keys[1..][j - 1];
      1 + FirstIndex(keys[1..], identity)
  }

  /** `key_for_identity`: the first key with that identity, failing that the first key without one. */
  function KeyForIdentity(keys: seq<PskKey>, identity: Bytes): (r: Option<PskKey>)
    ensures r == None <==> forall i :: 0 <= i < |keys| ==> keys[i].identity != Some(identity) && keys[i].identity != None
    ensures r.Some? ==> exists i :: 0 <= i < |keys| && r.value == keys[i]
                                    && (forall j :: 0 <= j < i ==> keys[j].identity != keys[i].identity)
                                    && (keys[i].identity == Some(identity)
                                        || (keys[i].identity == None
                                            && forall j :: 0 <= j < |keys| ==> keys[j].identity != Some(identity)))
  {
    var i := FirstIndex(keys, Some(identity));
    if i < |keys| then Some(keys[i])
    else
      var j := FirstIndex(keys, None);
      if j < |keys| then Some(keys[j]) else None
  }

  // ---------------------------------------------------------------- the context as it is updated

  class ServerPskContext {
    var cells: Cells
    var next: nat
    var providedKeys: seq<nat>
    var pskInfo: SpskInfo

    function Now(): Context
      reads this
    {
      Context(Heap(cells, next), providedKeys, pskInfo)
    }

    constructor (h: Heap, key: PskKey)
      requires Wf(h)
      ensures Now() == NewContext(h, key) && Owes(Now(), h.cells, [key])
    {
      var (g, i) := IntoRaw(h, key);
      cells, next := g.cells, g.next;
      providedKeys, pskInfo := [], i;
      NewContextOwes(h, key);
    }

    method Sni(key: Option<PskKey>, ghost m: Cells, ghost keys: seq<PskKey>, ghost default: PskKey) returns (p: Option<nat>)
      requires Owes(Now(), m, keys + [default])
      modifies this
      ensures (Now(), p) == SniCallback(old(Now()), key)
      ensures Owes(Now(), m, keys + OptionToSeq(key) + [default])
    {
      match key {
        case None =>
          p := None;
          assert keys + OptionToSeq(key) == keys;
        case Some(k) =>
          SniCallbackOwes(Now(), m, keys, default, k);
          var (g, i) := IntoRaw(Heap(cells, next), k);
          cells := g.cells[g.next := Descriptor(i)];
          next := g.next + 1;
          providedKeys := providedKeys + [g.next];
          p := Some(g.next);
      }
    }

    /** `Drop for ServerPskContextInner`: no free goes wrong, and the memory is as before the context. */
    method Drop(ghost m: Cells, ghost keys: seq<PskKey>)
      requires Owes(Now(), m, keys)
      modifies this`cells, this`providedKeys
      ensures cells == m && providedKeys == []
    {
      hide TakeDescriptor, FromRaw;
      var taken := providedKeys;
      providedKeys := [];
      var i := 0;
      ghost var (rest, _) := DropProvided(cells, taken).value;
      while i < |taken|
        invariant 0 <= i <= |taken| && providedKeys == []
        invariant DropProvided(cells, taken[i..]).Some? && DropProvided(cells, taken[i..]).value.0 == rest
      {
        assert taken[i..][1..] == taken[i + 1..];
        var r := TakeDescriptor(cells, taken[i]);
        cells := r.value.0;
        i := i + 1;
      }
      assert taken[i..] == [];
      var r := FromRaw(cells, pskInfo);
      cells := r.value.0;
    }
  }
}
