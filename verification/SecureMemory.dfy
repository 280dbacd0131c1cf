/**
 The secure containers: blocks of an explicit heap that are zeroed before they are freed. Blocks are
 named by addresses that the model never reuses, so `released` remembers what each freed block held.
 */
module SecureMemory {
  import opened Types

  const NULL := 0
  const SIZE_MAX := 0xFFFF_FFFF_FFFF_FFFF

  datatype Heap = Heap(live: map<nat, Bytes>, released: map<nat, Bytes>, next: nat)

  /** The two fields of a container, data_ and size_. */
  datatype Vec = Vec(data: nat, size: nat)

  const NO_BLOCK := Vec(NULL, 0)

  // ---- what each operation does ----

  /** A new block with the given contents. */
  function Grown(h: Heap, b: Bytes): Heap { h.(live := h.live[h.next := b], next := h.next + 1) }

  /** secure_alloc: no block for size zero or when calloc or mlock fails; a new block is zeroed. */
  function Allocate(h: Heap, n: nat, ok: bool): (Heap, nat) {
    if n == 0 || !ok then (h, NULL) else (Grown(h, Zeros(n)), h.next)
  }

  /** The explicit constructor; `unit` is the size of one element. */
  function Construct(h: Heap, count: nat, unit: nat, ok: bool): (Heap, Vec)
    requires unit > 0
  {
    if count > SIZE_MAX / unit then (h, NO_BLOCK)
    else var (h', p) := Allocate(h, count, ok); (h', if p == NULL then NO_BLOCK else Vec(p, count))
  }

  /** clear and release */
  function Cleared(h: Heap, v: Vec): Heap
    requires v.data != NULL ==> v.data in h.live
  {
    if v.data == NULL then h
    else h.(live := h.live - {v.data}, released := h.released[v.data := Zeros(v.size)])
  }

  /** The contents after resize: the common prefix, then zeros. */
  function Resized(b: Bytes, n: nat): (r: Bytes)
    ensures |r| == n
    ensures forall i :: 0 <= i < n ==> r[i] == if i < |b| then b[i] else 0
  {
    if n <= |b| then b[..n] else b + Zeros(n - |b|)
  }

  function Contents(h: Heap, v: Vec): Bytes
    requires v.data != NULL ==> v.data in h.live
  {
    if v.data == NULL then [] else h.live[v.data]
  }

  /** resize, when the allocation succeeds */
  function Resize(h: Heap, v: Vec, n: nat, unit: nat): (Heap, Vec)
    requires unit > 0 && (v.data != NULL ==> v.data in h.live && v.data != h.next)
  {
    if n == v.size || n > SIZE_MAX / unit then (h, v)
    else if n == 0 then (Cleared(h, v), NO_BLOCK)
    else (Cleared(Grown(h, Resized(Contents(h, v), n)), v), Vec(h.next, n))
  }

  function Stored(h: Heap, p: nat, i: nat, x: byte): Heap
    requires p in h.live && i < |h.live[p]|
  {
    var b: Bytes := h.live[p][i := x];
    h.(live := h.live[p := b])
  }

  // ---- the code ----

  class Memory {
    var heap: Heap

    constructor ()
      ensures heap == Heap(map[], map[], 1)
    {
      heap := Heap(map[], map[], 1);
    }

    method Alloc(n: nat, ok: bool) returns (p: nat)
      modifies this
      ensures (heap, p) == Allocate(old(heap), n, ok)
    {
      if n == 0 || !ok { return NULL; }
      p := heap.next;
      heap := heap.(live := heap.live[p := Zeros(n)], next := p + 1);
    }

    method Store(p: nat, i: nat, x: byte)
      requires p in heap.live && i < |heap.live[p]|
      modifies this
      ensures heap == Stored(old(heap), p, i, x)
    {
      heap := Stored(heap, p, i, x);
    }

    /** secure_erase */
    method Erase(p: nat, n: nat)
      requires p in heap.live && n == |heap.live[p]|
      modifies this
      ensures heap == old(heap).(live := old(heap).live[p := Zeros(n)])
    {
      heap := heap.(live := heap.live[p := Zeros(n)]);
    }

    /** secure_free, only for a block that is live */
    method Free(p: nat)
      requires p in heap.live
      modifies this
      ensures heap == old(heap).(live := old(heap).live - {p}, released := old(heap).released[p := old(heap).live[p]])
    {
      heap := heap.(live := heap.live - {p}, released := heap.released[p := heap.live[p]]);
    }
  }

  /** secure_vector; secure_buffer has the same members except resize, and calls clear release. */
  class SecureVector {
    const mem: Memory
    const unit: nat
    var data: nat
    var size: nat

    function Value(): Vec
      reads this
    {
      Vec(data, size)
    }

    ghost predicate Valid()
      reads this, mem
    {
      unit > 0 && Fits(mem.heap, Value())
    }

    constructor Empty(mem: Memory, unit: nat)
      ensures this.mem == mem && this.unit == unit && Value() == NO_BLOCK
    {
      this.mem, this.unit := mem, unit;
      data, size := NULL, 0;
    }

    constructor (mem: Memory, unit: nat, count: nat, ok: bool)
      requires unit > 0 && mem.heap.next > NULL
      modifies mem
      ensures this.mem == mem && this.unit == unit
      ensures (mem.heap, Value()) == Construct(old(mem.heap), count, unit, ok)
    {
      this.mem, this.unit := mem, unit;
      data, size := NULL, 0;
      new;
      if count <= SIZE_MAX / unit {
        data := mem.Alloc(count, ok);
        size := if data != NULL then count else 0;
      }
    }

    constructor Move(other: SecureVector)
      modifies other`data, other`size
      ensures mem == other.mem && unit == other.unit
      ensures Value() == old(other.Value()) && other.Value() == NO_BLOCK
    {
      mem, unit, data, size := other.mem, other.unit, other.data, other.size;
      new;
      other.data, other.size := NULL, 0;
    }

    method Clear()
      requires Valid()
      modifies this`data, this`size, mem
      ensures mem.heap == Cleared(old(mem.heap), old(Value())) && Value() == NO_BLOCK
    {
      if data != NULL {
        mem.Erase(data, size);
        mem.Free(data);
        assert mem.heap.live == old(mem.heap).live - {data};
        data, size := NULL, 0;
      }
    }

    /** The move assignment; nothing happens when a container is assigned to itself. */
    method Assign(other: SecureVector)
      requires Valid() && other.mem == mem
      modifies this`data, this`size, other`data, other`size, mem
      ensures other == this ==> mem.heap == old(mem.heap) && Value() == old(Value())
      ensures other != this ==>
                && mem.heap == Cleared(old(mem.heap), old(Value()))
                && Value() == old(other.Value()) && other.Value() == NO_BLOCK
    {
      if this != other {
        Clear();
        data, size := other.data, other.size;
        other.data, other.size := NULL, 0;
      }
    }

    /** Copy the common prefix into a new block. */
    method CopyPrefix(p: nat, n: nat)
      requires Valid() && p in mem.heap.live && p != data && mem.heap.live[p] == Zeros(n)
      modifies mem
      ensures mem.heap == old(mem.heap).(live := old(mem.heap).live[p := Resized(Contents(old(mem.heap), Value()), n)])
    {
      var copySize := if size < n then size else n;
      ghost var source := Contents(mem.heap, Value());
      ghost var h := mem.heap;
      for i := 0 to copySize
        invariant p in mem.heap.live && |mem.heap.live[p]| == n
        invariant mem.heap == h.(live := h.live[p := mem.heap.live[p]])
        invariant forall k :: 0 <= k < n ==> mem.heap.live[p][k] == if k < i then source[k] else 0
      {
        mem.Store(p, i, mem.heap.live[data][i]);
      }
      assert mem.heap.live[p] == Resized(source, n);
    }

    method ResizeTo(n: nat)
      requires Valid() && mem.heap.next !in mem.heap.live && mem.heap.next > NULL
      modifies this`data, this`size, mem
      ensures (mem.heap, Value()) == Resize(old(mem.heap), old(Value()), n, unit)
    {
      if n == size || n > SIZE_MAX / unit { return; }
      ghost var h := mem.heap;
      var p := mem.Alloc(n, true);
      if p != NULL {
        CopyPrefix(p, n);
        assert mem.heap.live == h.live[p := Resized(Contents(h, Value()), n)];
      }
      Clear();
      data, size := p, n;
    }
  }

  // ---- what every sequence of operations keeps ----

  /** The container has no block, or it has a live block of its size. */
  ghost predicate Fits(h: Heap, v: Vec) {
    if v.data == NULL then v.size == 0 else v.data in h.live && |h.live[v.data]| == v.size && v.size > 0
  }

  ghost predicate AllZero(b: Bytes) { forall i :: 0 <= i < |b| ==> b[i] == 0 }

  /** Addresses are issued once; a freed block is gone and was zeroed. */
  ghost predicate SoundHeap(h: Heap) {
    && h.next > NULL
    && (forall p :: p in h.live || p in h.released ==> NULL < p < h.next)
    && (forall p :: p in h.released ==> p !in h.live && AllZero(h.released[p]))
  }

  /** The containers in scope. */
  datatype Scope = Scope(heap: Heap, vars: seq<Vec>)

  ghost predicate AllFit(h: Heap, vars: seq<Vec>) { forall i :: 0 <= i < |vars| ==> Fits(h, vars[i]) }

  ghost predicate NoSharing(vars: seq<Vec>) {
    forall i, j :: 0 <= i < |vars| && 0 <= j < |vars| && i != j && vars[i].data != NULL ==> vars[i].data != vars[j].data
  }

  ghost predicate Held(vars: seq<Vec>, p: nat) { exists i :: 0 <= i < |vars| && vars[i].data == p }

  ghost predicate NoLeak(h: Heap, vars: seq<Vec>) { forall p :: p in h.live ==> Held(vars, p) }

  /** Every block has exactly one owner: no block is shared and none is leaked. */
  ghost predicate Owned(s: Scope) { AllFit(s.heap, s.vars) && NoSharing(s.vars) && NoLeak(s.heap, s.vars) }

  ghost predicate Sound(s: Scope) { SoundHeap(s.heap) && Owned(s) }

  /** Writing x into a container, and the operations of the classes; Drop ends the newest container. */
  datatype Op =
    | New(count: nat, unit: nat, ok: bool)
    | NewFrom(source: nat)
    | Assign(target: nat, source: nat)
    | SetSize(target: nat, size: nat, unit: nat)
    | Write(target: nat, index: nat, x: byte)
    | Clear(target: nat)
    | Drop

  predicate Enabled(s: Scope, op: Op) {
    match op
    case New(_, unit, _) => unit > 0
    case NewFrom(j) => j < |s.vars|
    case Assign(i, j) => i < |s.vars| && j < |s.vars|
    case SetSize(i, _, unit) => i < |s.vars| && unit > 0
    case Write(i, k, _) => i < |s.vars| && k < s.vars[i].size
    case Clear(i) => i < |s.vars|
    case Drop => s.vars != []
  }

  ghost function Perform(s: Scope, op: Op): Scope
    requires Sound(s) && Enabled(s, op)
  {
    match op
    case New(count, unit, ok) => var (h, v) := Construct(s.heap, count, unit, ok); Scope(h, s.vars + [v])
    case NewFrom(j) => Scope(s.heap, s.vars[j := NO_BLOCK] + [s.vars[j]])
    case Assign(i, j) =>
      if i == j then s else Scope(Cleared(s.heap, s.vars[i]), s.vars[i := s.vars[j]][j := NO_BLOCK])
    case SetSize(i, n, unit) => var (h, v) := Resize(s.heap, s.vars[i], n, unit); Scope(h, s.vars[i := v])
    case Write(i, k, x) =>
      s.(heap := Stored(s.heap, s.vars[i].data, k, x))
    case Clear(i) => Scope(Cleared(s.heap, s.vars[i]), s.vars[i := NO_BLOCK])
    case Drop => var last := |s.vars| - 1; Scope(Cleared(s.heap, s.vars[last]), s.vars[..last])
  }

  lemma ClearedSound(h: Heap, v: Vec)
    requires SoundHeap(h) && Fits(h, v)
    ensures SoundHeap(Cleared(h, v))
  {
  }

  lemma ClearKeepsHeld(vars: seq<Vec>, i: nat, p: nat)
    requires i < |vars| && Held(vars, p) && vars[i].data != p
    ensures Held(vars[i := NO_BLOCK], p)
  {
    var k :| 0 <= k < |vars| && vars[k].data == p;
    assert vars[i := NO_BLOCK][k].data == p;
  }

  lemma ClearKeepsFit(h: Heap, vars: seq<Vec>, i: nat)
    requires AllFit(h, vars) && NoSharing(vars) && i < |vars|
    ensures AllFit(Cleared(h, vars[i]), vars[i := NO_BLOCK]) && NoSharing(vars[i := NO_BLOCK])
  {
  }

  lemma ClearSound(s: Scope, i: nat)
    requires Sound(s) && i < |s.vars|
    ensures Sound(Scope(Cleared(s.heap, s.vars[i]), s.vars[i := NO_BLOCK]))
  {
    assert Fits(s.heap, s.vars[i]);
    ClearedSound(s.heap, s.vars[i]);
    ClearKeepsFit(s.heap, s.vars, i);
    NullIsNoBlock(s.heap);
    hide SoundHeap;
    hide AllFit;
    hide NoSharing;
    hide Held;
    var h := Cleared(s.heap, s.vars[i]);
    forall p | p in h.live ensures Held(s.vars[i := NO_BLOCK], p) {
      assert p in s.heap.live && s.vars[i].data != p;
      ClearKeepsHeld(s.vars, i, p);
    }
  }

  lemma NullIsNoBlock(h: Heap)
    requires SoundHeap(h)
    ensures NULL !in h.live && h.next !in h.live && h.next > NULL
  {
  }

  lemma GrownSound(h: Heap, b: Bytes)
    requires SoundHeap(h)
    ensures SoundHeap(Grown(h, b))
  {
  }

  lemma AdoptKeepsFit(h: Heap, vars: seq<Vec>, i: nat, b: Bytes)
    requires AllFit(h, vars) && NoSharing(vars) && i < |vars| && b != [] && h.next !in h.live && h.next > NULL
    ensures AllFit(Grown(h, b), vars[i := Vec(h.next, |b|)]) && NoSharing(vars[i := Vec(h.next, |b|)])
  {
  }

  lemma AdoptKeepsHeld(vars: seq<Vec>, i: nat, v: Vec, p: nat)
    requires i < |vars| && vars[i].data == NULL && p != NULL && (Held(vars, p) || v.data == p)
    ensures Held(vars[i := v], p)
  {
    if v.data == p {
      assert vars[i := v][i].data == p;
    } else {
      var k :| 0 <= k < |vars| && vars[k].data == p;
      assert vars[i := v][k].data == p;
    }
  }

  /** A new block, given to a container that had none. */
  lemma AdoptSound(s: Scope, i: nat, b: Bytes)
    requires Sound(s) && i < |s.vars| && s.vars[i].data == NULL && b != []
    ensures Sound(Scope(Grown(s.heap, b), s.vars[i := Vec(s.heap.next, |b|)]))
  {
    GrownSound(s.heap, b);
    NullIsNoBlock(s.heap);
    AdoptKeepsFit(s.heap, s.vars, i, b);
    hide SoundHeap;
    hide AllFit;
    hide NoSharing;
    hide Held;
    forall p | p in Grown(s.heap, b).live ensures Held(s.vars[i := Vec(s.heap.next, |b|)], p) {
      AdoptKeepsHeld(s.vars, i, Vec(s.heap.next, |b|), p);
    }
  }

  lemma ExtendSound(s: Scope)
    requires Sound(s)
    ensures Sound(s.(vars := s.vars + [NO_BLOCK]))
  {
    hide SoundHeap;
    forall p | p in s.heap.live ensures Held(s.vars + [NO_BLOCK], p) {
      var k :| 0 <= k < |s.vars| && s.vars[k].data == p;
      assert (s.vars + [NO_BLOCK])[k].data == p;
    }
  }

  /** Moving a block from one container to another that has none. */
  lemma MoveSound(s: Scope, i: nat, j: nat)
    requires Sound(s) && i < |s.vars| && j < |s.vars| && i != j && s.vars[i].data == NULL
    ensures Sound(s.(vars := s.vars[i := s.vars[j]][j := NO_BLOCK]))
  {
    hide SoundHeap;
    var vars := s.vars[i := s.vars[j]][j := NO_BLOCK];
    forall p | p in s.heap.live ensures Held(vars, p) {
      var k :| 0 <= k < |s.vars| && s.vars[k].data == p;
      NullIsNoBlock(s.heap);
      assert vars[if k == j then i else k].data == p;
    }
  }

  lemma AssignSound(s: Scope, i: nat, j: nat)
    requires Sound(s) && Enabled(s, Assign(i, j))
    ensures Sound(Perform(s, Assign(i, j)))
  {
    if i != j {
      assert Fits(s.heap, s.vars[i]);
      hide Sound;
      ClearSound(s, i);
      var c := Scope(Cleared(s.heap, s.vars[i]), s.vars[i := NO_BLOCK]);
      MoveSound(c, i, j);
      assert c.vars[i := c.vars[j]][j := NO_BLOCK] == s.vars[i := s.vars[j]][j := NO_BLOCK];
    }
  }

  lemma WriteSound(s: Scope, i: nat, k: nat, x: byte)
    requires Sound(s) && Enabled(s, Write(i, k, x))
    ensures Sound(Perform(s, Write(i, k, x)))
  {
  }

  lemma GrowThenClear(h: Heap, v: Vec, b: Bytes)
    requires v.data != NULL ==> v.data in h.live && v.data != h.next
    ensures Cleared(Grown(h, b), v) == Grown(Cleared(h, v), b)
  {
  }

  lemma ResizeSound(s: Scope, i: nat, n: nat, unit: nat)
    requires Sound(s) && Enabled(s, SetSize(i, n, unit))
    ensures Sound(Perform(s, SetSize(i, n, unit)))
  {
    NullIsNoBlock(s.heap);
    assert Fits(s.heap, s.vars[i]);
    hide Sound;
    var t := Perform(s, SetSize(i, n, unit));
    var b := Contents(s.heap, s.vars[i]);
    if n == s.vars[i].size || n > SIZE_MAX / unit {
      assert t == s;
    } else {
      ClearSound(s, i);
      var c := Scope(Cleared(s.heap, s.vars[i]), s.vars[i := NO_BLOCK]);
      if n > 0 {
        AdoptSound(c, i, Resized(b, n));
        GrowThenClear(s.heap, s.vars[i], Resized(b, n));
        hide Grown;
        hide Resized;
        assert t.vars == c.vars[i := Vec(s.heap.next, n)];
      }
    }
  }

  /** The last container has no block any more; dropping its name changes nothing. */
  lemma ShrinkSound(s: Scope)
    requires Sound(s) && s.vars != [] && s.vars[|s.vars| - 1] == NO_BLOCK
    ensures Sound(s.(vars := s.vars[..|s.vars| - 1]))
  {
  }

  lemma DropSound(s: Scope)
    requires Sound(s) && s.vars != []
    ensures Sound(Perform(s, Drop))
  {
    var last := |s.vars| - 1;
    assert Fits(s.heap, s.vars[last]);
    hide Sound;
    ClearSound(s, last);
    var c := Scope(Cleared(s.heap, s.vars[last]), s.vars[last := NO_BLOCK]);
    ShrinkSound(c);
    assert c.vars[..last] == s.vars[..last];
  }

  lemma NewSound(s: Scope, count: nat, unit: nat, ok: bool)
    requires Sound(s) && unit > 0
    ensures Sound(Perform(s, New(count, unit, ok)))
  {
    ExtendSound(s);
    var e := s.(vars := s.vars + [NO_BLOCK]);
    if count <= SIZE_MAX / unit && count > 0 && ok {
      AdoptSound(e, |s.vars|, Zeros(count));
      assert e.vars[|s.vars| := Vec(s.heap.next, count)] == s.vars + [Vec(s.heap.next, count)];
    }
  }

  /** One owner per block, no leak, zeroed before its only free: kept by every operation. */
  lemma PerformSound(s: Scope, op: Op)
    requires Sound(s) && Enabled(s, op)
    ensures Sound(Perform(s, op))
  {
    hide Sound;
    match op
    case New(count, unit, ok) => NewSound(s, count, unit, ok);
    case NewFrom(j) =>
      ExtendSound(s);
      var e := s.(vars := s.vars + [NO_BLOCK]);
      MoveSound(e, |s.vars|, j);
      assert e.vars[|s.vars| := e.vars[j]][j := NO_BLOCK] == s.vars[j := NO_BLOCK] + [s.vars[j]];
    case Assign(i, j) => AssignSound(s, i, j);
    case SetSize(i, n, unit) => ResizeSound(s, i, n, unit);
    case Write(i, k, x) => WriteSound(s, i, k, x);
    case Clear(i) => ClearSound(s, i);
    case Drop => DropSound(s);
  }

  // ---- whole programs ----

  const START := Scope(Heap(map[], map[], 1), [])

  /** A run: every scope follows from the one before by an enabled operation. */
  ghost predicate Follows(scopes: seq<Scope>, ops: seq<Op>) {
    && |scopes| == |ops| + 1 && scopes[0] == START
    && forall i :: 0 <= i < |ops| ==>
         Enabled(scopes[i], ops[i]) && (Sound(scopes[i]) ==> scopes[i + 1] == Perform(scopes[i], ops[i]))
  }

  lemma {:induction false} EveryScopeSound(scopes: seq<Scope>, ops: seq<Op>, n: nat)
    requires Follows(scopes, ops) && n <= |ops|
    ensures Sound(scopes[n])
  {
    if n == 0 {
    } else {
      EveryScopeSound(scopes, ops, n - 1);
      PerformSound(scopes[n - 1], ops[n - 1]);
    }
  }

  /** Once every container has gone out of scope, every block has been freed, and was zeroed before. */
  lemma NothingLeaks(scopes: seq<Scope>, ops: seq<Op>)
    requires Follows(scopes, ops) && scopes[|ops|].vars == []
    ensures var h := scopes[|ops|].heap;
      h.live == map[] && forall p :: p in h.released ==> AllZero(h.released[p])
  {
    EveryScopeSound(scopes, ops, |ops|);
    assert forall p :: p !in scopes[|ops|].heap.live;
  }

  /** A freed block stays freed: no later operation frees it again or makes it live. */
  lemma FreedOnce(s: Scope, op: Op, p: nat)
    requires Sound(s) && Enabled(s, op) && p in s.heap.released
    ensures var t := Perform(s, op);
      p in t.heap.released && t.heap.released[p] == s.heap.released[p] && p !in t.heap.live
  {
  }

  /**
   A new container has a block exactly when it is not empty, its size in bytes does not overflow and the
   allocation succeeds; the block is new and zeroed, and no other block is touched.
   */
  lemma NewContainer(s: Scope, count: nat, unit: nat, ok: bool)
    requires Sound(s) && unit > 0
    ensures var t := Perform(s, New(count, unit, ok));
      var v := t.vars[|s.vars|];
      && |t.vars| == |s.vars| + 1 && t.vars[..|s.vars|] == s.vars && t.heap.released == s.heap.released
      && (if count > 0 && count * unit <= 0xFFFF_FFFF_FFFF_FFFF && ok
          then v.size == count && Contents(t.heap, v) == Zeros(count)
               && v.data !in s.heap.live && v.data !in s.heap.released
               && t.heap.live == s.heap.live[v.data := Zeros(count)]
          else v.size == 0 && Contents(t.heap, v) == [] && t.heap == s.heap)
  {
    FitsInSize(count, unit);
    NullIsNoBlock(s.heap);
  }

  lemma FitsInSize(count: nat, unit: nat)
    requires unit > 0
    ensures count > SIZE_MAX / unit <==> count * unit > 0xFFFF_FFFF_FFFF_FFFF
  {
    var q, r := SIZE_MAX / unit, SIZE_MAX % unit;
    assert SIZE_MAX == q * unit + r;
    if count > q {
      assert count * unit >= (q + 1) * unit == q * unit + unit;
    } else {
      assert count * unit <= q * unit;
    }
  }

  /** Resizing one container keeps the common prefix, zero-fills the rest and leaves the others alone. */
  lemma ResizeKeepsContents(s: Scope, i: nat, n: nat, unit: nat, k: nat)
    requires Sound(s) && Enabled(s, SetSize(i, n, unit)) && n <= SIZE_MAX / unit && k < |s.vars|
    ensures var t := Perform(s, SetSize(i, n, unit));
      && Sound(t) && t.vars[i].size == n
      && Contents(t.heap, t.vars[k]) == if k == i then Resized(Contents(s.heap, s.vars[i]), n)
                                        else Contents(s.heap, s.vars[k])
  {
    ResizeSound(s, i, n, unit);
    var t := Perform(s, SetSize(i, n, unit));
    if k == i && n == s.vars[i].size {
      assert Resized(Contents(s.heap, s.vars[i]), n) == Contents(s.heap, s.vars[i]);
    }
  }
}
