/** Over-aligned blocks with a hidden word beside them: `aligned_allocator_adaptor`
    stores the base pointer before the block, `any_completion_handler_impl` stores
    the distance from the base behind it. Memory is a map from addresses to bytes. */
module HiddenPointers {
  import opened Align

  const WORD: nat := 8
  const BITS: nat := 64

  type Memory = map<nat, nat>

  function ByteAt(mem: Memory, at: nat): nat {
    if at in mem then mem[at] else 0
  }

  /** `memcpy` of an `n`-byte number, low byte first. */
  function Store(mem: Memory, at: nat, value: nat, n: nat): Memory
    decreases n
  {
    if n == 0 then mem else Store(mem[at := value % 256], at + 1, value / 256, n - 1)
  }

  function Load(mem: Memory, at: nat, n: nat): nat
    decreases n
  {
    if n == 0 then 0 else ByteAt(mem, at) + 256 * Load(mem, at + 1, n - 1)
  }

  ghost predicate SameBytes(a: Memory, b: Memory, from: nat, to: nat) {
    forall i: nat :: from <= i < to ==> ByteAt(a, i) == ByteAt(b, i)
  }

  lemma {:induction false} StoreElsewhere(mem: Memory, at: nat, value: nat, n: nat, i: nat)
    requires i < at || at + n <= i
    ensures ByteAt(Store(mem, at, value, n), i) == ByteAt(mem, i)
    decreases n
  {
    if n > 0 {
      StoreElsewhere(mem[at := value % 256], at + 1, value / 256, n - 1, i);
    }
  }

  lemma {:induction false} LoadSame(a: Memory, b: Memory, at: nat, n: nat)
    requires SameBytes(a, b, at, at + n)
    ensures Load(a, at, n) == Load(b, at, n)
    decreases n
  {
    if n > 0 {
      LoadSame(a, b, at + 1, n - 1);
    }
  }

  function Pow256(n: nat): nat {
    if n == 0 then 1 else 256 * Pow256(n - 1)
  }

  /** What was stored is read back. */
  lemma {:induction false} LoadStore(mem: Memory, at: nat, value: nat, n: nat)
    requires value < Pow256(n)
    ensures Load(Store(mem, at, value, n), at, n) == value
    decreases n
  {
    if n > 0 {
      LoadStore(mem[at := value % 256], at + 1, value / 256, n - 1);
      StoreElsewhere(mem[at := value % 256], at + 1, value / 256, n - 1, at);
    }
  }

  lemma {:induction false} BytesAndBits(n: nat)
    ensures Pow256(n) == Pow2(8 * n)
    decreases n
  {
    if n > 0 {
      BytesAndBits(n - 1);
      Double(8 * n - 1);
      Double(8 * n - 2);
      Double(8 * n - 3);
      Double(8 * n - 4);
      Double(8 * n - 5);
      Double(8 * n - 6);
      Double(8 * n - 7);
      Double(8 * n - 8);
    }
  }

  lemma Double(k: nat)
    ensures Pow2(k + 1) == 2 * Pow2(k)
  {
  }

  /** A stored word is as wide as an address. */
  lemma WordHoldsPointers()
    ensures Pow256(WORD) == Pow2(BITS)
  {
    BytesAndBits(WORD);
  }

  // ---- The two allocators ----

  /** Which of the two schemes. */
  datatype Scheme = BasePointer | Offset

  /** A block handed out: what the underlying allocator returned, the size asked for,
      and the binary logarithm of the alignment. */
  datatype Block = Block(base: nat, size: nat, k: nat)

  /** The bytes both schemes ask the underlying allocator for. */
  function Total(size: nat, k: nat): nat {
    size + Pow2(k) - 1 + WORD
  }

  /** `align(alignment, size, ptr, space)`; -1 is the null pointer. */
  function AlignIn(k: nat, size: nat, ptr: nat, space: nat): int
    requires Pow2(k) <= Pow2(BITS)
  {
    var p := AlignUp(ptr, Pow2(k), BITS);
    if size <= space && 0 <= p - ptr <= space - size then p else -1
  }

  /** Where alignment starts: behind the hidden word, or at the base. */
  function First(scheme: Scheme, base: nat): nat {
    if scheme.BasePointer? then base + WORD else base
  }

  function User(scheme: Scheme, b: Block): int
    requires Pow2(b.k) <= Pow2(BITS)
  {
    AlignIn(b.k, b.size, First(scheme, b.base), b.size + Pow2(b.k) - 1)
  }

  /** Where the hidden word is. */
  function SlotAt(scheme: Scheme, user: int, size: nat): int {
    if scheme.BasePointer? then user - WORD else user + size
  }

  function Hidden(scheme: Scheme, base: nat, user: int): int {
    if scheme.BasePointer? then base else user - base
  }

  /** How `deallocate` gets the base back. */
  function Recover(scheme: Scheme, user: int, word: nat): int {
    if scheme.BasePointer? then word else user - word
  }

  /** The block and the address after it lie in the address space. */
  ghost predicate Fits(b: Block) {
    b.k <= BITS && b.base + Total(b.size, b.k) < Pow2(BITS)
  }

  /** Alignment in the extra room always succeeds: the block starts at the least
      aligned address at or above the first possible one; block and hidden word do
      not overlap and both lie inside what was allocated. */
  lemma BlockLayout(scheme: Scheme, b: Block)
    requires Fits(b)
    ensures Pow2(b.k) <= Pow2(BITS)
    ensures var u, first := User(scheme, b), First(scheme, b.base);
            && first <= u < first + Pow2(b.k) && u % Pow2(b.k) == 0
            && (forall v: int :: first <= v < u ==> v % Pow2(b.k) != 0)
            && b.base <= u && u + b.size <= b.base + Total(b.size, b.k)
            && (if scheme.BasePointer? then b.base < u else u < b.base + Total(b.size, b.k))
            && var slot := SlotAt(scheme, u, b.size);
               && b.base <= slot && slot + WORD <= b.base + Total(b.size, b.k)
               && (slot + WORD <= u || u + b.size <= slot)
               && 0 <= Hidden(scheme, b.base, u) < Pow2(BITS)
               && Recover(scheme, u, Hidden(scheme, b.base, u)) == b.base
  {
    Pow2Monotone(b.k, BITS);
    var first := First(scheme, b.base);
    hide Pow2, AlignUp;
    LeastAligned(first, b.k);
    assert User(scheme, b) == AlignUp(first, Pow2(b.k), BITS);
  }

  /** No byte is asked for in vain: if alignment has to skip as much as it can, block and
      hidden word fill the allocation to its end. */
  lemma TotalIsTight(scheme: Scheme, b: Block)
    requires Fits(b) && (First(scheme, b.base) + Pow2(b.k) - 1) % Pow2(b.k) == 0
    ensures Pow2(b.k) <= Pow2(BITS)
    ensures var u := User(scheme, b);
            var end := if scheme.BasePointer? then u + b.size else SlotAt(scheme, u, b.size) + WORD;
            end == b.base + Total(b.size, b.k)
  {
    BlockLayout(scheme, b);
    var u, last := User(scheme, b), First(scheme, b.base) + Pow2(b.k) - 1;
    hide Pow2, User;
    NoMultipleBetween(u, last, Pow2(b.k));
  }

  /** `align` finds the least aligned address. */
  lemma LeastAligned(first: nat, k: nat)
    requires k <= BITS && first + Pow2(k) - 1 < Pow2(BITS)
    ensures Pow2(k) <= Pow2(BITS)
    ensures var u := AlignUp(first, Pow2(k), BITS);
            && first <= u < first + Pow2(k) && u % Pow2(k) == 0
            && (forall v: int :: first <= v < u ==> v % Pow2(k) != 0)
  {
    Pow2Monotone(k, BITS);
    AlignUpInRange(first, k, BITS);
    var u := AlignUp(first, Pow2(k), BITS);
    hide AlignUp, Pow2;
    forall v: int | first <= v < u ensures v % Pow2(k) != 0 {
      if v % Pow2(k) == 0 {
        NoMultipleBetween(v, u, Pow2(k));
      }
    }
  }

  // ---- Every run of one allocator ----

  /** The memory, and the live blocks by their user address. */
  datatype Heap = Heap(mem: Memory, live: map<int, Block>)

  ghost predicate Disjoint(a: Block, b: Block) {
    a.base + Total(a.size, a.k) <= b.base || b.base + Total(b.size, b.k) <= a.base
  }

  ghost predicate Remembered(scheme: Scheme, mem: Memory, u: int, b: Block) {
    && Fits(b) && Pow2(b.k) <= Pow2(BITS) && u == User(scheme, b)
    && 0 <= SlotAt(scheme, u, b.size)
    && Load(mem, SlotAt(scheme, u, b.size), WORD) == Hidden(scheme, b.base, u)
  }

  ghost predicate HeapOk(scheme: Scheme, h: Heap) {
    && (forall u :: u in h.live ==> Remembered(scheme, h.mem, u, h.live[u]))
    && (forall u, v :: u in h.live && v in h.live && u != v ==> Disjoint(h.live[u], h.live[v]))
  }

  /** What a user may write: inside a live block. */
  ghost predicate Owned(h: Heap, at: nat) {
    exists u :: u in h.live && u <= at < u + h.live[u].size
  }

  /** `allocate`, the underlying allocator having returned `b.base`. */
  ghost function Allocate(scheme: Scheme, h: Heap, b: Block): Heap
    requires Fits(b)
  {
    BlockLayout(scheme, b);
    var u := User(scheme, b);
    Heap(Store(h.mem, SlotAt(scheme, u, b.size), Hidden(scheme, b.base, u), WORD), h.live[u := b])
  }

  ghost function WriteByte(h: Heap, at: nat, byte: nat): Heap {
    h.(mem := h.mem[at := byte])
  }

  ghost function Release(h: Heap, u: int): Heap {
    h.(live := h.live - {u})
  }

  /** The pointer `deallocate` passes on. */
  ghost function Released(scheme: Scheme, h: Heap, u: int): int
    requires u in h.live && 0 <= SlotAt(scheme, u, h.live[u].size)
  {
    Recover(scheme, u, Load(h.mem, SlotAt(scheme, u, h.live[u].size), WORD))
  }

  lemma MemoryChange(scheme: Scheme, a: Memory, b: Memory, u: int, block: Block)
    requires Remembered(scheme, a, u, block)
    requires SameBytes(a, b, SlotAt(scheme, u, block.size), SlotAt(scheme, u, block.size) + WORD)
    ensures Remembered(scheme, b, u, block)
  {
    LoadSame(a, b, SlotAt(scheme, u, block.size), WORD);
  }

  /** Storing the hidden word of one block does not touch that of another. */
  lemma StoreKeepsOther(scheme: Scheme, mem: Memory, b: Block, v: int, other: Block)
    requires Fits(b) && Pow2(b.k) <= Pow2(BITS) && Remembered(scheme, mem, v, other) && Disjoint(other, b)
    requires 0 <= SlotAt(scheme, User(scheme, b), b.size) && 0 <= Hidden(scheme, b.base, User(scheme, b))
    ensures var u := User(scheme, b);
            && Remembered(scheme, Store(mem, SlotAt(scheme, u, b.size), Hidden(scheme, b.base, u), WORD), v, other)
            && u != v
  {
    hide Pow2, User, Total, Store, Load, SlotAt, Hidden, Recover, ByteAt;
    BlockLayout(scheme, b);
    BlockLayout(scheme, other);
    var u := User(scheme, b);
    var slot, there, word := SlotAt(scheme, u, b.size), SlotAt(scheme, v, other.size), Hidden(scheme, b.base, u);
    var t := Store(mem, slot, word, WORD);
    forall i: nat | there <= i < there + WORD ensures ByteAt(mem, i) == ByteAt(t, i) {
      StoreElsewhere(mem, slot, word, WORD, i);
    }
    MemoryChange(scheme, mem, t, v, other);
  }

  /** A new block, disjoint from the live ones, disturbs none of them. */
  lemma AllocateKeeps(scheme: Scheme, h: Heap, b: Block)
    requires HeapOk(scheme, h) && Fits(b)
    requires forall u :: u in h.live ==> Disjoint(h.live[u], b)
    ensures HeapOk(scheme, Allocate(scheme, h, b))
    ensures Pow2(b.k) <= Pow2(BITS) && User(scheme, b) !in h.live
  {
    hide Pow2, User, Store, Load, SlotAt, Hidden, Recover, Total, Fits, Remembered;
    BlockLayout(scheme, b);
    var u, t := User(scheme, b), Allocate(scheme, h, b);
    NewRemembered(scheme, h.mem, b);
    forall v | v in h.live ensures Remembered(scheme, t.mem, v, h.live[v]) && u != v {
      StoreKeepsOther(scheme, h.mem, b, v, h.live[v]);
    }
  }

  /** The hidden word of the new block itself. */
  lemma NewRemembered(scheme: Scheme, mem: Memory, b: Block)
    requires Fits(b)
    ensures Pow2(b.k) <= Pow2(BITS)
    ensures var u := User(scheme, b);
            && 0 <= SlotAt(scheme, u, b.size) && 0 <= Hidden(scheme, b.base, u)
            && Remembered(scheme, Store(mem, SlotAt(scheme, u, b.size), Hidden(scheme, b.base, u), WORD), u, b)
  {
    hide Pow2, User, Store, Load, SlotAt, Hidden, Recover, Total;
    BlockLayout(scheme, b);
    var u := User(scheme, b);
    WordHoldsPointers();
    LoadStore(mem, SlotAt(scheme, u, b.size), Hidden(scheme, b.base, u), WORD);
  }

  /** Users cannot reach a hidden word. */
  lemma WriteKeeps(scheme: Scheme, h: Heap, at: nat, byte: nat)
    requires HeapOk(scheme, h) && Owned(h, at)
    ensures HeapOk(scheme, WriteByte(h, at, byte))
  {
    hide Pow2, User, Total, Load, SlotAt, Hidden, Recover;
    var t := WriteByte(h, at, byte);
    var owner :| owner in h.live && owner <= at < owner + h.live[owner].size;
    BlockLayout(scheme, h.live[owner]);
    forall v | v in h.live ensures Remembered(scheme, t.mem, v, h.live[v]) {
      BlockLayout(scheme, h.live[v]);
      MemoryChange(scheme, h.mem, t.mem, v, h.live[v]);
    }
  }

  lemma ReleaseKeeps(scheme: Scheme, h: Heap, u: int)
    requires HeapOk(scheme, h)
    ensures HeapOk(scheme, Release(h, u))
  {
  }

  datatype Event = Allocating(b: Block) | Writing(at: nat, byte: nat) | Releasing(u: int)

  ghost predicate Possible(h: Heap, e: Event) {
    match e
    case Allocating(b) => Fits(b) && forall u :: u in h.live ==> Disjoint(h.live[u], b)
    case Writing(at, _) => Owned(h, at)
    case Releasing(u) => u in h.live
  }

  ghost function Step(scheme: Scheme, h: Heap, e: Event): Heap
    requires Possible(h, e)
  {
    match e
    case Allocating(b) => Allocate(scheme, h, b)
    case Writing(at, byte) => WriteByte(h, at, byte)
    case Releasing(u) => Release(h, u)
  }

  ghost predicate Leads(scheme: Scheme, h: Heap, events: seq<Event>, t: Heap)
    decreases |events|
  {
    if events == [] then t == h
    else Possible(h, events[0]) && Leads(scheme, Step(scheme, h, events[0]), events[1..], t)
  }

  lemma {:induction false} LeadsKeeps(scheme: Scheme, h: Heap, events: seq<Event>, t: Heap)
    requires HeapOk(scheme, h) && Leads(scheme, h, events, t)
    ensures HeapOk(scheme, t)
    decreases |events|
  {
    if events != [] {
      hide HeapOk, WriteByte, Release, Allocate;
      match events[0]
      case Allocating(b) => AllocateKeeps(scheme, h, b);
        LeadsKeeps(scheme, Step(scheme, h, events[0]), events[1..], t);
      case Writing(at, byte) => WriteKeeps(scheme, h, at, byte);
        LeadsKeeps(scheme, Step(scheme, h, events[0]), events[1..], t);
      case Releasing(u) => ReleaseKeeps(scheme, h, u);
        LeadsKeeps(scheme, Step(scheme, h, events[0]), events[1..], t);
    }
  }

  /** Over every run of allocations, writes into live blocks and deallocations, in any
      order: `deallocate` gives back to the underlying allocator exactly the pointer
      that allocator returned for this block, and all live blocks are aligned. */
  lemma DeallocateRecoversBase(scheme: Scheme, mem: Memory, events: seq<Event>, h: Heap, u: int)
    requires Leads(scheme, Heap(mem, map[]), events, h) && u in h.live
    ensures 0 <= SlotAt(scheme, u, h.live[u].size)
    ensures Released(scheme, h, u) == h.live[u].base
    ensures u % Pow2(h.live[u].k) == 0
  {
    LeadsKeeps(scheme, Heap(mem, map[]), events, h);
    ReleasedIsBase(scheme, h, u);
  }

  lemma ReleasedIsBase(scheme: Scheme, h: Heap, u: int)
    requires HeapOk(scheme, h) && u in h.live
    ensures 0 <= SlotAt(scheme, u, h.live[u].size)
    ensures Released(scheme, h, u) == h.live[u].base
    ensures u % Pow2(h.live[u].k) == 0
  {
    hide Pow2, User, Load, Total;
    BlockLayout(scheme, h.live[u]);
  }

  // ---- As the classes do it ----

  class Allocator {
    const scheme: Scheme
    var mem: Memory

    constructor (scheme: Scheme, mem: Memory)
      ensures this.scheme == scheme && this.mem == mem
    {
      this.scheme, this.mem := scheme, mem;
    }

    /** `allocate`: `base` is what the underlying allocator returned for `Total(size, k)` bytes. */
    method AllocateAt(base: nat, size: nat, k: nat) returns (user: int)
      requires Fits(Block(base, size, k))
      modifies this
      ensures user % Pow2(k) == 0 && First(scheme, base) <= user < First(scheme, base) + Pow2(k)
      ensures forall live :: Heap(mem, live[user := Block(base, size, k)]) ==
                             Allocate(scheme, Heap(old(mem), live), Block(base, size, k))
    {
      hide Pow2, AlignUp, Load;
      var b := Block(base, size, k);
      BlockLayout(scheme, b);
      user := AlignIn(k, size, First(scheme, base), size + Pow2(k) - 1);
      if scheme.BasePointer? {
        mem := Store(mem, user - WORD, base, WORD);
      } else {
        var distance := user - base;
        mem := Store(mem, user + size, distance, WORD);
      }
    }

    /** `deallocate`: the pointer and the byte count passed on. */
    method Deallocate(user: int, size: nat, k: nat) returns (base: int, bytes: nat)
      requires 0 <= SlotAt(scheme, user, size)
      ensures forall live: map<int, Block> :: user in live && live[user].size == size ==>
                base == Released(scheme, Heap(mem, live), user)
      ensures forall live: map<int, Block> ::
                user in live && live[user].size == size && HeapOk(scheme, Heap(mem, live)) ==> base == live[user].base
      ensures bytes == Total(size, k)
    {
      forall live: map<int, Block> | user in live && live[user].size == size && HeapOk(scheme, Heap(mem, live))
        ensures Released(scheme, Heap(mem, live), user) == live[user].base
      {
        ReleasedIsBase(scheme, Heap(mem, live), user);
      }
      hide HeapOk;
      if scheme.BasePointer? {
        base := Load(mem, user - WORD, WORD);
      } else {
        base := user - Load(mem, user + size, WORD);
      }
      bytes := size + Pow2(k) - 1 + WORD;
    }
  }
}
