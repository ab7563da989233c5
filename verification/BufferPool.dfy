/** The arena of fixed-size buffers with its intrusive free list: the link of a free slot is kept in
    the slot's own first word, the same word a borrower overwrites while the slot is on loan. */
module BufferPools {
  const SLOT_SIZE := 16384    // bytes
  const WORD := 8             // a link is one word
  const SLOT_WORDS := 2048    // words of a slot

  /** `words` is the memory of the arena; `head` is the address of the first free slot, 0 for none. */
  datatype Arena = Arena(words: seq<int>, head: int, available: int)

  function Addr(base: int, slot: int): int {
    base + slot * SLOT_SIZE
  }

  function WordAt(base: int, address: int): int {
    (address - base) / WORD
  }

  predicate Inside(base: int, capacity: nat, address: int) {
    base <= address < base + capacity * SLOT_SIZE && (address - base) % SLOT_SIZE == 0
  }

  predicate Readable(m: Arena, base: int) {
    m.head != 0 ==> base <= m.head && WordAt(base, m.head) < |m.words|
  }

  function Got(m: Arena, base: int): (r: (Arena, int))
    requires Readable(m, base)
  {
    if m.head == 0 then (m, 0)
    else (m.(head := m.words[WordAt(base, m.head)], available := m.available - 1), m.head)
  }

  function Returned(m: Arena, base: int, capacity: nat, address: int): (r: Arena)
    requires |m.words| == capacity * SLOT_WORDS
  {
    if address == 0 || !Inside(base, capacity, address) then m
    else m.(words := m.words[WordAt(base, address) := m.head], head := address, available := m.available + 1)
  }

  // ----- the free list -----------------------------------------------------------------------------

  /** Following the links from `p` visits exactly the slots `free`, in order, and then stops. */
  ghost predicate Chain(words: seq<int>, base: int, p: int, free: seq<nat>)
    decreases |free|
  {
    if free == [] then p == 0
    else
      && p == Addr(base, free[0]) && free[0] * SLOT_WORDS < |words|
      && Chain(words, base, words[free[0] * SLOT_WORDS], free[1..])
  }

  ghost predicate Distinct(s: seq<nat>) {
    forall i, j :: 0 <= i < j < |s| ==> s[i] != s[j]
  }

  /** The slots are split between the free list, each once, and the borrowers. */
  ghost predicate Sound(m: Arena, base: int, capacity: nat, free: seq<nat>, loaned: set<nat>) {
    && base > 0 && |m.words| == capacity * SLOT_WORDS
    && Chain(m.words, base, m.head, free) && m.available == |free| && Distinct(free)
    && (forall i <- loaned :: i < capacity) && (forall k :: 0 <= k < |free| ==> free[k] < capacity)
    && (forall i: nat :: i < capacity ==> (i in free <==> i !in loaned))
  }

  /** The chain only depends on the first words of its own slots. */
  lemma {:induction false} ChainFrame(before: seq<int>, after: seq<int>, base: int, p: int, free: seq<nat>)
    requires Chain(before, base, p, free) && |before| == |after|
    requires forall k :: 0 <= k < |free| && free[k] * SLOT_WORDS < |before| ==>
               before[free[k] * SLOT_WORDS] == after[free[k] * SLOT_WORDS]
    ensures Chain(after, base, p, free)
    decreases |free|
  {
    if free != [] {
      forall k | 0 <= k < |free| - 1 && free[1..][k] * SLOT_WORDS < |before|
        ensures before[free[1..][k] * SLOT_WORDS] == after[free[1..][k] * SLOT_WORDS]
      {
        assert free[1..][k] == free[k + 1];
      }
      ChainFrame(before, after, base, before[free[0] * SLOT_WORDS], free[1..]);
    }
  }

  lemma ChainCons(words: seq<int>, base: int, p: int, free: seq<nat>, i: nat)
    requires Chain(words, base, p, free) && i !in free && i * SLOT_WORDS < |words|
    ensures Chain(words[i * SLOT_WORDS := p], base, Addr(base, i), [i] + free)
  {
    ChainFrame(words, words[i * SLOT_WORDS := p], base, p, free);
    assert ([i] + free)[1..] == free;
  }

  /** The links alone determine which slots are free. */
  lemma {:induction false} ChainIsUnique(words: seq<int>, base: int, p: int, a: seq<nat>, b: seq<nat>)
    requires base > 0 && Chain(words, base, p, a) && Chain(words, base, p, b)
    ensures a == b
    decreases |a|
  {
    if a != [] && b != [] {
      ChainIsUnique(words, base, words[a[0] * SLOT_WORDS], a[1..], b[1..]);
      assert a == [a[0]] + a[1..] && b == [b[0]] + b[1..];
    }
  }

  /** A slot is handed out exactly when one is free, and it was nobody else's. */
  lemma GetSound(m: Arena, base: int, capacity: nat, free: seq<nat>, loaned: set<nat>)
    requires Sound(m, base, capacity, free, loaned)
    ensures Readable(m, base) && (m.head == 0 <==> m.available == 0)
    ensures m.head == 0 ==> Got(m, base) == (m, 0) && free == []
    ensures m.head != 0 ==>
              && free != [] && Got(m, base).1 == Addr(base, free[0]) && free[0] !in loaned
              && Sound(Got(m, base).0, base, capacity, free[1..], loaned + {free[0]})
  {
    if free != [] {
      var r := Got(m, base).0;
      assert WordAt(base, m.head) == free[0] * SLOT_WORDS;
      assert free == [free[0]] + free[1..];
      forall i: nat | i < capacity ensures i in free[1..] <==> i !in loaned + {free[0]} {
        assert free[0] !in free[1..];
      }
    }
  }

  /** A slot that is on loan comes back to the free list and is the next to be handed out. */
  lemma PutSound(m: Arena, base: int, capacity: nat, free: seq<nat>, loaned: set<nat>, slot: nat)
    requires Sound(m, base, capacity, free, loaned) && slot in loaned
    ensures Inside(base, capacity, Addr(base, slot))
    ensures Sound(Returned(m, base, capacity, Addr(base, slot)), base, capacity, [slot] + free, loaned - {slot})
  {
    var address := Addr(base, slot);
    assert slot < capacity && address - base == slot * SLOT_SIZE;
    assert Inside(base, capacity, address) && WordAt(base, address) == slot * SLOT_WORDS;
    var r := Returned(m, base, capacity, address);
    ChainFrame(m.words, r.words, base, m.head, free);
    assert ([slot] + free)[1..] == free;
    forall i: nat | i < capacity ensures i in [slot] + free <==> i !in loaned - {slot} {
    }
  }

  /** What a borrower writes into any word of its slot does not touch the free list. */
  lemma WriteSound(m: Arena, base: int, capacity: nat, free: seq<nat>, loaned: set<nat>, slot: nat, k: nat, v: int)
    requires Sound(m, base, capacity, free, loaned) && slot in loaned && k < SLOT_WORDS
    ensures Sound(m.(words := m.words[slot * SLOT_WORDS + k := v]), base, capacity, free, loaned)
  {
    ChainFrame(m.words, m.words[slot * SLOT_WORDS + k := v], base, m.head, free);
  }

  function SlotsOf(s: seq<nat>): set<nat> {
    set i | i in s
  }

  lemma {:induction false} DistinctCount(s: seq<nat>)
    requires Distinct(s)
    ensures |SlotsOf(s)| == |s|
  {
    if s != [] {
      DistinctCount(s[1..]);
      assert s == [s[0]] + s[1..];
      assert s[0] !in s[1..];
      assert SlotsOf(s) == SlotsOf(s[1..]) + {s[0]};
    }
  }

  lemma {:induction false} BelowCount(n: nat, s: set<nat>)
    requires forall i: nat :: i < n <==> i in s
    ensures |s| == n
  {
    if n == 0 {
      assert s == {};
    } else {
      BelowCount(n - 1, s - {n - 1});
    }
  }

  /** `available` counts what is not on loan. */
  lemma LoansCounted(m: Arena, base: int, capacity: nat, free: seq<nat>, loaned: set<nat>)
    requires Sound(m, base, capacity, free, loaned)
    ensures |loaned| == capacity - m.available
  {
    hide Chain;
    var f := SlotsOf(free);
    DistinctCount(free);
    forall i: nat ensures i < capacity <==> i in f + loaned {
      if i in f {
        var k :| 0 <= k < |free| && free[k] == i;
      }
    }
    BelowCount(capacity, f + loaned);
    assert f * loaned == {};
    assert |f + loaned| == |f| + |loaned|;
  }

  // ----- a slot returned twice ----------------------------------------------------------------------

  /** From a set of slots that link to one another only, no walk ever ends. */
  lemma {:induction false} NoWayOut(words: seq<int>, base: int, p: nat, loop: set<nat>, free: seq<nat>)
    requires base > 0 && p in loop
    requires forall i <- loop :: i * SLOT_WORDS < |words| && exists j <- loop :: words[i * SLOT_WORDS] == Addr(base, j)
    ensures !Chain(words, base, Addr(base, p), free)
    decreases |free|
  {
    if free != [] && Chain(words, base, Addr(base, p), free) {
      assert free[0] == p;
      var j :| j in loop && words[p * SLOT_WORDS] == Addr(base, j);
      NoWayOut(words, base, j, loop, free[1..]);
      assert false;
    }
  }

  lemma {:induction false} LinkAt(words: seq<int>, base: int, p: int, free: seq<nat>, k: nat)
    requires Chain(words, base, p, free) && k < |free|
    ensures p == Addr(base, free[0])
    ensures free[k] * SLOT_WORDS < |words|
    ensures words[free[k] * SLOT_WORDS] == if k + 1 < |free| then Addr(base, free[k + 1]) else 0
    decreases |free|
  {
    if k > 0 {
      LinkAt(words, base, words[free[0] * SLOT_WORDS], free[1..], k - 1);
    }
  }

  /** The first slots of a list, once the link of the last of them leads back to the first. */
  lemma LoopOf(words: seq<int>, base: int, p: int, free: seq<nat>, k: nat, after: seq<int>)
    requires Chain(words, base, p, free) && Distinct(free) && k < |free|
    requires free[k] * SLOT_WORDS < |words| && after == words[free[k] * SLOT_WORDS := p]
    ensures forall i <- SlotsOf(free[..k + 1]) :: i * SLOT_WORDS < |after| &&
              exists j <- SlotsOf(free[..k + 1]) :: after[i * SLOT_WORDS] == Addr(base, j)
  {
    hide Chain, Addr;
    var first := free[..k + 1];
    forall i <- SlotsOf(first)
      ensures i * SLOT_WORDS < |after| && exists j <- SlotsOf(first) :: after[i * SLOT_WORDS] == Addr(base, j)
    {
      var n :| 0 <= n < |first| && first[n] == i;
      LinkAt(words, base, p, free, n);
      var j := first[if n == k then 0 else n + 1];
      assert j in SlotsOf(first);
      assert after[i * SLOT_WORDS] == Addr(base, j);
    }
  }

  /** Returning a slot that is already free closes the list into a loop. */
  lemma DoublePutLoops(m: Arena, base: int, capacity: nat, free: seq<nat>, loaned: set<nat>, k: nat, other: seq<nat>)
    requires Sound(m, base, capacity, free, loaned) && k < |free|
    ensures var r := Returned(m, base, capacity, Addr(base, free[k])); !Chain(r.words, base, r.head, other)
  {
    hide Chain;
    var slot := free[k];
    var address := Addr(base, slot);
    assert slot < capacity && address - base == slot * SLOT_SIZE;
    assert Inside(base, capacity, address) && WordAt(base, address) == slot * SLOT_WORDS;
    var r := Returned(m, base, capacity, address);
    LoopOf(m.words, base, m.head, free, k, r.words);
    assert free[..k + 1][k] == slot;
    NoWayOut(r.words, base, slot, SlotsOf(free[..k + 1]), other);
  }

  /** Returning a slot of the arena leaves a sound pool exactly when the slot was on loan. */
  lemma PutNeedsALoan(m: Arena, base: int, capacity: nat, free: seq<nat>, loaned: set<nat>, slot: nat)
    requires Sound(m, base, capacity, free, loaned) && slot < capacity
    ensures (exists f, l :: Sound(Returned(m, base, capacity, Addr(base, slot)), base, capacity, f, l)) <==> slot in loaned
  {
    if slot in loaned {
      PutSound(m, base, capacity, free, loaned, slot);
    } else {
      var k :| 0 <= k < |free| && free[k] == slot;
      var r := Returned(m, base, capacity, Addr(base, slot));
      forall f, l ensures !Sound(r, base, capacity, f, l) {
        DoublePutLoops(m, base, capacity, free, loaned, k, f);
      }
    }
  }

  // ----- the allocator --------------------------------------------------------------------------------

  class BufferPool {
    const base: int
    const capacity: nat
    const arena: array<int>
    var freeList: int
    var available: int

    ghost var free: seq<nat>
    ghost var loaned: set<nat>

    ghost function Memory(): Arena
      reads this, arena
    {
      Arena(arena[..], freeList, available)
    }

    ghost predicate Valid()
      reads this, arena
    {
      Sound(Memory(), base, capacity, free, loaned)
    }

    constructor (slots: nat, at: int)
      requires slots > 0 && at > 0
      ensures Valid() && fresh(arena) && capacity == slots && base == at
      ensures available == slots && loaned == {} && free == seq(slots, i => i)
    {
      base := at;
      capacity := slots;
      arena := new int[slots * SLOT_WORDS];
      freeList := 0;
      available := slots;
      free := [];
      loaned := {};
      new;
      assert Chain(arena[..], base, freeList, free);
      hide Chain;
      var i := slots;
      while i > 0
        invariant 0 <= i <= slots && available == slots && loaned == {}
        invariant free == seq(slots - i, k => i + k)
        invariant Chain(arena[..], base, freeList, free)
      {
        i := i - 1;
        ChainCons(arena[..], base, freeList, free, i);
        arena[i * SLOT_WORDS] := freeList;
        freeList := Addr(base, i);
        free := [i] + free;
      }
      assert free == seq(slots, k => k);
      assert forall k: nat :: k < slots ==> free[k] == k && k in free;
    }

    /** The address of a slot that was free, or 0 when none is left. */
    method Get() returns (address: int)
      requires Valid()
      modifies this`freeList, this`available, this`free, this`loaned
      ensures Valid()
      ensures (Memory(), address) == Got(old(Memory()), base)
      ensures address == 0 <==> old(available) == 0
      ensures address == 0 ==> free == old(free) && loaned == old(loaned)
      ensures address != 0 ==>
                && old(free) != [] && address == Addr(base, old(free)[0]) && old(free)[0] !in old(loaned)
                && free == old(free)[1..] && loaned == old(loaned) + {old(free)[0]}
                && |loaned| == |old(loaned)| + 1
    {
      GetSound(Memory(), base, capacity, free, loaned);
      if freeList == 0 {
        return 0;
      }
      address := freeList;
      freeList := arena[WordAt(base, address)];
      available := available - 1;
      loaned := loaned + {free[0]};
      free := free[1..];
    }

    /** An address that is not the start of a slot is ignored; the start of a slot must be on loan. */
    method Put(address: int)
      requires Valid()
      requires forall slot: nat :: slot < capacity && address == Addr(base, slot) ==> slot in loaned
      modifies this`freeList, this`available, this`free, this`loaned, arena
      ensures Valid()
      ensures Memory() == Returned(old(Memory()), base, capacity, address)
      ensures !Inside(base, capacity, address) ==> free == old(free) && loaned == old(loaned)
      ensures Inside(base, capacity, address) ==>
                var slot := (address - base) / SLOT_SIZE;
                free == [slot] + old(free) && slot in old(loaned) && loaned == old(loaned) - {slot}
    {
      if address == 0 {
        return;
      }
      if address < base || address >= base + capacity * SLOT_SIZE || (address - base) % SLOT_SIZE != 0 {
        return;
      }
      ghost var slot := (address - base) / SLOT_SIZE;
      assert address == Addr(base, slot) && 0 <= slot < capacity;
      PutSound(Memory(), base, capacity, free, loaned, slot);
      arena[WordAt(base, address)] := freeList;
      freeList := address;
      available := available + 1;
      free := [slot] + free;
      loaned := loaned - {slot};
      assert Memory() == Returned(old(Memory()), base, capacity, address);
    }

    /** A borrower writes a word of its slot. */
    method Write(slot: nat, k: nat, v: int)
      requires Valid() && slot in loaned && k < SLOT_WORDS
      modifies arena
      ensures Valid()
      ensures Memory() == old(Memory()).(words := old(arena[..])[slot * SLOT_WORDS + k := v])
    {
      WriteSound(Memory(), base, capacity, free, loaned, slot, k, v);
      arena[slot * SLOT_WORDS + k] := v;
      assert Memory() == old(Memory()).(words := old(arena[..])[slot * SLOT_WORDS + k := v]);
    }
  }
}
