/** The open-addressing hash map of src/containers/hashmap.c: linear probing, tombstones, growth at
    a load of three quarters.  The hash function is arbitrary; allocations may fail at any call. */
module HashMap {
  import opened Arith
  import opened Counting

  datatype Option<+T> = None | Some(value: T)

  datatype ErrorCode = Ok | NoMem | Overflow | NotFound

  /** `Empty` has a null key; `Dead` is a tombstone, which keeps its key. */
  datatype Slot<V> = Empty | Live(key: string, value: V) | Dead(key: string)

  const SIZE_MAX: nat := 0xFFFF_FFFF_FFFF_FFFF
  const INITIAL_CAP: nat := 16

  /** Multiplication of two `size_t` values. */
  function MulSize(a: nat, b: nat): (r: nat)
    ensures r <= a * b
  {
    a * b % (SIZE_MAX + 1)
  }

  /** The two numbers that decide growth and overflow. */
  datatype Extent = Extent(used: nat, cap: nat)

  predicate Full(size: Extent) {
    size.used > SIZE_MAX / 4 - 1
  }

  /** The growth test of `hashmap_put`, with the `size_t` product it computes. */
  predicate NeedsGrowth(size: Extent) {
    MulSize(size.used + 1, 4) > MulSize(size.cap, 3)
  }

  /** Where the products do not wrap, growth is due exactly when one more slot in use would exceed
      three quarters. */
  lemma {:induction false} NeedsGrowthIff(size: Extent)
    requires size.used <= 0x3FFF_FFFF_FFFF_FFFE && 3 * size.cap <= 0xFFFF_FFFF_FFFF_FFFF
    ensures NeedsGrowth(size) <==> 4 * (size.used + 1) > 3 * size.cap
  {
    DivModUnique((size.used + 1) * 4, SIZE_MAX + 1, 0, (size.used + 1) * 4);
    DivModUnique(size.cap * 3, SIZE_MAX + 1, 0, size.cap * 3);
  }

  predicate Astronomical(calls: nat) {
    INITIAL_CAP + 3 * calls > SIZE_MAX / 3
  }

  /** Calls are astronomically many only beyond 2^60, and a put overflows only for such sizes. */
  lemma {:induction false} AstronomicalMeans(calls: nat)
    ensures Astronomical(calls) ==> calls > 0x1000_0000_0000_0000
    ensures Full(Extent(calls, 0)) <==> calls > 0x3FFF_FFFF_FFFF_FFFE
  {
  }

  /** No growth due means that the load stays at most three quarters, wrap-around included. */
  lemma {:induction false} LoadAfterCheck(size: Extent)
    requires !Full(size) && !NeedsGrowth(size)
    ensures 4 * (size.used + 1) <= 3 * size.cap
  {
    DivModUnique((size.used + 1) * 4, SIZE_MAX + 1, 0, (size.used + 1) * 4);
  }

  /** The code `hashmap_put` returns. */
  function PutCode(present: bool, size: Extent, tableAlloc: bool, keyAlloc: bool): ErrorCode {
    if Full(size) then Overflow
    else if NeedsGrowth(size) && size.cap > SIZE_MAX / 2 then Overflow
    else if NeedsGrowth(size) && !tableAlloc then NoMem
    else if !present && !keyAlloc then NoMem
    else Ok
  }

  predicate Rehashes(size: Extent, tableAlloc: bool) {
    !Full(size) && NeedsGrowth(size) && size.cap <= SIZE_MAX / 2 && tableAlloc
  }

  /** What a put may do to the size: a rehash doubles the slots and drops the tombstones, and a new
      key takes a slot that was empty or a tombstone. */
  predicate SizeAfterPut<V>(
    m: map<string, V>, size: Extent, key: string, tableAlloc: bool, err: ErrorCode, size': Extent) {
    var used := if Rehashes(size, tableAlloc) then |m| else size.used;
    && size'.cap == (if Rehashes(size, tableAlloc) then size.cap * 2 else size.cap)
    && used <= size'.used <= used + One(err == Ok && key !in m)
  }

  /** What the growth check does to the size. */
  predicate SizeWithRoom<V>(m: map<string, V>, size: Extent, tableAlloc: bool, size': Extent) {
    if Rehashes(size, tableAlloc) then size' == Extent(|m|, size.cap * 2) && |m| <= size.used else size' == size
  }

  lemma {:induction false} PutWithoutRoom<V>(
    m: map<string, V>, size: Extent, roomy: Extent, key: string, tableAlloc: bool, keyAlloc: bool, err: ErrorCode)
    requires err == PutCode(true, size, tableAlloc, true) != Ok && SizeWithRoom(m, size, tableAlloc, roomy)
    ensures err == PutCode(key in m, size, tableAlloc, keyAlloc)
    ensures SizeAfterPut(m, size, key, tableAlloc, err, roomy) && roomy.used <= size.used
  {
  }

  lemma {:induction false} PutInTwoSteps<V>(
    m: map<string, V>, size: Extent, roomy: Extent, size': Extent, key: string, tableAlloc: bool, keyAlloc: bool,
    err: ErrorCode)
    requires PutCode(true, size, tableAlloc, true) == Ok && SizeWithRoom(m, size, tableAlloc, roomy)
    requires err == if key in m || keyAlloc then Ok else NoMem
    requires size'.cap == roomy.cap && roomy.used <= size'.used <= roomy.used + One(err == Ok && key !in m)
    ensures err == PutCode(key in m, size, tableAlloc, keyAlloc)
    ensures SizeAfterPut(m, size, key, tableAlloc, err, size') && size'.used <= size.used + 1
  {
  }

  /** After this many calls the table has room in proportion, unless the calls are astronomically many. */
  ghost predicate InProportion(calls: nat, cap: nat) {
    cap <= INITIAL_CAP + 3 * calls || Astronomical(calls)
  }

  lemma {:induction false} GrowthInProportion(calls: nat, size: Extent)
    requires size.used <= calls && InProportion(calls, size.cap)
    ensures InProportion(calls + 1, size.cap)
    ensures Rehashes(size, true) ==> InProportion(calls + 1, size.cap * 2)
    ensures Full(size) || (NeedsGrowth(size) && size.cap > SIZE_MAX / 2) ==> Astronomical(calls)
  {
    if Rehashes(size, true) && size.cap <= SIZE_MAX / 3 {
      DivModUnique((size.used + 1) * 4, SIZE_MAX + 1, 0, (size.used + 1) * 4);
      DivModUnique(size.cap * 3, SIZE_MAX + 1, 0, size.cap * 3);
    }
  }

  // ----- masking with a power of two -----------------------------------------------------------

  predicate IsPowerOfTwo(n: nat) {
    n == 1 || (n > 1 && n % 2 == 0 && IsPowerOfTwo(n / 2))
  }

  function BitAnd(x: nat, y: nat): nat {
    if x == 0 || y == 0 then 0 else 2 * BitAnd(x / 2, y / 2) + (if x % 2 == 1 && y % 2 == 1 then 1 else 0)
  }

  lemma {:induction false} RemainderByHalves(x: nat, half: nat)
    requires half > 0
    ensures x % (2 * half) == 2 * (x / 2 % half) + x % 2
  {
    var q, r := x / 2 / half, x / 2 % half;
    assert x / 2 == half * q + r;
    assert x == (2 * half) * q + (2 * r + x % 2);
    DivModUnique(x, 2 * half, q, 2 * r + x % 2);
  }

  /** `x & (cap - 1)` is the remainder modulo `cap`, so it is a slot index. */
  lemma {:induction false} MaskIsRemainder(x: nat, cap: nat)
    requires IsPowerOfTwo(cap)
    ensures BitAnd(x, cap - 1) == x % cap < cap
  {
    if cap > 1 {
      assert (cap - 1) / 2 == cap / 2 - 1 && (cap - 1) % 2 == 1;
      MaskIsRemainder(x / 2, cap / 2);
      RemainderByHalves(x, cap / 2);
    }
  }

  // ----- probe sequences -----------------------------------------------------------------------

  /** The slot d steps along the probe sequence that begins at `start`. */
  function Along(start: nat, d: nat, cap: nat): (i: nat)
    requires start < cap && d < cap
    ensures i < cap
  {
    if start + d < cap then start + d else start + d - cap
  }

  /** How many steps along that sequence slot p is. */
  function StepsTo(start: nat, p: nat, cap: nat): (d: nat)
    requires start < cap && p < cap
    ensures d < cap && Along(start, d, cap) == p
  {
    if start <= p then p - start else p + cap - start
  }

  ghost predicate Unbroken<V>(slots: seq<Slot<V>>, start: nat, steps: nat)
    requires start < |slots| && steps <= |slots|
  {
    forall d :: 0 <= d < steps ==> !slots[Along(start, d, |slots|)].Empty?
  }

  /** `at` says which slot holds each live key: the live slots are exactly its values, so a key is
      live in one slot only, and no probe sequence has an empty slot before the key it looks for. */
  ghost predicate Indexed<V>(slots: seq<Slot<V>>, at: map<string, nat>, hash: string -> nat) {
    && |slots| > 0
    && (forall k :: k in at ==> at[k] < |slots| && slots[at[k]].Live? && slots[at[k]].key == k)
    && (forall p :: 0 <= p < |slots| && slots[p].Live? ==> slots[p].key in at && at[slots[p].key] == p)
    && (forall k :: k in at ==> Unbroken(slots, hash(k) % |slots|, StepsTo(hash(k) % |slots|, at[k], |slots|)))
  }

  /** The first steps meet neither an empty slot nor the key. */
  ghost predicate Passed<V>(slots: seq<Slot<V>>, start: nat, steps: nat, key: string)
    requires start < |slots| && steps <= |slots|
  {
    forall d :: 0 <= d < steps ==>
      var s := slots[Along(start, d, |slots|)]; !s.Empty? && !(s.Live? && s.key == key)
  }

  /** No slot to reuse on the first steps. */
  ghost predicate OnlyLive<V>(slots: seq<Slot<V>>, start: nat, steps: nat)
    requires start < |slots| && steps <= |slots|
  {
    forall d :: 0 <= d < steps ==> slots[Along(start, d, |slots|)].Live?
  }

  /** The slot of key k holds its entry in the plain map m. */
  ghost predicate HasEntry<V>(slots: seq<Slot<V>>, at: map<string, nat>, m: map<string, V>, k: string) {
    k in at && k in m && at[k] < |slots| && slots[at[k]] == Live(k, m[k])
  }

  /** The live slots hold exactly the entries of the plain map m. */
  ghost predicate Represents<V>(slots: seq<Slot<V>>, at: map<string, nat>, m: map<string, V>) {
    m.Keys == at.Keys && forall k {:trigger HasEntry(slots, at, m, k)} :: k in at ==> HasEntry(slots, at, m, k)
  }

  lemma {:induction false} EntryCount<V>(slots: seq<Slot<V>>, at: map<string, nat>, m: map<string, V>)
    requires Represents(slots, at, m)
    ensures |m| == |at|
  {
    assert |m.Keys| == |at.Keys|;
  }

  lemma {:induction false} RepresentsNew<V>(
    slots: seq<Slot<V>>, at: map<string, nat>, m: map<string, V>, p: nat, key: string, value: V)
    requires Represents(slots, at, m) && p < |slots| && !slots[p].Live? && key !in at
    ensures Represents(slots[p := Live(key, value)], at[key := p], m[key := value])
  {
    var slots', at', m' := slots[p := Live(key, value)], at[key := p], m[key := value];
    forall k | k in at'
      ensures HasEntry(slots', at', m', k)
    {
      if k != key { assert HasEntry(slots, at, m, k); }
    }
  }

  lemma {:induction false} RepresentsOver<V>(
    slots: seq<Slot<V>>, at: map<string, nat>, m: map<string, V>, p: nat, key: string, value: V)
    requires Represents(slots, at, m) && p < |slots| && slots[p].Live? && slots[p].key == key
    requires key in at && at[key] == p
    ensures Represents(slots[p := Live(key, value)], at, m[key := value])
  {
    var slots', m' := slots[p := Live(key, value)], m[key := value];
    forall k | k in at
      ensures HasEntry(slots', at, m', k)
    {
      assert HasEntry(slots, at, m, k);
    }
  }

  lemma {:induction false} RepresentsDead<V>(
    slots: seq<Slot<V>>, at: map<string, nat>, m: map<string, V>, p: nat, key: string)
    requires Represents(slots, at, m) && p < |slots| && slots[p].Live? && slots[p].key == key
    ensures Represents(slots[p := Dead(key)], at - {key}, m - {key})
  {
    var slots', at', m' := slots[p := Dead(key)], at - {key}, m - {key};
    forall k | k in at'
      ensures HasEntry(slots', at', m', k)
    {
      assert HasEntry(slots, at, m, k);
    }
  }

  /** The same entries in another table. */
  lemma {:induction false} RepresentsMoved<V>(
    slots: seq<Slot<V>>, at: map<string, nat>, table: seq<Slot<V>>, at': map<string, nat>, m: map<string, V>)
    requires Represents(slots, at, m) && at'.Keys == at.Keys
    requires forall k :: k in at ==> at[k] < |slots| && at'[k] < |table| && table[at'[k]] == slots[at[k]]
    ensures Represents(table, at', m)
  {
    forall k | k in at'
      ensures HasEntry(table, at', m, k)
    {
      assert HasEntry(slots, at, m, k);
    }
  }

  /** The slots that are not empty: live ones and tombstones. */
  function Occupied<V>(slots: seq<Slot<V>>): set<nat> {
    set p | 0 <= p < |slots| && !slots[p].Empty?
  }

  function LiveSlots<V>(slots: seq<Slot<V>>): set<nat> {
    set p | 0 <= p < |slots| && slots[p].Live?
  }

  lemma {:induction false} FullTableCount<V>(slots: seq<Slot<V>>)
    requires forall p :: 0 <= p < |slots| ==> !slots[p].Empty?
    ensures |Occupied(slots)| == |slots|
  {
    if slots != [] {
      var n := |slots| - 1;
      FullTableCount(slots[..n]);
      assert Occupied(slots) == Occupied(slots[..n]) + {n};
    }
  }

  /** Fewer occupied slots than slots: one is empty. */
  lemma {:induction false} EmptySlotExists<V>(slots: seq<Slot<V>>) returns (e: nat)
    requires |Occupied(slots)| < |slots|
    ensures e < |slots| && slots[e].Empty?
  {
    if forall p :: 0 <= p < |slots| ==> !slots[p].Empty? {
      FullTableCount(slots);
    }
    e :| 0 <= e < |slots| && slots[e].Empty?;
  }

  /** An empty slot on the way ends the search: the key is not further along. */
  lemma {:induction false} AbsentPastEmpty<V>(
    slots: seq<Slot<V>>, at: map<string, nat>, hash: string -> nat, key: string, step: nat)
    requires Indexed(slots, at, hash) && step < |slots|
    requires slots[Along(hash(key) % |slots|, step, |slots|)].Empty?
    requires Passed(slots, hash(key) % |slots|, step, key)
    ensures key !in at
  {
  }

  /** Filling slot p, which holds no live key, with a new key whose probe sequence reaches it. */
  lemma {:induction false} FillSlot<V>(
    slots: seq<Slot<V>>, at: map<string, nat>, hash: string -> nat, p: nat, key: string, value: V)
    requires Indexed(slots, at, hash) && p < |slots| && !slots[p].Live? && key !in at
    requires Unbroken(slots, hash(key) % |slots|, StepsTo(hash(key) % |slots|, p, |slots|))
    ensures Indexed(slots[p := Live(key, value)], at[key := p], hash)
  {
    var slots', at' := slots[p := Live(key, value)], at[key := p];
    forall k | k in at'
      ensures Unbroken(slots', hash(k) % |slots|, StepsTo(hash(k) % |slots|, at'[k], |slots|))
    {
      if k != key { assert at'[k] == at[k]; }
    }
  }

  lemma {:induction false} OverwriteSlot<V>(
    slots: seq<Slot<V>>, at: map<string, nat>, hash: string -> nat, p: nat, value: V)
    requires Indexed(slots, at, hash) && p < |slots| && slots[p].Live?
    ensures Indexed(slots[p := Live(slots[p].key, value)], at, hash)
    ensures Occupied(slots[p := Live(slots[p].key, value)]) == Occupied(slots)
  {
  }

  /** A tombstone keeps every other probe sequence unbroken. */
  lemma {:induction false} KillSlot<V>(slots: seq<Slot<V>>, at: map<string, nat>, hash: string -> nat, p: nat)
    requires Indexed(slots, at, hash) && p < |slots| && slots[p].Live?
    ensures Indexed(slots[p := Dead(slots[p].key)], at - {slots[p].key}, hash)
    ensures Occupied(slots[p := Dead(slots[p].key)]) == Occupied(slots)
  {
  }

  lemma {:induction false} ImageCount(keys: set<string>, at: map<string, nat>)
    requires keys <= at.Keys
    requires forall j, k :: j in keys && k in keys && at[j] == at[k] ==> j == k
    ensures |set k | k in keys :: at[k]| == |keys|
  {
    if k :| k in keys {
      var rest := keys - {k};
      ImageCount(rest, at);
      assert (set j | j in keys :: at[j]) == (set j | j in rest :: at[j]) + {at[k]};
    }
  }

  /** `len` counts the live slots: `at` is a bijection between keys and live slots. */
  lemma {:induction false} LiveSlotsCount<V>(slots: seq<Slot<V>>, at: map<string, nat>, hash: string -> nat)
    requires Indexed(slots, at, hash)
    ensures |LiveSlots(slots)| == |at|
  {
    ImageCount(at.Keys, at);
    assert LiveSlots(slots) == set k | k in at.Keys :: at[k];
  }

  /** Past one more slot: the empty slot e is still ahead, and the tombstones before are the same. */
  lemma {:induction false} PassOne<V>(slots: seq<Slot<V>>, start: nat, step: nat, key: string, e: nat)
    requires start < |slots| && step < |slots| && e < |slots| && slots[e].Empty?
    requires Passed(slots, start, step, key) && step <= StepsTo(start, e, |slots|)
    requires var s := slots[Along(start, step, |slots|)]; !s.Empty? && !(s.Live? && s.key == key)
    ensures Passed(slots, start, step + 1, key) && step + 1 <= StepsTo(start, e, |slots|)
    ensures OnlyLive(slots, start, step) && slots[Along(start, step, |slots|)].Live? ==>
      OnlyLive(slots, start, step + 1)
    ensures StepsTo(start, Along(start, step, |slots|), |slots|) == step
  {
    assert Along(start, StepsTo(start, e, |slots|), |slots|) == e;
  }

  lemma {:induction false} NextAlong(start: nat, step: nat, i: nat, cap: nat)
    requires start < cap && 0 < step <= cap && i == Along(start, step - 1, cap)
    ensures step < cap ==> (i + 1) % cap == Along(start, step, cap)
  {
    if i + 1 == cap {
      DivModUnique(cap, cap, 1, 0);
    } else {
      DivModUnique(i + 1, cap, 0, i + 1);
    }
  }

  /** `probe`: the slot of the live match if there is one, else the first reusable slot on the
      probe sequence; -1 stands for the null result. */
  method Probe<V>(slots: array<Slot<V>>, hash: string -> nat, key: string, ghost at: map<string, nat>)
    returns (r: int)
    requires Indexed(slots[..], at, hash) && IsPowerOfTwo(slots.Length)
    requires |Occupied(slots[..])| < slots.Length
    ensures 0 <= r < slots.Length
    ensures slots[r].Live? <==> key in at
    ensures key in at ==> r == at[key]
    ensures Unbroken(slots[..], hash(key) % slots.Length, StepsTo(hash(key) % slots.Length, r, slots.Length))
    ensures key !in at ==>
      OnlyLive(slots[..], hash(key) % slots.Length, StepsTo(hash(key) % slots.Length, r, slots.Length))
  {
    var cap := slots.Length;
    ghost var table := slots[..];
    ghost var e := EmptySlotExists(table);
    MaskIsRemainder(hash(key), cap);
    ghost var start := hash(key) % cap;
    var i := BitAnd(hash(key), cap - 1);
    var firstTombstone := -1;
    var step := 0;
    while step < cap
      invariant 0 <= step <= cap
      invariant step < cap ==> i == Along(start, step, cap)
      invariant Passed(table, start, step, key)
      invariant step <= StepsTo(start, e, cap)
      invariant -1 <= firstTombstone < cap
      invariant firstTombstone >= 0 ==> slots[firstTombstone].Dead? && StepsTo(start, firstTombstone, cap) < step
      invariant OnlyLive(table, start, if firstTombstone >= 0 then StepsTo(start, firstTombstone, cap) else step)
    {
      match slots[i] {
        case Empty =>
          AbsentPastEmpty(table, at, hash, key, step);
          return if firstTombstone >= 0 then firstTombstone else i;
        case Dead(_) =>
          if firstTombstone < 0 {
            firstTombstone := i;
          }
        case Live(k, _) =>
          if k == key {
            return i;
          }
      }
      PassOne(table, start, step, key, e);
      step := step + 1;
      MaskIsRemainder(i + 1, cap);
      NextAlong(start, step, i, cap);
      i := BitAnd(i + 1, cap - 1);
    }
    assert false;  // the final `return first_tombstone` is never reached: an empty slot comes first
  }

  /** The table invariant: `len` counts the live slots, `used` the live slots and tombstones, and at
      most three quarters of the slots are used. */
  ghost predicate Accounted<V>(slots: seq<Slot<V>>, at: map<string, nat>, hash: string -> nat, len: nat, used: nat) {
    && Indexed(slots, at, hash)
    && IsPowerOfTwo(|slots|) && |slots| <= SIZE_MAX
    && len == |at|
    && used == |Occupied(slots)|
    && 4 * used <= 3 * |slots|
  }

  lemma {:induction false} CountNew<V>(slots: seq<Slot<V>>, at: map<string, nat>, p: nat, key: string, value: V)
    requires p < |slots| && key !in at
    ensures |at[key := p]| == |at| + 1
    ensures |Occupied(slots[p := Live(key, value)])| == |Occupied(slots)| + if slots[p].Empty? then 1 else 0
  {
    assert at[key := p].Keys == at.Keys + {key};
    assert Occupied(slots[p := Live(key, value)]) == Occupied(slots) + {p};
    if !slots[p].Empty? {
      assert Occupied(slots) + {p} == Occupied(slots);
    }
  }

  /** Storing a new key in the slot `probe` found; only a slot that was empty adds to `used`. */
  lemma {:induction false} StoreNew<V>(
    slots: seq<Slot<V>>, at: map<string, nat>, hash: string -> nat, len: nat, used: nat,
    p: nat, key: string, value: V)
    requires Accounted(slots, at, hash, len, used) && 4 * (used + 1) <= 3 * |slots|
    requires p < |slots| && !slots[p].Live? && key !in at
    requires Unbroken(slots, hash(key) % |slots|, StepsTo(hash(key) % |slots|, p, |slots|))
    ensures Accounted(slots[p := Live(key, value)], at[key := p], hash, len + 1,
      used + if slots[p].Empty? then 1 else 0)
  {
    FillSlot(slots, at, hash, p, key, value);
    CountNew(slots, at, p, key, value);
  }

  lemma {:induction false} StoreOver<V>(
    slots: seq<Slot<V>>, at: map<string, nat>, hash: string -> nat, len: nat, used: nat, p: nat, value: V)
    requires Accounted(slots, at, hash, len, used) && p < |slots| && slots[p].Live?
    ensures Accounted(slots[p := Live(slots[p].key, value)], at, hash, len, used)
  {
    OverwriteSlot(slots, at, hash, p, value);
  }

  lemma {:induction false} StoreDead<V>(
    slots: seq<Slot<V>>, at: map<string, nat>, hash: string -> nat, len: nat, used: nat, p: nat)
    requires Accounted(slots, at, hash, len, used) && p < |slots| && slots[p].Live?
    ensures len > 0 && Accounted(slots[p := Dead(slots[p].key)], at - {slots[p].key}, hash, len - 1, used)
  {
    KillSlot(slots, at, hash, p);
    assert (at - {slots[p].key}).Keys + {slots[p].key} == at.Keys;
  }

  /** The invariant of the table, and the plain map it stands for. */
  ghost predicate IsTable<V>(
    slots: seq<Slot<V>>, at: map<string, nat>, hash: string -> nat, len: nat, used: nat, m: map<string, V>)
  {
    Represents(slots, at, m) && Accounted(slots, at, hash, len, used)
  }

  lemma {:induction false} TableBeforeGrowth<V>(
    slots: seq<Slot<V>>, at: map<string, nat>, hash: string -> nat, len: nat, used: nat, m: map<string, V>)
    requires IsTable(slots, at, hash, len, used, m)
    ensures IsPowerOfTwo(|slots| * 2) && len == |m| && 4 * (used + 1) <= 3 * (|slots| * 2)
  {
    assert |slots| * 2 % 2 == 0 && |slots| * 2 / 2 == |slots|;
    EntryCount(slots, at, m);
    if |slots| == 1 {
      assert used == 0;
    }
  }

  lemma {:induction false} TableMoved<V>(
    slots: seq<Slot<V>>, at: map<string, nat>, hash: string -> nat, len: nat, used: nat, m: map<string, V>,
    table: seq<Slot<V>>, at': map<string, nat>)
    requires IsTable(slots, at, hash, len, used, m) && Accounted(table, at', hash, len, len) && at'.Keys == at.Keys
    requires forall k :: k in at ==> at[k] < |slots| && at'[k] < |table| && table[at'[k]] == slots[at[k]]
    ensures IsTable(table, at', hash, len, len, m)
  {
    RepresentsMoved(slots, at, table, at', m);
  }

  lemma {:induction false} TableDead<V>(
    slots: seq<Slot<V>>, at: map<string, nat>, hash: string -> nat, len: nat, used: nat, m: map<string, V>,
    p: nat, key: string)
    requires IsTable(slots, at, hash, len, used, m) && p < |slots| && slots[p].Live? && slots[p].key == key
    ensures len > 0 && IsTable(slots[p := Dead(key)], at - {key}, hash, len - 1, used, m - {key})
  {
    StoreDead(slots, at, hash, len, used, p);
    RepresentsDead(slots, at, m, p, key);
  }

  lemma {:induction false} TableOver<V>(
    slots: seq<Slot<V>>, at: map<string, nat>, hash: string -> nat, len: nat, used: nat, m: map<string, V>,
    p: nat, key: string, value: V)
    requires IsTable(slots, at, hash, len, used, m) && p < |slots| && slots[p].Live? && slots[p].key == key
    ensures IsTable(slots[p := Live(key, value)], at, hash, len, used, m[key := value])
  {
    StoreOver(slots, at, hash, len, used, p, value);
    RepresentsOver(slots, at, m, p, key, value);
  }

  lemma {:induction false} TableNew<V>(
    slots: seq<Slot<V>>, at: map<string, nat>, hash: string -> nat, len: nat, used: nat, m: map<string, V>,
    p: nat, key: string, value: V)
    requires IsTable(slots, at, hash, len, used, m) && 4 * (used + 1) <= 3 * |slots|
    requires p < |slots| && !slots[p].Live? && key !in at
    requires Unbroken(slots, hash(key) % |slots|, StepsTo(hash(key) % |slots|, p, |slots|))
    ensures IsTable(slots[p := Live(key, value)], at[key := p], hash, len + 1,
      used + if slots[p].Empty? then 1 else 0, m[key := value])
  {
    StoreNew(slots, at, hash, len, used, p, key, value);
    RepresentsNew(slots, at, m, p, key, value);
  }

  // ----- moving to a fresh table ---------------------------------------------------------------

  /** The live entries among the first i slots, and nothing else, are in the new table. */
  ghost predicate Moved<V>(
    slots: seq<Slot<V>>, at: map<string, nat>, table: seq<Slot<V>>, at': map<string, nat>, hash: string -> nat, i: nat)
  {
    && Indexed(slots, at, hash) && Indexed(table, at', hash)
    && (forall p :: 0 <= p < |table| ==> !table[p].Dead?)
    && (forall k :: k in at' <==> k in at && at[k] < i)
    && (forall k :: k in at' ==> table[at'[k]] == slots[at[k]])
  }

  lemma {:induction false} NoneMoved<V>(
    slots: seq<Slot<V>>, at: map<string, nat>, table: seq<Slot<V>>, hash: string -> nat)
    requires Indexed(slots, at, hash) && |table| > 0
    requires forall p :: 0 <= p < |table| ==> table[p].Empty?
    ensures Moved(slots, at, table, map[], hash, 0)
  {
  }

  lemma {:induction false} SkipOne<V>(
    slots: seq<Slot<V>>, at: map<string, nat>, table: seq<Slot<V>>, at': map<string, nat>, hash: string -> nat, i: nat)
    requires Moved(slots, at, table, at', hash, i) && i < |slots| && !slots[i].Live?
    ensures Moved(slots, at, table, at', hash, i + 1)
  {
  }

  lemma {:induction false} FewerLive<V>(slots: seq<Slot<V>>, at: map<string, nat>, hash: string -> nat)
    requires Indexed(slots, at, hash)
    ensures |at| <= |Occupied(slots)|
  {
    LiveSlotsCount(slots, at, hash);
    assert Occupied(slots) == LiveSlots(slots) + (Occupied(slots) - LiveSlots(slots));
  }

  lemma {:induction false} SubsetCount(a: set<string>, b: set<string>)
    requires a <= b
    ensures |a| <= |b|
  {
    assert b == a + (b - a);
  }

  lemma {:induction false} RoomToMove<V>(
    slots: seq<Slot<V>>, at: map<string, nat>, table: seq<Slot<V>>, at': map<string, nat>, hash: string -> nat, i: nat)
    requires Moved(slots, at, table, at', hash, i) && i < |slots| && slots[i].Live? && |at| < |table|
    ensures slots[i].key !in at' && |Occupied(table)| < |table|
  {
    assert Occupied(table) == LiveSlots(table);
    LiveSlotsCount(table, at', hash);
    SubsetCount(at'.Keys, at.Keys);
  }

  lemma {:induction false} MoveOne<V>(
    slots: seq<Slot<V>>, at: map<string, nat>, table: seq<Slot<V>>, at': map<string, nat>, hash: string -> nat,
    i: nat, dst: nat)
    requires Moved(slots, at, table, at', hash, i) && i < |slots| && slots[i].Live? && slots[i].key !in at'
    requires dst < |table| && !table[dst].Live?
    requires var start := hash(slots[i].key) % |table|; Unbroken(table, start, StepsTo(start, dst, |table|))
    ensures Moved(slots, at, table[dst := slots[i]], at'[slots[i].key := dst], hash, i + 1)
  {
    FillSlot(table, at', hash, dst, slots[i].key, slots[i].value);
  }

  lemma {:induction false} AllMoved<V>(
    slots: seq<Slot<V>>, at: map<string, nat>, table: seq<Slot<V>>, at': map<string, nat>, hash: string -> nat)
    requires Moved(slots, at, table, at', hash, |slots|)
    ensures |at'| == |at| == |Occupied(table)| && at'.Keys == at.Keys
    ensures forall k :: k in at ==> table[at'[k]] == slots[at[k]]
    ensures forall p :: 0 <= p < |table| ==> !table[p].Dead?
  {
    assert at'.Keys == at.Keys;
    assert Occupied(table) == LiveSlots(table);
    LiveSlotsCount(table, at', hash);
  }

  /** The loop of `rehash`. */
  method MoveAll<V>(slots: array<Slot<V>>, table: array<Slot<V>>, hash: string -> nat, ghost at: map<string, nat>,
                    ghost len: nat, ghost used: nat, ghost was: seq<Slot<V>>)
    returns (ghost at': map<string, nat>)
    requires slots != table && was == slots[..] && Accounted(was, at, hash, len, used)
    requires IsPowerOfTwo(table.Length) && slots.Length < table.Length <= SIZE_MAX
    requires forall p :: 0 <= p < table.Length ==> table[p].Empty?
    modifies table
    ensures Accounted(table[..], at', hash, len, len) && len <= used
    ensures at'.Keys == at.Keys
    ensures forall k :: k in at ==> at[k] < |was| && at'[k] < table.Length && table[..][at'[k]] == was[at[k]]
    ensures forall p :: 0 <= p < table.Length ==> !table[p].Dead?
  {
    at' := map[];
    FewerLive(was, at, hash);
    var i := 0;
    NoneMoved(was, at, table[..], hash);
    while i < slots.Length
      invariant 0 <= i <= slots.Length && was == slots[..]
      invariant Moved(was, at, table[..], at', hash, i)
    {
      if slots[i].Live? {
        ghost var before := table[..];
        RoomToMove(was, at, before, at', hash, i);
        var dst := Probe(table, hash, slots[i].key, at');
        MoveOne(was, at, before, at', hash, i, dst);
        at' := at'[slots[i].key := dst];
        table[dst] := slots[i];
        assert table[..] == before[dst := slots[i]];
      } else {
        SkipOne(was, at, table[..], at', hash, i);
      }
      i := i + 1;
    }
    AllMoved(was, at, table[..], at', hash);
  }

  // ----- iteration -----------------------------------------------------------------------------

  function EntryKeys<V>(entries: seq<(string, V)>): set<string> {
    set i | 0 <= i < |entries| :: entries[i].0
  }

  /** The entries so far: distinct keys, exactly those whose slot is below idx, with their values. */
  ghost predicate Yielded<V>(slots: seq<Slot<V>>, at: map<string, nat>, entries: seq<(string, V)>, idx: nat) {
    && (forall i :: 0 <= i < |entries| ==>
          && entries[i].0 in at && at[entries[i].0] < idx && at[entries[i].0] < |slots|
          && slots[at[entries[i].0]] == Live(entries[i].0, entries[i].1))
    && (forall i, j :: 0 <= i < j < |entries| ==> entries[i].0 != entries[j].0)
    && (forall k :: k in at && at[k] < idx ==> k in EntryKeys(entries))
  }

  lemma {:induction false} SkipDead<V>(
    slots: seq<Slot<V>>, at: map<string, nat>, hash: string -> nat, entries: seq<(string, V)>, idx: nat, idx': nat)
    requires Indexed(slots, at, hash) && Yielded(slots, at, entries, idx) && idx <= idx' <= |slots|
    requires forall p :: idx <= p < idx' ==> !slots[p].Live?
    ensures Yielded(slots, at, entries, idx')
  {
  }

  lemma {:induction false} KeysGrow<V>(entries: seq<(string, V)>, e: (string, V))
    ensures EntryKeys(entries + [e]) == EntryKeys(entries) + {e.0}
  {
    var entries' := entries + [e];
    forall k | k in EntryKeys(entries) + {e.0}
      ensures k in EntryKeys(entries')
    {
      if k == e.0 {
        assert entries'[|entries|].0 == k;
      } else {
        var i :| 0 <= i < |entries| && entries[i].0 == k;
        assert entries'[i].0 == k;
      }
    }
  }

  lemma {:induction false} YieldNext<V>(
    slots: seq<Slot<V>>, at: map<string, nat>, hash: string -> nat, entries: seq<(string, V)>, idx: nat, e: (string, V))
    requires Indexed(slots, at, hash) && Yielded(slots, at, entries, idx)
    requires idx < |slots| && slots[idx] == Live(e.0, e.1)
    ensures Yielded(slots, at, entries + [e], idx + 1)
  {
    KeysGrow(entries, e);
    assert at[e.0] == idx;
  }

  lemma {:induction false} DistinctCount<V>(entries: seq<(string, V)>)
    requires forall i, j :: 0 <= i < j < |entries| ==> entries[i].0 != entries[j].0
    ensures |EntryKeys(entries)| == |entries|
  {
    if entries != [] {
      var n := |entries| - 1;
      var rest := entries[..n];
      DistinctCount(rest);
      assert EntryKeys(entries) == EntryKeys(rest) + {entries[n].0};
    }
  }

  lemma {:induction false} YieldedAll<V>(
    slots: seq<Slot<V>>, at: map<string, nat>, hash: string -> nat, entries: seq<(string, V)>)
    requires Indexed(slots, at, hash) && Yielded(slots, at, entries, |slots|)
    ensures |entries| == |at|
    ensures forall i :: 0 <= i < |entries| ==>
      entries[i].0 in at && slots[at[entries[i].0]] == Live(entries[i].0, entries[i].1)
    ensures forall i, j :: 0 <= i < j < |entries| ==> entries[i].0 != entries[j].0
  {
    DistinctCount(entries);
    assert EntryKeys(entries) == at.Keys;
  }

  lemma {:induction false} RemoveAbsent<V>(m: map<string, V>, key: string)
    ensures key !in m ==> m - {key} == m
  {
  }

  class Map<V> {
    const hash: string -> nat
    var slots: array<Slot<V>>
    var len: nat
    var used: nat
    ghost var at: map<string, nat>      // the slot of each live key
    ghost var model: map<string, V>     // the plain map this table stands for

    ghost predicate Valid()
      reads this, slots
    {
      IsTable(slots[..], at, hash, len, used, model)
    }

    constructor (hash: string -> nat)
      ensures Valid() && fresh(slots) && model == map[] && slots.Length == INITIAL_CAP && used == 0
      ensures this.hash == hash
    {
      this.hash := hash;
      slots := new Slot<V>[INITIAL_CAP](_ => Empty);
      len, used, at, model := 0, 0, map[], map[];
      new;
      assert Occupied(slots[..]) == {};
      assert IsPowerOfTwo(16) by { assert IsPowerOfTwo(2); assert IsPowerOfTwo(4); assert IsPowerOfTwo(8); }
    }

    /** The fresh table takes the place of the old one. */
    method Install(table: array<Slot<V>>, ghost at': map<string, nat>, ghost t: seq<Slot<V>>)
      requires t == table[..] && IsTable(t, at', hash, len, len, model)
      modifies this`slots, this`used, this`at
      ensures Valid() && slots == table && used == len && model == old(model)
    {
      slots, used, at := table, len, at';
      assert slots[..] == t;
    }

    /** The move of `rehash` once the new table is allocated. */
    method MoveOut(newCap: nat)
      requires Valid() && IsPowerOfTwo(newCap) && newCap <= SIZE_MAX && slots.Length < newCap
      modifies this
      ensures Valid() && fresh(slots) && model == old(model) && len == old(len)
      ensures slots.Length == newCap && used == len <= old(used)
      ensures forall p :: 0 <= p < newCap ==> !slots[p].Dead?
    {
      var table := new Slot<V>[newCap](_ => Empty);
      ghost var was := slots[..];
      ghost var at' := MoveAll(slots, table, hash, at, len, used, was);
      ghost var t := table[..];
      TableMoved(was, at, hash, len, used, model, t, at');
      Install(table, at', t);
    }

    /** `rehash`: the live entries move to a fresh table, the tombstones disappear. */
    method Rehash(newCap: nat, allocOk: bool) returns (err: ErrorCode)
      requires Valid() && IsPowerOfTwo(newCap) && newCap <= SIZE_MAX && slots.Length < newCap
      modifies this
      ensures Valid() && (slots == old(slots) || fresh(slots))
      ensures model == old(model) && len == old(len)
      ensures err == if allocOk then Ok else NoMem
      ensures err == Ok ==> slots.Length == newCap && used == len <= old(used)
      ensures err == Ok ==> forall p :: 0 <= p < newCap ==> !slots[p].Dead?
      ensures err != Ok ==> slots == old(slots) && used == old(used)
    {
      if !allocOk {
        return NoMem;
      }
      MoveOut(newCap);
      err := Ok;
    }

    ghost function Size(): Extent
      reads this
    {
      Extent(used, slots.Length)
    }

    method Grow(tableAlloc: bool) returns (err: ErrorCode)
      requires Valid()
      modifies this
      ensures Valid() && (slots == old(slots) || fresh(slots)) && model == old(model)
      ensures err == if old(slots.Length) > SIZE_MAX / 2 then Overflow else if tableAlloc then Ok else NoMem
      ensures err == Ok ==> slots.Length == old(slots.Length) * 2 && used == |model| <= old(used)
      ensures err == Ok ==> 4 * (used + 1) <= 3 * slots.Length
      ensures err != Ok ==> Size() == old(Size())
    {
      if slots.Length > SIZE_MAX / 2 {
        return Overflow;
      }
      TableBeforeGrowth(slots[..], at, hash, len, used, model);
      err := Rehash(slots.Length * 2, tableAlloc);
    }

    /** The growth check of `hashmap_put`. */
    method MakeRoom(tableAlloc: bool) returns (err: ErrorCode)
      requires Valid()
      modifies this
      ensures Valid() && (slots == old(slots) || fresh(slots)) && model == old(model)
      ensures err == PutCode(true, old(Size()), tableAlloc, true)
      ensures SizeWithRoom(model, old(Size()), tableAlloc, Size())
      ensures err == Ok ==> 4 * (used + 1) <= 3 * slots.Length
    {
      var size := Extent(used, slots.Length);
      if Full(size) {
        return Overflow;
      }
      if NeedsGrowth(size) {
        err := Grow(tableAlloc);
      } else {
        LoadAfterCheck(size);
        err := Ok;
      }
    }

    /** A new key in the slot `probe` found, empty or a tombstone. */
    method Insert(p: nat, key: string, value: V)
      requires Valid() && 4 * (used + 1) <= 3 * slots.Length
      requires p < slots.Length && !slots[p].Live? && key !in at
      requires Unbroken(slots[..], hash(key) % slots.Length, StepsTo(hash(key) % slots.Length, p, slots.Length))
      modifies this, slots
      ensures Valid() && slots == old(slots)
      ensures model == old(model)[key := value]
      ensures used == old(used) + if old(slots[p]).Empty? then 1 else 0
    {
      ghost var before := slots[..];
      TableNew(before, at, hash, len, used, model, p, key, value);
      if slots[p].Empty? {
        used := used + 1;
      }
      len, at, model := len + 1, at[key := p], model[key := value];
      slots[p] := Live(key, value);
      assert slots[..] == before[p := Live(key, value)];
    }

    method Overwrite(p: nat, value: V)
      requires Valid() && p < slots.Length && slots[p].Live?
      modifies this, slots
      ensures Valid() && slots == old(slots) && used == old(used)
      ensures model == old(model)[old(slots[p].key) := value]
    {
      ghost var before := slots[..];
      TableOver(before, at, hash, len, used, model, p, slots[p].key, value);
      model := model[slots[p].key := value];
      slots[p] := Live(slots[p].key, value);
      assert slots[..] == before[p := slots[p]];
    }

    /** `hashmap_put` after the growth check. */
    method Store(key: string, value: V, keyAlloc: bool) returns (err: ErrorCode)
      requires Valid() && 4 * (used + 1) <= 3 * slots.Length
      modifies this, slots
      ensures Valid() && slots == old(slots)
      ensures err == if key in old(model) || keyAlloc then Ok else NoMem
      ensures err == Ok ==> model == old(model)[key := value]
      ensures err != Ok ==> model == old(model)
      ensures old(used) <= used <= old(used) + One(err == Ok && key !in old(model))
    {
      var p := Probe(slots, hash, key, at);
      if slots[p].Live? {
        Overwrite(p, value);
        return Ok;
      }
      if !keyAlloc {
        return NoMem;
      }
      Insert(p, key, value);
      err := Ok;
    }

    /** `hashmap_put`: on success the plain map gets the entry, on any error it is unchanged. */
    method Put(key: string, value: V, tableAlloc: bool, keyAlloc: bool) returns (err: ErrorCode)
      requires Valid()
      modifies this, slots
      ensures Valid() && (slots == old(slots) || fresh(slots))
      ensures err == PutCode(key in old(model), old(Size()), tableAlloc, keyAlloc)
      ensures err == Ok ==> model == old(model)[key := value]
      ensures err != Ok ==> model == old(model)
      ensures SizeAfterPut(old(model), old(Size()), key, tableAlloc, err, Size())
      ensures used <= old(used) + 1
    {
      ghost var m, size := model, Size();
      err := MakeRoom(tableAlloc);
      ghost var roomy := Size();
      if err != Ok {
        PutWithoutRoom(m, size, roomy, key, tableAlloc, keyAlloc, err);
        return;
      }
      err := Store(key, value, keyAlloc);
      PutInTwoSteps(m, size, roomy, Size(), key, tableAlloc, keyAlloc, err);
    }

    /** `find_live`; -1 stands for the null result. */
    method FindLive(key: string) returns (p: int)
      requires Valid()
      ensures p >= 0 <==> key in model
      ensures p >= 0 ==> p < slots.Length && slots[p] == Live(key, model[key])
    {
      p := Probe(slots, hash, key, at);
      assert key in at ==> HasEntry(slots[..], at, model, key);
      if !slots[p].Live? {
        p := -1;
      }
    }

    method Get(key: string) returns (r: Option<V>)
      requires Valid()
      ensures r == if key in model then Some(model[key]) else None
    {
      var p := FindLive(key);
      r := if p >= 0 then Some(slots[p].value) else None;
    }

    method Contains(key: string) returns (r: bool)
      requires Valid()
      ensures r <==> key in model
    {
      var p := FindLive(key);
      r := p >= 0;
    }

    /** A live slot becomes a tombstone; `used` keeps counting it. */
    method Bury(p: nat)
      requires Valid() && p < slots.Length && slots[p].Live?
      modifies this, slots
      ensures Valid() && slots == old(slots) && used == old(used)
      ensures model == old(model) - {old(slots[p].key)}
    {
      var key := slots[p].key;
      ghost var before := slots[..];
      TableDead(before, at, hash, len, used, model, p, key);
      len, at, model := len - 1, at - {key}, model - {key};
      slots[p] := Dead(key);
      assert slots[..] == before[p := Dead(key)];
    }

    method Remove(key: string) returns (err: ErrorCode)
      requires Valid()
      modifies this, slots
      ensures Valid() && slots == old(slots) && used == old(used)
      ensures err == if key in old(model) then Ok else NotFound
      ensures model == old(model) - {key}
      ensures err != Ok ==> model == old(model)
    {
      RemoveAbsent(model, key);
      var p := FindLive(key);
      if p < 0 {
        return NotFound;
      }
      Bury(p);
      err := Ok;
    }

    /** `hashmap_next`: the next live slot from `idx` on. */
    method Next(idx: nat) returns (entry: Option<(string, V)>, idx': nat)
      requires Valid() && idx <= slots.Length
      ensures idx <= idx' <= slots.Length
      ensures match entry
              case None => idx' == slots.Length && forall p :: idx <= p < idx' ==> !slots[p].Live?
              case Some((k, v)) =>
                && idx < idx' && slots[idx' - 1] == Live(k, v)
                && forall p :: idx <= p < idx' - 1 ==> !slots[p].Live?
    {
      idx' := idx;
      while idx' < slots.Length
        invariant idx <= idx' <= slots.Length
        invariant forall p :: idx <= p < idx' ==> !slots[p].Live?
      {
        idx' := idx' + 1;
        var s := slots[idx' - 1];
        if s.Live? {
          return Some((s.key, s.value)), idx';
        }
      }
      entry := None;
    }

    /** One turn of a client's loop over `hashmap_next`. */
    method Advance(entries: seq<(string, V)>, idx: nat) returns (entries': seq<(string, V)>, idx': nat, more: bool)
      requires Valid() && idx <= slots.Length && Yielded(slots[..], at, entries, idx)
      ensures idx <= idx' <= slots.Length && Yielded(slots[..], at, entries', idx')
      ensures if more then idx < idx' else idx' == slots.Length
    {
      var entry;
      entry, idx' := Next(idx);
      ghost var table := slots[..];
      match entry {
        case None =>
          SkipDead(table, at, hash, entries, idx, idx');
          entries', more := entries, false;
        case Some(e) =>
          SkipDead(table, at, hash, entries, idx, idx' - 1);
          YieldNext(table, at, hash, entries, idx' - 1, e);
          entries', more := entries + [e], true;
      }
    }

    /** Iterating until `hashmap_next` returns false yields every entry exactly once. */
    method Entries() returns (entries: seq<(string, V)>)
      requires Valid()
      ensures |entries| == len
      ensures forall i :: 0 <= i < |entries| ==>
        entries[i].0 in model && entries[i].1 == model[entries[i].0]
      ensures forall i, j :: 0 <= i < j < |entries| ==> entries[i].0 != entries[j].0
    {
      entries := [];
      var idx, more := 0, true;
      while more
        invariant 0 <= idx <= slots.Length
        invariant !more ==> idx == slots.Length
        invariant Yielded(slots[..], at, entries, idx)
        decreases more, slots.Length - idx
      {
        entries, idx, more := Advance(entries, idx);
      }
      YieldedAll(slots[..], at, hash, entries);
      assert forall i :: 0 <= i < |entries| ==> HasEntry(slots[..], at, model, entries[i].0);
    }
  }

  // ----- whole runs ----------------------------------------------------------------------------

  datatype Op<V> =
    | OpPut(key: string, value: V, tableAlloc: bool, keyAlloc: bool)
    | OpRemove(key: string)
    | OpGet(key: string)
    | OpContains(key: string)

  datatype Answer<V> = Code(err: ErrorCode) | Value(found: Option<V>) | Flag(present: bool)

  /** A plain map, with the two numbers that decide which puts are refused. */
  datatype Plain<V> = Plain(entries: map<string, V>, size: Extent)

  function PlainAnswer<V>(p: Plain<V>, op: Op<V>): Answer<V> {
    var m := p.entries;
    match op
    case OpPut(k, _, tableAlloc, keyAlloc) => Code(PutCode(k in m, p.size, tableAlloc, keyAlloc))
    case OpRemove(k) => Code(if k in m then Ok else NotFound)
    case OpGet(k) => Value(if k in m then Some(m[k]) else None)
    case OpContains(k) => Flag(k in m)
  }

  /** The plain map after a call: a refused put changes nothing. */
  function PlainEntries<V>(p: Plain<V>, op: Op<V>): map<string, V> {
    match op
    case OpPut(k, v, _, _) => if PlainAnswer(p, op) == Code(Ok) then p.entries[k := v] else p.entries
    case OpRemove(k) => p.entries - {k}
    case _ => p.entries
  }

  /** One call: its answer and entries are the plain map's, and only a put moves the size. */
  ghost predicate FollowsAt<V>(op: Op<V>, a: Answer<V>, before: Plain<V>, after: Plain<V>) {
    && a == PlainAnswer(before, op) && after.entries == PlainEntries(before, op)
    && if op.OpPut? then SizeAfterPut(before.entries, before.size, op.key, op.tableAlloc, a.err, after.size)
       else after.size == before.size
  }

  /** The size is in proportion to the calls so far. */
  ghost predicate Proportionate(calls: nat, size: Extent) {
    size.used <= calls && InProportion(calls, size.cap)
  }

  predicate OverflowsLate<V(==)>(answers: seq<Answer<V>>) {
    forall i :: 0 <= i < |answers| && answers[i] == Code(Overflow) ==> Astronomical(i)
  }

  lemma {:induction false} ProportionKept<V>(
    op: Op<V>, answers: seq<Answer<V>>, a: Answer<V>, before: Plain<V>, after: Plain<V>)
    requires Proportionate(|answers|, before.size) && OverflowsLate(answers)
    requires FollowsAt(op, a, before, after) && after.size.used <= before.size.used + 1
    ensures Proportionate(|answers| + 1, after.size) && OverflowsLate(answers + [a])
  {
    GrowthInProportion(|answers|, before.size);
  }

  /** The answers so far, and the plain map before each call and after the last. */
  ghost predicate Follows<V>(ops: seq<Op<V>>, answers: seq<Answer<V>>, plains: seq<Plain<V>>) {
    && |answers| <= |ops| && |plains| == |answers| + 1
    && plains[0] == Plain(map[], Extent(0, INITIAL_CAP))
    && forall i :: 0 <= i < |answers| ==> FollowsAt(ops[i], answers[i], plains[i], plains[i + 1])
  }

  lemma {:induction false} FollowsOn<V>(
    ops: seq<Op<V>>, answers: seq<Answer<V>>, plains: seq<Plain<V>>, a: Answer<V>, after: Plain<V>)
    requires Follows(ops, answers, plains) && |answers| < |ops|
    requires FollowsAt(ops[|answers|], a, plains[|answers|], after)
    ensures Follows(ops, answers + [a], plains + [after])
  {
    var answers', plains' := answers + [a], plains + [after];
    forall i | 0 <= i < |answers'|
      ensures FollowsAt(ops[i], answers'[i], plains'[i], plains'[i + 1])
    {
      if i < |answers| {
        assert FollowsAt(ops[i], answers[i], plains[i], plains[i + 1]);
      }
    }
  }

  /** One call on the table is the call on the plain map. */
  method Do<V>(m: Map<V>, op: Op<V>) returns (a: Answer<V>)
    requires m.Valid()
    modifies m, m.slots
    ensures m.Valid() && (m.slots == old(m.slots) || fresh(m.slots))
    ensures FollowsAt(op, a, Plain(old(m.model), old(m.Size())), Plain(m.model, m.Size()))
    ensures m.used <= old(m.used) + 1
  {
    match op
    case OpPut(k, v, tableAlloc, keyAlloc) =>
      var err := m.Put(k, v, tableAlloc, keyAlloc);
      a := Code(err);
    case OpRemove(k) =>
      var err := m.Remove(k);
      a := Code(err);
    case OpGet(k) =>
      var r := m.Get(k);
      a := Value(r);
    case OpContains(k) =>
      var r := m.Contains(k);
      a := Flag(r);
  }

  /** Any run from an empty map, with any hash function, any growth, any reuse of tombstones and any
      failed allocation, answers exactly as a plain map does; a put overflows only after an
      astronomical number of calls. */
  method Replay<V>(hash: string -> nat, ops: seq<Op<V>>) returns (answers: seq<Answer<V>>, ghost plains: seq<Plain<V>>)
    ensures |answers| == |ops| && Follows(ops, answers, plains)
    ensures plains[0] == Plain(map[], Extent(0, 16))
    ensures OverflowsLate(answers)
  {
    var m := new Map<V>(hash);
    answers, plains := [], [Plain(map[], Extent(0, INITIAL_CAP))];
    for n := 0 to |ops|
      invariant m.Valid() && fresh(m) && fresh(m.slots)
      invariant |answers| == n && Follows(ops, answers, plains)
      invariant plains[n] == Plain(m.model, m.Size())
      invariant Proportionate(n, plains[n].size) && OverflowsLate(answers)
    {
      var a := Do(m, ops[n]);
      ghost var after := Plain(m.model, m.Size());
      ProportionKept(ops[n], answers, a, plains[n], after);
      FollowsOn(ops, answers, plains, a, after);
      answers, plains := answers + [a], plains + [after];
    }
  }
}
