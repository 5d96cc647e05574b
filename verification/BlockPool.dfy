/** The fixed-size block pool of src/memory/pool.c, byte by byte: the free list is threaded through
    the first eight bytes of the free blocks themselves, and clients may write any byte of any block
    they hold. */
module BlockPool {
  import opened Arith

  newtype Byte = b: int | 0 <= b < 256

  datatype ErrorCode = Ok | NoMem | InvalidArg | Overflow

  const SIZE_MAX: nat := 0xFFFF_FFFF_FFFF_FFFF
  const PTR_SIZE: nat := 8

  /** Addresses are numbers; 0 is the null pointer. */
  type Address = nat

  // ----- pointers in memory --------------------------------------------------------------------

  function Power256(n: nat): nat {
    if n == 0 then 1 else 256 * Power256(n - 1)
  }

  /** The bytes of a pointer, least significant first. */
  function Encode(v: nat, n: nat): (bytes: seq<Byte>)
    ensures |bytes| == n
  {
    if n == 0 then [] else [(v % 256) as Byte] + Encode(v / 256, n - 1)
  }

  function Decode(bytes: seq<Byte>): nat {
    if bytes == [] then 0 else bytes[0] as nat + 256 * Decode(bytes[1..])
  }

  lemma {:induction false} DecodeEncode(v: nat, n: nat)
    requires v < Power256(n)
    ensures Decode(Encode(v, n)) == v
  {
    if n > 0 {
      assert Encode(v, n)[1..] == Encode(v / 256, n - 1);
      DecodeEncode(v / 256, n - 1);
    }
  }

  lemma {:induction false} PointerFits(v: nat)
    requires v <= SIZE_MAX
    ensures v < Power256(PTR_SIZE)
  {
    assert Power256(4) == 0x1_0000_0000;
    assert Power256(8) == 256 * (256 * (256 * (256 * Power256(4))));
  }

  // ----- blocks --------------------------------------------------------------------------------

  /** The offsets at which the blocks of a buffer begin. */
  predicate IsBlock(o: nat, size: nat, span: nat)
    requires size > 0
  {
    o < span && o % size == 0
  }

  lemma {:induction false} BlockInside(o: nat, size: nat, count: nat)
    requires size > 0 && IsBlock(o, size, size * count)
    ensures o + size <= size * count
  {
    var i := o / size;
    assert o == size * i;
    if i >= count {
      MulStep(size, count - 1, i);
    }
    MulStep(size, i, count);
  }

  /** Two different blocks do not overlap. */
  lemma {:induction false} BlocksApart(o: nat, p: nat, size: nat)
    requires size > 0 && o % size == 0 && p % size == 0 && o < p
    ensures o + size <= p
  {
    var i, j := o / size, p / size;
    assert o == size * i && p == size * j;
    if j < i {
      MulStep(size, j, i);
    } else if i < j {
      MulStep(size, i, j);
    }
  }

  /** The offsets of n blocks, starting at offset o. */
  function BlockSet(o: nat, n: nat, size: nat): set<nat>
    decreases n
  {
    if n == 0 then {} else {o} + BlockSet(o + size, n - 1, size)
  }

  function AllBlocks(size: nat, count: nat): set<nat> {
    BlockSet(0, count, size)
  }

  /** The offset of block i, by repeated addition. */
  function Offset(size: nat, i: nat): nat {
    if i == 0 then 0 else Offset(size, i - 1) + size
  }

  lemma {:induction false} OffsetIsProduct(size: nat, i: nat)
    ensures Offset(size, i) == size * i
  {
    if i > 0 {
      OffsetIsProduct(size, i - 1);
      assert size * i == size * (i - 1) + size;
    }
  }

  method BlockOffset(size: nat, i: nat) returns (o: nat)
    ensures o == Offset(size, i)
  {
    OffsetIsProduct(size, i);
    o := i * size;
  }

  /** Increasing numbers, none below `from`. */
  ghost predicate Increasing(s: seq<nat>, from: nat) {
    && (forall k :: 0 <= k < |s| ==> from <= s[k])
    && (forall j, k :: 0 <= j < k < |s| ==> s[j] < s[k])
  }

  lemma {:induction false} BlockSetMembers(o: nat, n: nat, size: nat, p: nat)
    requires size > 0 && o % size == 0
    ensures p in BlockSet(o, n, size) <==> o <= p < o + size * n && p % size == 0
    decreases n
  {
    if n > 0 {
      assert size * n == size + size * (n - 1);
      DivModUnique(o + size, size, o / size + 1, 0);
      BlockSetMembers(o + size, n - 1, size, p);
      if p % size == 0 && o < p {
        BlocksApart(o, p, size);
      }
    }
  }

  /** The blocks are the aligned offsets inside the buffer. */
  lemma {:induction false} BlockMembers(o: nat, size: nat, count: nat)
    requires size > 0
    ensures o in AllBlocks(size, count) <==> IsBlock(o, size, size * count)
  {
    DivModUnique(0, size, 0, 0);
    BlockSetMembers(0, count, size, o);
  }

  lemma {:induction false} BlockSetCount(o: nat, n: nat, size: nat)
    requires size > 0
    ensures |BlockSet(o, n, size)| == n && forall p :: p in BlockSet(o, n, size) ==> o <= p
    decreases n
  {
    if n > 0 {
      BlockSetCount(o + size, n - 1, size);
    }
  }

  /** There are as many blocks as were asked for. */
  lemma {:induction false} BlockCount(size: nat, count: nat)
    requires size > 0
    ensures |AllBlocks(size, count)| == count
  {
    BlockSetCount(0, count, size);
  }

  /** The range and alignment checks of `pool_free` recognise exactly the addresses of blocks. */
  method IsOwn(base: Address, span: nat, size: nat, count: nat, ptr: Address) returns (own: bool)
    requires size > 0 && base > 0 && span == Offset(size, count)
    ensures own <==> base <= ptr && ptr - base in AllBlocks(size, count)
  {
    OffsetIsProduct(size, count);
    if ptr == 0 || ptr < base {
      return false;
    }
    BlockMembers(ptr - base, size, count);
    if ptr >= base + span {
      return false;
    }
    if (ptr - base) % size != 0 {
      return false;
    }
    own := true;
  }

  // ----- the free list -------------------------------------------------------------------------

  /** The address of the k-th free block, null behind the last one. */
  function Link(base: Address, free: seq<nat>, k: nat): Address {
    if k < |free| then base + free[k] else 0
  }

  function LoadPtr(mem: seq<Byte>, o: nat): Address
    requires o + PTR_SIZE <= |mem|
  {
    Decode(mem[o..o + PTR_SIZE])
  }

  ghost predicate LinkAt(mem: seq<Byte>, base: Address, free: seq<nat>, k: nat) {
    k < |free| && free[k] + PTR_SIZE <= |mem| && LoadPtr(mem, free[k]) == Link(base, free, k + 1)
  }

  /** Every free block holds the address of the next one. */
  ghost predicate Threaded(mem: seq<Byte>, base: Address, free: seq<nat>) {
    forall k: nat {:trigger LinkAt(mem, base, free, k)} :: k < |free| ==> LinkAt(mem, base, free, k)
  }

  /** Changing bytes of one block leaves a list of other blocks alone. */
  lemma {:induction false} ThreadedFrame(
    mem: seq<Byte>, mem': seq<Byte>, base: Address, free: seq<nat>, o: nat, size: nat)
    requires |mem'| == |mem| && Threaded(mem, base, free) && size >= PTR_SIZE
    requires forall k :: 0 <= k < |free| ==> free[k] + size <= o || o + size <= free[k]
    requires forall b :: 0 <= b < |mem| && !(o <= b < o + size) ==> mem'[b] == mem[b]
    ensures Threaded(mem', base, free)
  {
    forall k: nat | k < |free|
      ensures LinkAt(mem', base, free, k)
    {
      assert LinkAt(mem, base, free, k);
      assert mem'[free[k]..free[k] + PTR_SIZE] == mem[free[k]..free[k] + PTR_SIZE];
    }
  }

  /** Taking the first block off the list. */
  lemma {:induction false} ThreadedRest(mem: seq<Byte>, base: Address, free: seq<nat>)
    requires free != [] && Threaded(mem, base, free)
    ensures Threaded(mem, base, free[1..])
    ensures free[0] + PTR_SIZE <= |mem| && LoadPtr(mem, free[0]) == Link(base, free[1..], 0)
  {
    var rest := free[1..];
    assert LinkAt(mem, base, free, 0);
    forall k: nat | k < |rest|
      ensures LinkAt(mem, base, rest, k)
    {
      assert LinkAt(mem, base, free, k + 1) && rest[k] == free[k + 1];
    }
  }

  /** Putting a block in front of the list, once its first bytes hold the old head. */
  lemma {:induction false} ThreadedCons(mem: seq<Byte>, base: Address, free: seq<nat>, o: nat)
    requires Threaded(mem, base, free) && o + PTR_SIZE <= |mem| && LoadPtr(mem, o) == Link(base, free, 0)
    ensures Threaded(mem, base, [o] + free)
  {
    var all := [o] + free;
    forall k: nat | k < |all|
      ensures LinkAt(mem, base, all, k)
    {
      if k > 0 {
        assert LinkAt(mem, base, free, k - 1) && all[k] == free[k - 1];
      }
    }
  }

  /** The free list and the held blocks partition the pool. */
  ghost predicate Partition(free: seq<nat>, held: set<nat>, blocks: set<nat>) {
    && (forall j, k :: 0 <= j < k < |free| ==> free[j] != free[k])
    && (forall k :: 0 <= k < |free| ==> free[k] in blocks)
    && (forall o :: o in held <==> o in blocks && o !in free)
  }

  lemma {:induction false} Exhausted(free: seq<nat>, held: set<nat>, blocks: set<nat>)
    requires Partition(free, held, blocks)
    ensures free == [] <==> held == blocks
  {
    if free != [] {
      assert free[0] in free;
    }
  }

  /** A held block overlaps no free block. */
  lemma {:induction false} HeldApart(free: seq<nat>, held: set<nat>, blocks: set<nat>, size: nat, count: nat, o: nat)
    requires size > 0 && blocks == AllBlocks(size, count) && Partition(free, held, blocks) && o in held
    ensures forall k :: 0 <= k < |free| ==> free[k] + size <= o || o + size <= free[k]
    ensures o + size <= Offset(size, count)
  {
    OffsetIsProduct(size, count);
    BlockMembers(o, size, count);
    BlockInside(o, size, count);
    forall k | 0 <= k < |free|
      ensures free[k] + size <= o || o + size <= free[k]
    {
      assert free[k] in free && free[k] != o;
      BlockMembers(free[k], size, count);
      if free[k] < o {
        BlocksApart(free[k], o, size);
      } else {
        BlocksApart(o, free[k], size);
      }
    }
  }

  lemma {:induction false} PartitionTake(free: seq<nat>, held: set<nat>, blocks: set<nat>)
    requires Partition(free, held, blocks) && free != []
    ensures Partition(free[1..], held + {free[0]}, blocks) && free[0] !in held
  {
    assert free[0] in free;
    assert forall o :: o in free <==> o == free[0] || o in free[1..];
    assert free[0] !in free[1..];
  }

  lemma {:induction false} PartitionGive(free: seq<nat>, held: set<nat>, blocks: set<nat>, o: nat)
    requires Partition(free, held, blocks) && o in held
    ensures Partition([o] + free, held - {o}, blocks)
  {
    assert forall p :: p in [o] + free <==> p == o || p in free;
  }

  /** The list holds every block from offset o up, once. */
  ghost predicate CoversFrom(free: seq<nat>, blocks: set<nat>, o: nat) {
    && Increasing(free, o)
    && (forall k :: 0 <= k < |free| ==> free[k] in blocks)
    && (forall p :: p in blocks && o <= p ==> p in free)
  }

  lemma {:induction false} CoverNone(blocks: set<nat>, size: nat, count: nat)
    requires size > 0 && blocks == AllBlocks(size, count)
    ensures CoversFrom([], blocks, Offset(size, count))
  {
    OffsetIsProduct(size, count);
    forall p | p in blocks
      ensures p < Offset(size, count)
    {
      BlockMembers(p, size, count);
    }
  }

  lemma {:induction false} OffsetIsBlock(size: nat, count: nat, i: nat)
    requires size > 0 && i < count
    ensures Offset(size, i) in AllBlocks(size, count) && Offset(size, i) + size <= Offset(size, count)
    ensures Offset(size, i) % size == 0
  {
    OffsetIsProduct(size, i);
    OffsetIsProduct(size, count);
    MulStep(size, i, count);
    DivModUnique(size * i, size, i, 0);
    BlockMembers(size * i, size, count);
  }

  lemma {:induction false} CoverMore(free: seq<nat>, blocks: set<nat>, size: nat, count: nat, i: nat)
    requires size > 0 && blocks == AllBlocks(size, count) && i < count
    requires CoversFrom(free, blocks, Offset(size, i + 1))
    ensures CoversFrom([Offset(size, i)] + free, blocks, Offset(size, i))
    ensures Offset(size, i) + size <= Offset(size, count)
    ensures forall k :: 0 <= k < |free| ==> Offset(size, i) + size <= free[k]
  {
    var o := Offset(size, i);
    OffsetIsBlock(size, count, i);
    forall p | p in blocks && o <= p
      ensures p in [o] + free
    {
      BlockMembers(p, size, count);
      if p != o {
        BlocksApart(o, p, size);
      }
    }
  }

  lemma {:induction false} CoverAll(free: seq<nat>, blocks: set<nat>)
    requires CoversFrom(free, blocks, 0)
    ensures Partition(free, {}, blocks)
  {
  }

  class Pool {
    const base: Address
    const buf: array<Byte>
    const blockSize: nat
    const blockCount: nat
    var freeList: Address
    ghost const blocks: set<nat>  // offsets of all blocks
    ghost var free: seq<nat>      // offsets of the free blocks, in list order
    ghost var held: set<nat>      // offsets of the blocks handed out

    ghost predicate Dimensioned() {
      buf.Length == Offset(blockSize, blockCount) && blocks == AllBlocks(blockSize, blockCount)
    }

    /** The list in memory is the list of free blocks. */
    ghost predicate Linked()
      reads this, buf
    {
      && base > 0 && blockSize >= PTR_SIZE && base + buf.Length <= SIZE_MAX
      && Threaded(buf[..], base, free) && freeList == Link(base, free, 0)
    }

    ghost predicate Valid()
      reads this, buf
    {
      && Linked() && Dimensioned()
      && Partition(free, held, blocks)
    }

    /** The pool before its blocks are threaded. */
    constructor (base: Address, size: nat, count: nat)
      requires base > 0 && size >= PTR_SIZE && base + Offset(size, count) <= SIZE_MAX
      ensures Linked() && Dimensioned() && fresh(buf) && held == {} && free == []
      ensures this.base == base && blockSize == size && blockCount == count
    {
      this.base, blockSize, blockCount := base, size, count;
      var span := BlockOffset(size, count);
      buf := new Byte[span];
      blocks := AllBlocks(size, count);
      freeList, free, held := 0, [], {};
    }

    /** Storing a pointer into the buffer. */
    method StorePtr(o: nat, v: Address)
      requires o + PTR_SIZE <= buf.Length && v <= SIZE_MAX
      modifies buf
      ensures LoadPtr(buf[..], o) == v
      ensures forall b :: 0 <= b < buf.Length && !(o <= b < o + PTR_SIZE) ==> buf[b] == old(buf[b])
    {
      var bytes := Encode(v, PTR_SIZE);
      for k := 0 to PTR_SIZE
        invariant buf[o..o + k] == bytes[..k]
        invariant forall b :: 0 <= b < buf.Length && !(o <= b < o + k) ==> buf[b] == old(buf[b])
      {
        buf[o + k] := bytes[k];
      }
      PointerFits(v);
      DecodeEncode(v, PTR_SIZE);
      assert buf[..][o..o + PTR_SIZE] == bytes;
    }

    /** Store the head in a block and make the block the head. */
    method PushFront(o: nat)
      requires Linked() && o + blockSize <= buf.Length
      requires forall k :: 0 <= k < |free| ==> free[k] + blockSize <= o || o + blockSize <= free[k]
      modifies this`freeList, this`free, buf
      ensures Linked() && free == [o] + old(free)
      ensures forall b :: 0 <= b < buf.Length && !(o <= b < o + PTR_SIZE) ==> buf[b] == old(buf[b])
    {
      ghost var before := buf[..];
      assert free != [] ==> LinkAt(before, base, free, 0);
      StorePtr(o, freeList);
      ThreadedFrame(before, buf[..], base, free, o, blockSize);
      ThreadedCons(buf[..], base, free, o);
      freeList := base + o;
      free := [o] + free;
    }

    /** The loop of `pool_init`: thread the blocks, last one first. */
    method ThreadAll()
      requires Linked() && Dimensioned() && free == [] && held == {}
      modifies this`freeList, this`free, buf
      ensures Valid() && Increasing(free, 0)
    {
      var i: nat := blockCount;
      CoverNone(blocks, blockSize, blockCount);
      while i > 0
        invariant i <= blockCount && Linked() && CoversFrom(free, blocks, Offset(blockSize, i))
      {
        i := i - 1;
        CoverMore(free, blocks, blockSize, blockCount, i);
        var o := BlockOffset(blockSize, i);
        PushFront(o);
      }
      CoverAll(free, blocks);
    }

    /** `pool_alloc` once the list is known not to be empty. */
    method TakeHead() returns (block: Address)
      requires Valid() && free != []
      modifies this`freeList, this`free, this`held
      ensures Valid()
      ensures block == base + old(free[0]) && block - base in blocks - old(held)
      ensures held == old(held) + {block - base} && old(free) == [block - base] + free
    {
      ThreadedRest(buf[..], base, free);
      PartitionTake(free, held, blocks);
      ghost var o := free[0];
      assert free == [o] + free[1..] && o in blocks;
      block := freeList;
      freeList := LoadPtr(buf[..], block - base);
      free, held := free[1..], held + {o};
    }

    /** `pool_alloc`: a block nobody holds, or null exactly when every block is held. */
    method Alloc() returns (block: Address)
      requires Valid()
      modifies this`freeList, this`free, this`held
      ensures Valid()
      ensures block == 0 <==> old(held) == blocks
      ensures block == 0 ==> held == old(held) && free == old(free)
      ensures block != 0 ==>
        && base <= block && block - base in blocks - old(held)
        && held == old(held) + {block - base} && old(free) == [block - base] + free
    {
      Exhausted(free, held, blocks);
      if freeList == 0 {
        return 0;
      }
      block := TakeHead();
    }

    /** `pool_free` after its checks. */
    method GiveBack(o: nat)
      requires Valid() && o in held
      modifies this`freeList, this`free, this`held, buf
      ensures Valid() && held == old(held) - {o} && free == [o] + old(free)
      ensures forall b :: 0 <= b < buf.Length && !(o <= b < o + PTR_SIZE) ==> buf[b] == old(buf[b])
    {
      HeldApart(free, held, blocks, blockSize, blockCount, o);
      PartitionGive(free, held, blocks, o);
      PushFront(o);
      held := held - {o};
    }

    /** `pool_free`: foreign and misaligned pointers are ignored; a held block goes to the front of
        the list, and only its first eight bytes change. */
    method Free(ptr: Address)
      requires Valid()
      requires base <= ptr && ptr - base in blocks ==> ptr - base in held
      modifies this`freeList, this`free, this`held, buf
      ensures Valid()
      ensures base <= ptr && ptr - base in blocks ==>
        held == old(held) - {ptr - base} && free == [ptr - base] + old(free)
      ensures !(base <= ptr && ptr - base in blocks) ==>
        held == old(held) && free == old(free) && freeList == old(freeList) && buf[..] == old(buf[..])
      ensures forall b :: 0 <= b < buf.Length && !(ptr - base <= b < ptr - base + PTR_SIZE) ==> buf[b] == old(buf[b])
    {
      var own := IsOwn(base, buf.Length, blockSize, blockCount, ptr);
      if own {
        GiveBack(ptr - base);
      }
    }

    /** A client may write any byte of any block it holds. */
    method ClientWrite(block: nat, at: nat, value: Byte)
      requires Valid() && block in held && at < blockSize
      modifies buf
      ensures Valid() && block + at < buf.Length && buf[..] == old(buf[..])[block + at := value]
    {
      HeldApart(free, held, blocks, blockSize, blockCount, block);
      ghost var before := buf[..];
      buf[block + at] := value;
      assert buf[..] == before[block + at := value];
      ThreadedFrame(before, buf[..], base, free, block, blockSize);
    }
  }

  // ----- setting up ----------------------------------------------------------------------------

  /** `pool_init`: the block size is raised to that of a pointer; `base` is what malloc would return. */
  method Init(size: nat, count: nat, base: Address, mallocOk: bool) returns (err: ErrorCode, pool: Pool?)
    requires var s := if size < PTR_SIZE then PTR_SIZE else size;
             mallocOk && s * count <= SIZE_MAX ==> base > 0 && base + s * count <= SIZE_MAX
    ensures var s := if size < 8 then 8 else size;
            && err == (if count == 0 then InvalidArg
                       else if s * count > 0xFFFF_FFFF_FFFF_FFFF then Overflow
                       else if !mallocOk then NoMem else Ok)
            && (pool != null ==> pool.blockSize == s)
    ensures err == Ok <==> pool != null
    ensures pool != null ==>
      && fresh(pool) && pool.Valid() && pool.base == base && pool.blockCount == count
      && pool.held == {} && |pool.blocks| == count && Increasing(pool.free, 0)
  {
    pool := null;
    if count == 0 {
      return InvalidArg, null;
    }
    var blockSize := if size < PTR_SIZE then PTR_SIZE else size;
    QuotientIsLargest(SIZE_MAX, blockSize, count);
    if count > SIZE_MAX / blockSize {
      return Overflow, null;
    }
    if !mallocOk {
      return NoMem, null;
    }
    OffsetIsProduct(blockSize, count);
    pool := new Pool(base, blockSize, count);
    pool.ThreadAll();
    BlockCount(blockSize, count);
    err := Ok;
  }

  // ----- whole runs ----------------------------------------------------------------------------

  datatype Action =
    | Take
    | Return(ptr: Address)
    | Write(ptr: Address, at: nat, value: Byte)
    | Read(ptr: Address, at: nat)

  datatype Reply = Block(ptr: Address) | Value(value: Byte) | Nothing

  /** The pool as its clients see it: the blocks they hold, and the bytes they wrote into them. */
  datatype Plain = Plain(held: set<nat>, bytes: map<nat, Byte>)

  /** Where a pool lies. */
  datatype Place = Place(base: Address, size: nat, blocks: set<nat>)

  ghost predicate Owns(at: Place, ptr: Address) {
    at.base <= ptr && ptr - at.base in at.blocks
  }

  /** What clients may do: give back only blocks they hold (or anything that is no block), and touch
      only the blocks they hold. */
  ghost predicate Lawful(at: Place, p: Plain, a: Action) {
    match a
    case Take => true
    case Return(ptr) => Owns(at, ptr) ==> ptr - at.base in p.held
    case Write(ptr, i, _) => Owns(at, ptr) && ptr - at.base in p.held && i < at.size
    case Read(ptr, i) => Owns(at, ptr) && ptr - at.base in p.held && i < at.size
  }

  /** The bytes outside the block at o. */
  ghost function Without(bytes: map<nat, Byte>, o: nat, size: nat): map<nat, Byte> {
    bytes - set b | b in bytes && o <= b < o + size
  }

  /** One action on the plain pool: a new block is one nobody holds, there is none exactly when all
      are held, and a byte reads as it was written. */
  ghost predicate FollowsAt(at: Place, a: Action, reply: Reply, before: Plain, after: Plain) {
    if !Lawful(at, before, a) then reply == Nothing && after == before
    else
      match a
      case Take =>
        if before.held == at.blocks then reply == Nothing && after == before
        else
          && reply.Block? && Owns(at, reply.ptr) && reply.ptr - at.base !in before.held
          && after == Plain(before.held + {reply.ptr - at.base}, before.bytes)
      case Return(ptr) =>
        reply == Nothing &&
        after == if !Owns(at, ptr) then before
                 else Plain(before.held - {ptr - at.base}, Without(before.bytes, ptr - at.base, at.size))
      case Write(ptr, i, value) =>
        reply == Nothing && after == Plain(before.held, before.bytes[ptr - at.base + i := value])
      case Read(ptr, i) =>
        && reply.Value? && after == before
        && (ptr - at.base + i in before.bytes ==> reply.value == before.bytes[ptr - at.base + i])
  }

  /** Every byte written is still there. */
  ghost predicate Intact(mem: seq<Byte>, bytes: map<nat, Byte>) {
    forall b :: b in bytes ==> b < |mem| && mem[b] == bytes[b]
  }

  ghost predicate Mirrors(pool: Pool, p: Plain)
    reads pool, pool.buf
  {
    pool.Valid() && pool.held == p.held && Intact(pool.buf[..], p.bytes)
  }

  ghost function PlaceOf(pool: Pool): Place
  {
    Place(pool.base, pool.blockSize, pool.blocks)
  }

  method DoTake(pool: Pool, ghost p: Plain) returns (reply: Reply, ghost p': Plain)
    requires Mirrors(pool, p)
    modifies pool
    ensures Mirrors(pool, p') && FollowsAt(PlaceOf(pool), Take, reply, p, p')
  {
    var block := pool.Alloc();
    if block == 0 {
      return Nothing, p;
    }
    reply, p' := Block(block), Plain(p.held + {block - pool.base}, p.bytes);
  }

  lemma {:induction false} IntactWithout(mem: seq<Byte>, mem': seq<Byte>, bytes: map<nat, Byte>, o: nat, size: nat)
    requires Intact(mem, bytes) && |mem'| == |mem| && size >= PTR_SIZE
    requires forall b :: 0 <= b < |mem| && !(o <= b < o + PTR_SIZE) ==> mem'[b] == mem[b]
    ensures Intact(mem', Without(bytes, o, size))
  {
  }

  lemma {:induction false} IntactWrite(mem: seq<Byte>, bytes: map<nat, Byte>, b: nat, value: Byte)
    requires Intact(mem, bytes) && b < |mem|
    ensures Intact(mem[b := value], bytes[b := value])
  {
  }

  method DoReturn(pool: Pool, o: nat, ghost p: Plain) returns (ghost p': Plain)
    requires Mirrors(pool, p) && o in pool.held && o in pool.blocks
    modifies pool, pool.buf
    ensures Mirrors(pool, p') && p' == Plain(p.held - {o}, Without(p.bytes, o, pool.blockSize))
  {
    ghost var before := pool.buf[..];
    pool.Free(pool.base + o);
    IntactWithout(before, pool.buf[..], p.bytes, o, pool.blockSize);
    p' := Plain(p.held - {o}, Without(p.bytes, o, pool.blockSize));
  }

  /** A pointer that is no block is ignored. */
  method DoStray(pool: Pool, ptr: Address, ghost p: Plain)
    requires Mirrors(pool, p) && !(pool.base <= ptr && ptr - pool.base in pool.blocks)
    modifies pool, pool.buf
    ensures Mirrors(pool, p)
  {
    pool.Free(ptr);
  }

  /** A byte of a held block lies in the buffer. */
  lemma {:induction false} HeldByte(pool: Pool, o: nat, i: nat)
    requires pool.Valid() && o in pool.held && i < pool.blockSize
    ensures o + i < pool.buf.Length
  {
    HeldApart(pool.free, pool.held, pool.blocks, pool.blockSize, pool.blockCount, o);
  }

  method DoWrite(pool: Pool, o: nat, i: nat, value: Byte, ghost p: Plain) returns (ghost p': Plain)
    requires Mirrors(pool, p) && o in pool.held && i < pool.blockSize
    modifies pool.buf
    ensures Mirrors(pool, p') && p' == Plain(p.held, p.bytes[o + i := value])
  {
    HeldByte(pool, o, i);
    IntactWrite(pool.buf[..], p.bytes, o + i, value);
    pool.ClientWrite(o, i, value);
    p' := Plain(p.held, p.bytes[o + i := value]);
  }

  method DoRead(pool: Pool, o: nat, i: nat, ghost p: Plain) returns (value: Byte)
    requires Mirrors(pool, p) && o in pool.held && i < pool.blockSize
    ensures o + i in p.bytes ==> value == p.bytes[o + i]
  {
    HeldByte(pool, o, i);
    value := pool.buf[o + i];
    assert value == pool.buf[..][o + i];
  }

  /** What a client that keeps track of its blocks may decide about a pointer. */
  datatype Kind = Stray | Foreign | Mine

  method Classify(pool: Pool, ptr: Address, holding: set<nat>) returns (kind: Kind)
    requires pool.Valid() && holding == pool.held
    ensures kind == if !(pool.base <= ptr && ptr - pool.base in pool.blocks) then Stray
                    else if ptr - pool.base in pool.held then Mine else Foreign
  {
    var own := IsOwn(pool.base, pool.buf.Length, pool.blockSize, pool.blockCount, ptr);
    kind := if !own then Stray else if ptr - pool.base in holding then Mine else Foreign;
  }

  /** What no lawful client does is left out of the run. */
  lemma {:induction false} UnlawfulFollows(at: Place, p: Plain, a: Action)
    requires !Lawful(at, p, a)
    ensures FollowsAt(at, a, Nothing, p, p)
  {
  }

  lemma {:induction false} StrayFollows(at: Place, p: Plain, ptr: Address)
    requires !Owns(at, ptr)
    ensures FollowsAt(at, Return(ptr), Nothing, p, p)
  {
  }

  lemma {:induction false} MineFollows(at: Place, p: Plain, ptr: Address, i: nat, value: Byte)
    requires Owns(at, ptr) && ptr - at.base in p.held
    ensures var o := ptr - at.base;
            && FollowsAt(at, Return(ptr), Nothing, p, Plain(p.held - {o}, Without(p.bytes, o, at.size)))
            && (i < at.size ==>
                  && FollowsAt(at, Write(ptr, i, value), Nothing, p, Plain(p.held, p.bytes[o + i := value]))
                  && ((o + i in p.bytes ==> value == p.bytes[o + i]) ==>
                        FollowsAt(at, Read(ptr, i), Value(value), p, p)))
  {
  }

  /** One action of a client that keeps track of the blocks it holds. */
  method Act(pool: Pool, a: Action, holding: set<nat>, ghost p: Plain)
    returns (reply: Reply, holding': set<nat>, ghost p': Plain)
    requires Mirrors(pool, p) && holding == p.held
    modifies pool, pool.buf
    ensures Mirrors(pool, p') && holding' == p'.held
    ensures FollowsAt(PlaceOf(pool), a, reply, p, p')
  {
    reply, holding', p' := Nothing, holding, p;
    match a {
      case Take =>
        reply, p' := DoTake(pool, p);
        holding' := if reply.Block? then holding + {reply.ptr - pool.base} else holding;
      case Return(ptr) =>
        var kind := Classify(pool, ptr, holding);
        match kind {
          case Mine =>
            MineFollows(PlaceOf(pool), p, ptr, 0, 0);
            p' := DoReturn(pool, ptr - pool.base, p);
            holding' := holding - {ptr - pool.base};
          case Stray =>
            DoStray(pool, ptr, p);
            StrayFollows(PlaceOf(pool), p, ptr);
          case Foreign =>
            UnlawfulFollows(PlaceOf(pool), p, a);
        }
      case Write(ptr, i, value) =>
        var kind := Classify(pool, ptr, holding);
        if kind.Mine? && i < pool.blockSize {
          MineFollows(PlaceOf(pool), p, ptr, i, value);
          p' := DoWrite(pool, ptr - pool.base, i, value, p);
        } else {
          UnlawfulFollows(PlaceOf(pool), p, a);
        }
      case Read(ptr, i) =>
        var kind := Classify(pool, ptr, holding);
        if kind.Mine? && i < pool.blockSize {
          var value := DoRead(pool, ptr - pool.base, i, p);
          MineFollows(PlaceOf(pool), p, ptr, i, value);
          reply := Value(value);
        } else {
          UnlawfulFollows(PlaceOf(pool), p, a);
        }
    }
  }

  /** The replies so far, and the plain pool before each action and after the last. */
  ghost predicate Follows(at: Place, actions: seq<Action>, replies: seq<Reply>, plains: seq<Plain>) {
    && |replies| <= |actions| && |plains| == |replies| + 1
    && plains[0] == Plain({}, map[])
    && forall i :: 0 <= i < |replies| ==> FollowsAt(at, actions[i], replies[i], plains[i], plains[i + 1])
  }

  lemma {:induction false} FollowsOn(
    at: Place, actions: seq<Action>, replies: seq<Reply>, plains: seq<Plain>, reply: Reply, after: Plain)
    requires Follows(at, actions, replies, plains) && |replies| < |actions|
    requires FollowsAt(at, actions[|replies|], reply, plains[|replies|], after)
    ensures Follows(at, actions, replies + [reply], plains + [after])
  {
    var replies', plains' := replies + [reply], plains + [after];
    forall i | 0 <= i < |replies'|
      ensures FollowsAt(at, actions[i], replies'[i], plains'[i], plains'[i + 1])
    {
      if i < |replies| {
        assert FollowsAt(at, actions[i], replies[i], plains[i], plains[i + 1]);
      }
    }
  }

  /** Any run of lawful clients on a new pool: no block is handed out twice, allocation fails only
      when every block is held, and what is written into held blocks stays there. */
  method Session(pool: Pool, actions: seq<Action>) returns (replies: seq<Reply>, ghost plains: seq<Plain>)
    requires pool.Valid() && pool.held == {}
    modifies pool, pool.buf
    ensures |replies| == |actions| && Follows(PlaceOf(pool), actions, replies, plains)
    ensures Mirrors(pool, plains[|actions|])
  {
    replies, plains := [], [Plain({}, map[])];
    var holding: set<nat> := {};
    for n := 0 to |actions|
      invariant |replies| == n && Follows(PlaceOf(pool), actions, replies, plains)
      invariant Mirrors(pool, plains[n]) && holding == plains[n].held
    {
      var reply;
      ghost var after;
      reply, holding, after := Act(pool, actions[n], holding, plains[n]);
      FollowsOn(PlaceOf(pool), actions, replies, plains, reply, after);
      replies, plains := replies + [reply], plains + [after];
    }
  }
}
