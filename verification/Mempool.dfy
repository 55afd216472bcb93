/** The memory pool (`src/mempool.c`): a bump allocator over chained blocks, whose trailers and whose own header live
    inside the memory it manages. */
module Mempools {

  const SIZEOF_BLOCK := 24   // struct mempool_block with 8-byte pointers and sizes
  const SIZEOF_POOL := 112   // struct mempool: three chains and two sizes

  /** `struct mempool_chain`; address 0 is the null pointer. */
  datatype Chain = Chain(last: nat, lastFree: nat, totalSize: nat, numBlocks: nat)

  /** `struct mempool`. */
  datatype Pool = Pool(small: Chain, big: Chain, blockSize: nat, smallTreshold: nat)

  /** `struct mempool_block`, which trails the usable part of its block. */
  datatype Trailer = Trailer(prev: nat, allocSize: nat, size: nat)

  /** An area that `malloc` returned: `size` usable bytes and the trailer. */
  datatype Block = Block(base: nat, size: nat) {
    function AllocSize(): nat { size + SIZEOF_BLOCK }
    function TrailerAt(): nat { base + size }
  }

  predicate Apart(a: nat, n: nat, b: nat, m: nat) {
    a + n <= b || b + m <= a
  }

  // ---------- the pool as a value ----------

  /** A chain together with its blocks, last one first. */
  datatype Blocks = Blocks(chain: Chain, blocks: seq<Block>)

  datatype State = State(small: Blocks, big: Blocks, blockSize: nat) {
    function Header(): Pool { Pool(small.chain, big.chain, blockSize, blockSize / 2) }
    function All(): seq<Block> { small.blocks + big.blocks }
  }

  function TotalSize(blocks: seq<Block>): nat {
    if blocks == [] then 0 else blocks[0].AllocSize() + TotalSize(blocks[1..])
  }

  /** What the four fields of a chain say about its blocks. */
  predicate ValidChain(k: Blocks) {
    && k.chain.numBlocks == |k.blocks| && k.chain.totalSize == TotalSize(k.blocks)
    && (if k.blocks == [] then k.chain.last == 0 && k.chain.lastFree == 0
        else k.chain.last == k.blocks[0].TrailerAt() && k.chain.lastFree <= k.blocks[0].size)
    && forall i :: 0 <= i < |k.blocks| ==> k.blocks[i].base > 0
  }

  predicate BlocksApart(bs: seq<Block>) {
    forall i, j :: 0 <= i < j < |bs| ==> Apart(bs[i].base, bs[i].AllocSize(), bs[j].base, bs[j].AllocSize())
  }

  predicate ValidState(s: State) {
    ValidChain(s.small) && ValidChain(s.big) && BlocksApart(s.All())
  }

  const NO_BLOCKS := Blocks(Chain(0, 0, 0, 0), [])

  /** `mempool_new_block`, with `mem` the address that `nb_malloc` returns. */
  function NewBlock(k: Blocks, size: nat, mem: nat): Blocks {
    Blocks(Chain(mem + size, size, k.chain.totalSize + size + SIZEOF_BLOCK, k.chain.numBlocks + 1),
           [Block(mem, size)] + k.blocks)
  }

  /** `mempool_alloc_chain`. */
  function AllocChain(k: Blocks, size: nat): (r: (Blocks, int))
    requires size <= k.chain.lastFree
  {
    (k.(chain := k.chain.(lastFree := k.chain.lastFree - size)), k.chain.last - k.chain.lastFree)
  }

  predicate IsSmall(s: State, size: nat) {
    size <= s.blockSize / 2
  }

  predicate NeedsBlock(s: State, size: nat) {
    !IsSmall(s, size) || s.small.chain.lastFree < size
  }

  function NewBlockSize(s: State, size: nat): nat {
    if IsSmall(s, size) then s.blockSize else size
  }

  /** The chain that serves a request, with a block that has room for it. */
  function Served(s: State, size: nat, mem: nat): (k: Blocks)
    ensures size <= k.chain.lastFree
  {
    var k := if IsSmall(s, size) then s.small else s.big;
    if NeedsBlock(s, size) then NewBlock(k, NewBlockSize(s, size), mem) else k
  }

  /** `mempool_malloc`. */
  function Malloc(s: State, size: nat, mem: nat): (r: (State, int)) {
    var (k, addr) := AllocChain(Served(s, size, mem), size);
    (if IsSmall(s, size) then s.(small := k) else s.(big := k), addr)
  }

  /** What `malloc` promises: the answer is not null and apart from everything that is in use. */
  predicate FreshBlock(s: State, size: nat, mem: nat) {
    NeedsBlock(s, size) ==>
      mem > 0 && forall b :: b in s.All() ==>
        Apart(b.base, b.AllocSize(), mem, NewBlockSize(s, size) + SIZEOF_BLOCK)
  }

  /** The header that `mempool_init` sets up. */
  function EmptyPool(blockSize: nat): State {
    State(NO_BLOCKS, NO_BLOCKS, blockSize)
  }

  /** `mempool_new`: the pool allocates its own header. */
  function New(blockSize: nat, mem: nat): (r: (State, int)) {
    Malloc(EmptyPool(blockSize), SIZEOF_POOL, mem)
  }

  // ---------- what has been handed out ----------

  /** A region handed out by the pool and the block that it is in. */
  datatype Region = Region(addr: int, len: nat, home: Block)

  function HomeOf(k: Blocks): Block {
    if k.blocks == [] then Block(0, 0) else k.blocks[0]
  }

  predicate IsNull(r: Region) {
    r.addr == 0 && r.len == 0
  }

  /** The region is in the usable part of a block of the pool, below the memory that is still free there. */
  predicate Housed(s: State, r: Region) {
    && r.home in s.All() && r.home.base <= r.addr && r.addr + r.len <= r.home.TrailerAt()
    && (s.small.blocks != [] && r.home == s.small.blocks[0] ==>
          r.addr + r.len <= s.small.chain.last - s.small.chain.lastFree)
    && (s.big.blocks != [] && r.home == s.big.blocks[0] ==>
          r.addr + r.len <= s.big.chain.last - s.big.chain.lastFree)
  }

  predicate RegionsApart(rs: seq<Region>) {
    forall i, j :: 0 <= i < j < |rs| ==> rs[i].addr + rs[i].len <= rs[j].addr || rs[j].addr + rs[j].len <= rs[i].addr
  }

  predicate Kept(s: State, rs: seq<Region>) {
    && ValidState(s) && RegionsApart(rs)
    && forall i :: 0 <= i < |rs| ==> IsNull(rs[i]) || Housed(s, rs[i])
  }

  function Handed(s: State, size: nat, mem: nat): Region {
    Region(Malloc(s, size, mem).1, size, HomeOf(Served(s, size, mem)))
  }

  lemma InsertedApart(xs: seq<Block>, b: Block, ys: seq<Block>)
    requires BlocksApart(xs + ys)
    requires forall c :: c in xs + ys ==> Apart(c.base, c.AllocSize(), b.base, b.AllocSize())
    ensures BlocksApart(xs + ([b] + ys))
  {
    var before, now := xs + ys, xs + ([b] + ys);
    forall i, j | 0 <= i < j < |now|
      ensures Apart(now[i].base, now[i].AllocSize(), now[j].base, now[j].AllocSize())
    {
      var i', j' := if i < |xs| then i else i - 1, if j < |xs| then j else j - 1;
      if i != |xs| {
        assert now[i] == before[i'];
      }
      if j != |xs| {
        assert now[j] == before[j'];
      }
    }
  }

  /** The blocks after a request: the same, or one more at the head of the chain that serves it. */
  lemma AllAfter(s: State, size: nat, mem: nat)
    ensures var t := Malloc(s, size, mem).0;
            if !NeedsBlock(s, size) then t.All() == s.All()
            else
              var nb := Block(mem, NewBlockSize(s, size));
              t.All() == if IsSmall(s, size) then [] + ([nb] + s.All()) else s.small.blocks + ([nb] + s.big.blocks)
  {
    var t := Malloc(s, size, mem).0;
    var nb := Block(mem, NewBlockSize(s, size));
    if NeedsBlock(s, size) && IsSmall(s, size) {
      assert t.All() == [nb] + s.All();
    }
  }

  lemma ServedIsValid(s: State, size: nat, mem: nat)
    requires ValidState(s) && FreshBlock(s, size, mem)
    ensures ValidChain(Served(s, size, mem)) && ValidChain(AllocChain(Served(s, size, mem), size).0)
  {
    hide BlocksApart;
    var k := if IsSmall(s, size) then s.small else s.big;
    assert Served(s, size, mem).blocks == k.blocks || Served(s, size, mem).blocks[1..] == k.blocks;
  }

  lemma MallocKeepsValid(s: State, size: nat, mem: nat)
    requires ValidState(s) && FreshBlock(s, size, mem)
    ensures ValidState(Malloc(s, size, mem).0)
  {
    hide Apart, BlocksApart, ValidChain, TotalSize, NewBlock;
    AllAfter(s, size, mem);
    ServedIsValid(s, size, mem);
    var nb := Block(mem, NewBlockSize(s, size));
    if NeedsBlock(s, size) {
      if IsSmall(s, size) {
        assert [] + s.All() == s.All();
        InsertedApart([], nb, s.All());
      } else {
        InsertedApart(s.small.blocks, nb, s.big.blocks);
      }
    }
  }

  lemma BlocksAreApart(s: State, b: Block, c: Block)
    requires BlocksApart(s.All()) && b in s.All() && c in s.All() && b != c
    ensures Apart(b.base, b.AllocSize(), c.base, c.AllocSize())
  {
    var i :| 0 <= i < |s.All()| && s.All()[i] == b;
    var j :| 0 <= j < |s.All()| && s.All()[j] == c;
    if j < i {
      assert Apart(s.All()[j].base, s.All()[j].AllocSize(), s.All()[i].base, s.All()[i].AllocSize());
    }
  }

  lemma HeadsDiffer(s: State)
    requires BlocksApart(s.All()) && s.small.blocks != [] && s.big.blocks != []
    ensures s.small.blocks[0] != s.big.blocks[0]
  {
    assert s.All()[0] == s.small.blocks[0] && s.All()[|s.small.blocks|] == s.big.blocks[0];
  }

  // ---------- one request ----------

  /** A region handed out earlier keeps its place when the pool serves one more request. */
  lemma StaysHoused(s: State, size: nat, mem: nat, r: Region)
    requires ValidState(s) && FreshBlock(s, size, mem) && Housed(s, r)
    ensures Housed(Malloc(s, size, mem).0, r)
  {
    hide BlocksApart, TotalSize;
    AllAfter(s, size, mem);
  }

  /** The new region is housed, unless it is the null pointer: which happens when nothing is asked for and there is no
      block for small objects yet. */
  lemma HandedIsHoused(s: State, size: nat, mem: nat)
    requires ValidState(s) && FreshBlock(s, size, mem)
    ensures var r := Handed(s, size, mem);
            if size == 0 && s.small.blocks == [] then IsNull(r) else r.addr > 0 && Housed(Malloc(s, size, mem).0, r)
  {
    hide BlocksApart, TotalSize;
    AllAfter(s, size, mem);
    ServedIsValid(s, size, mem);
    MallocKeepsValid(s, size, mem);
    var t := Malloc(s, size, mem).0;
    if t.small.blocks != [] && t.big.blocks != [] {
      HeadsDiffer(t);
    }
  }

  /** The new region is apart from a region handed out earlier. */
  lemma HandedIsApart(s: State, size: nat, mem: nat, r: Region)
    requires ValidState(s) && FreshBlock(s, size, mem) && Housed(s, r)
    ensures var h := Handed(s, size, mem);
            r.addr + r.len <= h.addr || h.addr + h.len <= r.addr
  {
    hide BlocksApart, TotalSize;
    AllAfter(s, size, mem);
    HandedIsHoused(s, size, mem);
    MallocKeepsValid(s, size, mem);
    var h := Handed(s, size, mem);
    if !IsNull(h) && h.home != r.home {
      BlocksAreApart(Malloc(s, size, mem).0, h.home, r.home);
    }
  }

  // ---------- runs ----------

  datatype Request = Request(size: nat, mem: nat)

  function Run(s: State, reqs: seq<Request>): State
    decreases |reqs|
  {
    if reqs == [] then s else Run(Malloc(s, reqs[0].size, reqs[0].mem).0, reqs[1..])
  }

  function Regions(s: State, reqs: seq<Request>): (rs: seq<Region>)
    ensures |rs| == |reqs| && forall i :: 0 <= i < |rs| ==> rs[i].len == reqs[i].size
    decreases |reqs|
  {
    if reqs == [] then []
    else [Handed(s, reqs[0].size, reqs[0].mem)] + Regions(Malloc(s, reqs[0].size, reqs[0].mem).0, reqs[1..])
  }

  predicate Answered(s: State, reqs: seq<Request>)
    decreases |reqs|
  {
    reqs == [] ||
    (FreshBlock(s, reqs[0].size, reqs[0].mem) && Answered(Malloc(s, reqs[0].size, reqs[0].mem).0, reqs[1..]))
  }

  lemma MallocKeeps(s: State, rs: seq<Region>, size: nat, mem: nat)
    requires Kept(s, rs) && FreshBlock(s, size, mem)
    ensures Kept(Malloc(s, size, mem).0, rs + [Handed(s, size, mem)])
  {
    hide ValidState, Housed, Malloc, FreshBlock;
    var t, h := Malloc(s, size, mem).0, Handed(s, size, mem);
    MallocKeepsValid(s, size, mem);
    HandedIsHoused(s, size, mem);
    assert h.addr >= 0;
    forall i | 0 <= i < |rs|
      ensures IsNull(rs[i]) || Housed(t, rs[i])
      ensures rs[i].addr + rs[i].len <= h.addr || h.addr + h.len <= rs[i].addr
    {
      if !IsNull(rs[i]) {
        StaysHoused(s, size, mem, rs[i]);
        HandedIsApart(s, size, mem, rs[i]);
      }
    }
  }

  lemma {:induction false} RunKeeps(s: State, rs: seq<Region>, reqs: seq<Request>)
    requires Kept(s, rs) && Answered(s, reqs)
    ensures Kept(Run(s, reqs), rs + Regions(s, reqs))
    decreases |reqs|
  {
    hide Kept, Malloc, FreshBlock;
    if reqs == [] {
      assert rs + Regions(s, reqs) == rs;
    } else {
      var r := reqs[0];
      MallocKeeps(s, rs, r.size, r.mem);
      var t, h := Malloc(s, r.size, r.mem).0, Handed(s, r.size, r.mem);
      RunKeeps(t, rs + [h], reqs[1..]);
      assert rs + [h] + Regions(t, reqs[1..]) == rs + Regions(s, reqs);
    }
  }

  /** The region of the header and all those handed out after it. */
  function PoolRegions(blockSize: nat, mem: nat, reqs: seq<Request>): (rs: seq<Region>)
    ensures |rs| == 1 + |reqs|
  {
    [Handed(EmptyPool(blockSize), SIZEOF_POOL, mem)] + Regions(New(blockSize, mem).0, reqs)
  }

  lemma HousedMissesTrailers(s: State, r: Region, b: Block)
    requires ValidState(s) && Housed(s, r) && b in s.All()
    ensures 0 < r.addr && (r.addr + r.len <= b.TrailerAt() || b.TrailerAt() + SIZEOF_BLOCK <= r.addr)
  {
    hide TotalSize, BlocksApart;
    if b != r.home {
      BlocksAreApart(s, b, r.home);
    }
    assert r.home in s.small.blocks || r.home in s.big.blocks;
  }

  lemma EmptyPoolIsKept(blockSize: nat, mem: nat)
    requires mem > 0
    ensures Kept(EmptyPool(blockSize), []) && FreshBlock(EmptyPool(blockSize), SIZEOF_POOL, mem)
  {}

  /** Whatever is asked of a pool, its regions share no byte with each other, with the header of the pool (the first
      region), or with the trailer of any block, and each lies in the usable part of one block. The only region that is
      not in a block is the null pointer, which has no bytes. */
  lemma PoolSeparates(blockSize: nat, mem: nat, reqs: seq<Request>)
    requires mem > 0 && Answered(New(blockSize, mem).0, reqs)
    ensures var t, rs := Run(New(blockSize, mem).0, reqs), PoolRegions(blockSize, mem, reqs);
            && BlocksApart(t.All()) && RegionsApart(rs) && rs[0].addr > 0
            && forall i :: 0 <= i < |rs| && !IsNull(rs[i]) ==>
                 && rs[i].home in t.All() && rs[i].home.base <= rs[i].addr
                 && rs[i].addr + rs[i].len <= rs[i].home.base + rs[i].home.size
                 && forall b :: b in t.All() ==>
                      rs[i].addr + rs[i].len <= b.TrailerAt() || b.TrailerAt() + SIZEOF_BLOCK <= rs[i].addr
  {
    hide BlocksApart, RegionsApart, TotalSize, FreshBlock, Answered, Malloc;
    var none := EmptyPool(blockSize);
    var t, rs := Run(New(blockSize, mem).0, reqs), PoolRegions(blockSize, mem, reqs);
    EmptyPoolIsKept(blockSize, mem);
    MallocKeeps(none, [], SIZEOF_POOL, mem);
    var h := Handed(none, SIZEOF_POOL, mem);
    assert [] + [h] == [h];
    RunKeeps(New(blockSize, mem).0, [h], reqs);
    HandedIsHoused(none, SIZEOF_POOL, mem);
    forall i, b | 0 <= i < |rs| && !IsNull(rs[i]) && b in t.All()
      ensures rs[i].addr + rs[i].len <= b.TrailerAt() || b.TrailerAt() + SIZEOF_BLOCK <= rs[i].addr
    {
      HousedMissesTrailers(t, rs[i], b);
    }
  }

  // ---------- fragmentation ----------

  /** The bytes that a run takes from the chain for small objects. */
  function SmallBytes(blockSize: nat, reqs: seq<Request>): nat {
    if reqs == [] then 0
    else (if reqs[0].size <= blockSize / 2 then reqs[0].size else 0) + SmallBytes(blockSize, reqs[1..])
  }

  /** At least half of every block but the last is in use. */
  predicate Dense(s: State, used: nat) {
    s.small.blocks != [] ==>
      s.small.chain.lastFree <= s.blockSize &&
      (|s.small.blocks| - 1) * s.blockSize + 2 * (s.blockSize - s.small.chain.lastFree) <= 2 * used
  }

  lemma MallocStaysDense(s: State, used: nat, size: nat, mem: nat)
    requires ValidChain(s.small) && Dense(s, used)
    ensures Dense(Malloc(s, size, mem).0, used + if IsSmall(s, size) then size else 0)
  {
    hide TotalSize;
    var n, bs := |s.small.blocks|, s.blockSize;
    if n > 0 {
      assert n * bs == (n - 1) * bs + bs;
    }
  }

  lemma {:induction false} RunStaysDense(s: State, used: nat, reqs: seq<Request>)
    requires ValidState(s) && Dense(s, used) && Answered(s, reqs)
    ensures Dense(Run(s, reqs), used + SmallBytes(s.blockSize, reqs)) && ValidState(Run(s, reqs))
    ensures Run(s, reqs).blockSize == s.blockSize
    decreases |reqs|
  {
    hide ValidState, Dense, FreshBlock;
    if reqs != [] {
      var r := reqs[0];
      MallocKeepsValid(s, r.size, r.mem);
      assert ValidChain(s.small) by {
        ValidParts(s);
      }
      MallocStaysDense(s, used, r.size, r.mem);
      RunStaysDense(Malloc(s, r.size, r.mem).0, used + if IsSmall(s, r.size) then r.size else 0, reqs[1..]);
    }
  }

  lemma ValidParts(s: State)
    requires ValidState(s)
    ensures ValidChain(s.small) && ValidChain(s.big)
  {}

  /** The pool wastes little: the blocks for small objects, except the last one, are at most twice the small requests,
      because a block is given up only for a request of at most half a block that does not fit into it. */
  lemma FragmentationBound(blockSize: nat, mem: nat, reqs: seq<Request>)
    requires mem > 0 && Answered(New(blockSize, mem).0, reqs)
    ensures var t := Run(New(blockSize, mem).0, reqs);
            t.small.chain.numBlocks > 0 ==>
              (t.small.chain.numBlocks - 1) * blockSize <= 2 * SmallBytes(blockSize, [Request(SIZEOF_POOL, mem)] + reqs)
  {
    var none := EmptyPool(blockSize);
    var r := Request(SIZEOF_POOL, mem);
    assert ([r] + reqs)[1..] == reqs;
    RunStaysDense(none, 0, [r] + reqs);
    ValidParts(Run(New(blockSize, mem).0, reqs));
  }

  // ---------- which requests take a block ----------

  /** One request: more than half a block takes a block of just its size; any other takes the memory behind the last
      one, if it still fits there, and else the start of a new block of the usual size. A block costs 24 bytes more. */
  lemma MallocPlaces(s: State, size: nat, mem: nat)
    ensures var (t, addr) := Malloc(s, size, mem);
            && t.blockSize == s.blockSize
            && if 2 * size > s.blockSize then
                 && t.small == s.small && addr == mem
                 && t.big == Blocks(Chain(mem + size, 0, s.big.chain.totalSize + size + 24, s.big.chain.numBlocks + 1),
                                    [Block(mem, size)] + s.big.blocks)
               else if size <= s.small.chain.lastFree then
                 && t.big == s.big && addr == s.small.chain.last - s.small.chain.lastFree
                 && t.small == s.small.(chain := s.small.chain.(lastFree := s.small.chain.lastFree - size))
               else
                 && t.big == s.big && addr == mem
                 && t.small == Blocks(Chain(mem + s.blockSize, s.blockSize - size,
                                            s.small.chain.totalSize + s.blockSize + 24, s.small.chain.numBlocks + 1),
                                      [Block(mem, s.blockSize)] + s.small.blocks)
  {}

  function Sizes(blocks: seq<Block>): (r: seq<nat>)
    ensures |r| == |blocks| && forall i :: 0 <= i < |r| ==> r[i] == blocks[i].size
  {
    seq(|blocks|, i requires 0 <= i < |blocks| => blocks[i].size)
  }

  /** The requests for more than half a block, last one first. */
  function BigRequests(blockSize: nat, reqs: seq<Request>): seq<nat> {
    if reqs == [] then []
    else BigRequests(blockSize, reqs[1..]) + if 2 * reqs[0].size > blockSize then [reqs[0].size] else []
  }

  lemma {:induction false} BlocksOfRequests(s: State, reqs: seq<Request>)
    requires forall b :: b in s.small.blocks ==> b.size == s.blockSize
    ensures var t := Run(s, reqs);
            && Sizes(t.big.blocks) == BigRequests(s.blockSize, reqs) + Sizes(s.big.blocks)
            && forall b :: b in t.small.blocks ==> b.size == s.blockSize
    decreases |reqs|
  {
    hide Malloc;
    if reqs == [] {
      assert BigRequests(s.blockSize, reqs) + Sizes(s.big.blocks) == Sizes(s.big.blocks);
    } else {
      var r := reqs[0];
      var t := Malloc(s, r.size, r.mem).0;
      MallocPlaces(s, r.size, r.mem);
      BlocksOfRequests(t, reqs[1..]);
      var more := BigRequests(s.blockSize, reqs[1..]);
      if 2 * r.size > s.blockSize {
        assert Sizes([Block(r.mem, r.size)] + s.big.blocks) == [r.size] + Sizes(s.big.blocks);
        assert more + ([r.size] + Sizes(s.big.blocks)) == (more + [r.size]) + Sizes(s.big.blocks);
      } else {
        assert more + [] == more;
      }
    }
  }

  /** Over a whole life: the blocks for big objects are those of the requests for more than half a block, one each and
      of just that size, where the header of 112 bytes is the first request; all others have the size of the pool. */
  lemma BlocksOfPool(blockSize: nat, mem: nat, reqs: seq<Request>)
    ensures var t := Run(New(blockSize, mem).0, reqs);
            && Sizes(t.big.blocks) == BigRequests(blockSize, [Request(112, mem)] + reqs)
            && forall b :: b in t.small.blocks ==> b.size == blockSize
  {
    var none, r := EmptyPool(blockSize), Request(112, mem);
    assert ([r] + reqs)[1..] == reqs;
    BlocksOfRequests(none, [r] + reqs);
    assert Sizes(none.big.blocks) == [];
    assert BigRequests(blockSize, [r] + reqs) + [] == BigRequests(blockSize, [r] + reqs);
  }
}
