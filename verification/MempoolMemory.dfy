/** The memory pool in memory (`src/mempool.c`): the header and the trailers are stored at addresses inside the areas
    that `malloc` returned, and are lost when the area is freed. */
module MempoolMemory {
  import opened Mempools

  /** What is left of a map of addresses when an area is freed. */
  function Without<V>(m: map<nat, V>, b: Block): map<nat, V> {
    map a | a in m && !(b.base <= a < b.base + b.AllocSize()) :: m[a]
  }

  function WithoutAll<V>(m: map<nat, V>, blocks: seq<Block>): map<nat, V>
    decreases |blocks|
  {
    if blocks == [] then m else WithoutAll(Without(m, blocks[0]), blocks[1..])
  }

  lemma {:induction false} WithoutAllAt<V>(m: map<nat, V>, blocks: seq<Block>, a: nat)
    ensures a in WithoutAll(m, blocks) <==>
            a in m && forall b :: b in blocks ==> !(b.base <= a < b.base + b.AllocSize())
    ensures a in WithoutAll(m, blocks) ==> WithoutAll(m, blocks)[a] == m[a]
    decreases |blocks|
  {
    if blocks != [] {
      WithoutAllAt(Without(m, blocks[0]), blocks[1..], a);
      assert forall b :: b in blocks <==> b == blocks[0] || b in blocks[1..];
    }
  }

  function Bases(blocks: seq<Block>): set<nat> {
    set b | b in blocks :: b.base
  }

  /** The addresses in the order in which a chain gives them back. */
  function BaseList(blocks: seq<Block>): (r: seq<nat>)
    ensures |r| == |blocks| && forall i :: 0 <= i < |r| ==> r[i] == blocks[i].base
  {
    seq(|blocks|, i requires 0 <= i < |blocks| => blocks[i].base)
  }

  /** The trailers from `last` on describe the blocks and are linked by their `prev`. */
  predicate Linked(trailers: map<nat, Trailer>, last: nat, blocks: seq<Block>)
    decreases |blocks|
  {
    if blocks == [] then last == 0
    else
      && last == blocks[0].TrailerAt() && last in trailers && blocks[0].base > 0
      && trailers[last].size == blocks[0].size && trailers[last].allocSize == blocks[0].AllocSize()
      && Linked(trailers, trailers[last].prev, blocks[1..])
  }

  lemma {:induction false} LinkedFrame(t: map<nat, Trailer>, u: map<nat, Trailer>, last: nat, blocks: seq<Block>)
    requires Linked(t, last, blocks)
    requires forall b :: b in blocks ==>
               b.TrailerAt() in t && b.TrailerAt() in u && u[b.TrailerAt()] == t[b.TrailerAt()]
    ensures Linked(u, last, blocks)
    decreases |blocks|
  {
    if blocks != [] {
      assert blocks[0] in blocks;
      LinkedFrame(t, u, t[last].prev, blocks[1..]);
    }
  }

  lemma {:induction false} LinkedTrailers(t: map<nat, Trailer>, last: nat, blocks: seq<Block>)
    requires Linked(t, last, blocks)
    ensures forall b :: b in blocks ==> b.TrailerAt() in t
    decreases |blocks|
  {
    if blocks != [] {
      LinkedTrailers(t, t[last].prev, blocks[1..]);
    }
  }

  /** The address is apart from every area in use. */
  predicate FreshIn(live: map<nat, nat>, at: nat, n: nat) {
    at > 0 && at !in live && forall b :: b in live ==> Apart(b, live[b], at, n)
  }

  predicate Owned(live: map<nat, nat>, blocks: seq<Block>) {
    forall b :: b in blocks ==> b.base in live && live[b.base] == b.AllocSize()
  }

  /** The pool's blocks are in use, and its header is in one of them. */
  predicate InBlocks(s: State, pool: nat) {
    exists b :: b in s.All() && b.base <= pool < b.base + b.AllocSize()
  }

  lemma FreshForPool(live: map<nat, nat>, s: State, size: nat, mem: nat)
    requires Owned(live, s.All())
    requires NeedsBlock(s, size) ==> FreshIn(live, mem, NewBlockSize(s, size) + SIZEOF_BLOCK)
    ensures FreshBlock(s, size, mem)
  {}

  function LiveAfter(live: map<nat, nat>, s: State, size: nat, mem: nat): map<nat, nat> {
    if NeedsBlock(s, size) then live[mem := NewBlockSize(s, size) + SIZEOF_BLOCK] else live
  }

  function TrailersAfter(trailers: map<nat, Trailer>, s: State, size: nat, mem: nat): map<nat, Trailer> {
    if NeedsBlock(s, size) then
      var n, k := NewBlockSize(s, size), if IsSmall(s, size) then s.small else s.big;
      trailers[mem + n := Trailer(k.chain.last, n + SIZEOF_BLOCK, n)]
    else trailers
  }

  /** The new trailer does not overwrite one of the pool's. */
  lemma LinkedAfter(trailers: map<nat, Trailer>, last: nat, blocks: seq<Block>, s: State, size: nat, mem: nat)
    requires Linked(trailers, last, blocks) && (forall b :: b in blocks ==> b in s.All())
    requires FreshBlock(s, size, mem)
    ensures Linked(TrailersAfter(trailers, s, size, mem), last, blocks)
  {
    LinkedTrailers(trailers, last, blocks);
    LinkedFrame(trailers, TrailersAfter(trailers, s, size, mem), last, blocks);
  }

  /** Serving a request keeps the blocks owned and the header inside. */
  lemma BlocksStayOwned(live: map<nat, nat>, s: State, size: nat, mem: nat, pool: nat)
    requires Owned(live, s.All()) && InBlocks(s, pool)
    requires NeedsBlock(s, size) ==> FreshIn(live, mem, NewBlockSize(s, size) + SIZEOF_BLOCK)
    ensures Owned(LiveAfter(live, s, size, mem), Malloc(s, size, mem).0.All()) && InBlocks(Malloc(s, size, mem).0, pool)
  {
    hide FreshBlock, Malloc;
    AllAfter(s, size, mem);
    var home :| home in s.All() && home.base <= pool < home.base + home.AllocSize();
    assert home in Malloc(s, size, mem).0.All();
  }

  /** It keeps the chains linked. */
  lemma ChainsStayLinked(trailers: map<nat, Trailer>, s: State, size: nat, mem: nat)
    requires FreshBlock(s, size, mem)
    requires Linked(trailers, s.small.chain.last, s.small.blocks) && Linked(trailers, s.big.chain.last, s.big.blocks)
    ensures var t, after := Malloc(s, size, mem).0, TrailersAfter(trailers, s, size, mem);
            Linked(after, t.small.chain.last, t.small.blocks) && Linked(after, t.big.chain.last, t.big.blocks)
  {
    hide Owned;
    var t, after := Malloc(s, size, mem).0, TrailersAfter(trailers, s, size, mem);
    LinkedAfter(trailers, s.small.chain.last, s.small.blocks, s, size, mem);
    LinkedAfter(trailers, s.big.chain.last, s.big.blocks, s, size, mem);
    if NeedsBlock(s, size) {
      if IsSmall(s, size) {
        assert t.small.blocks[1..] == s.small.blocks;
      } else {
        assert t.big.blocks[1..] == s.big.blocks;
      }
    }
  }

  lemma FreshIsPositive(live: map<nat, nat>, at: nat, n: nat)
    requires FreshIn(live, at, n)
    ensures at > 0
  {}

  lemma EmptyPoolIsValid(blockSize: nat)
    ensures ValidState(EmptyPool(blockSize)) && NeedsBlock(EmptyPool(blockSize), SIZEOF_POOL)
  {}

  lemma NewIsOwned(live: map<nat, nat>, trailers: map<nat, Trailer>, blockSize: nat, mem: nat)
    requires FreshIn(live, mem, NewBlockSize(EmptyPool(blockSize), SIZEOF_POOL) + SIZEOF_BLOCK)
    ensures var none, t := EmptyPool(blockSize), New(blockSize, mem).0;
            var after := TrailersAfter(trailers, none, SIZEOF_POOL, mem);
            && New(blockSize, mem).1 >= 0 && Owned(LiveAfter(live, none, SIZEOF_POOL, mem), t.All())
            && InBlocks(t, New(blockSize, mem).1)
            && Linked(after, t.small.chain.last, t.small.blocks) && Linked(after, t.big.chain.last, t.big.blocks)
  {
    var none := EmptyPool(blockSize);
    ChainsStayLinked(trailers, none, SIZEOF_POOL, mem);
    AllAfter(none, SIZEOF_POOL, mem);
    var nb := Block(mem, NewBlockSize(none, SIZEOF_POOL));
    assert New(blockSize, mem).0.All() == [nb];
    assert nb in New(blockSize, mem).0.All();
  }

  lemma PartsAreApart(xs: seq<Block>, ys: seq<Block>)
    requires BlocksApart(xs + ys)
    ensures BlocksApart(xs) && BlocksApart(ys)
    ensures forall x, y :: x in xs && y in ys ==> Apart(x.base, x.AllocSize(), y.base, y.AllocSize())
  {
    var all := xs + ys;
    assert forall i :: 0 <= i < |xs| ==> all[i] == xs[i];
    assert forall i :: 0 <= i < |ys| ==> all[|xs| + i] == ys[i];
  }

  /** Blocks that are apart from a chain can be freed without touching its trailers. */
  lemma LinkedWithout(trailers: map<nat, Trailer>, last: nat, blocks: seq<Block>, gone: seq<Block>)
    requires Linked(trailers, last, blocks)
    requires forall x, y :: x in gone && y in blocks ==> Apart(x.base, x.AllocSize(), y.base, y.AllocSize())
    ensures Linked(WithoutAll(trailers, gone), last, blocks)
  {
    hide WithoutAll, Linked;
    LinkedTrailers(trailers, last, blocks);
    forall b | b in blocks
      ensures b.TrailerAt() in WithoutAll(trailers, gone)
      ensures WithoutAll(trailers, gone)[b.TrailerAt()] == trailers[b.TrailerAt()]
    {
      WithoutAllAt(trailers, gone, b.TrailerAt());
    }
    LinkedFrame(trailers, WithoutAll(trailers, gone), last, blocks);
  }

  /** Freeing the last block of a chain leaves the others in place. */
  lemma FreeStep(trailers: map<nat, Trailer>, live: map<nat, nat>, last: nat, blocks: seq<Block>)
    requires Linked(trailers, last, blocks) && Owned(live, blocks) && BlocksApart(blocks) && last != 0
    ensures blocks != [] && Linked(Without(trailers, blocks[0]), trailers[last].prev, blocks[1..])
    ensures Owned(live - {blocks[0].base}, blocks[1..]) && BlocksApart(blocks[1..])
    ensures live - {blocks[0].base} - Bases(blocks[1..]) == live - Bases(blocks)
  {
    hide BlocksApart, Without;
    var b, rest := blocks[0], blocks[1..];
    assert [b] + rest == blocks;
    PartsAreApart([b], rest);
    assert WithoutAll(Without(trailers, b), []) == Without(trailers, b);
    LinkedWithout(trailers, trailers[last].prev, rest, [b]);
    BasesOf([b], rest);
    assert Bases([b]) == {b.base};
  }

  lemma BasesOf(xs: seq<Block>, ys: seq<Block>)
    ensures Bases(xs + ys) == Bases(xs) + Bases(ys)
  {
    assert forall c :: c in xs + ys <==> c in xs || c in ys;
  }

  lemma {:induction false} WithoutBoth<V>(m: map<nat, V>, xs: seq<Block>, ys: seq<Block>)
    ensures WithoutAll(WithoutAll(m, xs), ys) == WithoutAll(m, xs + ys)
    decreases |xs|
  {
    if xs == [] {
      assert xs + ys == ys;
    } else {
      WithoutBoth(Without(m, xs[0]), xs[1..], ys);
      assert (xs + ys)[1..] == xs[1..] + ys;
    }
  }

  lemma BasesDiffer(blocks: seq<Block>)
    requires BlocksApart(blocks)
    ensures forall i, j :: 0 <= i < j < |blocks| ==> BaseList(blocks)[i] != BaseList(blocks)[j]
  {}

  lemma OwnedParts(live: map<nat, nat>, xs: seq<Block>, ys: seq<Block>)
    requires Owned(live, xs + ys)
    requires forall x, y :: x in xs && y in ys ==> Apart(x.base, x.AllocSize(), y.base, y.AllocSize())
    ensures Owned(live, xs) && Owned(live - Bases(xs), ys) && live - Bases(xs) - Bases(ys) == live - Bases(xs + ys)
  {
    BasesOf(xs, ys);
  }

  /** The chain for big objects is intact after the other one has been freed. */
  lemma BigChainSurvives(live: map<nat, nat>, trailers: map<nat, Trailer>, s: State)
    requires ValidState(s) && Owned(live, s.All()) && Linked(trailers, s.big.chain.last, s.big.blocks)
    ensures BlocksApart(s.small.blocks) && BlocksApart(s.big.blocks)
    ensures Owned(live, s.small.blocks) && Owned(live - Bases(s.small.blocks), s.big.blocks)
    ensures Linked(WithoutAll(trailers, s.small.blocks), s.big.chain.last, s.big.blocks)
    ensures live - Bases(s.small.blocks) - Bases(s.big.blocks) == live - Bases(s.All())
    ensures BaseList(s.small.blocks) + BaseList(s.big.blocks) == BaseList(s.All())
  {
    hide ValidChain, WithoutAll, BlocksApart, Linked, Owned, Bases, Apart, FreshIn;
    PartsAreApart(s.small.blocks, s.big.blocks);
    LinkedWithout(trailers, s.big.chain.last, s.big.blocks, s.small.blocks);
    OwnedParts(live, s.small.blocks, s.big.blocks);
    assert BaseList(s.small.blocks) + BaseList(s.big.blocks) == BaseList(s.All());
  }

  /** `malloc` keeps its promise for each request of a run. */
  predicate HeapAnswers(live: map<nat, nat>, s: State, reqs: seq<Request>)
    decreases |reqs|
  {
    reqs == [] ||
    var r := reqs[0];
    && (NeedsBlock(s, r.size) ==> FreshIn(live, r.mem, NewBlockSize(s, r.size) + SIZEOF_BLOCK))
    && HeapAnswers(LiveAfter(live, s, r.size, r.mem), Malloc(s, r.size, r.mem).0, reqs[1..])
  }

  /** Memory that is apart from everything in use is apart from the pool's own blocks. */
  lemma {:induction false} HeapAnswersAreFresh(live: map<nat, nat>, s: State, reqs: seq<Request>, pool: nat)
    requires HeapAnswers(live, s, reqs) && Owned(live, s.All()) && InBlocks(s, pool)
    ensures Answered(s, reqs)
    decreases |reqs|
  {
    hide Malloc, LiveAfter, FreshIn, FreshBlock, Owned, InBlocks;
    if reqs != [] {
      var r := reqs[0];
      FreshForPool(live, s, r.size, r.mem);
      BlocksStayOwned(live, s, r.size, r.mem, pool);
      HeapAnswersAreFresh(LiveAfter(live, s, r.size, r.mem), Malloc(s, r.size, r.mem).0, reqs[1..], pool);
    }
  }

  lemma LifeStarts(live: map<nat, nat>, blockSize: nat, mem: nat)
    requires FreshIn(live, mem, NewBlockSize(EmptyPool(blockSize), SIZEOF_POOL) + SIZEOF_BLOCK)
    ensures LiveAfter(live, EmptyPool(blockSize), SIZEOF_POOL, mem) - Bases(New(blockSize, mem).0.All()) == live
  {
    EmptyPoolIsValid(blockSize);
    LifeGoesOn(live, live, EmptyPool(blockSize), SIZEOF_POOL, mem);
  }

  lemma LifeGoesOn(start: map<nat, nat>, live: map<nat, nat>, s: State, size: nat, mem: nat)
    requires live - Bases(s.All()) == start
    requires NeedsBlock(s, size) ==> FreshIn(live, mem, NewBlockSize(s, size) + SIZEOF_BLOCK)
    ensures LiveAfter(live, s, size, mem) - Bases(Malloc(s, size, mem).0.All()) == start
  {
    hide Malloc;
    AllAfter(s, size, mem);
    var t := Malloc(s, size, mem).0;
    if NeedsBlock(s, size) {
      assert Bases(t.All()) == Bases(s.All()) + {mem} by {
        assert forall b :: b in t.All() <==> b in s.All() || b == Block(mem, NewBlockSize(s, size));
      }
    }
  }

  lemma RegionsOfLife(live: map<nat, nat>, trailers: map<nat, Trailer>, blockSize: nat, mem: nat, reqs: seq<Request>)
    requires FreshIn(live, mem, NewBlockSize(EmptyPool(blockSize), SIZEOF_POOL) + SIZEOF_BLOCK)
    requires HeapAnswers(LiveAfter(live, EmptyPool(blockSize), SIZEOF_POOL, mem), New(blockSize, mem).0, reqs)
    ensures RegionsApart(Regions(New(blockSize, mem).0, reqs))
  {
    hide HeapAnswers, LiveAfter, Malloc, Owned, InBlocks, BlocksApart;
    NewIsOwned(live, trailers, blockSize, mem);
    HeapAnswersAreFresh(LiveAfter(live, EmptyPool(blockSize), SIZEOF_POOL, mem), New(blockSize, mem).0, reqs,
                        New(blockSize, mem).1);
    PoolSeparates(blockSize, mem, reqs);
    var rs := PoolRegions(blockSize, mem, reqs);
    assert rs[1..] == Regions(New(blockSize, mem).0, reqs);
  }

  class Memory {
    var live: map<nat, nat>  // areas that are allocated, with their sizes
    var trailers: map<nat, Trailer>  // block trailers, by address
    var pools: map<nat, Pool>  // pool headers, by address

    /** The pool at this address is in the given state. */
    predicate Holds(pool: nat, s: State)
      reads this
    {
      && pool in pools && pools[pool] == s.Header() && ValidState(s) && InBlocks(s, pool)
      && Linked(trailers, s.small.chain.last, s.small.blocks) && Linked(trailers, s.big.chain.last, s.big.blocks)
      && Owned(live, s.All())
    }

    /** `malloc`, answering with `at`. */
    method Alloc(n: nat, at: nat)
      requires FreshIn(live, at, n)
      modifies this`live
      ensures live == old(live)[at := n]
    {
      live := live[at := n];
    }

    /** `free`: what was stored in the area is gone. */
    method Free(mem: nat, ghost b: Block)
      requires mem in live && b.base == mem && live[mem] == b.AllocSize()
      modifies this
      ensures live == old(live) - {mem}
      ensures trailers == Without(old(trailers), b) && pools == Without(old(pools), b)
    {
      var n := live[mem];
      trailers := map a | a in trailers && !(mem <= a < mem + n) :: trailers[a];
      pools := map a | a in pools && !(mem <= a < mem + n) :: pools[a];
      live := live - {mem};
    }

    /** `mempool_new_block`. */
    method NewBlock(chain: Chain, size: nat, mem: nat, ghost blocks: seq<Block>) returns (grown: Chain)
      requires FreshIn(live, mem, size + SIZEOF_BLOCK)
      modifies this`live, this`trailers
      ensures grown == Mempools.NewBlock(Blocks(chain, blocks), size, mem).chain
      ensures live == old(live)[mem := size + SIZEOF_BLOCK]
      ensures trailers == old(trailers)[mem + size := Trailer(chain.last, size + SIZEOF_BLOCK, size)]
    {
      var allocSize := size + SIZEOF_BLOCK;
      Alloc(allocSize, mem);
      var block := mem + size;
      trailers := trailers[block := Trailer(chain.last, allocSize, size)];
      grown := Chain(block, size, chain.totalSize + allocSize, chain.numBlocks + 1);
    }

    /** The body of `mempool_malloc`, on a header that is already loaded; `mem` is what `malloc` answers if it is
        asked. */
    method Serve(header: Pool, size: nat, mem: nat, ghost s: State) returns (updated: Pool, addr: int)
      requires header == s.Header()
      requires NeedsBlock(s, size) ==> FreshIn(live, mem, NewBlockSize(s, size) + SIZEOF_BLOCK)
      modifies this`live, this`trailers
      ensures updated == Malloc(s, size, mem).0.Header() && addr == Malloc(s, size, mem).1
      ensures live == LiveAfter(old(live), s, size, mem) && trailers == TrailersAfter(old(trailers), s, size, mem)
    {
      hide FreshIn;
      var chain := if size <= header.smallTreshold then header.small else header.big;
      if size <= header.smallTreshold {
        if chain.lastFree < size {
          chain := NewBlock(chain, header.blockSize, mem, s.small.blocks);
        }
      } else {
        chain := NewBlock(chain, size, mem, s.big.blocks);
      }
      addr := chain.last - chain.lastFree;
      chain := chain.(lastFree := chain.lastFree - size);
      updated := if size <= header.smallTreshold then header.(small := chain) else header.(big := chain);
    }

    /** `mempool_malloc` on the pool whose header is at `pool`. */
    method MempoolMalloc(pool: nat, size: nat, mem: nat, ghost s: State) returns (addr: int)
      requires Holds(pool, s)
      requires NeedsBlock(s, size) ==> FreshIn(live, mem, NewBlockSize(s, size) + SIZEOF_BLOCK)
      modifies this
      ensures FreshBlock(s, size, mem)
      ensures Holds(pool, Malloc(s, size, mem).0) && addr == Malloc(s, size, mem).1
      ensures live == LiveAfter(old(live), s, size, mem) && trailers == TrailersAfter(old(trailers), s, size, mem)
      ensures pools == old(pools)[pool := Malloc(s, size, mem).0.Header()]
    {
      hide ValidState, InBlocks, Linked, Owned, FreshBlock, FreshIn, State.All, Malloc, LiveAfter, TrailersAfter;
      FreshForPool(live, s, size, mem);
      MallocKeepsValid(s, size, mem);
      BlocksStayOwned(live, s, size, mem, pool);
      ChainsStayLinked(trailers, s, size, mem);
      var header: Pool;
      header, addr := Serve(pools[pool], size, mem, s);
      pools := pools[pool := header];
    }

    /** `mempool_new`: a header on the stack serves the request for its own copy. */
    method MempoolNew(blockSize: nat, mem: nat) returns (pool: nat)
      requires FreshIn(live, mem, NewBlockSize(EmptyPool(blockSize), SIZEOF_POOL) + SIZEOF_BLOCK)
      modifies this
      ensures Holds(pool, New(blockSize, mem).0) && pool == New(blockSize, mem).1
      ensures live == LiveAfter(old(live), EmptyPool(blockSize), SIZEOF_POOL, mem)
    {
      hide FreshIn, LiveAfter, TrailersAfter, Linked, ValidState;
      ghost var none := EmptyPool(blockSize);
      var emptyChain := Chain(0, 0, 0, 0);
      assert mem > 0 && FreshBlock(none, SIZEOF_POOL, mem) by {
        FreshIsPositive(live, mem, NewBlockSize(none, SIZEOF_POOL) + SIZEOF_BLOCK);
      }
      EmptyPoolIsValid(blockSize);
      MallocKeepsValid(none, SIZEOF_POOL, mem);
      NewIsOwned(live, trailers, blockSize, mem);
      var header, addr := Serve(Pool(emptyChain, emptyChain, blockSize, blockSize / 2), SIZEOF_POOL, mem, none);
      pool := addr;
      pools := pools[pool := header];
    }

    /** `mempool_free_chain`: each trailer is read before the block that it is in is freed. */
    method FreeChain(chain: Chain, ghost blocks: seq<Block>) returns (emptied: Chain, freed: seq<nat>)
      requires Linked(trailers, chain.last, blocks) && Owned(live, blocks) && BlocksApart(blocks)
      requires chain.numBlocks == |blocks| && chain.totalSize == TotalSize(blocks)
      modifies this
      ensures freed == BaseList(blocks) && emptied == Chain(0, chain.lastFree, 0, 0)
      ensures live == old(live) - Bases(blocks)
      ensures trailers == WithoutAll(old(trailers), blocks) && pools == WithoutAll(old(pools), blocks)
    {
      hide BlocksApart, Without;
      emptied := chain;
      freed := [];
      ghost var rest := blocks;
      while emptied.last != 0
        invariant |freed| + |rest| == |blocks| && rest == blocks[|freed|..] && freed == BaseList(blocks[..|freed|])
        invariant Linked(trailers, emptied.last, rest) && Owned(live, rest) && BlocksApart(rest)
        invariant emptied == Chain(emptied.last, chain.lastFree, TotalSize(rest), |rest|)
        invariant live - Bases(rest) == old(live) - Bases(blocks)
        invariant WithoutAll(trailers, rest) == WithoutAll(old(trailers), blocks)
        invariant WithoutAll(pools, rest) == WithoutAll(old(pools), blocks)
        decreases |rest|
      {
        FreeStep(trailers, live, emptied.last, rest);
        assert rest[0] in rest;
        var block := emptied.last;
        var trailer := trailers[block];
        var mem := block - trailer.size;
        emptied := Chain(trailer.prev, emptied.lastFree, emptied.totalSize - trailer.allocSize, emptied.numBlocks - 1);
        Free(mem, rest[0]);
        freed := freed + [mem];
        rest := rest[1..];
      }
      assert blocks[..|freed|] == blocks;
    }

    /** `mempool_delete`: the header is copied first, because it goes with its block. Every block is freed exactly once,
        and nothing else is. */
    method MempoolDelete(pool: nat, ghost s: State) returns (freed: seq<nat>)
      requires Holds(pool, s)
      modifies this
      ensures freed == BaseList(s.All()) && forall i, j :: 0 <= i < j < |freed| ==> freed[i] != freed[j]
      ensures live == old(live) - Bases(s.All())
      ensures pool !in pools
      ensures trailers == WithoutAll(old(trailers), s.All()) && pools == WithoutAll(old(pools), s.All())
    {
      hide WithoutAll, BlocksApart;
      BigChainSurvives(live, trailers, s);
      WithoutBoth(trailers, s.small.blocks, s.big.blocks);
      WithoutBoth(pools, s.small.blocks, s.big.blocks);
      WithoutAllAt(pools, s.All(), pool);
      BasesDiffer(s.All());
      var copy := pools[pool];
      var small, freedSmall := FreeChain(copy.small, s.small.blocks);
      var big, freedBig := FreeChain(copy.big, s.big.blocks);
      freed := freedSmall + freedBig;
    }

    /** A pool's whole life, from `mempool_new` over any requests to `mempool_delete`, gives back what it took. */
    method Lifetime(blockSize: nat, mem: nat, reqs: seq<Request>) returns (addrs: seq<int>)
      requires FreshIn(live, mem, NewBlockSize(EmptyPool(blockSize), SIZEOF_POOL) + SIZEOF_BLOCK)
      requires HeapAnswers(LiveAfter(live, EmptyPool(blockSize), SIZEOF_POOL, mem), New(blockSize, mem).0, reqs)
      modifies this
      ensures live == old(live)
      ensures |addrs| == |reqs|
      ensures forall i :: 0 <= i < |addrs| ==> addrs[i] == Regions(New(blockSize, mem).0, reqs)[i].addr
      ensures forall i, j :: 0 <= i < j < |reqs| ==>
                addrs[i] + reqs[i].size <= addrs[j] || addrs[j] + reqs[j].size <= addrs[i]
    {
      hide Holds, Malloc, FreshIn, NeedsBlock, NewBlockSize;
      var pool := MempoolNew(blockSize, mem);
      ghost var s := New(blockSize, mem).0;
      LifeStarts(old(live), blockSize, mem);
      RegionsOfLife(old(live), old(trailers), blockSize, mem, reqs);
      addrs := [];
      ghost var regions := Regions(s, reqs);
      while |addrs| < |reqs|
        invariant |addrs| <= |reqs| && Holds(pool, s) && HeapAnswers(live, s, reqs[|addrs|..])
        invariant live - Bases(s.All()) == old(live)
        invariant forall i :: 0 <= i < |addrs| ==> addrs[i] == regions[i].addr
        invariant regions[|addrs|..] == Regions(s, reqs[|addrs|..])
      {
        ghost var rest := reqs[|addrs|..];
        var r := reqs[|addrs|];
        LifeGoesOn(old(live), live, s, r.size, r.mem);
        var addr := MempoolMalloc(pool, r.size, r.mem, s);
        assert rest[1..] == reqs[|addrs| + 1..];
        assert regions[|addrs|..][0] == regions[|addrs|];
        assert regions[|addrs|..][1..] == regions[|addrs| + 1..];
        s := Malloc(s, r.size, r.mem).0;
        addrs := addrs + [addr];
      }
      var freed := MempoolDelete(pool, s);
    }
  }
}
