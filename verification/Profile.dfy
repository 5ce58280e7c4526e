/** The block profiler: a hash table of block counts, and the counts of blocks
    that are entered by falling through (engine/profile.c). */
module Profile {
  import opened Basics
  import opened FallThrough

  const HASH_SIZE := 0x10_0000

  /** `hash`, with cells of 8 bytes. */
  function Hash(ip: int): (h: int)
    ensures 0 <= h < HASH_SIZE
  {
    (ip / 8) % HASH_SIZE
  }

  /** `struct block_count` */
  class Block {
    const ip: int
    var count: int
    var fallthrough: Block?

    constructor (ip: int)
      ensures this.ip == ip && count == 0 && fallthrough == null
    {
      this.ip, count, fallthrough := ip, 0, null;
    }
  }

  /** The edges with the one of block `ip`, if a block follows. */
  function Extended(e: Edges, ip: int, code: Code, blocks: set<int>, end: int): Edges
    requires CodeOk(code)
  {
    var n := Successor(code, blocks, ip, end);
    if n.Some? then WithEdge(e, ip, n.value) else e
  }

  ghost predicate EdgeOk(edges: Edges, index: map<int, Block>, ip: int) {
    ip in edges && ip in index && edges[ip] in index
  }

  /** A block holds its count, and its pointer is its edge. */
  ghost predicate Linked(index: map<int, Block>, edges: Edges, counts: Counts, ip: int)
    requires ip in index
    reads index[ip]
  {
    && ip in counts && index[ip].count == counts[ip]
    && index[ip].fallthrough == if EdgeOk(edges, index, ip) then index[edges[ip]] else null
  }

  /** Blocks are known by their addresses. */
  ghost predicate Indexed(index: map<int, Block>, repr: set<Block>, ip: int) {
    ip in index && index[ip].ip == ip && index[ip] in repr && ip >= 0
  }

  ghost predicate Known(index: map<int, Block>, b: Block) {
    b.ip in index && index[b.ip] == b
  }

  ghost predicate IndexOk(index: map<int, Block>, repr: set<Block>) {
    && (forall ip {:trigger Indexed(index, repr, ip)} | ip in index :: Indexed(index, repr, ip))
    && (forall b {:trigger Known(index, b)} | b in repr :: Known(index, b))
  }

  /** Blocks, edges and counts agree. */
  ghost predicate Consistent(index: map<int, Block>, repr: set<Block>, edges: Edges, counts: Counts)
    reads repr
  {
    && IndexOk(index, repr) && counts.Keys == index.Keys
    && (forall ip {:trigger Linked(index, edges, counts, ip)} | ip in index ::
          assert Indexed(index, repr, ip); Linked(index, edges, counts, ip))
    && (forall ip {:trigger EdgeOk(edges, index, ip)} | ip in edges :: EdgeOk(edges, index, ip))
  }

  lemma {:induction false} IndexInsert(index: map<int, Block>, repr: set<Block>, b: Block)
    requires IndexOk(index, repr) && b.ip >= 0 && b.ip !in index
    ensures IndexOk(index[b.ip := b], repr + {b})
  {
    var index', repr' := index[b.ip := b], repr + {b};
    forall ip | ip in index' ensures Indexed(index', repr', ip) {
      assert ip != b.ip ==> Indexed(index, repr, ip);
    }
    forall c | c in repr' ensures Known(index', c) {
      assert c != b ==> Known(index, c);
    }
  }

  lemma {:induction false} ConsistentInsert(index: map<int, Block>, repr: set<Block>, counts: Counts, b: Block)
    requires Consistent(index, repr, map[], counts)
    requires b.ip >= 0 && b.ip !in index && b.count == 0 && b.fallthrough == null
    ensures Consistent(index[b.ip := b], repr + {b}, map[], counts[b.ip := 0])
  {
    IndexInsert(index, repr, b);
    var index', counts' := index[b.ip := b], counts[b.ip := 0];
    forall ip | ip in index' ensures Linked(index', map[], counts', ip) {
      assert ip != b.ip ==> Linked(index, map[], counts, ip);
    }
  }

  type Chains = seq<seq<Block>>

  /** A chain has exactly the blocks with its hash value, each once. */
  ghost predicate ChainOk(chain: seq<Block>, index: map<int, Block>, h: int) {
    && (forall k | 0 <= k < |chain| :: chain[k].ip in index && index[chain[k].ip] == chain[k] && Hash(chain[k].ip) == h)
    && (forall j, k | 0 <= j < k < |chain| :: chain[j] != chain[k])
    && (forall ip | ip in index && Hash(ip) == h :: index[ip] in chain && index[ip].ip == ip)
  }

  /** The first `n` chains are right. */
  ghost predicate ChainsOk(buckets: Chains, index: map<int, Block>, n: nat)
    requires n <= |buckets|
    decreases n, 1
  {
    n == 0 || LastChainOk(buckets, index, n)
  }

  ghost predicate LastChainOk(buckets: Chains, index: map<int, Block>, n: nat)
    requires 0 < n <= |buckets|
    decreases n, 0
  {
    ChainsOk(buckets, index, n - 1) && ChainOk(buckets[n - 1], index, n - 1)
  }

  ghost predicate BucketsOk(buckets: Chains, index: map<int, Block>) {
    |buckets| == HASH_SIZE && ChainsOk(buckets, index, HASH_SIZE)
  }

  lemma {:induction false} ChainAt(buckets: Chains, index: map<int, Block>, n: nat, h: nat)
    requires h < n <= |buckets| && ChainsOk(buckets, index, n)
    ensures ChainOk(buckets[h], index, h)
  {
    assert LastChainOk(buckets, index, n);
    if h < n - 1 { ChainAt(buckets, index, n - 1, h); }
  }

  lemma {:induction false} ChainsInsert(buckets: Chains, index: map<int, Block>, b: Block, n: nat)
    requires n <= |buckets| == HASH_SIZE && ChainsOk(buckets, index, n) && b.ip !in index
    ensures var h := Hash(b.ip); ChainsOk(buckets[h := [b] + buckets[h]], index[b.ip := b], n)
  {
    if n > 0 {
      assert LastChainOk(buckets, index, n);
      ChainsInsert(buckets, index, b, n - 1);
      ChainInsert(buckets[n - 1], index, b, n - 1);
      assert LastChainOk(buckets[Hash(b.ip) := [b] + buckets[Hash(b.ip)]], index[b.ip := b], n);
    }
  }

  /** A new block goes to the front of its chain. */
  function Inserted(buckets: Chains, b: Block): (r: Chains)
    requires |buckets| == HASH_SIZE
  {
    buckets[Hash(b.ip) := [b] + buckets[Hash(b.ip)]]
  }

  lemma {:induction false} BucketsInsert(buckets: Chains, index: map<int, Block>, b: Block)
    requires BucketsOk(buckets, index) && b.ip !in index
    ensures BucketsOk(Inserted(buckets, b), index[b.ip := b])
  {
    ChainsInsert(buckets, index, b, HASH_SIZE);
  }

  lemma {:induction false} ChainInsert(chain: seq<Block>, index: map<int, Block>, b: Block, h: nat)
    requires ChainOk(chain, index, h) && b.ip !in index
    ensures ChainOk(if h == Hash(b.ip) then [b] + chain else chain, index[b.ip := b], h)
  {
    if h == Hash(b.ip) {
      assert forall k | 0 < k < |[b] + chain| :: ([b] + chain)[k] == chain[k - 1];
      assert forall c | c in chain :: c in [b] + chain;
    }
  }

  lemma {:induction false} ChainsEmpty(buckets: Chains, n: nat)
    requires n <= |buckets| && forall h | 0 <= h < n :: buckets[h] == []
    ensures ChainsOk(buckets, map[], n)
  {
    if n > 0 {
      ChainsEmpty(buckets, n - 1);
      assert LastChainOk(buckets, map[], n);
    }
  }

  /** New blocks start with count 0. */
  function WithBlock(c: Counts, ip: int): (c': Counts)
    ensures ip in c'
  {
    if ip in c then c else c[ip := 0]
  }

  /** Block `ip` is entered once more. */
  function Counted(c: Counts, ip: int): Counts {
    WithBlock(c, ip)[ip := WithBlock(c, ip)[ip] + 1]
  }

  /** All counts are what falls through. */
  ghost predicate Totals(entered: Counts, e: Edges, c: Counts) {
    (forall x | x in c :: x >= 0) && (forall x {:trigger c[x]} | x in c :: c[x] == Total(entered, e, x))
  }

  /** `k` is added to the counts along the chain from `n`. */
  ghost predicate Spread(c: Counts, e: Edges, n: int, k: int, c': Counts) {
    c'.Keys == c.Keys && forall x | x in c :: c'[x] == c[x] + (if Reaches(e, n, x) then k else 0)
  }

  /** The same for the chain before `end`. */
  ghost predicate SpreadUpTo(c: Counts, e: Edges, n: int, k: int, c': Counts, end: Option<int>) {
    c'.Keys == c.Keys && forall x | x in c ::
      c'[x] == c[x] + (if Reaches(e, n, x) && (end.None? || x < end.value) then k else 0)
  }

  /** The addresses from `at` on. */
  function From(ips: set<int>, at: int): set<int> {
    set x | x in ips && x >= at
  }

  lemma {:induction false} FromShrinks(ips: set<int>, at: int, next: int)
    requires at in ips && at < next
    ensures |From(ips, next)| < |From(ips, at)|
  {
    Smaller(From(ips, next), From(ips, at), at);
  }

  lemma {:induction false} Smaller(a: set<int>, b: set<int>, x: int)
    requires a <= b && x in b && x !in a
    ensures |a| < |b|
  {
    assert |b| == |a| + |b - a| by { assert a + (b - a) == b; }
    assert x in b - a;
  }

  function IpOf(b: Block?): Option<int> {
    if b == null then None else Some(b.ip)
  }

  function NextIn(e: Edges, at: int): Option<int> {
    if at in e then Some(e[at]) else None
  }

  function Remaining(ips: set<int>, at: Option<int>): nat {
    if at.None? then 0 else 1 + |From(ips, at.value)|
  }

  /** The walk along the chain from `n` has come to `at`. */
  ghost predicate Walked(c: Counts, e: Edges, n: int, k: int, c': Counts, at: Option<int>) {
    SpreadUpTo(c, e, n, k, c', at) && (at.Some? ==> Reaches(e, n, at.value))
  }

  lemma {:induction false} WalkFrom(c: Counts, e: Edges, n: int, k: int)
    ensures Walked(c, e, n, k, c, Some(n))
  {
    ReachesForwardAll(e, n);
  }

  lemma {:induction false} WalkStep(ips: set<int>, c: Counts, e: Edges, n: int, k: int, c1: Counts, at: int)
    requires Walked(c, e, n, k, c1, Some(at)) && at in c1 && at in ips
    ensures Walked(c, e, n, k, c1[at := c1[at] + k], NextIn(e, at))
    ensures Remaining(ips, NextIn(e, at)) < Remaining(ips, Some(at))
  {
    ChainStep(e, n, at);
    if at in e { FromShrinks(ips, at, e[at]); }
  }

  lemma {:induction false} TotalsStep(entered: Counts, e: Edges, e': Edges, b: int, n: int, c: Counts, c': Counts)
    requires 0 <= b < n && b !in e && e' == WithEdge(e, b, n) && b in c
    requires Totals(entered, e, c) && Spread(c, e', n, c[b], c')
    ensures Totals(entered, e', c')
  {
    forall x | x in c' ensures x >= 0 && c'[x] == Total(entered, e', x) {
      assert x in c && b in c;
      TotalWithEdge(entered, e, e', b, n, x);
      ReachesUnchanged(e, b, n, n, x);
    }
  }

  class Table {
    /** The array of chains, the newest block of a chain first. */
    var buckets: Chains
    ghost var index: map<int, Block>
    ghost var repr: set<Block>
    /** How often each block was entered by a branch or call. */
    ghost var entered: Counts
    ghost var edges: Edges
    ghost var counts: Counts

    ghost predicate Valid()
      reads this, repr
    {
      AllLinked() && BucketsOk(buckets, index) && entered.Keys == index.Keys && Totals(entered, edges, counts)
    }

    /** While the program runs, there are no edges. */
    ghost predicate Counting()
      reads this, repr
    {
      AllLinked() && BucketsOk(buckets, index) && edges == map[] && counts == entered
    }

    ghost predicate AllLinked()
      reads this`index, this`repr, this`edges, this`counts, repr
    {
      Consistent(index, repr, edges, counts)
    }

    constructor ()
      ensures Counting() && index == map[]
    {
      var empty := seq(HASH_SIZE, i => []);
      ChainsEmpty(empty, |empty|);
      buckets := empty;
      index, repr, entered, edges, counts := map[], {}, map[], map[], map[];
    }

    /** `block_lookup` */
    method Lookup(ip: int) returns (b: Block?)
      requires BucketsOk(buckets, index)
      ensures b == if ip in index then index[ip] else null
    {
      var h := Hash(ip);
      var chain := buckets[h];
      ChainAt(buckets, index, HASH_SIZE, h);
      var k := 0;
      while k < |chain|
        invariant 0 <= k <= |chain|
        invariant forall j | 0 <= j < k :: chain[j].ip != ip
      {
        if chain[k].ip == ip { return chain[k]; }
        k := k + 1;
      }
      return null;
    }

    /** `block_insert` */
    method Insert(ip: int) returns (b: Block)
      requires Counting() && ip >= 0
      modifies this`buckets, this`index, this`repr, this`entered, this`counts
      ensures Counting() && ip in index && b == index[ip] && b.ip == ip && b in repr && fresh(repr - old(repr))
      ensures entered == WithBlock(old(entered), ip)
    {
      var found := Lookup(ip);
      if found != null {
        assert Indexed(index, repr, ip);
        return found;
      }
      b := new Block(ip);
      InsertNew(b);
    }

    method InsertNew(b: Block)
      requires Counting() && b.ip >= 0 && b.ip !in index && b.count == 0 && b.fallthrough == null
      modifies this`buckets, this`index, this`repr, this`entered, this`counts
      ensures Counting() && index == old(index)[b.ip := b] && repr == old(repr) + {b}
      ensures entered == old(entered)[b.ip := 0]
    {
      BucketsInsert(buckets, index, b);
      ConsistentInsert(index, repr, counts, b);
      buckets := Inserted(buckets, b);
      index, repr, counts := index[b.ip := b], repr + {b}, counts[b.ip := 0];
      entered := counts;
    }

    /** `vm_count_block` */
    method CountBlock(ip: int)
      requires Counting() && ip >= 0
      modifies this`buckets, this`index, this`repr, this`entered, this`counts, repr
      ensures Counting()
      ensures entered == Counted(old(entered), ip)
    {
      ghost var c := entered;
      var b := Insert(ip);
      Add(b, 1);
      entered := Counted(c, ip);
    }

    /** `postprocess_block`: the block that follows gets an edge from this one,
        and all blocks behind that get its count. */
    method PostprocessBlock(b: Block, code: Code, end: int)
      requires Valid() && b in repr && b.ip !in edges && CodeOk(code)
      modifies repr, this`edges, this`counts
      ensures Valid()
      ensures edges == Extended(old(edges), b.ip, code, index.Keys, end)
      ensures forall n :: b.ip in edges && edges[b.ip] == n <==> FallsInto(code, index.Keys, end, b.ip, n)
    {
      SuccessorFalls(code, index.Keys, end, b.ip);
      var next := NextBlock(b, code, end);
      if next != null { AddEdge(b, next); }
    }

    method AddEdge(b: Block, next: Block)
      requires AllLinked() && b in repr && next in repr && b.ip < next.ip && b.ip !in edges
      requires Totals(entered, edges, counts)
      modifies repr, this`edges, this`counts
      ensures AllLinked() && Totals(entered, edges, counts)
      ensures edges == WithEdge(old(edges), b.ip, next.ip)
    {
      ghost var e, c := edges, counts;
      Link(b, next);
      assert Known(index, b);
      AddAll(b, next);
      TotalsStep(entered, e, edges, b.ip, next.ip, c, counts);
    }

    /** `b->fallthrough = next_block` */
    method Link(b: Block, next: Block)
      requires AllLinked() && b in repr && next in repr && b.ip < next.ip && b.ip !in edges
      modifies b`fallthrough, this`edges
      ensures AllLinked() && edges == WithEdge(old(edges), b.ip, next.ip)
    {
      b.fallthrough := next;
      edges := WithEdge(edges, b.ip, next.ip);
      assert Known(index, b) && Known(index, next);
      forall ip | ip in index ensures Linked(index, edges, counts, ip) {
        assert Indexed(index, repr, ip) && old(Linked(index, edges, counts, ip));
        assert ip != b.ip ==> EdgeOk(edges, index, ip) == old(EdgeOk(edges, index, ip));
      }
      forall ip | ip in edges ensures EdgeOk(edges, index, ip) { assert ip != b.ip ==> old(EdgeOk(edges, index, ip)); }
    }

    method Add(b: Block, k: int)
      requires AllLinked() && b in repr
      modifies b`count, this`counts
      ensures AllLinked() && b.ip in old(counts) && counts == old(counts)[b.ip := old(counts)[b.ip] + k]
    {
      assert Known(index, b) && Linked(index, edges, counts, b.ip);
      b.count := b.count + k;
      counts := counts[b.ip := b.count];
      forall ip | ip in index ensures Linked(index, edges, counts, ip) {
        assert Indexed(index, repr, ip) && old(Linked(index, edges, counts, ip));
      }
    }

    /** `fallthrough` is the edge. */
    method Follow(cur: Block) returns (next: Block?)
      requires AllLinked() && cur in repr
      ensures IpOf(next) == NextIn(edges, cur.ip) && (next != null ==> next in repr)
    {
      next := cur.fallthrough;
      assert Known(index, cur) && Linked(index, edges, counts, cur.ip);
      if cur.ip in edges { assert EdgeOk(edges, index, cur.ip) && Indexed(index, repr, edges[cur.ip]); }
    }

    /** The loop over the blocks that follow. */
    method AddAll(b: Block, next: Block)
      requires AllLinked() && b in repr && Known(index, b) && next in repr && b.ip < next.ip
      modifies repr`count, this`counts
      ensures AllLinked() && Spread(old(counts), edges, next.ip, old(counts)[b.ip], counts)
    {
      var cur: Block? := next;
      ghost var c, e, n, k := counts, edges, next.ip, b.count;
      assert Linked(index, edges, counts, b.ip);
      WalkFrom(c, e, n, k);
      while cur != null
        invariant AllLinked() && edges == e && b.count == k
        invariant cur != null ==> cur in repr && b.ip < cur.ip
        invariant Walked(c, e, n, k, counts, IpOf(cur))
        decreases Remaining(index.Keys, IpOf(cur))
      {
        assert Known(index, cur);
        WalkStep(index.Keys, c, e, n, k, counts, cur.ip);
        Add(cur, b.count);
        cur := Follow(cur);
      }
    }

    /** `postprocess`: whatever the order of the blocks in the table, every
        block ends up with the number of entries, at this or any other block,
        from which execution runs straight into it. */
    method Postprocess(code: Code, end: int)
      requires Counting() && CodeOk(code)
      modifies repr, this`edges, this`counts
      ensures Valid() && edges == AllEdges(code, index.Keys, end)
      ensures forall b, n | b in index ::
                b in edges && edges[b] == n <==> FallsInto(code, index.Keys, end, b, n)
      ensures forall x | x in index :: index[x].count == Entries(entered, code, end, x, x + 1)
    {
      PostprocessChains(code, end);
      EdgesFall(code, index.Keys, end);
      forall x | x in index ensures index[x].count == Entries(entered, code, end, x, x + 1) {
        assert Linked(index, edges, counts, x) && Indexed(index, repr, x);
        TotalIsEntries(entered, code, index.Keys, end, x);
      }
    }

    method PostprocessChains(code: Code, end: int)
      requires Counting() && CodeOk(code)
      modifies repr, this`edges, this`counts
      ensures Valid() && edges == AllEdges(code, index.Keys, end)
    {
      forall ip | ip in entered ensures ip >= 0 { assert Indexed(index, repr, ip); }
      CountingTotals(entered);
      NoneProcessed(code, index, end);
      var i := 0;
      while i < HASH_SIZE
        invariant 0 <= i <= HASH_SIZE && Valid()
        invariant EdgesUpTo(code, index, end, i, [], edges)
      {
        PostprocessChain(i, code, end);
        i := i + 1;
      }
      AllDone(code, index, end, edges);
    }

    method PostprocessChain(i: int, code: Code, end: int)
      requires Valid() && 0 <= i < HASH_SIZE && CodeOk(code) && EdgesUpTo(code, index, end, i, [], edges)
      modifies repr, this`edges, this`counts
      ensures Valid() && EdgesUpTo(code, index, end, i + 1, [], edges)
    {
      var chain := buckets[i];
      ChainAt(buckets, index, HASH_SIZE, i);
      var k := 0;
      assert chain[..0] == [];
      while k < |chain|
        invariant 0 <= k <= |chain| && Valid()
        invariant EdgesUpTo(code, index, end, i, chain[..k], edges)
      {
        NextEdge(code, index, end, i, chain, k, edges);
        assert Indexed(index, repr, chain[k].ip);
        PostprocessBlock(chain[k], code, end);
        k := k + 1;
      }
      assert chain[..k] == chain;
      ChainDone(code, index, end, i, chain, edges);
    }

    /** The walk to the next block. */
    method NextBlock(b: Block, code: Code, end: int) returns (next: Block?)
      requires AllLinked() && BucketsOk(buckets, index) && CodeOk(code)
      ensures IpOf(next) == Successor(code, index.Keys, b.ip, end)
      ensures next != null ==> next in repr
    {
      var ip := b.ip;
      next := null;
      while next == null && ip < end
        invariant next != null ==> next in repr && Some(next.ip) == Successor(code, index.Keys, b.ip, end)
        invariant next == null ==> Successor(code, index.Keys, b.ip, end) == Successor(code, index.Keys, ip, end)
        decreases end - ip, next == null
      {
        var i := code(ip);
        if i.ends { return; }
        ip := ip + i.len;
        next := Lookup(ip);
        if next != null { assert Indexed(index, repr, ip); }
      }
    }
  }

  lemma {:induction false} ReachesForwardAll(e: Edges, c: int)
    ensures forall x | Reaches(e, c, x) :: c <= x
  {
  }

  /** Between a block of a chain and the next one there is no other. */
  lemma {:induction false} ChainStep(e: Edges, c: int, at: int)
    requires Reaches(e, c, at)
    ensures at in e ==> Reaches(e, c, e[at])
    ensures forall y | Reaches(e, c, y) && at < y :: at in e && e[at] <= y
  {
    if at in e { ReachesNext(e, c, at); }
    forall y | Reaches(e, c, y) && at < y ensures at in e && e[at] <= y { ReachesBehind(e, c, at, y); }
  }

  lemma {:induction false} CountingTotals(c: Counts)
    requires forall x | x in c :: x >= 0
    ensures Totals(c, map[], c)
  {
    forall x | x in c ensures c[x] == Total(c, map[], x) { TotalAlone(c, x, x + 1); }
  }

  /** The block at `ip` has been processed: it is in one of the first `i` chains
      or in `part` of the next one. */
  predicate Processed(i: int, part: seq<Block>, ip: int) {
    Hash(ip) < i || exists j | 0 <= j < |part| :: part[j].ip == ip
  }

  /** A processed block has its edge, and any other has none. */
  ghost predicate EdgeAt(code: Code, index: map<int, Block>, end: int, i: int, part: seq<Block>, e: Edges, ip: int)
    requires CodeOk(code)
  {
    && (ip in e <==> ip in index && Processed(i, part, ip) && Successor(code, index.Keys, ip, end).Some?)
    && (ip in e ==> Successor(code, index.Keys, ip, end) == Some(e[ip]))
  }

  ghost predicate EdgesUpTo(code: Code, index: map<int, Block>, end: int, i: int, part: seq<Block>, e: Edges)
    requires CodeOk(code)
  {
    forall ip {:trigger EdgeAt(code, index, end, i, part, e, ip)} :: EdgeAt(code, index, end, i, part, e, ip)
  }

  lemma {:induction false} NoneProcessed(code: Code, index: map<int, Block>, end: int)
    requires CodeOk(code)
    ensures EdgesUpTo(code, index, end, 0, [], map[])
  {
    forall ip ensures EdgeAt(code, index, end, 0, [], map[], ip) { assert !Processed(0, [], ip); }
  }

  /** A block further on in its chain has not been processed, and gets its edge. */
  lemma {:induction false} NextEdge(
    code: Code, index: map<int, Block>, end: int, i: int, chain: seq<Block>, k: int, e: Edges)
    requires CodeOk(code) && ChainOk(chain, index, i) && 0 <= k < |chain|
    requires EdgesUpTo(code, index, end, i, chain[..k], e)
    ensures chain[k].ip !in e && chain[k].ip in index && index[chain[k].ip] == chain[k]
    ensures EdgesUpTo(code, index, end, i, chain[..k + 1], Extended(e, chain[k].ip, code, index.Keys, end))
  {
    var ip := chain[k].ip;
    assert EdgeAt(code, index, end, i, chain[..k], e, ip);
    assert chain[..k + 1] == chain[..k] + [chain[k]];
    OneMoreEdge(code, index, end, i, chain[..k], chain[k], e);
  }

  lemma {:induction false} ProcessedMore(i: int, part: seq<Block>, b: Block, ip: int)
    ensures Processed(i, part + [b], ip) <==> Processed(i, part, ip) || ip == b.ip
  {
    assert (part + [b])[|part|] == b;
    assert forall j | 0 <= j < |part| :: (part + [b])[j] == part[j];
  }

  lemma {:induction false} OneMoreEdge(
    code: Code, index: map<int, Block>, end: int, i: int, part: seq<Block>, b: Block, e: Edges)
    requires CodeOk(code) && EdgesUpTo(code, index, end, i, part, e) && b.ip in index
    ensures EdgesUpTo(code, index, end, i, part + [b], Extended(e, b.ip, code, index.Keys, end))
  {
    var e' := Extended(e, b.ip, code, index.Keys, end);
    forall ip ensures EdgeAt(code, index, end, i, part + [b], e', ip) {
      assert EdgeAt(code, index, end, i, part, e, ip);
      ProcessedMore(i, part, b, ip);
    }
  }

  /** The next chain starts when all blocks of this one are processed. */
  lemma {:induction false} ChainDone(
    code: Code, index: map<int, Block>, end: int, i: int, chain: seq<Block>, e: Edges)
    requires CodeOk(code) && ChainOk(chain, index, i) && EdgesUpTo(code, index, end, i, chain, e)
    ensures EdgesUpTo(code, index, end, i + 1, [], e)
  {
    var i' := i + 1;
    forall ip ensures EdgeAt(code, index, end, i', [], e, ip) {
      assert EdgeAt(code, index, end, i, chain, e, ip);
      if ip in index && Hash(ip) == i {
        assert index[ip] in chain;
        var j :| 0 <= j < |chain| && chain[j] == index[ip];
      }
    }
  }

  lemma {:induction false} AllDone(code: Code, index: map<int, Block>, end: int, e: Edges)
    requires CodeOk(code) && EdgesUpTo(code, index, end, HASH_SIZE, [], e)
    ensures e == AllEdges(code, index.Keys, end)
  {
    var a := AllEdges(code, index.Keys, end);
    forall ip ensures (ip in e <==> ip in a) && (ip in e ==> e[ip] == a[ip]) {
      assert EdgeAt(code, index, end, HASH_SIZE, [], e, ip) && Processed(HASH_SIZE, [], ip);
    }
  }
}
