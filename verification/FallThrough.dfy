/** Which blocks contribute to the count of a block: chains of fall-through
    edges (engine/profile.c). */
module FallThrough {
  import opened Basics

  /** What the instruction at an address is like: its length in cells, and
      whether it ends a block (SUPER_END). */
  datatype VmInst = VmInst(len: nat, ends: bool)

  type Code = int -> VmInst

  /** Instructions take at least the cell of the instruction. */
  ghost predicate CodeOk(code: Code) {
    forall p: int :: code(p).len > 0
  }

  /** The block that is entered from `ip` on without a block end in between. */
  function Successor(code: Code, blocks: set<int>, ip: int, end: int): (n: Option<int>)
    requires CodeOk(code)
    ensures n.Some? ==> n.value > ip && n.value in blocks
    decreases if ip < end then end - ip else 0
  {
    if ip >= end || code(ip).ends then None
    else
      var p := ip + code(ip).len;
      if p in blocks then Some(p) else Successor(code, blocks, p, end)
  }

  /** Fall-through edges lead to later addresses. */
  type Edges = e: map<int, int> | forall b {:trigger e[b]} | b in e :: e[b] > b witness map[]

  /** There is a chain of edges from `c` to `x`. */
  function Reaches(e: Edges, c: int, x: int): bool
    decreases if c < x then x - c else 0
  {
    c == x || (c < x && c in e && Reaches(e, e[c], x))
  }

  type Counts = map<int, int>

  /** What `c` contributes to `x`. */
  function Term(counts: Counts, e: Edges, x: int, c: int): int {
    if c in counts && Reaches(e, c, x) then counts[c] else 0
  }

  /** The sum of the counts of the blocks below `k` whose chain reaches `x`. */
  function Sum(counts: Counts, e: Edges, x: int, k: nat): int {
    if k == 0 then 0
    else Sum(counts, e, x, k - 1) + Term(counts, e, x, k - 1)
  }

  /** The count of `x` with all that falls through to it. */
  function Total(counts: Counts, e: Edges, x: nat): int {
    Sum(counts, e, x, x + 1)
  }

  lemma {:induction false} ReachesForward(e: Edges, c: int, x: int)
    requires Reaches(e, c, x)
    ensures c <= x
  {
  }

  /** A new edge from `b`. */
  function WithEdge(e: Edges, b: int, n: int): (e': Edges)
    requires b < n
  {
    e[b := n]
  }

  lemma {:induction false} ReachesWithEdge(e: Edges, b: int, n: int, c: int, x: int)
    requires b < n && b !in e
    ensures Reaches(WithEdge(e, b, n), c, x) <==> Reaches(e, c, x) || (Reaches(e, c, b) && Reaches(e, n, x))
    ensures !(Reaches(e, c, x) && Reaches(e, c, b) && Reaches(e, n, x))
    decreases if c < x then x - c else 0
  {
    if c < x {
      if c == b {
        ReachesUnchanged(e, b, n, n, x);
      } else if c in e {
        ReachesWithEdge(e, b, n, e[c], x);
      }
    }
  }

  /** Chains that start behind `b` do not use its edge. */
  lemma {:induction false} ReachesUnchanged(e: Edges, b: int, n: int, c: int, x: int)
    requires b < n && b < c
    ensures Reaches(WithEdge(e, b, n), c, x) == Reaches(e, c, x)
    decreases if c < x then x - c else 0
  {
    if c < x && c in e { ReachesUnchanged(e, b, n, e[c], x); }
  }

  lemma {:induction false} TermWithEdge(counts: Counts, e: Edges, e': Edges, b: int, n: int, x: int, c: int)
    requires b < n && b !in e && e' == WithEdge(e, b, n)
    ensures Term(counts, e', x, c) == Term(counts, e, x, c) + (if Reaches(e, n, x) then Term(counts, e, b, c) else 0)
  {
    ReachesWithEdge(e, b, n, c, x);
  }

  lemma {:induction false} SumWithEdge(counts: Counts, e: Edges, e': Edges, b: int, x: int, k: nat, r: bool)
    requires forall c: int :: Term(counts, e', x, c) == Term(counts, e, x, c) + (if r then Term(counts, e, b, c) else 0)
    ensures Sum(counts, e', x, k) == Sum(counts, e, x, k) + (if r then Sum(counts, e, b, k) else 0)
  {
    if k > 0 {
      SumWithEdge(counts, e, e', b, x, k - 1, r);
      var c: int := k - 1;
      assert Term(counts, e', x, c) == Term(counts, e, x, c) + (if r then Term(counts, e, b, c) else 0);
    }
  }

  lemma {:induction false} SumBeyond(counts: Counts, e: Edges, x: nat, k: nat)
    requires k > x
    ensures Sum(counts, e, x, k) == Total(counts, e, x)
  {
    if k > x + 1 { SumBeyond(counts, e, x, k - 1); }
  }

  /** A new edge brings the total of its block to all blocks behind it. */
  lemma {:induction false} TotalWithEdge(counts: Counts, e: Edges, e': Edges, b: nat, n: nat, x: nat)
    requires b < n && b !in e && e' == WithEdge(e, b, n)
    ensures Total(counts, e', x) == Total(counts, e, x) + (if Reaches(e, n, x) then Total(counts, e, b) else 0)
  {
    var k := x + 1;
    forall c: int
      ensures Term(counts, e', x, c) == Term(counts, e, x, c) + (if Reaches(e, n, x) then Term(counts, e, b, c) else 0)
    {
      TermWithEdge(counts, e, e', b, n, x, c);
    }
    SumWithEdge(counts, e, e', b, x, k, Reaches(e, n, x));
    if Reaches(e, n, x) {
      ReachesForward(e, n, x);
      SumBeyond(counts, e, b, k);
    }
  }

  lemma {:induction false} TotalAlone(counts: Counts, x: nat, k: nat)
    requires x in counts && k <= x + 1
    ensures Sum(counts, map[], x, k) == if k == x + 1 then counts[x] else 0
  {
    if k > 0 { TotalAlone(counts, x, k - 1); }
  }

  // ----- walking a chain -----

  lemma {:induction false} ReachesNext(e: Edges, c: int, x: int)
    requires Reaches(e, c, x) && x in e
    ensures Reaches(e, c, e[x])
    decreases x - c
  {
    if c < x { ReachesNext(e, e[c], x); }
  }

  /** Behind `x` a chain goes on with its edge, or not at all. */
  lemma {:induction false} ReachesBehind(e: Edges, c: int, x: int, y: int)
    requires Reaches(e, c, x) && Reaches(e, c, y) && x < y
    ensures x in e && e[x] <= y
    decreases x - c
  {
    if c < x { ReachesBehind(e, e[c], x, y); } else { ReachesForward(e, e[c], y); }
  }

  // ----- straight-line execution -----

  /** The instruction at `a` does not end a block, and `b` is behind it. */
  ghost predicate Next(code: Code, end: int, a: int, b: int) {
    a < end && !code(a).ends && b == a + code(a).len
  }

  /** Execution from `s[0]` on to the last of these addresses, one instruction
      after the other. */
  ghost predicate Straight(code: Code, end: int, s: seq<int>) {
    s != [] && forall i {:trigger s[i]} | 0 <= i < |s| - 1 :: Next(code, end, s[i], s[i + 1])
  }

  ghost predicate StraightTo(code: Code, end: int, s: seq<int>, b: int, n: int) {
    Straight(code, end, s) && s[0] == b && s[|s| - 1] == n
  }

  /** The instructions of block `b` run on to block `n`, and to no other block
      before. */
  ghost predicate FallsInto(code: Code, blocks: set<int>, end: int, b: int, n: int) {
    n in blocks && exists s :: |s| > 1 && StraightTo(code, end, s, b, n) && NoneBetween(blocks, s)
  }

  ghost predicate NoneBetween(blocks: set<int>, s: seq<int>) {
    forall i | 0 < i < |s| - 1 :: s[i] !in blocks
  }

  /** Execution from `b` on gets to `n`, through other blocks or not. */
  ghost predicate RunsInto(code: Code, end: int, b: int, n: int) {
    exists s :: StraightTo(code, end, s, b, n)
  }

  lemma {:induction false} StraightAppend(code: Code, end: int, s: seq<int>, t: seq<int>)
    requires Straight(code, end, s) && Straight(code, end, t) && s[|s| - 1] == t[0]
    ensures Straight(code, end, s + t[1..])
  {
    var u, n := s + t[1..], |s| - 1;
    forall i | 0 <= i < |u| - 1 ensures Next(code, end, u[i], u[i + 1]) {
      if i < n {
        assert u[i] == s[i] && u[i + 1] == s[i + 1];
      } else {
        assert u[i] == t[i - n] && u[i + 1] == t[i - n + 1];
      }
    }
  }

  lemma {:induction false} StraightTail(code: Code, end: int, s: seq<int>, k: nat)
    requires Straight(code, end, s) && k < |s|
    ensures Straight(code, end, s[k..])
  {
    var t := s[k..];
    forall i | 0 <= i < |t| - 1 ensures Next(code, end, t[i], t[i + 1]) {
      assert t[i] == s[k + i] && t[i + 1] == s[k + i + 1];
    }
  }

  lemma {:induction false} SuccessorNext(code: Code, blocks: set<int>, end: int, a: int, b: int)
    requires CodeOk(code) && Next(code, end, a, b)
    ensures Successor(code, blocks, a, end) == if b in blocks then Some(b) else Successor(code, blocks, b, end)
  {
  }

  /** The walk of `postprocess_block` follows straight-line execution. */
  lemma {:induction false} SuccessorPath(code: Code, blocks: set<int>, ip: int, end: int) returns (s: seq<int>)
    requires CodeOk(code) && Successor(code, blocks, ip, end).Some?
    ensures |s| > 1 && StraightTo(code, end, s, ip, Successor(code, blocks, ip, end).value) && NoneBetween(blocks, s)
    decreases if ip < end then end - ip else 0
  {
    var p := ip + code(ip).len;
    SuccessorNext(code, blocks, end, ip, p);
    s := [ip, p];
    if p !in blocks {
      var t := SuccessorPath(code, blocks, p, end);
      StraightAppend(code, end, s, t);
      s := [ip] + t;
      assert s == [ip, p] + t[1..];
      forall i | 0 < i < |s| - 1 ensures s[i] !in blocks { assert s[i] == t[i - 1]; }
    }
  }

  /** Where it meets a block first, the walk ends. */
  lemma {:induction false} FirstBlock(code: Code, blocks: set<int>, end: int, s: seq<int>) returns (k: nat)
    requires CodeOk(code) && Straight(code, end, s) && |s| > 1 && s[|s| - 1] in blocks
    ensures 0 < k < |s| && s[k] in blocks && Successor(code, blocks, s[0], end) == Some(s[k])
    decreases |s|
  {
    SuccessorNext(code, blocks, end, s[0], s[1]);
    k := 1;
    if s[1] !in blocks {
      StraightTail(code, end, s, 1);
      var j := FirstBlock(code, blocks, end, s[1..]);
      assert s[1..][j] == s[j + 1];
      k := j + 1;
    }
  }

  /** The walk finds the block that is fallen into, if there is one. */
  lemma {:induction false} SuccessorIff(code: Code, blocks: set<int>, end: int, b: int, n: int)
    requires CodeOk(code)
    ensures Successor(code, blocks, b, end) == Some(n) <==> FallsInto(code, blocks, end, b, n)
  {
    if Successor(code, blocks, b, end) == Some(n) {
      var s := SuccessorPath(code, blocks, b, end);
    }
    if FallsInto(code, blocks, end, b, n) {
      var s :| |s| > 1 && StraightTo(code, end, s, b, n) && NoneBetween(blocks, s);
      var k := FirstBlock(code, blocks, end, s);
    }
  }

  lemma {:induction false} SuccessorFalls(code: Code, blocks: set<int>, end: int, b: int)
    requires CodeOk(code)
    ensures forall n :: Successor(code, blocks, b, end) == Some(n) <==> FallsInto(code, blocks, end, b, n)
    ensures Successor(code, blocks, b, end) == None <==> forall n :: !FallsInto(code, blocks, end, b, n)
  {
    forall n ensures Successor(code, blocks, b, end) == Some(n) <==> FallsInto(code, blocks, end, b, n) {
      SuccessorIff(code, blocks, end, b, n);
    }
    if Successor(code, blocks, b, end).Some? {
      assert FallsInto(code, blocks, end, b, Successor(code, blocks, b, end).value);
    }
  }

  /** The edges of all blocks. */
  function AllEdges(code: Code, blocks: set<int>, end: int): (e: Edges)
    requires CodeOk(code)
  {
    map b | b in blocks && Successor(code, blocks, b, end).Some? :: Successor(code, blocks, b, end).value
  }

  lemma {:induction false} EdgesFall(code: Code, blocks: set<int>, end: int)
    requires CodeOk(code)
    ensures var e := AllEdges(code, blocks, end);
            forall b, n | b in blocks :: b in e && e[b] == n <==> FallsInto(code, blocks, end, b, n)
  {
    var e := AllEdges(code, blocks, end);
    forall b, n | b in blocks ensures b in e && e[b] == n <==> FallsInto(code, blocks, end, b, n) {
      SuccessorIff(code, blocks, end, b, n);
    }
  }

  lemma {:induction false} ReachesPath(code: Code, blocks: set<int>, end: int, c: int, x: int) returns (s: seq<int>)
    requires CodeOk(code) && Reaches(AllEdges(code, blocks, end), c, x)
    ensures StraightTo(code, end, s, c, x)
    decreases if c < x then x - c else 0
  {
    if c == x {
      s := [c];
    } else {
      var t := SuccessorPath(code, blocks, c, end);
      var u := ReachesPath(code, blocks, end, AllEdges(code, blocks, end)[c], x);
      StraightAppend(code, end, t, u);
      s := t + u[1..];
    }
  }

  lemma {:induction false} PathReaches(code: Code, blocks: set<int>, end: int, s: seq<int>)
    requires CodeOk(code) && Straight(code, end, s) && s[0] in blocks && s[|s| - 1] in blocks
    ensures Reaches(AllEdges(code, blocks, end), s[0], s[|s| - 1]) && s[0] <= s[|s| - 1]
    decreases |s|
  {
    if |s| > 1 {
      var k := FirstBlock(code, blocks, end, s);
      StraightTail(code, end, s, k);
      PathReaches(code, blocks, end, s[k..]);
      assert s[0] in AllEdges(code, blocks, end);
    }
  }

  /** A chain of edges is straight-line execution. */
  lemma {:induction false} ReachesIff(code: Code, blocks: set<int>, end: int, c: int, x: int)
    requires CodeOk(code) && c in blocks && x in blocks
    ensures Reaches(AllEdges(code, blocks, end), c, x) <==> RunsInto(code, end, c, x)
  {
    if Reaches(AllEdges(code, blocks, end), c, x) {
      var s := ReachesPath(code, blocks, end, c, x);
    }
    if RunsInto(code, end, c, x) {
      var s :| StraightTo(code, end, s, c, x);
      PathReaches(code, blocks, end, s);
    }
  }

  /** How often blocks below `k` were entered from which execution gets to `x`. */
  ghost function Entries(entered: Counts, code: Code, end: int, x: int, k: nat): int {
    if k == 0 then 0
    else
      var c := k - 1;
      Entries(entered, code, end, x, c) + (if c in entered && RunsInto(code, end, c, x) then entered[c] else 0)
  }

  lemma {:induction false} SumIsEntries(entered: Counts, code: Code, end: int, x: int, k: nat)
    requires CodeOk(code) && x in entered
    ensures Sum(entered, AllEdges(code, entered.Keys, end), x, k) == Entries(entered, code, end, x, k)
  {
    if k > 0 {
      SumIsEntries(entered, code, end, x, k - 1);
      if k - 1 in entered { ReachesIff(code, entered.Keys, end, k - 1, x); }
    }
  }

  lemma {:induction false} TotalIsEntries(entered: Counts, code: Code, blocks: set<int>, end: int, x: nat)
    requires CodeOk(code) && blocks == entered.Keys && x in entered
    ensures Total(entered, AllEdges(code, blocks, end), x) == Entries(entered, code, end, x, x + 1)
  {
    SumIsEntries(entered, code, end, x, x + 1);
  }
}
