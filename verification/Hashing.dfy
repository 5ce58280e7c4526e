/** String hashing by whole cells, independent of where the string stands and,
    if wanted, of case (engine/support.c). */
module Hashing {
  import opened Basics

  type Byte = b: int | 0 <= b < 256

  type Memory = nat -> Byte

  const PAGE := 4096

  /** The bytes of a cell in memory order.  Shifting a cell of either byte order
      so that its first bytes go drops them here. */
  type Word = w: seq<Byte> | |w| == 8 witness [0, 0, 0, 0, 0, 0, 0, 0]

  function Bytes(mem: Memory, addr: nat, n: nat): (s: seq<Byte>)
    ensures |s| == n && forall k | 0 <= k < n :: s[k] == mem(addr + k)
  {
    seq(n, k requires 0 <= k < n => mem(addr + k))
  }

  function Zeros(n: nat): (s: seq<Byte>)
    ensures |s| == n && forall k | 0 <= k < n :: s[k] == 0
  {
    seq(n, _ => 0)
  }

  /** Shifts that drop the first `k` bytes, or move in `k` zeros in front. */
  function DropFirst(w: Word, k: nat): Word
    requires k <= 8
  {
    w[k..] + Zeros(k)
  }

  function PushFront(w: Word, k: nat): Word
    requires k <= 8
  {
    Zeros(k) + w[..8 - k]
  }

  /** Masks that clear the last, or the first, `k` bytes. */
  function ClearLast(w: Word, k: nat): Word
    requires k <= 8
  {
    w[..8 - k] + Zeros(k)
  }

  function ClearFirst(w: Word, k: nat): Word
    requires k <= 8
  {
    Zeros(k) + w[k..]
  }

  // ----- case -----

  /** `ascii_toupper` */
  function ToUpper(c: Byte): Byte {
    if 97 <= c <= 122 then c - 32 else c
  }

  /** Characters are the same up to case if they are equal or a letter in both
      cases. */
  lemma {:induction false} SameUpper(c: Byte, d: Byte)
    ensures ToUpper(c) == ToUpper(d) <==>
            c == d || (65 <= c <= 90 && d == c + 32) || (65 <= d <= 90 && c == d + 32)
  {
  }

  /** What the case mask makes of a byte: bit 5 is set if bit 7 is clear. */
  function FoldByte(c: Byte): Byte {
    if c < 128 && (c / 32) % 2 == 0 then c + 32 else c
  }

  function Folded(w: seq<Byte>, ci: bool): (r: seq<Byte>)
    ensures |r| == |w|
    ensures forall k | 0 <= k < |w| :: r[k] == if ci then FoldByte(w[k]) else w[k]
  {
    seq(|w|, k requires 0 <= k < |w| => if ci then FoldByte(w[k]) else w[k])
  }

  lemma {:induction false} FoldToUpper(c: Byte, d: Byte)
    requires ToUpper(c) == ToUpper(d)
    ensures FoldByte(c) == FoldByte(d)
  {
  }

  /** A byte with bit 5 set if bit 7 is clear. */
  function MaskedByte(b: bv64): bv64 {
    if b & 0x80 == 0 then b | 0x20 else b
  }

  /** A bit, given by its mask, as a digit. */
  function Bit(b: bv64, mask: bv64): nat {
    if b & mask == 0 then 0 else 1
  }

  function LowValue(b: bv64): (v: nat)
    ensures v < 32
  {
    Bit(b, 0x01) + 2 * Bit(b, 0x02) + 4 * Bit(b, 0x04) + 8 * Bit(b, 0x08) + 16 * Bit(b, 0x10)
  }

  /** The number that the low eight bits stand for. */
  function ByteValue(b: bv64): Byte {
    LowValue(b) + 32 * Bit(b, 0x20) + 64 * Bit(b, 0x40) + 128 * Bit(b, 0x80)
  }

  lemma {:induction false} OtherBit(b: bv64, mask: bv64)
    requires mask & 0x20 == 0
    ensures Bit(b | 0x20, mask) == Bit(b, mask)
  {
    assert (b | 0x20) & mask == b & mask;
  }

  lemma {:induction false} FoldDigits(low: nat, d5: nat, d6: nat, d7: nat)
    requires low < 32 && d5 <= 1 && d6 <= 1 && d7 <= 1
    ensures var c := low + 32 * d5 + 64 * d6 + 128 * d7;
            FoldByte(c) == if d7 == 0 && d5 == 0 then c + 32 else c
  {
    var c := low + 32 * d5 + 64 * d6 + 128 * d7;
    assert c / 32 == d5 + 2 * d6 + 4 * d7;
  }

  /** On the number of the byte, masking is `FoldByte`. */
  lemma {:induction false} MaskIsFold(b: bv64)
    ensures ByteValue(MaskedByte(b)) == FoldByte(ByteValue(b))
  {
    FoldDigits(LowValue(b), Bit(b, 0x20), Bit(b, 0x40), Bit(b, 0x80));
    if b & 0x80 != 0 { return; }
    OtherBit(b, 0x01);
    OtherBit(b, 0x02);
    OtherBit(b, 0x04);
    OtherBit(b, 0x08);
    OtherBit(b, 0x10);
    OtherBit(b, 0x40);
    OtherBit(b, 0x80);
  }

  /** Byte `k` of a cell. */
  function Lane(x: bv64, k: nat): bv64
    requires k < 8
  {
    match k
    case 0 => x & 0xff
    case 1 => (x >> 8) & 0xff
    case 2 => (x >> 16) & 0xff
    case 3 => (x >> 24) & 0xff
    case 4 => (x >> 32) & 0xff
    case 5 => (x >> 40) & 0xff
    case 6 => (x >> 48) & 0xff
    case _ => (x >> 56) & 0xff
  }

  function MaskedWord(x: bv64): bv64 {
    x | (0x2020_2020_2020_2020 & !(x >> 2))
  }

  lemma {:induction false} MaskLane(x: bv64, k: nat)
    requires k < 8
    ensures Lane(MaskedWord(x), k) == MaskedByte(Lane(x, k))
  {
    match k
    case 0 =>
    case 1 =>
    case 2 =>
    case 3 =>
    case 4 =>
    case 5 =>
    case 6 =>
    case _ =>
  }

  /** The mask works on all bytes of a cell at once: each is folded. */
  lemma {:induction false} MaskWord(x: bv64, k: nat)
    requires k < 8
    ensures ByteValue(Lane(MaskedWord(x), k)) == FoldByte(ByteValue(Lane(x, k)))
  {
    MaskLane(x, k);
    MaskIsFold(Lane(x, k));
  }

  ghost predicate SameButCase(s: seq<Byte>, t: seq<Byte>) {
    |s| == |t| && forall k | 0 <= k < |s| :: ToUpper(s[k]) == ToUpper(t[k])
  }

  lemma {:induction false} SameFolded(s: seq<Byte>, t: seq<Byte>)
    requires SameButCase(s, t)
    ensures Folded(s, true) == Folded(t, true)
  {
    forall k | 0 <= k < |s| ensures FoldByte(s[k]) == FoldByte(t[k]) { FoldToUpper(s[k], t[k]); }
  }

  /** The strings are the same up to case in front of byte `i`, and there `s` has
      the smaller character. */
  ghost predicate LessAt(s: seq<Byte>, t: seq<Byte>, i: nat) {
    && i < |s| == |t| && ToUpper(s[i]) < ToUpper(t[i])
    && forall k | 0 <= k < i :: ToUpper(s[k]) == ToUpper(t[k])
  }

  ghost predicate CaseLess(s: seq<Byte>, t: seq<Byte>) {
    exists i: nat :: LessAt(s, t, i)
  }

  lemma {:induction false} CaseLessOneWay(s: seq<Byte>, t: seq<Byte>)
    ensures !(CaseLess(s, t) && CaseLess(t, s))
    ensures SameButCase(s, t) ==> !CaseLess(s, t) && !CaseLess(t, s)
  {
    forall i: nat, j: nat ensures !LessAt(s, t, i) || !LessAt(t, s, j) {}
  }

  /** `memcasecmp` */
  method MemCaseCmp(mem: Memory, s1: nat, s2: nat, n: nat) returns (r: int)
    ensures r == 0 <==> SameButCase(Bytes(mem, s1, n), Bytes(mem, s2, n))
    ensures r == -1 <==> CaseLess(Bytes(mem, s1, n), Bytes(mem, s2, n))
    ensures r == 1 <==> CaseLess(Bytes(mem, s2, n), Bytes(mem, s1, n))
  {
    CaseLessOneWay(Bytes(mem, s1, n), Bytes(mem, s2, n));
    var i := 0;
    while i < n
      invariant 0 <= i <= n
      invariant forall k | 0 <= k < i :: ToUpper(Bytes(mem, s1, n)[k]) == ToUpper(Bytes(mem, s2, n)[k])
    {
      var c1, c2 := ToUpper(mem(s1 + i)), ToUpper(mem(s2 + i));
      if c1 != c2 {
        assert ToUpper(Bytes(mem, s1, n)[i]) != ToUpper(Bytes(mem, s2, n)[i]);
        assert if c1 < c2 then LessAt(Bytes(mem, s1, n), Bytes(mem, s2, n), i)
               else LessAt(Bytes(mem, s2, n), Bytes(mem, s1, n), i);
        return if c1 < c2 then -1 else 1;
      }
      i := i + 1;
    }
    return 0;
  }

  // ----- which memory is read -----

  function PageOf(addr: nat, k: nat): nat {
    (addr + k) / PAGE
  }

  /** A byte of the string is in this page. */
  predicate StringPage(addr: nat, n: nat, page: nat) {
    exists j: nat :: j < n && PageOf(addr, j) == page
  }

  /** A cell read touches no page without a byte of the string. */
  ghost predicate ReadOk(addr: nat, n: nat, at: nat) {
    forall k: nat | k < 8 :: StringPage(addr, n, PageOf(at, k))
  }

  /** The first and the last byte that are read are in pages of the string. */
  lemma {:induction false} ReadBetween(addr: nat, n: nat, at: nat, first: nat, last: nat)
    requires first < n && last < n && PageOf(addr, first) == PageOf(at, 0) && PageOf(addr, last) == PageOf(at, 7)
    ensures ReadOk(addr, n, at)
  {
    forall k: nat | k < 8 ensures StringPage(addr, n, PageOf(at, k)) {
      assert PageOf(at, k) == PageOf(at, 0) || PageOf(at, k) == PageOf(at, 7);
    }
  }

  /** Reads inside the string are fine. */
  lemma {:induction false} ReadInside(addr: nat, n: nat, k: nat)
    requires k + 8 <= n
    ensures ReadOk(addr, n, addr + k)
  {
    ReadBetween(addr, n, addr + k, k, k + 7);
  }

  /** A read of 8 bytes that starts in the string, which ends in the same page. */
  lemma {:induction false} ReadBeyond(addr: nat, n: nat, k: nat)
    requires k < n < k + 8 && (addr + n - 1) / PAGE == (addr + k + 7) / PAGE
    ensures ReadOk(addr, n, addr + k)
  {
    ReadBetween(addr, n, addr + k, k, n - 1);
  }

  /** A read of 8 bytes that ends with the string, whose last byte is near the
      end of a page. */
  lemma {:induction false} ReadBefore(addr: nat, n: nat)
    requires n > 0 && addr + n >= 8 && (addr + n - 1) % PAGE >= 7
    ensures ReadOk(addr, n, addr + n - 8)
  {
    ReadBetween(addr, n, addr + n - 8, n - 1, n - 1);
  }

  /** `memmove` of a cell out of memory, for the string of `n` bytes at `addr`. */
  method Load(mem: Memory, at: nat, ghost addr: nat, ghost n: nat) returns (w: Word)
    requires ReadOk(addr, n, at)
    ensures w == Bytes(mem, at, 8)
  {
    w := Bytes(mem, at, 8);
  }

  // ----- hashkey2 -----

  /** The arithmetic of `hashkey2` on its two 64-bit variables. */
  datatype Mix<!S> = Mix(full: (S, Word) -> S, part: (S, Word, nat) -> S, final: S -> S)

  /** What `hashkey2` computes, from the bytes of the string alone. */
  function HashKey2<S>(m: Mix<S>, h: S, s: seq<Byte>, ci: bool): S {
    if |s| >= 8 then HashKey2(m, m.full(h, Folded(s[..8], ci)), s[8..], ci)
    else if s == [] then m.final(h)
    else m.final(m.part(h, Folded(Zeros(8 - |s|) + s, ci), |s|))
  }

  /** Strings that differ in case only have the same case-insensitive hash. */
  lemma {:induction false} HashKey2Case<S>(m: Mix<S>, h: S, s: seq<Byte>, t: seq<Byte>)
    requires SameButCase(s, t)
    ensures HashKey2(m, h, s, true) == HashKey2(m, h, t, true)
    decreases |s|
  {
    if |s| >= 8 {
      assert SameButCase(s[..8], t[..8]) && SameButCase(s[8..], t[8..]);
      SameFolded(s[..8], t[..8]);
      HashKey2Case(m, m.full(h, Folded(s[..8], true)), s[8..], t[8..]);
    } else if s != [] {
      SameFolded(Zeros(8 - |s|) + s, Zeros(8 - |s|) + t);
    }
  }

  /** What is mixed in: the length of the string, a cell of it, or its last bytes
      in a cell; or nothing, in a last round. */
  datatype Mixed = Seed(n: nat) | Cell(w: Word) | Part(w: Word, n: nat) | Round

  /** The mixing that forgets nothing. */
  const TRACE := Mix((h: seq<Mixed>, w: Word) => h + [Cell(w)],
                     (h: seq<Mixed>, w: Word, n: nat) => h + [Part(w, n)],
                     (h: seq<Mixed>) => h + [Round])

  function Parts(s: seq<Byte>, ci: bool): seq<Mixed> {
    if |s| >= 8 then [Cell(Folded(s[..8], ci))] + Parts(s[8..], ci)
    else if s == [] then []
    else [Part(Folded(Zeros(8 - |s|) + s, ci), |s|)]
  }

  lemma {:induction false} TraceParts(h: seq<Mixed>, s: seq<Byte>, ci: bool)
    ensures HashKey2(TRACE, h, s, ci) == h + Parts(s, ci) + [Round]
    decreases |s|
  {
    if |s| >= 8 {
      TraceParts(h + [Cell(Folded(s[..8], ci))], s[8..], ci);
      Assoc(h, [Cell(Folded(s[..8], ci))], Parts(s[8..], ci));
    } else if s == [] {
      assert h + [] == h;
    }
  }

  /** Strings with the same parts have the same bytes. */
  lemma {:induction false} PartsSame(s: seq<Byte>, t: seq<Byte>, ci: bool)
    requires Parts(s, ci) == Parts(t, ci)
    ensures Folded(s, ci) == Folded(t, ci)
    decreases |s|
  {
    var p, q := Parts(s, ci), Parts(t, ci);
    if |s| >= 8 {
      assert p[0] == q[0] && p[1..] == Parts(s[8..], ci) && q[1..] == Parts(t[8..], ci);
      PartsSame(s[8..], t[8..], ci);
      FoldedSplit(s, 8, ci);
      FoldedSplit(t, 8, ci);
    } else if s != [] {
      assert p[0] == q[0];
      var z := 8 - |s|;
      assert (Zeros(z) + s)[z..] == s && (Zeros(z) + t)[z..] == t;
      FoldedSplit(Zeros(z) + s, z, ci);
      FoldedSplit(Zeros(z) + t, z, ci);
    }
  }

  lemma {:induction false} FoldedSplit(s: seq<Byte>, k: nat, ci: bool)
    requires k <= |s|
    ensures Folded(s, ci) == Folded(s[..k], ci) + Folded(s[k..], ci)
    ensures Folded(s, ci)[k..] == Folded(s[k..], ci)
  {
  }

  lemma {:induction false} PartsFolded(s: seq<Byte>, t: seq<Byte>, ci: bool)
    requires Folded(s, ci) == Folded(t, ci)
    ensures Parts(s, ci) == Parts(t, ci)
    decreases |s|
  {
    assert |s| == |Folded(s, ci)| == |t|;
    if |s| >= 8 {
      FoldedSplit(s, 8, ci);
      FoldedSplit(t, 8, ci);
      assert Folded(s, ci)[..8] == Folded(s[..8], ci) && Folded(t, ci)[..8] == Folded(t[..8], ci);
      PartsFolded(s[8..], t[8..], ci);
    } else if s != [] {
      var z := Zeros(8 - |s|);
      assert Folded(z + s, ci) == Folded(z, ci) + Folded(s, ci);
      assert Folded(z + t, ci) == Folded(z, ci) + Folded(t, ci);
    }
  }

  lemma {:induction false} Unfinished(p: seq<Mixed>, q: seq<Mixed>)
    requires [] + p + [Round] == [] + q + [Round]
    ensures p == q
  {
    assert p == ([] + p + [Round])[..|p|] && q == ([] + q + [Round])[..|q|];
  }

  /** Every byte is mixed in: two strings have the same hash for all ways to mix
      exactly if they have the same bytes, up to what the case mask ignores. */
  lemma {:induction false} HashKey2Exact(s: seq<Byte>, t: seq<Byte>, ci: bool)
    ensures HashKey2(TRACE, [], s, ci) == HashKey2(TRACE, [], t, ci) <==> Folded(s, ci) == Folded(t, ci)
  {
    TraceParts([], s, ci);
    TraceParts([], t, ci);
    if HashKey2(TRACE, [], s, ci) == HashKey2(TRACE, [], t, ci) {
      Unfinished(Parts(s, ci), Parts(t, ci));
      PartsSame(s, t, ci);
    }
    if Folded(s, ci) == Folded(t, ci) { PartsFolded(s, t, ci); }
  }

  lemma {:induction false} BytesSplit(mem: Memory, addr: nat, n: nat, k: nat)
    requires k <= n
    ensures Bytes(mem, addr, n)[..k] == Bytes(mem, addr, k) && Bytes(mem, addr, n)[k..] == Bytes(mem, addr + k, n - k)
  {
  }

  /** The part of `hashkey2` behind the full cells, by either of two reads. */
  method LastPart<S>(m: Mix<S>, mem: Memory, ci: bool, ghost start: nat, endp: nat, u: nat, h: S) returns (r: S)
    requires 0 < u < 8 && start <= endp
    ensures r == m.part(h, Folded(Zeros(8 - u) + Bytes(mem, endp, u), ci), u)
  {
    var shift := 8 - u;
    var lastShift := 0;
    var at := endp;
    ghost var n := endp + u - start;
    if (endp + u - 1) % PAGE >= PAGE - 8 {
      ReadBefore(start, n);
      at := endp + u - 8;
      lastShift := shift;
    } else {
      ReadBeyond(start, n, endp - start);
    }
    var mixin := Load(mem, at, start, n);
    assert PushFront(DropFirst(mixin, lastShift), shift) == Zeros(8 - u) + Bytes(mem, endp, u);
    mixin := PushFront(DropFirst(mixin, lastShift), shift);
    r := m.part(h, Folded(mixin, ci), u);
  }

  lemma {:induction false} HashKey2Step<S>(m: Mix<S>, h: S, s: seq<Byte>, ci: bool)
    requires |s| >= 8
    ensures HashKey2(m, h, s, ci) == HashKey2(m, m.full(h, Folded(s[..8], ci)), s[8..], ci)
  {
  }

  /** `hashkey2`: wherever the string is, and whatever is around it. */
  method HashKey2At<S>(m: Mix<S>, mem: Memory, addr: nat, n: nat, ci: bool, h0: S) returns (h: S)
    ensures h == HashKey2(m, h0, Bytes(mem, addr, n), ci)
  {
    h := h0;
    var endp := addr + n / 8 * 8;
    var p := addr;
    ghost var k: nat := 0;
    while p < endp
      invariant k <= n / 8 && p == addr + k * 8
      invariant HashKey2(m, h, Bytes(mem, p, addr + n - p), ci) == HashKey2(m, h0, Bytes(mem, addr, n), ci)
    {
      ReadInside(addr, n, p - addr);
      BytesSplit(mem, p, addr + n - p, 8);
      HashKey2Step(m, h, Bytes(mem, p, addr + n - p), ci);
      var mixin := Load(mem, p, addr, n);
      h := m.full(h, Folded(mixin, ci));
      p, k := p + 8, k + 1;
    }
    var u := n % 8;
    if u != 0 { h := LastPart(m, mem, ci, addr, endp, u, h); }
    h := m.final(h);
  }

  // ----- hashkey2a -----

  /** The arithmetic of `hashkey2a` on its cell. */
  datatype Mix2a<!S> = Mix2a(seed: nat -> S, step: (S, Word) -> S, final: S -> S)

  /** A short string as a cell, in either byte order. */
  function Padded(s: seq<Byte>, bigEndian: bool): Word
    requires |s| <= 8
  {
    if bigEndian then Zeros(8 - |s|) + s else s + Zeros(8 - |s|)
  }

  /** Full cells, and a last one that may overlap with the one before. */
  function Cells2a<S>(m: Mix2a<S>, h: S, s: seq<Byte>): S
    requires |s| > 0
    decreases |s|
  {
    if |s| <= 8 then h else Cells2a(m, m.step(h, Folded(s[..8], true)), s[8..])
  }

  /** What `hashkey2a` computes, from the bytes of the string alone. */
  function HashKey2a<S>(m: Mix2a<S>, s: seq<Byte>, bigEndian: bool): S {
    var n := |s|;
    if n == 0 then m.seed(0)
    else if n <= 8 then m.final(m.step(m.seed(n), Folded(Padded(s, bigEndian), true)))
    else m.final(m.step(Cells2a(m, m.seed(n), s), Folded(s[n - 8..], true)))
  }

  lemma {:induction false} Cells2aCase<S>(m: Mix2a<S>, h: S, s: seq<Byte>, t: seq<Byte>)
    requires SameButCase(s, t) && |s| > 0
    ensures Cells2a(m, h, s) == Cells2a(m, h, t)
    decreases |s|
  {
    if |s| > 8 {
      assert SameButCase(s[..8], t[..8]) && SameButCase(s[8..], t[8..]);
      SameFolded(s[..8], t[..8]);
      Cells2aCase(m, m.step(h, Folded(s[..8], true)), s[8..], t[8..]);
    }
  }

  /** Strings that differ in case only have the same hash. */
  lemma {:induction false} HashKey2aCase<S>(m: Mix2a<S>, s: seq<Byte>, t: seq<Byte>, bigEndian: bool)
    requires SameButCase(s, t)
    ensures HashKey2a(m, s, bigEndian) == HashKey2a(m, t, bigEndian)
  {
    var n := |s|;
    if 0 < n <= 8 {
      SameFolded(Padded(s, bigEndian), Padded(t, bigEndian));
    } else if n > 8 {
      assert SameButCase(s[n - 8..], t[n - 8..]);
      SameFolded(s[n - 8..], t[n - 8..]);
      Cells2aCase(m, m.seed(n), s, t);
    }
  }

  /** The mixing of `hashkey2a` that forgets nothing. */
  const TRACE2A := Mix2a((n: nat) => [Seed(n)], (h: seq<Mixed>, w: Word) => h + [Cell(w)],
                         (h: seq<Mixed>) => h + [Round])

  function FullCells(s: seq<Byte>): seq<Mixed> {
    if |s| <= 8 then [] else [Cell(Folded(s[..8], true))] + FullCells(s[8..])
  }

  lemma {:induction false} TraceCells(h: seq<Mixed>, s: seq<Byte>)
    requires |s| > 0
    ensures Cells2a(TRACE2A, h, s) == h + FullCells(s)
    decreases |s|
  {
    if |s| > 8 {
      TraceCells(h + [Cell(Folded(s[..8], true))], s[8..]);
      Assoc(h, [Cell(Folded(s[..8], true))], FullCells(s[8..]));
    }
  }

  ghost predicate FoldsAlike(s: seq<Byte>, t: seq<Byte>, from: nat, to: int) {
    |s| == |t| >= to && forall k | from <= k < to :: FoldByte(s[k]) == FoldByte(t[k])
  }

  /** The full cells have all bytes but the last eight, at least. */
  lemma {:induction false} CellsSame(s: seq<Byte>, t: seq<Byte>)
    requires |s| == |t| && FullCells(s) == FullCells(t)
    ensures FoldsAlike(s, t, 0, |s| - 8)
    decreases |s|
  {
    if |s| > 8 {
      var p, q := FullCells(s), FullCells(t);
      assert p[0] == q[0] && p[1..] == FullCells(s[8..]) && q[1..] == FullCells(t[8..]);
      CellsSame(s[8..], t[8..]);
      forall k | 0 <= k < |s| - 8 ensures FoldByte(s[k]) == FoldByte(t[k]) {
        if k < 8 {
          assert Folded(s[..8], true)[k] == Folded(t[..8], true)[k];
        } else {
          assert s[k] == s[8..][k - 8] && t[k] == t[8..][k - 8];
        }
      }
    }
  }

  lemma {:induction false} CellsFolded(s: seq<Byte>, t: seq<Byte>)
    requires Folded(s, true) == Folded(t, true)
    ensures FullCells(s) == FullCells(t)
    decreases |s|
  {
    assert |s| == |Folded(s, true)| == |t|;
    if |s| > 8 {
      FoldedSplit(s, 8, true);
      FoldedSplit(t, 8, true);
      assert Folded(s, true)[..8] == Folded(s[..8], true) && Folded(t, true)[..8] == Folded(t[..8], true);
      CellsFolded(s[8..], t[8..]);
    }
  }

  /** What `hashkey2a` mixes in, in order. */
  function Parts2a(s: seq<Byte>, bigEndian: bool): seq<Mixed> {
    var n := |s|;
    if n == 0 then [Seed(0)]
    else if n <= 8 then [Seed(n)] + [Cell(Folded(Padded(s, bigEndian), true))] + [Round]
    else [Seed(n)] + FullCells(s) + [Cell(Folded(s[n - 8..], true))] + [Round]
  }

  lemma {:induction false} Trace2a(s: seq<Byte>, bigEndian: bool)
    ensures HashKey2a(TRACE2A, s, bigEndian) == Parts2a(s, bigEndian)
  {
    if |s| > 8 { TraceCells([Seed(|s|)], s); }
  }

  lemma {:induction false} PaddedSame(s: seq<Byte>, t: seq<Byte>, bigEndian: bool)
    requires |s| == |t| <= 8 && Folded(Padded(s, bigEndian), true) == Folded(Padded(t, bigEndian), true)
    ensures Folded(s, true) == Folded(t, true)
  {
    var f, g := Folded(Padded(s, bigEndian), true), Folded(Padded(t, bigEndian), true);
    var z := if bigEndian then 8 - |s| else 0;
    forall k | 0 <= k < |s| ensures FoldByte(s[k]) == FoldByte(t[k]) {
      assert f[z + k] == g[z + k] && Padded(s, bigEndian)[z + k] == s[k] && Padded(t, bigEndian)[z + k] == t[k];
    }
  }

  lemma {:induction false} Parts2aSame(s: seq<Byte>, t: seq<Byte>, bigEndian: bool)
    requires Parts2a(s, bigEndian) == Parts2a(t, bigEndian)
    ensures Folded(s, true) == Folded(t, true)
  {
    var n, p, q := |s|, Parts2a(s, bigEndian), Parts2a(t, bigEndian);
    assert p[0] == q[0] && |t| == n;
    if 0 < n <= 8 {
      assert p[1] == q[1];
      PaddedSame(s, t, bigEndian);
    } else if n > 8 {
      var m := |p|;
      assert p[m - 2] == Cell(Folded(s[n - 8..], true)) && q[m - 2] == Cell(Folded(t[n - 8..], true));
      assert p[1..m - 2] == FullCells(s) && q[1..m - 2] == FullCells(t);
      CellsSame(s, t);
      forall k | 0 <= k < n ensures FoldByte(s[k]) == FoldByte(t[k]) {
        if k >= n - 8 {
          assert Folded(s[n - 8..], true)[k - (n - 8)] == Folded(t[n - 8..], true)[k - (n - 8)];
        }
      }
    }
  }

  lemma {:induction false} Parts2aFolded(s: seq<Byte>, t: seq<Byte>, bigEndian: bool)
    requires Folded(s, true) == Folded(t, true)
    ensures Parts2a(s, bigEndian) == Parts2a(t, bigEndian)
  {
    var n := |s|;
    assert n == |Folded(s, true)| == |t|;
    if 0 < n <= 8 {
      forall k | 0 <= k < 8
        ensures FoldByte(Padded(s, bigEndian)[k]) == FoldByte(Padded(t, bigEndian)[k])
      {
        var z := if bigEndian then 8 - n else 0;
        if z <= k < z + n { assert Folded(s, true)[k - z] == Folded(t, true)[k - z]; }
      }
      assert Folded(Padded(s, bigEndian), true) == Folded(Padded(t, bigEndian), true);
    } else if n > 8 {
      CellsFolded(s, t);
      FoldedSplit(s, n - 8, true);
      FoldedSplit(t, n - 8, true);
    }
  }

  /** Every byte is mixed in, although the last cell may overlap with the one in
      front of it: two strings have the same hash for all ways to mix exactly if
      they have the same bytes, up to what the case mask ignores. */
  lemma {:induction false} HashKey2aExact(s: seq<Byte>, t: seq<Byte>, bigEndian: bool)
    ensures HashKey2a(TRACE2A, s, bigEndian) == HashKey2a(TRACE2A, t, bigEndian) <==>
            Folded(s, true) == Folded(t, true)
  {
    Trace2a(s, bigEndian);
    Trace2a(t, bigEndian);
    if Parts2a(s, bigEndian) == Parts2a(t, bigEndian) { Parts2aSame(s, t, bigEndian); }
    if Folded(s, true) == Folded(t, true) { Parts2aFolded(s, t, bigEndian); }
  }

  lemma {:induction false} PaddedBehind(w: Word, s: seq<Byte>)
    requires |s| <= 8 && w[8 - |s|..] == s
    ensures ClearFirst(w, 8 - |s|) == Padded(s, true)
    ensures DropFirst(w, 8 - |s|) == Padded(s, false)
  {
  }

  lemma {:induction false} PaddedInFront(w: Word, s: seq<Byte>)
    requires |s| <= 8 && w[..|s|] == s
    ensures PushFront(w, 8 - |s|) == Padded(s, true)
    ensures ClearLast(w, 8 - |s|) == Padded(s, false)
  {
  }

  /** A string of at most a cell, by either of two reads. */
  method ReadShort(mem: Memory, s: nat, n: nat, bigEndian: bool) returns (h: Word)
    requires 0 < n <= 8
    ensures h == Padded(Bytes(mem, s, n), bigEndian)
  {
    var erase := 8 - n;
    if (s + n - 1) / PAGE != (s + 7) / PAGE {
      ReadBefore(s, n);
      var w := Load(mem, s + n - 8, s, n);
      PaddedBehind(w, Bytes(mem, s, n));
      h := if bigEndian then ClearFirst(w, erase) else DropFirst(w, erase);
    } else {
      if n < 8 { ReadBeyond(s, n, 0); } else { ReadInside(s, n, 0); }
      var w := Load(mem, s, s, n);
      PaddedInFront(w, Bytes(mem, s, n));
      h := if bigEndian then PushFront(w, erase) else ClearLast(w, erase);
    }
  }

  /** `hashkey2a` */
  method HashKey2aAt<S>(m: Mix2a<S>, mem: Memory, s: nat, n: nat, bigEndian: bool) returns (r: S)
    ensures r == HashKey2a(m, Bytes(mem, s, n), bigEndian)
  {
    if n == 0 { return m.seed(0); }
    if n <= 8 {
      var w := ReadShort(mem, s, n, bigEndian);
      return m.final(m.step(m.seed(n), Folded(w, true)));
    }
    var p := s;
    var h := m.seed(n);
    while p < s + n - 8
      invariant s <= p < s + n
      invariant Cells2a(m, h, Bytes(mem, p, s + n - p)) == Cells2a(m, m.seed(n), Bytes(mem, s, n))
    {
      ReadInside(s, n, p - s);
      BytesSplit(mem, p, s + n - p, 8);
      var h1 := Load(mem, p, s, n);
      h := m.step(h, Folded(h1, true));
      p := p + 8;
    }
    p := s + n - 8;
    ReadInside(s, n, n - 8);
    BytesSplit(mem, s, n, n - 8);
    var h1 := Load(mem, p, s, n);
    r := m.final(m.step(h, Folded(h1, true)));
  }
}
