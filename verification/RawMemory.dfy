/** RawMemory/raw_memory_manager.c: physical memory, in pages of 4KiB. Whole free sections
    (256 pages) have a bit each in `sections`; pieces of a section are in `early`. */
module RawMemory {
  import opened Bits

  const WORDS := 128
  const SLOTS := 32
  const LIMIT := 4096 * 256  // pages in 4GiB

  datatype Fragment = Fragment(base: nat, count: nat)

  datatype Memory = Memory(sections: seq<bv32>, early: seq<Fragment>)

  predicate SectionFree(ws: seq<bv32>, s: nat) {
    s / 32 < |ws| && Bit(ws[s / 32], s % 32)
  }

  predicate Covers(f: Fragment, p: nat) {
    f.base <= p < f.base + f.count
  }

  predicate InPieces(fs: seq<Fragment>, p: nat) {
    exists i :: 0 <= i < |fs| && Covers(fs[i], p)
  }

  /** The meaning of the two tables: is page p free? */
  predicate Free(m: Memory, p: nat) {
    SectionFree(m.sections, p / 256) || InPieces(m.early, p)
  }

  /** A piece is of a section that is not free. */
  predicate PieceOk(ws: seq<bv32>, f: Fragment) {
    f.count > 0 ==>
      f.count < 256 && f.base / 256 == (f.base + f.count - 1) / 256 && !SectionFree(ws, f.base / 256)
  }

  predicate Apart(f: Fragment, g: Fragment) {
    f.count == 0 || g.count == 0 || f.base + f.count <= g.base || g.base + g.count <= f.base
  }

  ghost predicate Valid(m: Memory) {
    |m.sections| == WORDS &&
    (forall i :: 0 <= i < |m.early| ==> PieceOk(m.sections, m.early[i])) &&
    (forall i, j :: 0 <= i < j < |m.early| ==> Apart(m.early[i], m.early[j]))
  }

  /** [base, base + pages), all of it free, is taken out of the free pages, and nothing else. */
  ghost predicate Claimed(m: Memory, pages: nat, base: nat, n: Memory) {
    Valid(n) &&
    (forall p: nat :: base <= p < base + pages ==> Free(m, p)) &&
    (forall p: nat :: Free(n, p) <==> Free(m, p) && !(base <= p < base + pages))
  }

  /** [base, base + pages) joins the free pages, and nothing else, whether or not the tables are in order. */
  ghost predicate Added(m: Memory, base: nat, pages: nat, n: Memory) {
    forall p: nat :: Free(n, p) <==> Free(m, p) || base <= p < base + pages
  }

  ghost predicate Freed(m: Memory, base: nat, pages: nat, n: Memory) {
    Valid(n) && Added(m, base, pages, n)
  }

  ghost predicate NoneFree(m: Memory, base: nat, pages: nat) {
    forall p: nat :: base <= p < base + pages ==> !Free(m, p)
  }

  /** None of c sections, from s on, has a piece in the table. */
  ghost predicate NoPieceIn(fs: seq<Fragment>, s: nat, c: nat) {
    forall i :: 0 <= i < |fs| && fs[i].count > 0 ==> !(s <= fs[i].base / 256 < s + c)
  }

  /** What a block has of whole sections, when it starts with one */
  function Whole(base: nat, pages: nat): nat {
    if base % 256 == 0 then pages / 256 * 256 else 0
  }

  /** What a block must be for the tables to stay in order when it is freed: its whole sections have no pieces, and
      of the part of a section nothing is free already. */
  ghost predicate Orderly(m: Memory, base: nat, pages: nat) {
    var whole := Whole(base, pages);
    NoPieceIn(m.early, base / 256, whole / 256) && NoneFree(m, base + whole, pages - whole)
  }

  /** n free sections from s on, all in one word of the bitmap */
  ghost predicate RunAt(ws: seq<bv32>, s: nat, n: nat) {
    s % 32 + n <= 32 && forall k: nat :: s <= k < s + n ==> SectionFree(ws, k)
  }

  ghost predicate LowestRun(ws: seq<bv32>, s: nat, n: nat) {
    RunAt(ws, s, n) && forall k: nat :: k < s ==> !RunAt(ws, k, n)
  }

  predicate Empty(fs: seq<Fragment>, i: nat) {
    i < |fs| && fs[i].count == 0
  }

  /** The slot that a piece is put into, and the one that pages are taken from */
  ghost predicate FirstEmpty(fs: seq<Fragment>, i: nat) {
    Empty(fs, i) && forall j: nat :: j < i ==> !Empty(fs, j)
  }

  ghost predicate FirstLarge(fs: seq<Fragment>, i: nat, pages: nat) {
    i < |fs| && pages <= fs[i].count && forall j: nat :: j < i ==> fs[j].count < pages
  }

  function Put(m: Memory, i: nat, f: Fragment): Memory
    requires i < |m.early|
  {
    m.(early := m.early[i := f])
  }

  /** The front of a piece is taken. */
  function Taken(m: Memory, i: nat, pages: nat): Memory
    requires i < |m.early| && pages <= m.early[i].count
  {
    Put(m, i, Fragment(m.early[i].base + pages, m.early[i].count - pages))
  }

  // ----- bits of the bitmap

  lemma DivOf(i: nat, k: nat)
    requires k < 32
    ensures (32 * i + k) / 32 == i && (32 * i + k) % 32 == k
  {
  }

  lemma AllBits(k: nat)
    requires k < 32
    ensures Bit(ALL, k)
  {
    BitNot(0, k);
  }

  // Words related bit by bit
  ghost predicate FromBit(a: bv32, n: nat) { forall k: nat :: k < 32 ==> (Bit(a, k) <==> n <= k) }
  ghost predicate UpToBit(a: bv32, n: nat) { forall k: nat :: k < 32 ==> (Bit(a, k) <==> k < n) }
  ghost predicate Both(c: bv32, a: bv32, b: bv32) {
    forall k: nat :: k < 32 ==> (Bit(c, k) <==> Bit(a, k) && Bit(b, k))
  }
  ghost predicate Either(c: bv32, a: bv32, b: bv32) {
    forall k: nat :: k < 32 ==> (Bit(c, k) <==> Bit(a, k) || Bit(b, k))
  }
  ghost predicate Less(c: bv32, a: bv32, b: bv32) {
    forall k: nat :: k < 32 ==> (Bit(c, k) <==> Bit(a, k) && !Bit(b, k))
  }

  lemma AndIs(a: bv32, b: bv32)
    ensures Both(a & b, a, b)
  {
    forall k: nat | k < 32 ensures Bit(a & b, k) <==> Bit(a, k) && Bit(b, k) { BitAnd(a, b, k); }
  }

  lemma OrIs(a: bv32, b: bv32)
    ensures Either(a | b, a, b)
  {
    forall k: nat | k < 32 ensures Bit(a | b, k) <==> Bit(a, k) || Bit(b, k) { BitAnd(a, b, k); }
  }

  lemma LessIs(a: bv32, b: bv32)
    ensures Less(a & !b, a, b)
  {
    forall k: nat | k < 32 ensures Bit(a & !b, k) <==> Bit(a, k) && !Bit(b, k) { LessBit(a, b, k); }
  }

  lemma LessBit(a: bv32, b: bv32, k: nat)
    requires k < 32
    ensures Bit(a & !b, k) <==> Bit(a, k) && !Bit(b, k)
  {
    BitAnd(a, !b, k);
    BitNot(b, k);
  }

  /** The masks of free_contiguous_memory */
  lemma FirstMask(n: nat)
    ensures FromBit(Shr(ALL, n), n)
  {
    forall k: nat | k < 32 ensures Bit(Shr(ALL, n), k) <==> n <= k {
      BitShr(ALL, n, k);
      if k >= n { AllBits(k - n); }
    }
  }

  lemma LastMask(a: bv32, b: bv32, n: nat)
    requires FromBit(a, n) && b == !a
    ensures UpToBit(b, n)
  {
    forall k: nat | k < 32 ensures Bit(b, k) <==> k < n { BitNot(a, k); }
  }

  lemma Masks(s: nat, e: nat)
    ensures FromBit(Shr(ALL, s % 32), s % 32) && UpToBit(!Shr(ALL, e % 32), e % 32)
  {
    FirstMask(s % 32);
    FirstMask(e % 32);
    LastMask(Shr(ALL, e % 32), !Shr(ALL, e % 32), e % 32);
  }

  lemma NoLastBits(b: bv32, n: nat)
    requires n < 32 && UpToBit(b, n)
    ensures b == 0 <==> n == 0
  {
    if n == 0 {
      NothingLeft(b, 0);
    } else {
      assert Bit(b, 0);
      ShlNothing(0);
    }
  }

  /** A mask of the sections of word w that are from lo up to hi */
  ghost predicate Mask(mask: bv32, w: nat, lo: nat, hi: nat) {
    forall k: nat :: k < 32 ==> (Bit(mask, k) <==> lo <= 32 * w + k < hi)
  }

  lemma OneWordMask(mask: bv32, a: bv32, b: bv32, s: nat, e: nat)
    requires s / 32 == e / 32 && Both(mask, a, b) && FromBit(a, s % 32) && UpToBit(b, e % 32)
    ensures Mask(mask, s / 32, s, e)
  {
  }

  lemma FirstWordMask(mask: bv32, s: nat, e: nat)
    requires s / 32 < e / 32 && FromBit(mask, s % 32)
    ensures Mask(mask, s / 32, s, e)
  {
  }

  lemma LastWordMask(mask: bv32, s: nat, e: nat)
    requires s / 32 < e / 32 && UpToBit(mask, e % 32)
    ensures Mask(mask, e / 32, s, e)
  {
  }

  lemma FullWordMask(w: nat, s: nat, e: nat)
    requires s / 32 < w < e / 32
    ensures Mask(ALL, w, s, e)
  {
    forall k: nat | k < 32 ensures Bit(ALL, k) { AllBits(k); }
  }

  /** The mask of claim_contiguous_memory */
  lemma ClaimMask(mask: bv32, w: nat, l: nat, n: nat)
    requires l + n <= 32 && mask == Shr(Shl(ALL, 32 - n), l)
    ensures Mask(mask, w, 32 * w + l, 32 * w + l + n)
  {
    forall k: nat | k < 32 ensures Bit(mask, k) <==> l <= k < l + n { ClaimBit(l, n, k); }
  }

  lemma ClaimBit(l: nat, n: nat, k: nat)
    requires l + n <= 32 && k < 32
    ensures Bit(Shr(Shl(ALL, 32 - n), l), k) <==> l <= k < l + n
  {
    BitShr(Shl(ALL, 32 - n), l, k);
    if k >= l {
      BitShl(ALL, 32 - n, k - l);
      if k - l + 32 - n < 32 { AllBits(k - l + 32 - n); }
    }
  }

  /** Setting the bits of a mask in one word sets those of its sections. */
  lemma SetInWord(ws: seq<bv32>, i: nat, mask: bv32, w: bv32, lo: nat, hi: nat)
    requires i < |ws| && Mask(mask, i, lo, hi) && Either(w, ws[i], mask)
    ensures forall s: nat :: SectionFree(ws[i := w], s) <==> SectionFree(ws, s) || (s / 32 == i && lo <= s < hi)
  {
    forall s: nat
      ensures SectionFree(ws[i := w], s) <==> SectionFree(ws, s) || (s / 32 == i && lo <= s < hi)
    {
      if s / 32 == i { assert s == 32 * i + s % 32; }
    }
  }

  lemma ClearInWord(ws: seq<bv32>, i: nat, mask: bv32, w: bv32, lo: nat, hi: nat)
    requires i < |ws| && Mask(mask, i, lo, hi) && Less(w, ws[i], mask)
    ensures forall s: nat :: SectionFree(ws[i := w], s) <==> SectionFree(ws, s) && !(s / 32 == i && lo <= s < hi)
  {
    forall s: nat
      ensures SectionFree(ws[i := w], s) <==> SectionFree(ws, s) && !(s / 32 == i && lo <= s < hi)
    {
      if s / 32 == i { assert s == 32 * i + s % 32; }
    }
  }

  // ----- the two tables together

  /** Taking free sections out of the bitmap. */
  lemma ClaimedSections(m: Memory, n: Memory, s: nat, c: nat)
    requires Valid(m) && |n.sections| == WORDS && n.early == m.early
    requires forall k: nat :: s <= k < s + c ==> SectionFree(m.sections, k)
    requires forall k: nat :: SectionFree(n.sections, k) <==> SectionFree(m.sections, k) && !(s <= k < s + c)
    ensures Claimed(m, 256 * c, 256 * s, n)
  {
    forall p: nat ensures 256 * s <= p < 256 * s + 256 * c <==> s <= p / 256 < s + c {}
    forall p: nat | InPieces(m.early, p) ensures !SectionFree(m.sections, p / 256) {
      PieceNotInSection(m, p);
    }
  }

  lemma PieceNotInSection(m: Memory, p: nat)
    requires Valid(m) && InPieces(m.early, p)
    ensures !SectionFree(m.sections, p / 256)
  {
    var i :| 0 <= i < |m.early| && Covers(m.early[i], p);
    assert PieceOk(m.sections, m.early[i]);
    SameSection(m.early[i], p);
  }

  lemma SameSection(f: Fragment, p: nat)
    requires Covers(f, p) && f.base / 256 == (f.base + f.count - 1) / 256
    ensures p / 256 == f.base / 256
  {
  }

  /** Putting back sections, whatever is free: the tables are in order exactly when they were, and no piece is of
      one of those sections. */
  lemma SectionsAdded(m: Memory, n: Memory, s: nat, c: nat)
    requires |m.sections| == |n.sections| == WORDS && n.early == m.early
    requires forall k: nat :: SectionFree(n.sections, k) <==> SectionFree(m.sections, k) || s <= k < s + c
    ensures Added(m, 256 * s, 256 * c, n)
    ensures Valid(n) <==> Valid(m) && NoPieceIn(m.early, s, c)
  {
    forall p: nat ensures 256 * s <= p < 256 * s + 256 * c <==> s <= p / 256 < s + c {}
    forall i | 0 <= i < |m.early|
      ensures PieceOk(n.sections, m.early[i]) <==>
        PieceOk(m.sections, m.early[i]) && (m.early[i].count > 0 ==> !(s <= m.early[i].base / 256 < s + c))
    {
    }
  }

  /** A piece goes into an empty slot, whatever is free: the tables are in order exactly when they were, and
      nothing of the piece was free. */
  lemma PieceAdded(m: Memory, f: Fragment, i: nat)
    requires Empty(m.early, i) && 0 < f.count < 256 && f.base / 256 == (f.base + f.count - 1) / 256
    ensures Added(m, f.base, f.count, Put(m, i, f))
    ensures Valid(Put(m, i, f)) <==> Valid(m) && NoneFree(m, f.base, f.count)
  {
    var n := Put(m, i, f);
    forall p: nat ensures InPieces(n.early, p) <==> InPieces(m.early, p) || Covers(f, p) {
      SlotChanged(m.early, i, f, p);
    }
    if Valid(m) && NoneFree(m, f.base, f.count) {
      PieceFits(m, f, i);
    }
    if Valid(n) {
      PieceFitted(m, f, i);
    }
  }

  lemma PieceFits(m: Memory, f: Fragment, i: nat)
    requires Valid(m) && Empty(m.early, i) && 0 < f.count < 256 && f.base / 256 == (f.base + f.count - 1) / 256
    requires NoneFree(m, f.base, f.count)
    ensures Valid(Put(m, i, f))
  {
    assert !Free(m, f.base);
    assert PieceOk(m.sections, f);
    forall j | 0 <= j < |m.early| && j != i ensures Apart(f, m.early[j]) && Apart(m.early[j], f) {
      PiecesApart(m, f, j);
    }
  }

  lemma PieceFitted(m: Memory, f: Fragment, i: nat)
    requires Empty(m.early, i) && f.count > 0 && Valid(Put(m, i, f))
    ensures Valid(m) && NoneFree(m, f.base, f.count)
  {
    var n := Put(m, i, f);
    assert n.early[i] == f && PieceOk(n.sections, n.early[i]);
    forall j | 0 <= j < |m.early| ensures PieceOk(m.sections, m.early[j]) {
      if j != i { assert PieceOk(n.sections, n.early[j]); }
    }
    forall j, k | 0 <= j < k < |m.early| ensures Apart(m.early[j], m.early[k]) {
      assert Apart(n.early[j], n.early[k]);
    }
    forall p: nat | f.base <= p < f.base + f.count ensures !Free(m, p) {
      OnlyIn(n, i, p);
      if j :| 0 <= j < |m.early| && Covers(m.early[j], p) { assert Covers(n.early[j], p); }
    }
  }

  lemma PiecesApart(m: Memory, f: Fragment, j: nat)
    requires j < |m.early| && NoneFree(m, f.base, f.count)
    ensures Apart(f, m.early[j]) && Apart(m.early[j], f)
  {
    var g := m.early[j];
    if !Apart(f, g) {
      var p := if f.base > g.base then f.base else g.base;
      assert Covers(f, p) && Covers(g, p);
      assert InPieces(m.early, p);
      assert Free(m, p);
    }
  }

  /** A block of which nothing is free can be freed; a section may also be free already, as a whole. */
  lemma NoneFreeIsOrderly(m: Memory, base: nat, pages: nat)
    requires NoneFree(m, base, pages)
    ensures Orderly(m, base, pages)
  {
    var whole := Whole(base, pages);
    WholeWithin(base, pages);
    forall i | 0 <= i < |m.early| && m.early[i].count > 0
      ensures !(base / 256 <= m.early[i].base / 256 < base / 256 + whole / 256)
    {
      PieceIsFree(m, i);
      InWhole(base, pages, m.early[i].base);
    }
  }

  /** Whole sections first, then the part of one that is left, if any */
  lemma SectionsThenPiece(m: Memory, n: Memory, o: Memory, base: nat, pages: nat)
    requires base % 256 == 0 || base / 256 == (base + pages) / 256
    requires var whole := Whole(base, pages);
      Added(m, base, whole, n) && (Valid(n) <==> Valid(m) && NoPieceIn(m.early, base / 256, whole / 256)) &&
      Added(n, base + whole, pages - whole, o) &&
      (Valid(o) <==> Valid(n) && NoneFree(n, base + whole, pages - whole))
    ensures Added(m, base, pages, o)
    ensures Valid(o) <==> Valid(m) && Orderly(m, base, pages)
  {
    WholeWithin(base, pages);
  }

  lemma WholeWithin(base: nat, pages: nat)
    ensures Whole(base, pages) <= pages && Whole(base, pages) % 256 == 0
    ensures base % 256 == 0 ==> pages < Whole(base, pages) + 256
  {
  }

  lemma InWhole(base: nat, pages: nat, p: nat)
    ensures base / 256 <= p / 256 < base / 256 + Whole(base, pages) / 256 ==> base <= p < base + pages
  {
  }

  lemma PieceIsFree(m: Memory, i: nat)
    requires i < |m.early| && m.early[i].count > 0
    ensures Free(m, m.early[i].base)
  {
    assert Covers(m.early[i], m.early[i].base);
  }

  /** Part of a section is freed twice, with room in the table for both: the pages are in the table twice, and the
      next two claims of that many pages, with no other piece as large, get the same block. */
  lemma FreedTwice(m: Memory, f: Fragment, i: nat, j: nat)
    requires Valid(m) && 0 < f.count < 256 && f.base / 256 == (f.base + f.count - 1) / 256
    requires NoneFree(m, f.base, f.count) && NoPiece(m.early, f.count)
    requires FirstEmpty(m.early, i) && FirstEmpty(m.early[i := f], j)
    ensures var once := Put(m, i, f);
            var twice := Put(once, j, f);
            Valid(once) && !Valid(twice) &&
            FirstLarge(twice.early, i, f.count) && twice.early[i].base == f.base &&
            var claimed := Taken(twice, i, f.count);
            FirstLarge(claimed.early, j, f.count) && claimed.early[j].base == f.base
  {
    var once := Put(m, i, f);
    PieceAdded(m, f, i);
    PieceAdded(once, f, j);
    assert Free(once, f.base);
    assert i < j by {
      if j < i { assert Empty(m.early, j); }
    }
  }

  /** What the pieces cover after slot i, which covered some of f, or nothing, changes */
  lemma SlotChanged(fs: seq<Fragment>, i: nat, f: Fragment, p: nat)
    requires i < |fs|
    ensures InPieces(fs[i := f], p) <==> Covers(f, p) || exists j :: 0 <= j < |fs| && j != i && Covers(fs[j], p)
    ensures InPieces(fs, p) <==> Covers(fs[i], p) || exists j :: 0 <= j < |fs| && j != i && Covers(fs[j], p)
  {
    var gs := fs[i := f];
    if Covers(f, p) { assert Covers(gs[i], p); }
    if j :| 0 <= j < |fs| && j != i && Covers(fs[j], p) { assert Covers(gs[j], p); }
  }

  /** The front of a piece is taken. */
  lemma ClaimedFromPiece(m: Memory, i: nat, pages: nat)
    requires Valid(m) && i < |m.early| && 0 < pages <= m.early[i].count
    ensures var f := m.early[i];
            Claimed(m, pages, f.base, Taken(m, i, pages))
  {
    var f := m.early[i];
    var g := Fragment(f.base + pages, f.count - pages);
    var n := Taken(m, i, pages);
    assert PieceOk(m.sections, f);
    if pages < f.count { TailInSection(f, pages); }
    forall j | 0 <= j < |m.early| && j != i ensures Apart(g, m.early[j]) && Apart(m.early[j], g) {
      if i < j { assert Apart(f, m.early[j]); } else { assert Apart(m.early[j], f); }
    }
    forall p: nat ensures Free(n, p) <==> Free(m, p) && !(f.base <= p < f.base + pages) {
      SlotChanged(m.early, i, g, p);
      if f.base <= p < f.base + pages {
        OnlyIn(m, i, p);
      }
    }
    forall p: nat | f.base <= p < f.base + pages ensures Free(m, p) {
      assert Covers(m.early[i], p);
    }
  }

  lemma TailInSection(f: Fragment, pages: nat)
    requires pages < f.count && f.base / 256 == (f.base + f.count - 1) / 256
    ensures (f.base + pages) / 256 == f.base / 256
  {
  }

  /** A page in one piece is in no other, and in no free section. */
  lemma OnlyIn(m: Memory, i: nat, p: nat)
    requires Valid(m) && i < |m.early| && Covers(m.early[i], p)
    ensures !SectionFree(m.sections, p / 256)
    ensures forall j :: 0 <= j < |m.early| && j != i ==> !Covers(m.early[j], p)
  {
    assert InPieces(m.early, p);
    PieceNotInSection(m, p);
    forall j | 0 <= j < |m.early| && j != i ensures !Covers(m.early[j], p) {
      if i < j { assert Apart(m.early[i], m.early[j]); } else { assert Apart(m.early[j], m.early[i]); }
    }
  }

  // ----- the code

  /** count_leading_zeros */
  method CountLeadingZeros(v: bv32) returns (r: nat)
    ensures r <= 32 && (forall k :: 0 <= k < r ==> !Bit(v, k)) && (r < 32 ==> Bit(v, r))
    ensures v == 0 ==> r == 32
  {
    r := 0;
    if v == 0 {
      forall k | 0 <= k < 32 ensures !Bit(v, k) { BitNot(0, k); }
      return 32;
    }
    // The word, taken as signed and shifted, stays positive until its first bit reaches the top.
    while Shl(v, r) & TOP == 0 && Shl(v, r) != 0
      invariant r <= 31 && Shl(v, r) != 0
      invariant forall k :: 0 <= k < r ==> !Bit(v, k)
      decreases 32 - r
    {
      NotYetGone(v, r);
      r := r + 1;
    }
  }

  lemma NotYetGone(v: bv32, r: nat)
    requires r <= 31 && Shl(v, r) != 0 && Shl(v, r) & TOP == 0
    ensures r < 31 && Shl(v, r + 1) != 0
  {
    Doubled(v, r);
    if r == 31 { ShlNone(v, 32); }
  }

  lemma Doubled(v: bv32, r: nat)
    requires Shl(v, r) != 0 && Shl(v, r) & TOP == 0
    ensures Shl(v, r + 1) != 0
  {
    if Shl(v, r + 1) == 0 {
      Halved(Shl(v, r));
    }
  }

  /** count_leading_ones */
  method CountLeadingOnes(v: bv32) returns (r: nat)
    ensures r <= 32 && (forall k :: 0 <= k < r ==> Bit(v, k)) && (r < 32 ==> !Bit(v, r))
  {
    r := CountLeadingZeros(!v);
    forall k | 0 <= k < 32 ensures Bit(!v, k) <==> !Bit(v, k) { BitNot(v, k); }
  }

  /** The longest run of free sections of a word is looked for between two gaps. */
  ghost predicate NoneBelow(ws: seq<bv32>, s: nat, n: nat) {
    forall k: nat :: k < s ==> !RunAt(ws, k, n)
  }

  /** Bits l up to h of a word are set, and the next one, if any, is not; no run of n starts there. */
  lemma TooShort(ws: seq<bv32>, i: nat, l: nat, c: nat, n: nat)
    requires i < |ws| && c < n && l + c <= 32 && NoneBelow(ws, 32 * i + l, n)
    requires l + c < 32 ==> !Bit(ws[i], l + c)
    ensures NoneBelow(ws, 32 * i + l + c, n)
    ensures l + c < 32 ==> NoneBelow(ws, 32 * i + l + c + 1, n)
  {
    forall k: nat | 32 * i + l <= k < 32 * i + l + c || (l + c < 32 && k == 32 * i + l + c) ensures !RunAt(ws, k, n) {
      if l + c < 32 {
        DivOf(i, l + c);
        assert !SectionFree(ws, 32 * i + l + c);
      }
    }
  }

  /** No run of one or more sections starts in a gap. */
  lemma GapSkipped(ws: seq<bv32>, i: nat, l: nat, h: nat, n: nat)
    requires i < |ws| && n > 0 && l <= h <= 32 && NoneBelow(ws, 32 * i + l, n)
    requires forall k: nat :: l <= k < h ==> !Bit(ws[i], k)
    ensures NoneBelow(ws, 32 * i + h, n)
  {
    forall k: nat | 32 * i + l <= k < 32 * i + h ensures !RunAt(ws, k, n) {
      DivOf(i, k - 32 * i);
      assert !Bit(ws[i], k - 32 * i);
      assert !SectionFree(ws, k);
    }
  }

  method Or(a: bv32, b: bv32) returns (w: bv32)
    ensures Either(w, a, b)
  {
    OrIs(a, b);
    w := a | b;
  }

  method And(a: bv32, b: bv32) returns (w: bv32)
    ensures Both(w, a, b)
  {
    AndIs(a, b);
    w := a & b;
  }

  method AndNot(a: bv32, b: bv32) returns (w: bv32)
    ensures Less(w, a, b)
  {
    LessIs(a, b);
    w := a & !b;
  }

  /** The ones at the top of a shifted word are ones of the word. */
  lemma OnesFrom(w: bv32, v: bv32, l: nat, c: nat)
    requires l < 32 && v == Shl(w, l) && c <= 32
    requires (forall k :: 0 <= k < c ==> Bit(v, k)) && (c < 32 ==> !Bit(v, c))
    ensures l + c <= 32
    ensures forall k: nat :: l <= k < l + c ==> Bit(w, k)
    ensures l + c < 32 ==> !Bit(w, l + c)
  {
    forall k: nat | k < 32 ensures Bit(v, k) <==> k + l < 32 && Bit(w, k + l) { BitShl(w, l, k); }
    assert !Bit(v, 32 - l) by { BitShl(w, l, 32 - l); }
    forall k: nat | l <= k < l + c ensures Bit(w, k) { assert Bit(v, k - l); }
  }

  lemma GapFrom(w: bv32, v: bv32, l: nat, g: nat)
    requires l <= 32 && v == Shl(w, l) && g <= 32
    requires (forall k :: 0 <= k < g ==> !Bit(v, k)) && (g < 32 ==> Bit(v, g))
    ensures l + g < 32 ==> Bit(w, l + g)
    ensures forall k: nat :: l <= k < l + g && k < 32 ==> !Bit(w, k)
  {
    forall k: nat | k < 32 ensures Bit(v, k) <==> k + l < 32 && Bit(w, k + l) { BitShl(w, l, k); }
    forall k: nat | l <= k < l + g && k < 32 ensures !Bit(w, k) { assert !Bit(v, k - l); }
  }

  ghost predicate RunCleared(ws: seq<bv32>, vs: seq<bv32>, s: nat, n: nat) {
    forall k: nat :: SectionFree(vs, k) <==> SectionFree(ws, k) && !(s <= k < s + n)
  }

  /** Free sections side by side in one word */
  lemma RunFound(ws: seq<bv32>, i: nat, l: nat, n: nat)
    requires i < |ws| && l + n <= 32 && n > 0
    requires forall k: nat :: l <= k < l + n ==> Bit(ws[i], k)
    ensures RunAt(ws, 32 * i + l, n)
  {
    DivOf(i, l);
    forall k: nat | 32 * i + l <= k < 32 * i + l + n ensures SectionFree(ws, k) {
      DivOf(i, k - 32 * i);
      assert Bit(ws[i], k - 32 * i);
    }
  }

  ghost predicate NoPiece(fs: seq<Fragment>, pages: nat) {
    forall i :: 0 <= i < |fs| ==> fs[i].count < pages
  }
  ghost predicate NoSlot(fs: seq<Fragment>) {
    forall i: nat :: !Empty(fs, i)
  }
  ghost predicate NoSection(ws: seq<bv32>) {
    forall s: nat :: !SectionFree(ws, s)
  }

  lemma OneSection(ws: seq<bv32>)
    ensures NoSection(ws) <==> forall s: nat :: !RunAt(ws, s, 1)
  {
    forall s: nat ensures RunAt(ws, s, 1) <==> SectionFree(ws, s) {
      if SectionFree(ws, s) {
        forall k: nat | s <= k < s + 1 ensures SectionFree(ws, k) { assert k == s; }
      }
    }
  }

  lemma NoneBeyond(ws: seq<bv32>, n: nat)
    requires n > 0 && NoneBelow(ws, 32 * |ws|, n)
    ensures forall s: nat :: !RunAt(ws, s, n)
  {
    forall s: nat | s >= 32 * |ws| ensures !RunAt(ws, s, n) { assert !SectionFree(ws, s); }
  }

  /** The rest of a section becomes a piece. */
  lemma SectionSplit(m: Memory, n: Memory, base: nat, pages: nat, i: nat)
    requires Valid(m) && Claimed(m, 256, base, n) && base % 256 == 0 && 0 < pages < 256 && Empty(n.early, i)
    ensures Claimed(m, pages, base, Put(n, i, Fragment(base + pages, 256 - pages)))
  {
    PieceAdded(n, Fragment(base + pages, 256 - pages), i);
  }

  // ----- free_contiguous_memory calling itself

  /** Does a call return, with calls inside it no deeper than this? */
  predicate Returns(base: nat, pages: nat, depth: nat)
    decreases depth
  {
    if base % 256 == 0 && pages % 256 == 0 then true
    else if base / 256 == (base + pages) / 256 then true
    else
      (base % 256 != 0 ==> depth > 0 && Returns(base, 256 - base % 256, depth - 1)) &&
      var rest := if base % 256 != 0 then pages - (256 - base % 256) else pages;
      rest > 255 ==> depth > 0 && Returns(base + pages - rest, rest / 256 * 256, depth - 1)
  }

  /** Whether a call returns depends on whether it asks for the same thing again. */
  lemma ReturnsIff(base: nat, pages: nat)
    ensures (exists depth: nat :: Returns(base, pages, depth)) <==> base % 256 == 0 || base / 256 == (base + pages) / 256
  {
    if base % 256 == 0 || base / 256 == (base + pages) / 256 {
      ReturnsWithin(base, pages, 1);
      assert exists depth: nat :: Returns(base, pages, depth);
    } else {
      forall depth: nat ensures !Returns(base, pages, depth) { NeverReturns(base, pages, depth); }
    }
  }

  lemma ReturnsWithin(base: nat, pages: nat, d: nat)
    requires d > 0 && (base % 256 == 0 || base / 256 == (base + pages) / 256)
    ensures Returns(base, pages, d)
  {
  }

  lemma {:induction false} NeverReturns(base: nat, pages: nat, depth: nat)
    requires base % 256 != 0 && base / 256 != (base + pages) / 256
    ensures !Returns(base, pages, depth)
  {
    if depth > 0 {
      NeverReturns(base, 256 - base % 256, depth - 1);
    }
  }

  // ----- any number of calls, by callers who free only what they were given

  datatype Extent = Extent(base: nat, pages: nat)

  datatype World = World(memory: Memory, owned: seq<Extent>)

  predicate Within(b: Extent, p: nat) {
    b.base <= p < b.base + b.pages
  }

  /** A call succeeds: pages are claimed, or a block that is owned is freed. */
  ghost predicate ClaimStep(w: World, b: Extent, v: World) {
    Claimed(w.memory, b.pages, b.base, v.memory) && v.owned == w.owned + [b]
  }

  ghost predicate FreeStep(w: World, k: nat, v: World) {
    k < |w.owned| && Freed(w.memory, w.owned[k].base, w.owned[k].pages, v.memory) &&
    v.owned == w.owned[..k] + w.owned[k + 1..]
  }

  /** A block may be divided by its owner, and the parts freed separately. */
  ghost predicate SplitStep(w: World, k: nat, n: nat, v: World) {
    k < |w.owned| && n <= w.owned[k].pages && v.memory == w.memory &&
    var b := w.owned[k];
    v.owned == w.owned[k := Extent(b.base, n)] + [Extent(b.base + n, b.pages - n)]
  }

  /** Blocks side by side, of one owner, may be put together, and freed by one call. */
  ghost predicate MergeStep(w: World, j: nat, k: nat, v: World) {
    j < |w.owned| && k < |w.owned| && j != k && v.memory == w.memory &&
    w.owned[j].base + w.owned[j].pages == w.owned[k].base &&
    var bs := w.owned[j := Extent(w.owned[j].base, w.owned[j].pages + w.owned[k].pages)];
    v.owned == bs[..k] + bs[k + 1..]
  }

  ghost predicate Next(w: World, v: World) {
    (exists b :: ClaimStep(w, b, v)) || (exists k :: FreeStep(w, k, v)) || (exists k, n :: SplitStep(w, k, n, v)) ||
    (exists j, k :: MergeStep(w, j, k, v))
  }

  /** How many times a page is there: free, or in an extent that someone has */
  function Owners(bs: seq<Extent>, p: nat): nat {
    if bs == [] then 0 else (if Within(bs[0], p) then 1 else 0) + Owners(bs[1..], p)
  }

  ghost function Copies(w: World, p: nat): nat {
    (if Free(w.memory, p) then 1 else 0) + Owners(w.owned, p)
  }

  lemma {:induction false} OwnersAppend(a: seq<Extent>, b: seq<Extent>, p: nat)
    ensures Owners(a + b, p) == Owners(a, p) + Owners(b, p)
  {
    if a == [] {
      assert a + b == b;
    } else {
      assert (a + b)[1..] == a[1..] + b;
      OwnersAppend(a[1..], b, p);
    }
  }

  lemma OwnersOf(bs: seq<Extent>, k: nat, p: nat)
    requires k < |bs|
    ensures Owners(bs, p) == Owners(bs[..k], p) + (if Within(bs[k], p) then 1 else 0) + Owners(bs[k + 1..], p)
  {
    assert bs == bs[..k] + ([bs[k]] + bs[k + 1..]);
    OwnersAppend(bs[..k], [bs[k]] + bs[k + 1..], p);
    OwnersAppend([bs[k]], bs[k + 1..], p);
    OwnersOne(bs[k], p);
  }

  lemma OwnersOne(b: Extent, p: nat)
    ensures Owners([b], p) == if Within(b, p) then 1 else 0
  {
    assert [b][1..] == [];
  }

  lemma ClaimCopies(w: World, b: Extent, v: World, p: nat)
    requires ClaimStep(w, b, v)
    ensures Copies(v, p) == Copies(w, p)
  {
    OwnersAppend(w.owned, [b], p);
    OwnersOne(b, p);
  }

  lemma FreeCopies(w: World, k: nat, v: World, p: nat)
    requires FreeStep(w, k, v) && Copies(w, p) <= 1
    ensures Copies(v, p) == Copies(w, p)
  {
    OwnersOf(w.owned, k, p);
    OwnersAppend(w.owned[..k], w.owned[k + 1..], p);
  }

  lemma SplitCopies(w: World, k: nat, n: nat, v: World, p: nat)
    requires SplitStep(w, k, n, v)
    ensures Copies(v, p) == Copies(w, p)
  {
    var b := w.owned[k];
    var c, d := Extent(b.base, n), Extent(b.base + n, b.pages - n);
    OwnersAppend(w.owned[k := c], [d], p);
    OwnersOne(d, p);
    OwnersOf(w.owned, k, p);
    OwnersOf(w.owned[k := c], k, p);
    assert w.owned[k := c][..k] == w.owned[..k];
    assert w.owned[k := c][k + 1..] == w.owned[k + 1..];
  }

  lemma MergeCopies(w: World, j: nat, k: nat, v: World, p: nat)
    requires MergeStep(w, j, k, v)
    ensures Copies(v, p) == Copies(w, p)
  {
    var b := Extent(w.owned[j].base, w.owned[j].pages + w.owned[k].pages);
    var bs := w.owned[j := b];
    OwnersOf(w.owned, j, p);
    OwnersOf(bs, j, p);
    assert bs[..j] == w.owned[..j] && bs[j + 1..] == w.owned[j + 1..];
    OwnersOf(bs, k, p);
    OwnersAppend(bs[..k], bs[k + 1..], p);
  }

  ghost predicate IsRun(ws: seq<World>) {
    |ws| > 0 && forall i :: 0 <= i < |ws| - 1 ==> Next(ws[i], ws[i + 1])
  }

  lemma NextCopies(w: World, v: World, p: nat)
    requires Next(w, v) && Copies(w, p) <= 1
    ensures Copies(v, p) == Copies(w, p)
  {
    if b :| ClaimStep(w, b, v) {
      ClaimCopies(w, b, v, p);
    } else if k :| FreeStep(w, k, v) {
      FreeCopies(w, k, v, p);
    } else if k, n :| SplitStep(w, k, n, v) {
      SplitCopies(w, k, n, v, p);
    } else {
      var j, k :| MergeStep(w, j, k, v);
      MergeCopies(w, j, k, v, p);
    }
  }

  /** No page is ever owned twice, or owned while free, and none is lost: over a whole run,
      each page that is free or owned at the start stays so, once. */
  lemma {:induction false} NoPageTwice(ws: seq<World>, p: nat)
    requires IsRun(ws) && Copies(ws[0], p) <= 1
    ensures Copies(ws[|ws| - 1], p) == Copies(ws[0], p)
    decreases |ws|
  {
    if |ws| > 1 {
      var front := ws[..|ws| - 1];
      forall i | 0 <= i < |front| - 1 ensures Next(front[i], front[i + 1]) { assert Next(ws[i], ws[i + 1]); }
      NoPageTwice(front, p);
      NextCopies(ws[|ws| - 2], ws[|ws| - 1], p);
    }
  }

  /** A block whose pages are owned can be freed: that keeps the tables in order. */
  lemma OwnedIsOrderly(w: World, k: nat)
    requires k < |w.owned| && forall p: nat :: Within(w.owned[k], p) ==> Copies(w, p) <= 1
    ensures NoneFree(w.memory, w.owned[k].base, w.owned[k].pages)
    ensures Orderly(w.memory, w.owned[k].base, w.owned[k].pages)
  {
    forall p: nat | Within(w.owned[k], p) ensures !Free(w.memory, p) {
      OwnersOf(w.owned, k, p);
    }
    NoneFreeIsOrderly(w.memory, w.owned[k].base, w.owned[k].pages);
  }

  datatype Claim = Block(base: nat) | Unavailable | Panic

  class Manager {
    const sections: array<bv32>
    const early: array<Fragment>

    ghost function State(): Memory
      reads sections, early
    {
      Memory(sections[..], early[..])
    }

    /** The two tables are different pieces of memory, */
    ghost predicate Shaped() {
      sections as object != early as object && sections.Length == WORDS && early.Length == SLOTS
    }

    /** and hold what Valid says. */
    ghost predicate Ok()
      reads sections, early
    {
      Shaped() && Valid(State())
    }

    /** Both tables start as zeroes, with no memory free. */
    constructor ()
      ensures Ok() && fresh(sections) && fresh(early)
      ensures forall p: nat :: !Free(State(), p)
    {
      sections := new bv32[WORDS](_ => 0);
      early := new Fragment[SLOTS](_ => Fragment(0, 0));
      new;
      forall k: nat | k < 32 ensures !Bit(0, k) { BitNot(0, k); }
    }

    /** sections[i] |= bits */
    method OrWord(i: nat, bits: bv32, ghost lo: nat, ghost hi: nat)
      requires i < sections.Length && Mask(bits, i, lo, hi)
      modifies sections
      ensures forall s: nat :: SectionFree(sections[..], s) <==> SectionFree(old(sections[..]), s) || (s / 32 == i && lo <= s < hi)
    {
      ghost var ws := sections[..];
      var w := Or(sections[i], bits);
      SetInWord(ws, i, bits, w, lo, hi);
      sections[i] := w;
      assert sections[..] == ws[i := w];
    }

    /** The part of free_contiguous_memory that releases sections only */
    method FreeSections(section: nat, count: nat)
      requires Shaped() && section < 4096 && section + count <= 4096
      modifies sections
      ensures Added(old(State()), 256 * section, 256 * count, State()) && early[..] == old(early[..])
      ensures Valid(State()) <==> old(Valid(State())) && NoPieceIn(old(early[..]), section, count)
    {
      ghost var m := State();
      SetSections(section, count);
      SectionsAdded(m, State(), section, count);
    }

    method SetSections(section: nat, count: nat)
      requires sections.Length == WORDS && section < 4096 && section + count <= 4096
      modifies sections
      ensures forall s: nat :: SectionFree(sections[..], s) <==> SectionFree(old(sections[..]), s) || section <= s < section + count
    {
      ghost var ws := sections[..];
      var end := section + count;
      var firstIndex, lastIndex := section / 32, end / 32;
      var firstBits, lastBits := Shr(ALL, section % 32), !Shr(ALL, end % 32);
      Masks(section, end);
      if firstIndex == lastIndex {
        var bits := And(firstBits, lastBits);
        OneWordMask(bits, firstBits, lastBits, section, end);
        OrWord(firstIndex, bits, section, end);
      } else {
        FirstWordMask(firstBits, section, end);
        OrWord(firstIndex, firstBits, section, end);
        ghost var first := firstIndex;
        firstIndex := firstIndex + 1;
        NoLastBits(lastBits, end % 32);
        if lastBits != 0 {
          LastWordMask(lastBits, section, end);
          OrWord(lastIndex, lastBits, section, end);
        }
        while firstIndex < lastIndex
          invariant first < firstIndex <= lastIndex
          invariant forall s: nat :: SectionFree(sections[..], s) <==>
            SectionFree(ws, s) || (section <= s < end && (s / 32 < firstIndex || s / 32 == lastIndex))
        {
          FillWord(firstIndex, section, end);
          firstIndex := firstIndex + 1;
        }
      }
    }

    /** sections[i] = 0xffffffff */
    method FillWord(i: nat, ghost section: nat, ghost end: nat)
      requires section / 32 < i < end / 32 && i < sections.Length
      modifies sections
      ensures forall s: nat :: SectionFree(sections[..], s) <==> SectionFree(old(sections[..]), s) || (s / 32 == i && section <= s < end)
    {
      ghost var ws := sections[..];
      FullWordMask(i, section, end);
      forall k: nat | k < 32 ensures Bit(ALL, k) { AllBits(k); }
      SetInWord(ws, i, ALL, ALL, section, end);
      sections[i] := ALL;
      assert sections[..] == ws[i := ALL];
    }

    /** free_contiguous_memory; false where it panics, finding every slot in use. It does not look at what is free:
        the tables stay in order exactly when the block is as it should be. */
    method FreeContiguousMemory(base: nat, pages: nat) returns (ok: bool)
      requires Shaped() && base + pages <= LIMIT && base < LIMIT
      requires base % 256 == 0 || base / 256 == (base + pages) / 256
      modifies sections, early
      ensures ok <==> (base % 256 == 0 && pages % 256 == 0) || pages == 0 || exists i :: Empty(old(early[..]), i)
      ensures ok ==> Added(old(State()), base, pages, State())
      ensures ok ==> (Valid(State()) <==> old(Valid(State())) && Orderly(old(State()), base, pages))
      ensures !ok ==> Added(old(State()), base, Whole(base, pages), State()) && early[..] == old(early[..])
      ensures base % 256 == 0 && pages % 256 == 0 ==> early[..] == old(early[..])
      decreases pages
    {
      ghost var m := State();
      ghost var base0, pages0 := base, pages;
      var base, pages := base, pages;
      if base % 256 != 0 || pages % 256 != 0 {
        if base / 256 != (base + pages) / 256 {
          // base is at the start of a section
          if pages > 255 {
            var whole := pages / 256 * 256;
            WholeThenRest(base, pages);
            ok := FreeContiguousMemory(base, whole);
            base := base + whole;
            pages := pages - whole;
          }
        }
        ok := true;
        ghost var n := State();
        if pages != 0 {
          LastOfPiece(base, pages);
          ok := FreePiece(base, pages);
        }
        if ok { SectionsThenPiece(m, n, State(), base0, pages0); }
      } else {
        FreeSections(base / 256, pages / 256);
        ok := true;
      }
    }

    lemma WholeThenRest(base: nat, pages: nat)
      requires base % 256 == 0
      ensures var whole := pages / 256 * 256;
        whole <= pages < whole + 256 && whole % 256 == 0 && (base + whole) % 256 == 0
      ensures Whole(base, pages) == Whole(base, pages / 256 * 256) == pages / 256 * 256
    {
    }

    lemma LastOfPiece(base: nat, pages: nat)
      requires pages > 0
      requires base / 256 == (base + pages) / 256 || (base % 256 == 0 && pages < 256)
      ensures pages < 256 && base / 256 == (base + pages - 1) / 256
    {
    }

    /** A piece of a section goes into the first empty slot, if there is one. */
    method FreePiece(base: nat, pages: nat) returns (ok: bool)
      requires Shaped() && 0 < pages < 256 && base / 256 == (base + pages - 1) / 256
      modifies early
      ensures ok <==> exists i :: Empty(old(early[..]), i)
      ensures forall i: nat :: FirstEmpty(old(early[..]), i) ==> State() == Put(old(State()), i, Fragment(base, pages))
      ensures ok ==> Added(old(State()), base, pages, State())
      ensures ok ==> (Valid(State()) <==> old(Valid(State())) && NoneFree(old(State()), base, pages))
      ensures !ok ==> State() == old(State())
    {
      ghost var m := State();
      var i := 0;
      while i < SLOTS
        invariant 0 <= i <= SLOTS && State() == m
        invariant forall j :: 0 <= j < i ==> !Empty(early[..], j)
      {
        if early[i].count == 0 {
          early[i] := Fragment(base, pages);
          assert FirstEmpty(m.early, i);
          PieceAdded(m, Fragment(base, pages), i);
          assert State() == Put(m, i, Fragment(base, pages));
          return true;
        }
        i := i + 1;
      }
      return false;
    }

    /** One word of the bitmap is searched for n free sections in a row. */
    method ClaimInWord(i: nat, n: nat) returns (result: Claim)
      requires i < sections.Length && 0 < n < 32 && NoneBelow(sections[..], 32 * i, n)
      modifies sections
      ensures !result.Panic?
      ensures result.Unavailable? ==> sections[..] == old(sections[..]) && NoneBelow(sections[..], 32 * i + 32, n)
      ensures result.Block? ==> result.base % 256 == 0 && LowestRun(old(sections[..]), result.base / 256, n)
      ensures result.Block? ==> RunCleared(old(sections[..]), sections[..], result.base / 256, n)
    {
      ghost var ws := sections[..];
      result := Unavailable;
      var word := sections[i];
      var l0 := CountLeadingZeros(word);
      GapSkipped(ws, i, 0, l0, n);
      while l0 < 32 && result.Unavailable?
        invariant sections[..] == ws && result.Unavailable?
        invariant NoneBelow(ws, 32 * i + (if l0 < 32 then l0 else 32), n)
        invariant l0 < 32 ==> Bit(word, l0)
        decreases 32 - l0
      {
        var l1 := CountLeadingOnes(Shl(word, l0));
        OnesFrom(word, Shl(word, l0), l0, l1);
        if l1 >= n {
          RunFound(ws, i, l0, n);
          ClearRun(i, l0, n);
          DivOf(i, l0);
          return Block(256 * (32 * i + l0));
        } else {
          var gap := CountLeadingZeros(Shl(word, l0 + l1));
          GapFrom(word, Shl(word, l0 + l1), l0 + l1, gap);
          TooShort(ws, i, l0, l1, n);
          GapSkipped(ws, i, l0 + l1, if l0 + l1 + gap < 32 then l0 + l1 + gap else 32, n);
          l0 := l0 + l1 + gap;
        }
      }
    }

    /** sections[i] &= ~mask */
    method ClearRun(i: nat, l0: nat, n: nat)
      requires i < sections.Length && 0 < n < 32 && l0 + n <= 32
      modifies sections
      ensures RunCleared(old(sections[..]), sections[..], 32 * i + l0, n)
    {
      ghost var ws := sections[..];
      var mask := Shr(Shl(ALL, 32 - n), l0);
      ClaimMask(mask, i, l0, n);
      var w := AndNot(sections[i], mask);
      ClearInWord(ws, i, mask, w, 32 * i + l0, 32 * i + l0 + n);
      sections[i] := w;
      assert sections[..] == ws[i := w];
      forall s: nat | 32 * i + l0 <= s < 32 * i + l0 + n ensures s / 32 == i {}
    }

    /** claim_contiguous_memory. The claim of a whole section, to be split, is the same code again. */
    method ClaimContiguousMemory(pages: nat) returns (result: Claim)
      requires Shaped() && pages > 0
      modifies sections, early
      ensures old(Ok()) ==> Ok()
      ensures result.Panic? <==> pages >= 256 && (pages % 256 != 0 || pages / 256 >= 32)
      ensures result.Unavailable? || result.Panic? ==> State() == old(State())
      ensures old(Ok()) && result.Block? ==> Claimed(old(State()), pages, result.base, State())
      ensures forall i: nat :: pages < 256 && FirstLarge(old(early[..]), i, pages) ==>
        result == Block(old(early[..])[i].base) && State() == Taken(old(State()), i, pages)
      ensures pages < 256 && NoPiece(old(early[..]), pages) && result.Block? ==>
        result.base % 256 == 0 && LowestRun(old(sections[..]), result.base / 256, 1)
      ensures pages % 256 == 0 && result.Block? ==>
        result.base % 256 == 0 && LowestRun(old(sections[..]), result.base / 256, pages / 256)
      ensures pages % 256 == 0 ==> early[..] == old(early[..])
      ensures pages % 256 == 0 && !result.Panic? ==>
        (result.Unavailable? <==> forall s: nat :: !RunAt(old(sections[..]), s, pages / 256))
      ensures pages < 256 ==>
        (result.Unavailable? <==> NoPiece(old(early[..]), pages) && (NoSlot(old(early[..])) || NoSection(old(sections[..]))))
      decreases pages % 256, 1, 0
    {
      if pages % 256 == 0 {
        if pages / 256 >= 32 { return Panic; }
        result := ClaimSections(pages / 256);
      } else {
        result := ClaimPages(pages);
      }
    }

    /** Less than a section, from the first piece that is large enough */
    method ClaimPages(pages: nat) returns (result: Claim)
      requires Shaped() && pages % 256 != 0
      modifies sections, early
      ensures old(Ok()) ==> Ok()
      ensures result.Panic? <==> pages >= 256
      ensures result.Unavailable? || result.Panic? ==> State() == old(State())
      ensures old(Ok()) && result.Block? ==> Claimed(old(State()), pages, result.base, State())
      ensures forall i: nat :: pages < 256 && FirstLarge(old(early[..]), i, pages) ==>
        result == Block(old(early[..])[i].base) && State() == Taken(old(State()), i, pages)
      ensures pages < 256 && NoPiece(old(early[..]), pages) && result.Block? ==>
        result.base % 256 == 0 && LowestRun(old(sections[..]), result.base / 256, 1)
      ensures pages < 256 ==>
        (result.Unavailable? <==> NoPiece(old(early[..]), pages) && (NoSlot(old(early[..])) || NoSection(old(sections[..]))))
      decreases pages % 256, 0, 1
    {
      ghost var m := State();
      var i, emptyEntry := FindPiece(pages);
      if pages >= 256 { return Panic; }
      if i >= SLOTS {
        result := SplitSection(pages, emptyEntry);
      } else {
        result := TakeFromPiece(i, pages);
      }
    }

    method TakeFromPiece(i: nat, pages: nat) returns (result: Claim)
      requires Shaped() && i < SLOTS && 0 < pages <= early[i].count
      modifies early
      ensures result == Block(old(early[i].base)) && State() == Taken(old(State()), i, pages)
      ensures old(Ok()) ==> Ok() && Claimed(old(State()), pages, result.base, State())
    {
      ghost var m := State();
      result := Block(early[i].base);
      early[i] := Fragment(early[i].base + pages, early[i].count - pages);
      assert State() == Taken(m, i, pages);
      if Valid(m) { ClaimedFromPiece(m, i, pages); }
    }

    /** No piece is large enough: a whole section is claimed, and what is left of it kept. */
    method SplitSection(pages: nat, emptyEntry: int) returns (result: Claim)
      requires Shaped() && 0 < pages < 256
      requires emptyEntry == -1 || (0 <= emptyEntry && Empty(early[..], emptyEntry))
      modifies sections, early
      ensures !result.Panic? && (old(Ok()) ==> Ok())
      ensures result.Unavailable? ==> State() == old(State())
      ensures old(Ok()) && result.Block? ==> Claimed(old(State()), pages, result.base, State())
      ensures result.Unavailable? <==> emptyEntry == -1 || NoSection(old(sections[..]))
      ensures result.Block? ==> result.base % 256 == 0 && LowestRun(old(sections[..]), result.base / 256, 1)
      decreases pages % 256, 0, 0
    {
      ghost var m := State();
      result := Unavailable;
      if emptyEntry != -1 {
        var section := ClaimContiguousMemory(256);
        OneSection(m.sections);
        if section.Block? {
          ghost var n := State();
          var piece := Fragment(section.base + pages, 256 - pages);
          early[emptyEntry] := piece;
          if Valid(m) { SectionSplit(m, n, section.base, pages, emptyEntry); }
          assert State() == Put(n, emptyEntry, piece);
          result := section;
        }
      }
    }

    /** The first piece of at least so many pages, and the last empty slot before it */
    method FindPiece(pages: nat) returns (i: nat, emptyEntry: int)
      requires early.Length == SLOTS && pages > 0
      ensures if i < SLOTS then FirstLarge(early[..], i, pages)
              else NoPiece(early[..], pages) && (NoSlot(early[..]) <==> emptyEntry == -1)
      ensures i <= SLOTS && -1 <= emptyEntry < i && (emptyEntry != -1 ==> Empty(early[..], emptyEntry))
      ensures forall j :: emptyEntry < j < i ==> !Empty(early[..], j)
    {
      i, emptyEntry := 0, -1;
      while i < SLOTS && pages > early[i].count
        invariant i <= SLOTS && (forall j :: 0 <= j < i ==> early[j].count < pages)
        invariant -1 <= emptyEntry < i && (emptyEntry != -1 ==> Empty(early[..], emptyEntry))
        invariant forall j :: emptyEntry < j < i ==> !Empty(early[..], j)
      {
        if early[i].count == 0 { emptyEntry := i; }
        i := i + 1;
      }
    }

    /** The lowest word with room for so many sections */
    method ClaimSections(required: nat) returns (result: Claim)
      requires Shaped() && 0 < required < 32
      modifies sections
      ensures !result.Panic? && (old(Ok()) ==> Ok()) && early[..] == old(early[..])
      ensures result.Unavailable? ==> State() == old(State()) && forall s: nat :: !RunAt(old(sections[..]), s, required)
      ensures old(Ok()) && result.Block? ==> Claimed(old(State()), 256 * required, result.base, State())
      ensures result.Block? ==> result.base % 256 == 0 && LowestRun(old(sections[..]), result.base / 256, required)
    {
      ghost var m := State();
      var i := 0;
      result := Unavailable;
      while i < WORDS && result.Unavailable?
        invariant i <= WORDS && !result.Panic? && early[..] == m.early && sections.Length == WORDS
        invariant result.Unavailable? ==> sections[..] == m.sections && NoneBelow(m.sections, 32 * i, required)
        invariant result.Block? ==> result.base % 256 == 0 && LowestRun(m.sections, result.base / 256, required)
        invariant result.Block? ==> RunCleared(m.sections, sections[..], result.base / 256, required)
      {
        result := ClaimInWord(i, required);
        i := i + 1;
      }
      if result.Block? {
        if Valid(m) { ClaimedSections(m, State(), result.base / 256, required); }
      } else {
        NoneBeyond(m.sections, required);
      }
    }
  }
}
