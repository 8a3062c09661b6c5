/** The words that map_memory writes (Processor/VMSAv6/mmu.c), and what the processor reads in them: the
    short-descriptor format (section G4.4 of the Arm Architecture Reference Manual, DDI 0487C), with the access flag and
    the AP[2:1] model of access permissions. */
module Descriptors {
  import opened Tasks
  import opened Mmu

  // ----- what the processor reads

  /** What a descriptor allows: privileged code may always read. */
  datatype Access = Access(writable: bool, executable: bool, user: bool, cached: bool, shareable: bool, specific: bool)

  predicate IsSet(w: bv32, bits: bv32) { w & bits == bits }

  /** A section, if bits 1 and 0 are 2, it is not part of a supersection, and the access flag is set */
  function SectionAccess(w: bv32): Option<Access> {
    if w & 3 != 2 || IsSet(w, 0x40000) || !IsSet(w, 0x400) then None
    else Some(Access(!IsSet(w, 0x8000), !IsSet(w, 0x10), IsSet(w, 0x800), w & 0x700c != 0, IsSet(w, 0x10000), IsSet(w, 0x20000)))
  }

  function SectionBase(w: bv32): bv32 { w >> 20 }

  /** A small page, if bit 1 is set, and the access flag */
  function PageAccess(w: bv32): Option<Access> {
    if !IsSet(w, 2) || !IsSet(w, 0x10) then None
    else Some(Access(!IsSet(w, 0x200), !IsSet(w, 1), IsSet(w, 0x20), w & 0x1cc != 0, IsSet(w, 0x400), IsSet(w, 0x800)))
  }

  function PageBase(w: bv32): bv32 { w >> 12 }

  // ----- what was asked for

  /** Memory that can be written, and run, as its kind says; open to user code, and known to one address space only,
      if that was asked for; shareable, unless it is for one core that does not share it. */
  predicate Grants(a: Access, m: Mapping) {
    && (a.writable <==> m.kind in {MemoryRWX, MemoryRW, Device})
    && (a.executable <==> m.kind in {MemoryRWX, MemoryRX})
    && (a.cached <==> m.kind != Device)
    && (a.user <==> m.user) && (a.specific <==> m.specific)
    && (a.shareable <==> m.allCores || !m.notShared)
  }

  /** What the attributes in the tables stand for */
  function AccessOf(a: Attributes): Access {
    Access(a.kind in {MemoryRWX, MemoryRW, Device}, a.kind in {MemoryRWX, MemoryRX}, a.user, a.kind != Device, a.shareable, a.specific)
  }

  /** Nothing is lost: attributes that differ allow different things. */
  lemma AccessDiffers(a: Attributes, b: Attributes)
    ensures AccessOf(a) == AccessOf(b) <==> a == b
  {
  }

  // ----- the words

  const CACHED_SECTION: bv32 := 0x5006
  const CACHED_PAGE: bv32 := 0x144

  function SectionKind(k: Kind): bv32 {
    match k
    case MemoryRWX => 0x2 | CACHED_SECTION
    case MemoryRW => 0x12 | CACHED_SECTION
    case MemoryRX => 0x8002 | CACHED_SECTION
    case MemoryR => 0x8012 | CACHED_SECTION
    case Device => 0x12
  }

  function PageKind(k: Kind): bv32 {
    match k
    case MemoryRWX => 0x2 | CACHED_PAGE
    case MemoryRW => 0x3 | CACHED_PAGE
    case MemoryRX => 0x202 | CACHED_PAGE
    case MemoryR => 0x203 | CACHED_PAGE
    case Device => 0x3
  }

  lemma SectionKinds(k: Kind)
    ensures var w := SectionKind(k);
      && w & 3 == 2 && w & 0xffff_0fe0 == 0
      && w & 0x8000 == (if k in {MemoryRWX, MemoryRW, Device} then 0 else 0x8000)
      && w & 0x10 == (if k in {MemoryRWX, MemoryRX} then 0 else 0x10)
      && w & 0x700c == (if k == Device then 0 else 0x5004)
  {
  }

  lemma PageKinds(k: Kind)
    ensures var w := PageKind(k);
      && w & 2 == 2 && w & 0xffff_fc30 == 0
      && w & 0x200 == (if k in {MemoryRWX, MemoryRW, Device} then 0 else 0x200)
      && w & 1 == (if k in {MemoryRWX, MemoryRX} then 0 else 1)
      && w & 0x1cc == (if k == Device then 0 else 0x144)
  {
  }

  /** The fields that are set one by one are not those of the kind, nor one another's. */
  method SectionFields(k: bv32, s: bv32, u: bv32, n: bv32, base: bv32) returns (w: bv32)
    requires k & 0xffff_0fe0 == 0 && (s == 0 || s == 0x10000) && (u == 0 || u == 0x800) && (n == 0 || n == 0x20000)
    requires base < 0x1000
    ensures w & 3 == k & 3 && w & 0x700c == k & 0x700c && w & 0x8000 == k & 0x8000 && w & 0x10 == k & 0x10
    ensures w & 0x10000 == s && w & 0x800 == u && w & 0x20000 == n && w & 0x400 == 0x400
    ensures w >> 20 == base && w & 0x40000 == 0 && w & 0xc03e0 == 0
  {
    w := k | s | u | n | 0x400 | (base << 20);
  }

  method PageFields(k: bv32, s: bv32, u: bv32, n: bv32, base: bv32) returns (w: bv32)
    requires k & 0xffff_fc30 == 0 && (s == 0 || s == 0x400) && (u == 0 || u == 0x20) && (n == 0 || n == 0x800)
    requires base < 0x10_0000
    ensures w & 2 == k & 2 && w & 0x1cc == k & 0x1cc && w & 0x200 == k & 0x200 && w & 1 == k & 1
    ensures w & 0x400 == s && w & 0x20 == u && w & 0x800 == n && w & 0x10 == 0x10
    ensures w >> 12 == base
  {
    w := k | s | u | n | 0x10 | (base << 12);
  }

  /** What is read in such words, bit by bit */
  lemma SectionReads(w: bv32, k: bv32, s: bv32, u: bv32, n: bv32)
    requires w & 3 == 2 && w & 0x40000 == 0 && w & 0x400 == 0x400
    requires w & 0x8000 == k & 0x8000 && w & 0x10 == k & 0x10 && w & 0x700c == k & 0x700c
    requires w & 0x10000 == s && w & 0x800 == u && w & 0x20000 == n
    ensures SectionAccess(w) ==
      Some(Access(k & 0x8000 == 0, k & 0x10 == 0, u != 0, k & 0x700c != 0, s != 0, n != 0))
  {
  }

  lemma PageReads(w: bv32, k: bv32, s: bv32, u: bv32, n: bv32)
    requires w & 2 == 2 && w & 0x10 == 0x10
    requires w & 0x200 == k & 0x200 && w & 1 == k & 1 && w & 0x1cc == k & 0x1cc
    requires w & 0x400 == s && w & 0x20 == u && w & 0x800 == n
    ensures PageAccess(w) == Some(Access(k & 0x200 == 0, k & 1 == 0, u != 0, k & 0x1cc != 0, s != 0, n != 0))
  {
  }

  /** The first word for whole sections: the kind, and then the fields that are set one by one; domain, P and the bits
      for supersections and for not secure memory are clear. */
  method SectionWord(m: Mapping, section: bv32) returns (w: bv32)
    requires section < 0x1000
    ensures SectionBase(w) == section && SectionAccess(w).Some? && Grants(SectionAccess(w).value, m)
    ensures SectionAccess(w).value == AccessOf(AttributesOf(m))
    ensures w & 0xc03e0 == 0
  {
    var kind := SectionKind(m.kind);
    var shared: bv32 := if m.notShared && !m.allCores then 0 else 0x10000;
    var user: bv32 := if m.user then 0x800 else 0;
    var specific: bv32 := if m.specific then 0x20000 else 0;
    SectionKinds(m.kind);
    w := SectionFields(kind, shared, user, specific, section);
    SectionReads(w, kind, shared, user, specific);
  }

  /** The first word for pages */
  method PageWord(m: Mapping, page: bv32) returns (w: bv32)
    requires page < 0x10_0000
    ensures PageBase(w) == page && PageAccess(w).Some? && Grants(PageAccess(w).value, m)
    ensures PageAccess(w).value == AccessOf(AttributesOf(m))
  {
    var kind := PageKind(m.kind);
    var shared: bv32 := if m.notShared && !m.allCores then 0 else 0x400;
    var user: bv32 := if m.user then 0x20 else 0;
    var specific: bv32 := if m.specific then 0x800 else 0;
    PageKinds(m.kind);
    w := PageFields(kind, shared, user, specific, page);
    PageReads(w, kind, shared, user, specific);
  }

  /** The base goes up by one for each next section, or page, and nothing else changes. */
  lemma NextSection(w: bv32)
    ensures SectionAccess(w + 0x10_0000) == SectionAccess(w)
    ensures SectionBase(w + 0x10_0000) == (SectionBase(w) + 1) & 0xfff
  {
  }

  lemma NextPage(w: bv32)
    ensures PageAccess(w + 0x1000) == PageAccess(w)
    ensures PageBase(w + 0x1000) == (PageBase(w) + 1) & 0xf_ffff
  {
  }

  // ----- map_memory

  /** After map_memory the pages asked for are there, for the core that called it, and what may be done with them is
      what was asked for: whole sections, or up to 256 pages, those in the section of the first. */
  lemma MappedGrants(s: Tables, c: nat, m: Mapping, p: nat)
    requires Inv(s) && c < |s.l1| && m.va + m.pages <= PAGES && m.va < PAGES && MapMemory(s, c, m).Some?
    requires Covered(m, p)
    ensures Shaped(MapMemory(s, c, m).value) && |MapMemory(s, c, m).value.l1| == |s.l1|
    ensures var f := View(MapMemory(s, c, m).value, c, p);
      f.Mapped? && f.page == m.basePage + p - m.va && Grants(AccessOf(f.attributes), m)
  {
    PageAsAsked(s, c, m, p);
  }
}
