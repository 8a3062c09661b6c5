/** Processor/VMSAv6/mmu.c: two levels of translation tables for each core, in the short-descriptor format
    (section G4.4 of the Arm Architecture Reference Manual, DDI 0487C). Core 0's level 1 table is the
    global one, which the other cores copy from as they need to. */
module Mmu {
  import opened Tasks

  /** The address of the routine that deals with a fault, kept in the place of an entry */
  type Handler = nat

  /** check_global_table */
  const CHECK: Handler := 0

  datatype Kind = MemoryRWX | MemoryRW | MemoryRX | MemoryR | Device

  datatype Attributes = Attributes(kind: Kind, user: bool, specific: bool, shareable: bool)

  datatype Entry1 = Faults(handler: Handler) | Table(table: nat) | Section(base: nat, attributes: Attributes)

  datatype Entry2 = PageFaults(handler: Handler) | Page(base: nat, attributes: Attributes)

  const SECTIONS := 4096
  const PAGES := 4096 * 256

  /** l1: the level 1 table of each core; l2: every level 2 table; free: the unused ones, in ring order */
  datatype Tables = Tables(l1: seq<seq<Entry1>>, l2: seq<seq<Entry2>>, free: seq<nat>)

  /** Addresses and amounts are in pages. */
  datatype Mapping = Mapping(basePage: nat, pages: nat, va: nat, kind: Kind, specific: bool, allCores: bool, user: bool, notShared: bool)

  function AttributesOf(m: Mapping): Attributes {
    Attributes(m.kind, m.user, m.specific, !(m.notShared && !m.allCores))
  }

  predicate WholeSections(m: Mapping) {
    m.basePage % 256 == 0 && m.va % 256 == 0 && m.pages % 256 == 0
  }

  // ----- map_memory

  function SetEntry(l1: seq<seq<Entry1>>, c: nat, i: nat, e: Entry1): seq<seq<Entry1>>
    requires c < |l1| && i < |l1[c]|
  {
    l1[c := l1[c][i := e]]
  }

  function WithSections(es: seq<Entry1>, start: nat, n: nat, base: nat, a: Attributes): (r: seq<Entry1>)
    ensures |r| == |es|
    ensures forall i: nat :: i < |es| ==> r[i] == if start <= i < start + n then Section(base + i - start, a) else es[i]
  {
    seq(|es|, i requires 0 <= i < |es| => if start <= i < start + n then Section(base + i - start, a) else es[i])
  }

  /** n pages from one on; the number of a page in its table has eight bits. */
  function WithPages(es: seq<Entry2>, first: nat, n: nat, base: nat, a: Attributes): (r: seq<Entry2>)
    requires |es| == 256
    ensures |r| == 256
  {
    if n == 0 then es else WithPages(es, first, n - 1, base, a)[(first + n - 1) % 256 := Page(base + n - 1, a)]
  }

  function AllFault(h: Handler): (r: seq<Entry2>)
    ensures |r| == 256 && forall i :: 0 <= i < 256 ==> r[i] == PageFaults(h)
  {
    seq(256, _ => PageFaults(h))
  }

  ghost predicate Shaped(s: Tables) {
    |s.l1| > 0 && (forall c :: 0 <= c < |s.l1| ==> |s.l1[c]| == SECTIONS) &&
    (forall k :: 0 <= k < |s.l2| ==> |s.l2[k]| == 256)
  }

  function MapSections(s: Tables, c: nat, m: Mapping): Tables
    requires c < |s.l1|
  {
    var start, n, base := m.va / 256, m.pages / 256, m.basePage / 256;
    var own := s.l1[c := WithSections(s.l1[c], start, n, base, AttributesOf(m))];
    s.(l1 := if m.allCores then own[0 := WithSections(own[0], start, n, base, AttributesOf(m))] else own)
  }

  /** get_free_table, filled with one handler; the last table of the ring is never given out. */
  function NewTable(s: Tables, h: Handler): (r: Option<Tables>)
    ensures r.Some? <==> |s.free| > 1 && s.free[1] < |s.l2|
  {
    if |s.free| > 1 && s.free[1] < |s.l2| then
      Some(Tables(s.l1, s.l2[s.free[1] := AllFault(h)], [s.free[0]] + s.free[2..]))
    else None
  }

  /** A core that finds that another has made a table for all of them shares it. */
  function Adopt(s: Tables, c: nat, i: nat, allCores: bool): Tables
    requires c < |s.l1| && i < |s.l1[c]| && i < |s.l1[0]|
  {
    if s.l1[c][i] == Faults(CHECK) && allCores && s.l1[0][i].Table? then s.(l1 := SetEntry(s.l1, c, i, s.l1[0][i]))
    else s
  }

  /** The pages of a mapping, written to one table */
  function InTable(s: Tables, t: nat, m: Mapping): Tables
    requires t < |s.l2| && |s.l2[t]| == 256
  {
    s.(l2 := s.l2[t := WithPages(s.l2[t], m.va % 256, m.pages, m.basePage, AttributesOf(m))])
  }

  /** Pages into the table that the core has. All cores' pages go in the global table too. */
  function MapInto(s: Tables, c: nat, m: Mapping): Option<Tables>
    requires Shaped(s) && c < |s.l1| && m.va < PAGES && s.l1[c][m.va / 256].Table?
  {
    var t, g := s.l1[c][m.va / 256].table, s.l1[0][m.va / 256];
    if t >= |s.l2| then None
    else if !m.allCores then Some(InTable(s, t, m))
    else if !g.Table? || g.table >= |s.l2| then None
    else if g.table == t then Some(InTable(s, t, m))
    else Some(InTable(InTable(s, t, m), g.table, m))
  }

  /** Pages into a table made for them, of which each other page faults as the section did. Where the
      section was to be looked up in the global table, that gets the same table if the mapping is for all
      cores, and one of its own if not. */
  function MapFresh(s: Tables, c: nat, m: Mapping): Option<Tables>
    requires Shaped(s) && c < |s.l1| && m.va < PAGES && s.l1[c][m.va / 256].Faults?
  {
    var i := m.va / 256;
    var h := s.l1[c][i].handler;
    match NewTable(s, h)
    case None => None
    case Some(s1) =>
      var t := s.free[1];
      if h != CHECK then
        Some(InTable(s1.(l1 := SetEntry(s1.l1, c, i, Table(t))), t, m))
      else if m.allCores then
        Some(InTable(s1.(l1 := SetEntry(SetEntry(s1.l1, 0, i, Table(t)), c, i, Table(t))), t, m))
      else
        match NewTable(s1, h)
        case None => None
        case Some(s2) =>
          Some(InTable(s2.(l1 := SetEntry(SetEntry(s2.l1, 0, i, Table(s1.free[1])), c, i, Table(t))), t, m))
  }

  /** map_memory, by core c; None where it panics */
  function MapMemory(s: Tables, c: nat, m: Mapping): Option<Tables>
    requires Shaped(s) && c < |s.l1| && m.va + m.pages <= PAGES && m.va < PAGES
  {
    if m.pages == 0 then None
    else if WholeSections(m) then Some(MapSections(s, c, m))
    else if m.kind == Device && m.pages > 1 then None
    else
      var s1 := Adopt(s, c, m.va / 256, m.allCores);
      match s1.l1[c][m.va / 256]
      case Section(_, _) => None
      case Table(_) => MapInto(s1, c, m)
      case Faults(_) => MapFresh(s1, c, m)
  }

  /** check_global_table, at a level 1 fault */
  function LookUp(s: Tables, c: nat, i: nat): Tables
    requires Shaped(s) && c < |s.l1| && i < SECTIONS
  {
    s.(l1 := SetEntry(s.l1, c, i, s.l1[0][i]))
  }

  // ----- the flat map

  datatype Flat = Mapped(page: nat, attributes: Attributes) | Fault(handler: Handler)

  function Through(l2: seq<seq<Entry2>>, e: Entry1, k: nat): Flat
    requires k < 256 && forall t :: 0 <= t < |l2| ==> |l2[t]| == 256
  {
    match e
    case Faults(h) => Fault(h)
    case Section(b, a) => Mapped(256 * b + k, a)
    case Table(t) =>
      if t >= |l2| then Fault(CHECK)
      else match l2[t][k]
        case PageFaults(h) => Fault(h)
        case Page(b, a) => Mapped(b, a)
  }

  /** What page p means to core c: by its own table, once it has looked in the global one where it is told to */
  function View(s: Tables, c: nat, p: nat): Flat
    requires Shaped(s) && c < |s.l1| && p < PAGES
  {
    var e := s.l1[c][p / 256];
    Through(s.l2, if e == Faults(CHECK) then s.l1[0][p / 256] else e, p % 256)
  }

  // ----- tables are not shared by accident

  predicate Has(s: Tables, c: nat, i: nat, t: nat) {
    c < |s.l1| && i < |s.l1[c]| && s.l1[c][i] == Table(t)
  }

  ghost predicate FreeOk(s: Tables) {
    (forall j :: 0 <= j < |s.free| ==> s.free[j] < |s.l2|) &&
    (forall j, k :: 0 <= j < k < |s.free| ==> s.free[j] != s.free[k])
  }

  /** A table in use is one of the tables, and not a free one; no table serves two sections, of one core
      or of two. */
  ghost predicate Inv(s: Tables) {
    Shaped(s) && FreeOk(s) &&
    (forall c: nat, i: nat, t: nat :: Has(s, c, i, t) ==> t < |s.l2| && t !in s.free) &&
    (forall c: nat, d: nat, i: nat, j: nat, t: nat :: Has(s, c, i, t) && Has(s, d, j, t) ==> i == j)
  }

  lemma SectionsKeepInv(s: Tables, c: nat, m: Mapping)
    requires Inv(s) && c < |s.l1|
    ensures Inv(MapSections(s, c, m))
  {
    var r := MapSections(s, c, m);
    forall d: nat, i: nat, t: nat | Has(r, d, i, t) ensures Has(s, d, i, t) {}
  }

  lemma AdoptKeepsInv(s: Tables, c: nat, i: nat, allCores: bool)
    requires Inv(s) && c < |s.l1| && i < SECTIONS
    ensures Inv(Adopt(s, c, i, allCores))
  {
    var r := Adopt(s, c, i, allCores);
    forall d: nat, j: nat, t: nat | Has(r, d, j, t) ensures Has(s, if d == c && j == i then 0 else d, j, t) || r == s {
      if d == c && j == i { assert r == s || Has(s, 0, i, t); }
    }
  }

  lemma LookUpKeepsInv(s: Tables, c: nat, i: nat)
    requires Inv(s) && c < |s.l1| && i < SECTIONS
    ensures Inv(LookUp(s, c, i))
  {
    var r := LookUp(s, c, i);
    forall d: nat, j: nat, t: nat | Has(r, d, j, t) ensures Has(s, if d == c && j == i then 0 else d, j, t) {}
  }

  /** A table taken out of the ring was not in use, and is not free now. */
  lemma NewTableKeepsInv(s: Tables, h: Handler)
    requires Inv(s) && |s.free| > 1
    ensures NewTable(s, h).Some? && Inv(NewTable(s, h).value)
    ensures var r := NewTable(s, h).value; s.free[1] !in r.free && forall t :: t in r.free ==> t in s.free
    ensures forall c: nat, i: nat :: !Has(s, c, i, s.free[1])
  {
    var r := NewTable(s, h).value;
    forall c: nat, i: nat, t: nat | Has(r, c, i, t) ensures Has(s, c, i, t) {}
  }

  /** A table that is in use nowhere else may be put in a section. */
  lemma SetKeepsInv(s: Tables, c: nat, i: nat, t: nat)
    requires Inv(s) && c < |s.l1| && i < SECTIONS && t < |s.l2| && t !in s.free
    requires forall d: nat, j: nat :: Has(s, d, j, t) ==> j == i
    ensures Inv(s.(l1 := SetEntry(s.l1, c, i, Table(t))))
  {
    var r := s.(l1 := SetEntry(s.l1, c, i, Table(t)));
    forall d: nat, j: nat, u: nat | Has(r, d, j, u) ensures Has(s, d, j, u) || (j == i && u == t) {}
  }

  lemma InTableKeepsInv(s: Tables, t: nat, m: Mapping)
    requires Inv(s) && t < |s.l2|
    ensures Inv(InTable(s, t, m))
  {
    var r := InTable(s, t, m);
    forall c: nat, i: nat, u: nat | Has(r, c, i, u) ensures Has(s, c, i, u) {}
  }

  lemma MapIntoKeepsInv(s: Tables, c: nat, m: Mapping)
    requires Inv(s) && c < |s.l1| && m.va < PAGES && s.l1[c][m.va / 256].Table? && MapInto(s, c, m).Some?
    ensures Inv(MapInto(s, c, m).value)
  {
    var t, g := s.l1[c][m.va / 256].table, s.l1[0][m.va / 256];
    InTableKeepsInv(s, t, m);
    if m.allCores && g.Table? { InTableKeepsInv(InTable(s, t, m), g.table, m); }
  }

  lemma MapFreshKeepsInv(s: Tables, c: nat, m: Mapping)
    requires Inv(s) && c < |s.l1| && m.va < PAGES && s.l1[c][m.va / 256].Faults? && MapFresh(s, c, m).Some?
    ensures Inv(MapFresh(s, c, m).value)
  {
    var i := m.va / 256;
    var h := s.l1[c][i].handler;
    var t := s.free[1];
    NewTableKeepsInv(s, h);
    var s1 := NewTable(s, h).value;
    forall d: nat, j: nat ensures !Has(s1, d, j, t) { assert !Has(s, d, j, t); }
    if h != CHECK {
      SetKeepsInv(s1, c, i, t);
      InTableKeepsInv(s1.(l1 := SetEntry(s1.l1, c, i, Table(t))), t, m);
    } else if m.allCores {
      SetKeepsInv(s1, 0, i, t);
      var s3 := s1.(l1 := SetEntry(s1.l1, 0, i, Table(t)));
      forall d: nat, j: nat | Has(s3, d, j, t) ensures j == i { assert !Has(s1, d, j, t); }
      SetKeepsInv(s3, c, i, t);
      InTableKeepsInv(s3.(l1 := SetEntry(s3.l1, c, i, Table(t))), t, m);
    } else {
      TwoTables(s1, c, i, h, t);
      var s2 := NewTable(s1, h).value;
      InTableKeepsInv(s2.(l1 := SetEntry(SetEntry(s2.l1, 0, i, Table(s1.free[1])), c, i, Table(t))), t, m);
    }
  }

  lemma TwoTables(s1: Tables, c: nat, i: nat, h: Handler, t: nat)
    requires Inv(s1) && c < |s1.l1| && i < SECTIONS && NewTable(s1, h).Some?
    requires t < |s1.l2| && t !in s1.free && forall d: nat, j: nat :: !Has(s1, d, j, t)
    ensures var s2 := NewTable(s1, h).value;
            Inv(s2.(l1 := SetEntry(SetEntry(s2.l1, 0, i, Table(s1.free[1])), c, i, Table(t))))
  {
    NewTableKeepsInv(s1, h);
    var s2 := NewTable(s1, h).value;
    var g := s1.free[1];
    forall d: nat, j: nat ensures !Has(s2, d, j, t) && !Has(s2, d, j, g) { assert !Has(s1, d, j, t) && !Has(s1, d, j, g); }
    SetKeepsInv(s2, 0, i, g);
    var s3 := s2.(l1 := SetEntry(s2.l1, 0, i, Table(g)));
    forall d: nat, j: nat ensures !Has(s3, d, j, t) { assert !Has(s2, d, j, t); }
    SetKeepsInv(s3, c, i, t);
  }

  lemma MapMemoryKeepsInv(s: Tables, c: nat, m: Mapping)
    requires Inv(s) && c < |s.l1| && m.va + m.pages <= PAGES && m.va < PAGES && MapMemory(s, c, m).Some?
    ensures Inv(MapMemory(s, c, m).value)
  {
    if WholeSections(m) {
      SectionsKeepInv(s, c, m);
    } else {
      AdoptKeepsInv(s, c, m.va / 256, m.allCores);
      var s1 := Adopt(s, c, m.va / 256, m.allCores);
      if s1.l1[c][m.va / 256].Table? { MapIntoKeepsInv(s1, c, m); } else { MapFreshKeepsInv(s1, c, m); }
    }
  }

  // ----- map_memory updates the flat map

  lemma {:induction false} PagesWritten(es: seq<Entry2>, first: nat, n: nat, base: nat, a: Attributes, k: nat)
    requires |es| == 256 && first + n <= 256 && k < 256
    ensures WithPages(es, first, n, base, a)[k] == if first <= k < first + n then Page(base + k - first, a) else es[k]
  {
    if n > 0 { PagesWritten(es, first, n - 1, base, a, k); }
  }

  /** What a section has in it is a matter of its entry and its table. */
  lemma SameThrough(l2: seq<seq<Entry2>>, r2: seq<seq<Entry2>>, e: Entry1, k: nat)
    requires (forall t :: 0 <= t < |l2| ==> |l2[t]| == 256) && (forall t :: 0 <= t < |r2| ==> |r2[t]| == 256)
    requires k < 256 && |r2| == |l2| && (e.Table? && e.table < |l2| ==> r2[e.table] == l2[e.table])
    ensures Through(r2, e, k) == Through(l2, e, k)
  {
  }

  /** Nothing but section i, and tables that are in use there or not in use, has changed. */
  ghost predicate Only(s: Tables, r: Tables, i: nat) {
    Shaped(s) && Shaped(r) && |r.l1| == |s.l1| && |r.l2| == |s.l2| && i < SECTIONS &&
    (forall c, j :: 0 <= c < |s.l1| && 0 <= j < SECTIONS && j != i ==> r.l1[c][j] == s.l1[c][j]) &&
    (forall c: nat, j: nat, t: nat :: Has(s, c, j, t) && j != i && t < |s.l2| ==> r.l2[t] == s.l2[t])
  }

  lemma OtherSectionsSame(s: Tables, r: Tables, i: nat, d: nat, p: nat)
    requires Only(s, r, i) && d < |s.l1| && p < PAGES && p / 256 != i
    ensures View(r, d, p) == View(s, d, p)
  {
    var j := p / 256;
    var e := if s.l1[d][j] == Faults(CHECK) then s.l1[0][j] else s.l1[d][j];
    assert e.Table? ==> Has(s, d, j, e.table) || Has(s, 0, j, e.table);
    SameThrough(s.l2, r.l2, e, p % 256);
  }

  lemma OnlyInto(s: Tables, c: nat, m: Mapping)
    requires Inv(s) && c < |s.l1| && m.va < PAGES && s.l1[c][m.va / 256].Table? && MapInto(s, c, m).Some?
    ensures Only(s, MapInto(s, c, m).value, m.va / 256)
  {
    var i := m.va / 256;
    var t, g := s.l1[c][i].table, s.l1[0][i];
    assert Has(s, c, i, t) && (g.Table? ==> Has(s, 0, i, g.table));
    MapIntoKeepsInv(s, c, m);
  }

  lemma OnlyFresh(s: Tables, c: nat, m: Mapping)
    requires Inv(s) && c < |s.l1| && m.va < PAGES && s.l1[c][m.va / 256].Faults? && MapFresh(s, c, m).Some?
    ensures Only(s, MapFresh(s, c, m).value, m.va / 256)
  {
    MapFreshKeepsInv(s, c, m);
    var i := m.va / 256;
    var h := s.l1[c][i].handler;
    var r := MapFresh(s, c, m).value;
    var s1 := NewTable(s, h).value;
    NewTableKeepsInv(s, h);
    forall d: nat, j: nat, t: nat | Has(s, d, j, t) && j != i && t < |s.l2| ensures r.l2[t] == s.l2[t] {
      assert t !in s.free && s.free[1] in s.free;
      if h == CHECK && !m.allCores { assert s1.free[1] in s1.free; assert s1.free[1] in s.free; }
    }
  }

  /** Once the core's entry is a table, its pages are what they were but for those mapped. */
  ghost predicate Updated(l2: seq<seq<Entry2>>, e: Entry1, r2: seq<seq<Entry2>>, t: nat, m: Mapping)
    requires forall t :: 0 <= t < |l2| ==> |l2[t]| == 256
    requires forall t :: 0 <= t < |r2| ==> |r2[t]| == 256
  {
    forall k: nat :: k < 256 ==>
      Through(r2, Table(t), k) ==
      if m.va % 256 <= k < m.va % 256 + m.pages then Mapped(m.basePage + k - m.va % 256, AttributesOf(m))
      else Through(l2, e, k)
  }

  lemma InTableUpdates(s: Tables, e: Entry1, t: nat, m: Mapping)
    requires Shaped(s) && t < |s.l2| && m.va % 256 + m.pages <= 256
    requires forall k: nat :: k < 256 ==> Through(s.l2, Table(t), k) == Through(s.l2, e, k)
    ensures Shaped(InTable(s, t, m)) && Updated(s.l2, e, InTable(s, t, m).l2, t, m)
  {
    forall k: nat | k < 256
      ensures Through(InTable(s, t, m).l2, Table(t), k) ==
        if m.va % 256 <= k < m.va % 256 + m.pages then Mapped(m.basePage + k - m.va % 256, AttributesOf(m))
        else Through(s.l2, e, k)
    {
      PagesWritten(s.l2[t], m.va % 256, m.pages, m.basePage, AttributesOf(m), k);
      assert Through(s.l2, Table(t), k) == Through(s.l2, e, k);
    }
  }

  /** What a core's section means, before its own table has been made or changed */
  function Meaning(s: Tables, c: nat, i: nat): Entry1
    requires Shaped(s) && c < |s.l1| && i < SECTIONS
  {
    if s.l1[c][i] == Faults(CHECK) then s.l1[0][i] else s.l1[c][i]
  }

  /** The core has an entry of its own for the section; or the global table has none, or one that can be
      shared. */
  predicate Ready(s: Tables, c: nat, m: Mapping)
    requires Shaped(s) && c < |s.l1| && m.va < PAGES
  {
    var i := m.va / 256;
    s.l1[c][i] != Faults(CHECK) || s.l1[0][i] == Faults(CHECK) || (m.allCores && s.l1[0][i].Table?)
  }

  lemma IntoUpdates(s: Tables, c: nat, m: Mapping)
    requires Inv(s) && c < |s.l1| && m.va < PAGES && s.l1[c][m.va / 256].Table? && MapInto(s, c, m).Some?
    requires m.va % 256 + m.pages <= 256
    ensures var r := MapInto(s, c, m).value;
            Shaped(r) && Updated(s.l2, s.l1[c][m.va / 256], r.l2, s.l1[c][m.va / 256].table, m) && r.l1 == s.l1
  {
    var e := s.l1[c][m.va / 256];
    var r := MapInto(s, c, m).value;
    var one := InTable(s, e.table, m);
    InTableUpdates(s, e, e.table, m);
    assert r.l2[e.table] == one.l2[e.table];
    forall k: nat | k < 256 ensures Through(r.l2, e, k) == Through(one.l2, e, k) { SameThrough(one.l2, r.l2, e, k); }
  }

  lemma FreshUpdates(s: Tables, c: nat, m: Mapping)
    requires Inv(s) && c < |s.l1| && m.va < PAGES && s.l1[c][m.va / 256].Faults? && MapFresh(s, c, m).Some?
    requires m.va % 256 + m.pages <= 256
    ensures var r := MapFresh(s, c, m).value;
            Shaped(r) && |r.l1| == |s.l1| && Updated(s.l2, s.l1[c][m.va / 256], r.l2, s.free[1], m) &&
            r.l1[c][m.va / 256] == Table(s.free[1])
  {
    var i := m.va / 256;
    var e := s.l1[c][i];
    var h := e.handler;
    var t := s.free[1];
    NewTableKeepsInv(s, h);
    MapFreshKeepsInv(s, c, m);
    var s1 := NewTable(s, h).value;
    assert s1.l2[t] == AllFault(h);
    if h == CHECK && !m.allCores {
      NewTableKeepsInv(s1, h);
      var s2 := NewTable(s1, h).value;
      assert s2.l2[t] == AllFault(h) by { assert s1.free[1] in s1.free && t !in s1.free; }
      InTableUpdates(s2.(l1 := SetEntry(SetEntry(s2.l1, 0, i, Table(s1.free[1])), c, i, Table(t))), e, t, m);
    } else {
      InTableUpdates(s1, e, t, m);
    }
  }

  /** The section in which the pages are */
  lemma PagesInSection(s: Tables, c: nat, m: Mapping, p: nat)
    requires Inv(s) && c < |s.l1| && m.va + m.pages <= PAGES && m.va < PAGES && !WholeSections(m) && Ready(s, c, m)
    requires m.va % 256 + m.pages <= 256 && MapMemory(s, c, m).Some? && p / 256 == m.va / 256
    ensures Shaped(MapMemory(s, c, m).value) && |MapMemory(s, c, m).value.l1| == |s.l1|
    ensures View(MapMemory(s, c, m).value, c, p) ==
            if m.va <= p < m.va + m.pages then Mapped(m.basePage + p - m.va, AttributesOf(m)) else View(s, c, p)
  {
    var i := m.va / 256;
    var s1 := Adopt(s, c, i, m.allCores);
    AdoptKeepsInv(s, c, i, m.allCores);
    assert s1.l1[c][i] == Meaning(s, c, i);
    if s1.l1[c][i].Table? { IntoUpdates(s1, c, m); } else { FreshUpdates(s1, c, m); }
    assert p % 256 - m.va % 256 == p - m.va;
  }

  lemma AdoptIsOnly(s: Tables, c: nat, i: nat, allCores: bool, r: Tables)
    requires Shaped(s) && c < |s.l1| && i < SECTIONS && Only(Adopt(s, c, i, allCores), r, i)
    ensures Only(s, r, i)
  {
    var s1 := Adopt(s, c, i, allCores);
    forall d: nat, j: nat, t: nat | Has(s, d, j, t) && j != i && t < |s.l2| ensures r.l2[t] == s.l2[t] {
      assert Has(s1, d, j, t);
    }
  }

  lemma PagesAreOnly(s: Tables, c: nat, m: Mapping)
    requires Inv(s) && c < |s.l1| && m.va + m.pages <= PAGES && m.va < PAGES && !WholeSections(m)
    requires MapMemory(s, c, m).Some?
    ensures Only(s, MapMemory(s, c, m).value, m.va / 256)
  {
    var i := m.va / 256;
    var s1 := Adopt(s, c, i, m.allCores);
    AdoptKeepsInv(s, c, i, m.allCores);
    if s1.l1[c][i].Table? { OnlyInto(s1, c, m); } else { OnlyFresh(s1, c, m); }
    AdoptIsOnly(s, c, i, m.allCores, MapMemory(s, c, m).value);
  }

  /** Page p has come to mean what was asked for: the kind of memory, whether user code may use it, whether it is for
      one address space only, and whether it is shareable, as it always is when it is for all cores. */
  predicate AsAsked(f: Flat, m: Mapping, p: nat) {
    && f.Mapped? && f.page == m.basePage + p - m.va && f.attributes.kind == m.kind
    && (f.attributes.user <==> m.user) && (f.attributes.specific <==> m.specific)
    && (f.attributes.shareable <==> m.allCores || !m.notShared)
  }

  lemma SectionsRefine(s: Tables, c: nat, m: Mapping, p: nat)
    requires Shaped(s) && c < |s.l1| && m.va + m.pages <= PAGES && WholeSections(m) && p < PAGES
    ensures View(MapSections(s, c, m), c, p) ==
            if m.va <= p < m.va + m.pages then Mapped(m.basePage + p - m.va, AttributesOf(m)) else View(s, c, p)
    ensures m.va <= p < m.va + m.pages ==> AsAsked(View(MapSections(s, c, m), c, p), m, p)
  {
    var r := MapSections(s, c, m);
    var i := p / 256;
    assert m.va <= p < m.va + m.pages <==> m.va / 256 <= i < m.va / 256 + m.pages / 256;
    if m.va / 256 <= i < m.va / 256 + m.pages / 256 {
      assert r.l1[c][i] == Section(m.basePage / 256 + i - m.va / 256, AttributesOf(m));
    } else {
      assert r.l1[c][i] == s.l1[c][i] && r.l1[0][i] == s.l1[0][i];
    }
  }

  /** For the core that calls it, map_memory changes the meaning of the pages asked for, and of no other
      page: sections always, and pages of one section where that is Ready. */
  lemma MapMemoryRefines(s: Tables, c: nat, m: Mapping, p: nat)
    requires Inv(s) && c < |s.l1| && m.va + m.pages <= PAGES && m.va < PAGES && p < PAGES
    requires WholeSections(m) || (m.va % 256 + m.pages <= 256 && Ready(s, c, m))
    requires MapMemory(s, c, m).Some?
    ensures var r := MapMemory(s, c, m).value;
            Inv(r) && |r.l1| == |s.l1| &&
            View(r, c, p) ==
            if m.va <= p < m.va + m.pages then Mapped(m.basePage + p - m.va, AttributesOf(m)) else View(s, c, p)
    ensures m.va <= p < m.va + m.pages ==> AsAsked(View(MapMemory(s, c, m).value, c, p), m, p)
  {
    MapMemoryKeepsInv(s, c, m);
    if WholeSections(m) {
      SectionsRefine(s, c, m, p);
    } else if p / 256 == m.va / 256 {
      PagesInSection(s, c, m, p);
    } else {
      PagesAreOnly(s, c, m);
      OtherSectionsSame(s, MapMemory(s, c, m).value, m.va / 256, c, p);
      assert !(m.va <= p < m.va + m.pages);
    }
  }

  /** Pages of a mapping that is not of whole sections are all put in the section of the first: for every
      core the other sections stay as they were, even where the mapping runs into the next. */
  lemma PagesStayInSection(s: Tables, c: nat, m: Mapping, d: nat, p: nat)
    requires Inv(s) && c < |s.l1| && m.va + m.pages <= PAGES && m.va < PAGES && !WholeSections(m)
    requires MapMemory(s, c, m).Some? && d < |s.l1| && p < PAGES && p / 256 != m.va / 256
    ensures Inv(MapMemory(s, c, m).value) && |MapMemory(s, c, m).value.l1| == |s.l1|
    ensures View(MapMemory(s, c, m).value, d, p) == View(s, d, p)
  {
    MapMemoryKeepsInv(s, c, m);
    PagesAreOnly(s, c, m);
    OtherSectionsSame(s, MapMemory(s, c, m).value, m.va / 256, d, p);
  }

  /** Each entry is left as the last page written to it. */
  lemma {:induction false} WrittenRound(es: seq<Entry2>, first: nat, n: nat, base: nat, a: Attributes, j: nat)
    requires |es| == 256 && j < n <= j + 256
    ensures WithPages(es, first, n, base, a)[(first + j) % 256] == Page(base + j, a)
  {
    if j < n - 1 {
      RoundApart(first, j, n - 1);
      WrittenRound(es, first, n - 1, base, a, j);
    }
  }

  lemma RoundApart(first: nat, j: nat, k: nat)
    requires j < k < j + 256
    ensures (first + j) % 256 != (first + k) % 256
  {
  }

  /** Wherever they start, page j of the last 256 is mapped to base_page + j, but at the start of the same
      section where the mapping runs past its end. */
  lemma PagesGoRound(s: Tables, c: nat, m: Mapping, j: nat)
    requires Inv(s) && c < |s.l1| && m.va + m.pages <= PAGES && m.va < PAGES && !WholeSections(m)
    requires MapMemory(s, c, m).Some? && j < m.pages <= j + 256
    ensures Shaped(MapMemory(s, c, m).value) && |MapMemory(s, c, m).value.l1| == |s.l1|
    ensures View(MapMemory(s, c, m).value, c, m.va / 256 * 256 + (m.va + j) % 256) == Mapped(m.basePage + j, AttributesOf(m))
  {
    var i := m.va / 256;
    var s1 := Adopt(s, c, i, m.allCores);
    AdoptKeepsInv(s, c, i, m.allCores);
    MapMemoryKeepsInv(s, c, m);
    var r := MapMemory(s, c, m).value;
    var es := if s1.l1[c][i].Table? then s1.l2[s1.l1[c][i].table] else AllFault(s1.l1[c][i].handler);
    WrittenTable(s1, c, m, es);
    WrittenRound(es, m.va % 256, m.pages, m.basePage, AttributesOf(m), j);
    RoundIndex(m.va, j);
    Seen(r, c, i, (m.va + j) % 256, m.basePage + j, AttributesOf(m));
  }

  predicate Within(m: Mapping, p: nat) {
    m.va <= p < m.va + m.pages
  }

  /** What page p is to mean */
  function Meant(m: Mapping, p: nat): Flat
    requires Within(m, p)
  {
    Mapped(m.basePage + p - m.va, AttributesOf(m))
  }

  lemma SameCores(s: Tables, c: nat, m: Mapping)
    requires Inv(s) && c < |s.l1| && m.va + m.pages <= PAGES && m.va < PAGES && MapMemory(s, c, m).Some?
    ensures |MapMemory(s, c, m).value.l1| == |s.l1|
  {
    if !WholeSections(m) { PagesAreOnly(s, c, m); }
  }

  predicate Covered(m: Mapping, p: nat) {
    Within(m, p) && (WholeSections(m) || (m.pages <= 256 && p / 256 == m.va / 256))
  }

  /** Whole sections, and up to 256 pages as far as they are in the section of the first, come to mean to the core that
      maps them what was asked for. */
  lemma PageAsAsked(s: Tables, c: nat, m: Mapping, p: nat)
    requires Inv(s) && c < |s.l1| && m.va + m.pages <= PAGES && m.va < PAGES && MapMemory(s, c, m).Some?
    requires Covered(m, p)
    ensures Shaped(MapMemory(s, c, m).value) && |MapMemory(s, c, m).value.l1| == |s.l1|
    ensures AsAsked(View(MapMemory(s, c, m).value, c, p), m, p)
  {
    if WholeSections(m) {
      SectionsRefine(s, c, m, p);
      MapMemoryKeepsInv(s, c, m);
    } else {
      PagesGoRound(s, c, m, p - m.va);
      assert m.va + (p - m.va) == p && p / 256 * 256 + p % 256 == p;
    }
  }

  /** When pages that are not whole sections come to mean, to the core that maps them, what they should:
      exactly when there are no more than a section's worth, and those past the end of the section of the
      first, if any, mean that already. */
  lemma RangeMappedIff(s: Tables, c: nat, m: Mapping)
    requires Inv(s) && c < |s.l1| && m.va + m.pages <= PAGES && m.va < PAGES && !WholeSections(m)
    requires MapMemory(s, c, m).Some?
    ensures var r := MapMemory(s, c, m).value;
            Shaped(r) && |r.l1| == |s.l1| &&
            ((forall p: nat :: Within(m, p) ==> View(r, c, p) == Meant(m, p)) <==>
             m.pages <= 256 &&
             forall p: nat :: Within(m, p) && p / 256 != m.va / 256 ==> View(s, c, p) == Meant(m, p))
  {
    MapMemoryKeepsInv(s, c, m);
    PagesAreOnly(s, c, m);
    var r := MapMemory(s, c, m).value;
    forall p: nat | Within(m, p)
      ensures p / 256 != m.va / 256 ==> View(r, c, p) == View(s, c, p)
      ensures m.pages <= 256 && p / 256 == m.va / 256 ==> View(r, c, p) == Meant(m, p)
    {
      if p / 256 != m.va / 256 {
        OtherSectionsSame(s, r, m.va / 256, c, p);
      } else if m.pages <= 256 {
        PagesGoRound(s, c, m, p - m.va);
        assert m.va + (p - m.va) == p && p / 256 * 256 + p % 256 == p;
      }
    }
    if m.pages > 256 { FirstOverwritten(s, c, m); }
  }

  /** With more pages than a section has, the first one is overwritten. */
  lemma FirstOverwritten(s: Tables, c: nat, m: Mapping)
    requires Inv(s) && c < |s.l1| && m.va + m.pages <= PAGES && m.va < PAGES && !WholeSections(m)
    requires MapMemory(s, c, m).Some? && m.pages > 256
    ensures Shaped(MapMemory(s, c, m).value) && |MapMemory(s, c, m).value.l1| == |s.l1|
    ensures Within(m, m.va) && View(MapMemory(s, c, m).value, c, m.va) != Meant(m, m.va)
  {
    var j := LastRound(m.va, m.pages);
    PagesGoRound(s, c, m, j);
  }

  lemma LastRound(va: nat, n: nat) returns (j: nat)
    requires n > 256
    ensures 0 < j < n <= j + 256 && va / 256 * 256 + (va + j) % 256 == va
  {
    j := (n - 1) / 256 * 256;
    assert (va + j) % 256 == va % 256;
  }

  lemma RoundIndex(va: nat, j: nat)
    ensures (va % 256 + j) % 256 == (va + j) % 256
  {
  }

  lemma Seen(s: Tables, c: nat, i: nat, k: nat, base: nat, a: Attributes)
    requires Shaped(s) && c < |s.l1| && i < SECTIONS && k < 256 && s.l1[c][i].Table?
    requires s.l1[c][i].table < |s.l2| && s.l2[s.l1[c][i].table][k] == Page(base, a)
    ensures View(s, c, i * 256 + k) == Mapped(base, a)
  {
    assert (i * 256 + k) / 256 == i && (i * 256 + k) % 256 == k;
  }

  lemma WrittenTable(s: Tables, c: nat, m: Mapping, es: seq<Entry2>)
    requires Inv(s) && c < |s.l1| && m.va < PAGES
    requires match s.l1[c][m.va / 256]
             case Table(t) => MapInto(s, c, m).Some? && t < |s.l2| && es == s.l2[t]
             case Faults(h) => MapFresh(s, c, m).Some? && es == AllFault(h)
             case Section(_, _) => false
    ensures var r := (if s.l1[c][m.va / 256].Table? then MapInto(s, c, m) else MapFresh(s, c, m)).value;
            |r.l1| == |s.l1| && m.va / 256 < |r.l1[c]| && r.l1[c][m.va / 256].Table? && r.l1[c][m.va / 256].table < |r.l2| &&
            r.l2[r.l1[c][m.va / 256].table] == WithPages(es, m.va % 256, m.pages, m.basePage, AttributesOf(m))
  {
    if s.l1[c][m.va / 256].Faults? {
      var h := s.l1[c][m.va / 256].handler;
      NewTableKeepsInv(s, h);
      var s1 := NewTable(s, h).value;
      if h == CHECK && !m.allCores { assert s1.free[1] in s1.free; }
    }
  }

  predicate Beside(m: Mapping, p: nat) {
    p / 256 == m.va / 256 && !(m.va <= p < m.va + m.pages)
  }

  /** Where it is not, the global table is forgotten: the other pages of the section are left for the
      level 2 handler, whatever they were. */
  lemma NotReadyForgets(s: Tables, c: nat, m: Mapping, p: nat)
    requires Inv(s) && c < |s.l1| && m.va + m.pages <= PAGES && m.va < PAGES && !WholeSections(m) && !Ready(s, c, m)
    requires m.va % 256 + m.pages <= 256 && MapMemory(s, c, m).Some? && Beside(m, p)
    ensures Shaped(MapMemory(s, c, m).value) && |MapMemory(s, c, m).value.l1| == |s.l1|
    ensures View(MapMemory(s, c, m).value, c, p) == Fault(CHECK)
  {
    FreshUpdates(s, c, m);
    assert Through(s.l2, s.l1[c][m.va / 256], p % 256) == Fault(CHECK);
  }

  /** Exactly when pages leave the rest of their section as it was */
  lemma RestOfSectionKeptIff(s: Tables, c: nat, m: Mapping)
    requires Inv(s) && c < |s.l1| && m.va + m.pages <= PAGES && m.va < PAGES && !WholeSections(m)
    requires m.va % 256 + m.pages <= 256 && MapMemory(s, c, m).Some?
    ensures var r := MapMemory(s, c, m).value;
            Shaped(r) && |r.l1| == |s.l1| &&
            ((forall p: nat :: Beside(m, p) ==> View(r, c, p) == View(s, c, p)) <==>
             Ready(s, c, m) || forall p: nat :: Beside(m, p) ==> View(s, c, p) == Fault(CHECK))
  {
    MapMemoryKeepsInv(s, c, m);
    PagesAreOnly(s, c, m);
    forall p: nat | Beside(m, p)
      ensures View(MapMemory(s, c, m).value, c, p) == if Ready(s, c, m) then View(s, c, p) else Fault(CHECK)
    {
      if Ready(s, c, m) { PagesInSection(s, c, m, p); } else { NotReadyForgets(s, c, m, p); }
    }
  }

  // ----- what a mapping of one core does to another

  predicate InSection(p: nat, i: nat) {
    p < PAGES && p / 256 == i
  }

  /** To core d nothing in section i has changed. */
  ghost predicate SectionKept(s: Tables, r: Tables, d: nat, i: nat)
    requires Shaped(s) && Shaped(r) && d < |s.l1| == |r.l1|
  {
    forall p: nat :: InSection(p, i) ==> View(r, d, p) == View(s, d, p)
  }

  /** There is nothing in the section for core d. */
  ghost predicate NothingThere(s: Tables, d: nat, i: nat)
    requires Shaped(s) && d < |s.l1|
  {
    forall p: nat :: InSection(p, i) ==> View(s, d, p) == Fault(CHECK)
  }

  /** The pages are in the table already. */
  predicate AlreadyIn(es: seq<Entry2>, m: Mapping)
    requires |es| == 256
  {
    WithPages(es, m.va % 256, m.pages, m.basePage, AttributesOf(m)) == es
  }

  /** By the entries for the section: a table that core c shares with core d gives the mapping away; core 0
      gives it away to the cores that have still to look; and where another core has still to look itself,
      it makes the global table forget what it had. */
  ghost predicate LeavesAlone(s: Tables, c: nat, d: nat, m: Mapping)
    requires Inv(s) && c < |s.l1| && d < |s.l1| && m.va < PAGES
  {
    var i := m.va / 256;
    match s.l1[c][i]
    case Section(_, _) => true
    case Table(t) =>
      assert Has(s, c, i, t);
      Meaning(s, d, i) == Table(t) ==> AlreadyIn(s.l2[t], m)
    case Faults(h) =>
      if c == 0 then s.l1[d][i] != Faults(CHECK)
      else h == CHECK ==> (d != 0 && s.l1[d][i] != Faults(CHECK)) || NothingThere(s, d, i)
  }

  /** A mapping of pages for one core leaves the view of another core alone exactly then. */
  lemma OthersKeptIff(s: Tables, c: nat, d: nat, m: Mapping)
    requires Inv(s) && c < |s.l1| && d < |s.l1| && c != d && m.va + m.pages <= PAGES && m.va < PAGES
    requires !WholeSections(m) && !m.allCores && MapMemory(s, c, m).Some?
    ensures var r := MapMemory(s, c, m).value;
            Inv(r) && |r.l1| == |s.l1| && (SectionKept(s, r, d, m.va / 256) <==> LeavesAlone(s, c, d, m))
  {
    var i := m.va / 256;
    MapMemoryKeepsInv(s, c, m);
    match s.l1[c][i]
    case Table(t) =>
      assert Has(s, c, i, t);
      SharedTable(s, c, d, m, t);
    case Faults(h) =>
      PagesAreOnly(s, c, m);
      if c == 0 {
        FromCore0(s, d, m);
      } else if h == CHECK {
        Forgets(s, c, d, m);
      } else {
        OwnTableOnly(s, c, d, m);
      }
  }

  lemma AtPage(i: nat, k: nat)
    requires i < SECTIONS && k < 256
    ensures InSection(i * 256 + k, i) && (i * 256 + k) % 256 == k
  {
  }

  lemma SharedTable(s: Tables, c: nat, d: nat, m: Mapping, t: nat)
    requires Inv(s) && c < |s.l1| && d < |s.l1| && m.va < PAGES && t < |s.l2| && s.l1[c][m.va / 256] == Table(t)
    ensures var r := InTable(s, t, m);
            Shaped(r) && (SectionKept(s, r, d, m.va / 256) <==> LeavesAlone(s, c, d, m))
  {
    var i := m.va / 256;
    var r := InTable(s, t, m);
    var e := Meaning(s, d, i);
    if e != Table(t) {
      forall k: nat | k < 256 ensures Through(r.l2, e, k) == Through(s.l2, e, k) { SameThrough(s.l2, r.l2, e, k); }
    } else if SectionKept(s, r, d, i) {
      forall k: nat | k < 256 ensures r.l2[t][k] == s.l2[t][k] {
        AtPage(i, k);
        assert View(r, d, i * 256 + k) == View(s, d, i * 256 + k);
      }
    }
  }

  lemma FromCore0(s: Tables, d: nat, m: Mapping)
    requires Inv(s) && 0 < d < |s.l1| && m.va + m.pages <= PAGES && m.va < PAGES && m.pages > 0 && !m.allCores
    requires s.l1[0][m.va / 256].Faults? && MapFresh(s, 0, m).Some? && Inv(MapFresh(s, 0, m).value)
    ensures var r := MapFresh(s, 0, m).value;
            |r.l1| == |s.l1| && (SectionKept(s, r, d, m.va / 256) <==> s.l1[d][m.va / 256] != Faults(CHECK))
  {
    var i := m.va / 256;
    var r := MapFresh(s, 0, m).value;
    if s.l1[d][i] == Faults(CHECK) {
      var k := (m.va % 256 + m.pages - 1) % 256;
      WrittenTable(s, 0, m, AllFault(s.l1[0][i].handler));
      WrittenRound(AllFault(s.l1[0][i].handler), m.va % 256, m.pages, m.basePage, AttributesOf(m), m.pages - 1);
      AtPage(i, k);
      assert View(r, d, i * 256 + k).Mapped? && View(s, d, i * 256 + k).Fault?;
    } else {
      assert r.l1[d][i] == s.l1[d][i];
      OldTableSame(s, 0, m, d);
    }
  }

  /** What core d has an entry of its own for is not changed by a table made for another core. */
  lemma OldTableSame(s: Tables, c: nat, m: Mapping, d: nat)
    requires Inv(s) && c < |s.l1| && m.va < PAGES && !m.allCores && d < |s.l1|
    requires s.l1[c][m.va / 256].Faults? && MapFresh(s, c, m).Some? && Inv(MapFresh(s, c, m).value)
    ensures var r := MapFresh(s, c, m).value;
            |r.l2| == |s.l2| && forall k: nat :: k < 256 ==>
              Through(r.l2, s.l1[d][m.va / 256], k) == Through(s.l2, s.l1[d][m.va / 256], k)
  {
    var i := m.va / 256;
    var r := MapFresh(s, c, m).value;
    var e := s.l1[d][i];
    if e.Table? {
      assert Has(s, d, i, e.table);
      FreshElsewhere(s, c, m, e.table);
    }
    forall k: nat | k < 256 ensures Through(r.l2, e, k) == Through(s.l2, e, k) { SameThrough(s.l2, r.l2, e, k); }
  }

  lemma FreshElsewhere(s: Tables, c: nat, m: Mapping, t: nat)
    requires Inv(s) && c < |s.l1| && m.va < PAGES && t < |s.l2| && t !in s.free
    requires s.l1[c][m.va / 256].Faults? && MapFresh(s, c, m).Some?
    ensures MapFresh(s, c, m).value.l2[t] == s.l2[t]
  {
    var h := s.l1[c][m.va / 256].handler;
    NewTableKeepsInv(s, h);
    var s1 := NewTable(s, h).value;
    assert s.free[1] in s.free;
    if h == CHECK && !m.allCores { assert s1.free[1] in s1.free && s1.free[1] in s.free; }
  }

  lemma OwnTableOnly(s: Tables, c: nat, d: nat, m: Mapping)
    requires Inv(s) && c < |s.l1| && d < |s.l1| && c != d && c != 0 && m.va < PAGES && !m.allCores
    requires s.l1[c][m.va / 256].Faults? && s.l1[c][m.va / 256] != Faults(CHECK)
    requires MapFresh(s, c, m).Some? && Inv(MapFresh(s, c, m).value)
    ensures var r := MapFresh(s, c, m).value; |r.l1| == |s.l1| && SectionKept(s, r, d, m.va / 256)
  {
    OldTableSame(s, c, m, d);
    OldTableSame(s, c, m, 0);
  }

  lemma Forgets(s: Tables, c: nat, d: nat, m: Mapping)
    requires Inv(s) && c < |s.l1| && d < |s.l1| && c != d && c != 0 && m.va < PAGES && !m.allCores
    requires s.l1[c][m.va / 256] == Faults(CHECK) && MapFresh(s, c, m).Some? && Inv(MapFresh(s, c, m).value)
    ensures var (r, i) := (MapFresh(s, c, m).value, m.va / 256);
            |r.l1| == |s.l1| && (d == 0 || s.l1[d][i] == Faults(CHECK) ==> NothingThere(r, d, i)) &&
            (SectionKept(s, r, d, i) <==> (d != 0 && s.l1[d][i] != Faults(CHECK)) || NothingThere(s, d, i))
  {
    var i := m.va / 256;
    var r := MapFresh(s, c, m).value;
    if d == 0 || s.l1[d][i] == Faults(CHECK) {
      GlobalIsEmpty(s, c, m);
      forall p: nat | InSection(p, i) ensures View(r, d, p) == Fault(CHECK) {}
    } else {
      OldTableSame(s, c, m, d);
    }
  }

  /** The global table gets a table of its own, with nothing in it. */
  lemma GlobalIsEmpty(s: Tables, c: nat, m: Mapping)
    requires Inv(s) && 0 < c < |s.l1| && m.va < PAGES && !m.allCores
    requires s.l1[c][m.va / 256] == Faults(CHECK) && MapFresh(s, c, m).Some?
    ensures var r := MapFresh(s, c, m).value;
            |r.l1| == |s.l1| && m.va / 256 < |r.l1[0]| && r.l1[0][m.va / 256].Table? &&
            r.l1[0][m.va / 256].table < |r.l2| && r.l2[r.l1[0][m.va / 256].table] == AllFault(CHECK)
  {
    NewTableKeepsInv(s, CHECK);
    var s1 := NewTable(s, CHECK).value;
    assert s1.free[1] in s1.free && s.free[1] !in s1.free;
  }

  /** At the first of the failing inputs: two cores with the same table for a section, as after an all-cores
      mapping by one and a level 1 fault of the other. Whichever maps a page there for itself alone, the
      other has it too. */
  lemma SharedTableLeaks(s: Tables, c: nat, d: nat, m: Mapping, p: nat)
    requires Inv(s) && c < |s.l1| && d < |s.l1| && m.va + m.pages <= PAGES && m.va < PAGES && Within(m, p)
    requires !WholeSections(m) && m.va % 256 + m.pages <= 256 && !m.allCores && MapMemory(s, c, m).Some?
    requires s.l1[c][m.va / 256].Table? && s.l1[d][m.va / 256] == s.l1[c][m.va / 256]
    ensures var r := MapMemory(s, c, m).value;
            Shaped(r) && |r.l1| == |s.l1| && View(r, d, p) == Meant(m, p)
  {
    MapMemoryKeepsInv(s, c, m);
    PagesInSection(s, c, m, p);
  }

  /** At the second: core c, not core 0, has still to look up a section that is in the global table. When it
      maps a page there for itself alone, that section is gone for core 0 and for all who have still to look. */
  lemma PrivateForgetsGlobal(s: Tables, c: nat, d: nat, m: Mapping)
    requires Inv(s) && 0 < c < |s.l1| && d < |s.l1| && c != d && m.va + m.pages <= PAGES && m.va < PAGES
    requires !WholeSections(m) && !m.allCores && MapMemory(s, c, m).Some?
    requires s.l1[c][m.va / 256] == Faults(CHECK) && s.l1[0][m.va / 256].Section?
    requires d == 0 || s.l1[d][m.va / 256] == Faults(CHECK)
    ensures var r := MapMemory(s, c, m).value;
            Shaped(r) && |r.l1| == |s.l1| && NothingThere(r, d, m.va / 256) && !SectionKept(s, r, d, m.va / 256)
  {
    MapMemoryKeepsInv(s, c, m);
    Forgets(s, c, d, m);
    AtPage(m.va / 256, 0);
    assert View(s, d, m.va / 256 * 256).Mapped?;
  }

  // ----- all cores agree

  /** Each core's entry for a section is still to be looked up, or is what the global table has. */
  ghost predicate Coherent(s: Tables, i: nat) {
    Shaped(s) && i < SECTIONS && (s.l1[0][i].Faults? ==> s.l1[0][i].handler == CHECK) &&
    forall c :: 0 <= c < |s.l1| ==> s.l1[c][i] == Faults(CHECK) || s.l1[c][i] == s.l1[0][i]
  }

  lemma CoherentCoresAgree(s: Tables, i: nat, c: nat, d: nat, p: nat)
    requires Coherent(s, i) && c < |s.l1| && d < |s.l1| && p < PAGES && p / 256 == i
    ensures View(s, c, p) == View(s, d, p)
  {
  }

  datatype Event = Map(core: nat, mapping: Mapping) | Miss(core: nat, section: nat)

  /** Pages stay in the section of the first, wherever the mapping runs to. */
  predicate Touches(m: Mapping, i: nat) {
    m.va / 256 <= i < (if WholeSections(m) then (m.va + m.pages) / 256 else m.va / 256 + 1)
  }

  /** A mapping by any core, anywhere, or a level 1 fault. In section i a mapping is for all cores; of
      pages, all in that section and where there is no section mapping; or of whole sections, where there
      is nothing yet. */
  ghost predicate Enabled(s: Tables, i: nat, e: Event) {
    Inv(s) && e.core < |s.l1| && i < SECTIONS &&
    match e
    case Miss(c, j) => j < SECTIONS && s.l1[c][j] == Faults(CHECK)
    case Map(c, m) =>
      m.va < PAGES && m.va + m.pages <= PAGES && MapMemory(s, c, m).Some? &&
      (Touches(m, i) ==> m.allCores && CanTake(s, i, m))
  }

  predicate CanTake(s: Tables, i: nat, m: Mapping)
    requires Shaped(s) && i < SECTIONS
  {
    if WholeSections(m) then s.l1[0][i] == Faults(CHECK)
    else m.va % 256 + m.pages <= 256 && !s.l1[0][i].Section?
  }

  function Step(s: Tables, e: Event): Tables
    requires Shaped(s) && e.core < |s.l1|
    requires e.Miss? ==> e.section < SECTIONS
    requires e.Map? ==> e.mapping.va < PAGES && e.mapping.va + e.mapping.pages <= PAGES && MapMemory(s, e.core, e.mapping).Some?
  {
    match e
    case Miss(c, j) => LookUp(s, c, j)
    case Map(c, m) => MapMemory(s, c, m).value
  }

  lemma MissKeeps(s: Tables, i: nat, e: Event, p: nat, d: nat)
    requires Enabled(s, i, e) && e.Miss? && Coherent(s, i) && p < PAGES && d < |s.l1|
    ensures Inv(Step(s, e)) && Coherent(Step(s, e), i) && View(Step(s, e), d, p) == View(s, d, p)
    ensures e.section == i ==> Step(s, e).l1[e.core][i] == s.l1[0][i]
  {
    LookUpKeepsInv(s, e.core, e.section);
  }

  lemma MapKeepsCoherent(s: Tables, i: nat, e: Event)
    requires Enabled(s, i, e) && e.Map? && Coherent(s, i)
    ensures Inv(Step(s, e)) && |Step(s, e).l1| == |s.l1| && Coherent(Step(s, e), i)
  {
    var m := e.mapping;
    MapMemoryKeepsInv(s, e.core, m);
    if !WholeSections(m) {
      PagesAreOnly(s, e.core, m);
      if m.va / 256 == i { PagesKeepCoherent(s, i, e.core, m); }
    }
  }

  lemma PagesKeepCoherent(s: Tables, i: nat, c: nat, m: Mapping)
    requires Inv(s) && c < |s.l1| && Coherent(s, i) && m.va < PAGES && m.va + m.pages <= PAGES && !WholeSections(m)
    requires MapMemory(s, c, m).Some? && m.allCores && m.va / 256 == i && !s.l1[0][i].Section?
    ensures Coherent(MapMemory(s, c, m).value, i)
  {
    MapMemoryKeepsInv(s, c, m);
  }

  /** One step: the page means, to every core, what it did, or what it has just been mapped to. */
  lemma StepForAll(s: Tables, i: nat, e: Event, p: nat, d: nat)
    requires Enabled(s, i, e) && Coherent(s, i) && p < PAGES && p / 256 == i && d < |s.l1|
    ensures var r := Step(s, e);
            Inv(r) && |r.l1| == |s.l1| && Coherent(r, i) && View(r, d, p) == After(e, p, View(s, 0, p))
  {
    CoherentCoresAgree(s, i, d, 0, p);
    if e.Miss? {
      MissKeeps(s, i, e, p, d);
    } else {
      MapKeepsCoherent(s, i, e);
      CoherentCoresAgree(s, i, e.core, 0, p);
      CoherentCoresAgree(Step(s, e), i, d, e.core, p);
      if WholeSections(e.mapping) {
        MapMemoryRefines(s, e.core, e.mapping, p);
      } else if e.mapping.va / 256 == i {
        TouchedIsReady(s, i, e);
        MapMemoryRefines(s, e.core, e.mapping, p);
      } else {
        PagesAreOnly(s, e.core, e.mapping);
        OtherSectionsSame(s, Step(s, e), e.mapping.va / 256, e.core, p);
      }
    }
  }

  lemma TouchedIsReady(s: Tables, i: nat, e: Event)
    requires Enabled(s, i, e) && e.Map? && Coherent(s, i) && !WholeSections(e.mapping) && e.mapping.va / 256 == i
    ensures Ready(s, e.core, e.mapping)
  {
  }

  /** What an event makes of a page of the flat map */
  function After(e: Event, p: nat, f: Flat): Flat {
    if e.Map? && Touches(e.mapping, p / 256) && e.mapping.va <= p < e.mapping.va + e.mapping.pages
    then Mapped(e.mapping.basePage + p - e.mapping.va, AttributesOf(e.mapping))
    else f
  }

  function AfterAll(es: seq<Event>, p: nat, f: Flat): Flat {
    if es == [] then f else AfterAll(es[1..], p, After(es[0], p, f))
  }

  ghost predicate IsRun(s: Tables, i: nat, es: seq<Event>)
    decreases |es|
  {
    es == [] || (Enabled(s, i, es[0]) && IsRun(Step(s, es[0]), i, es[1..]))
  }

  ghost function End(s: Tables, i: nat, es: seq<Event>): Tables
    requires IsRun(s, i, es)
    decreases |es|
  {
    if es == [] then s else End(Step(s, es[0]), i, es[1..])
  }

  /** Over a whole run, whichever cores map, in whatever order, and whichever look entries up, and when:
      a page of such a section means the same to every core, and that is what it was last mapped to. */
  lemma {:induction false} AllCoresAgree(s: Tables, i: nat, es: seq<Event>, p: nat, d: nat)
    requires Inv(s) && Coherent(s, i) && IsRun(s, i, es) && p < PAGES && p / 256 == i && d < |s.l1|
    ensures var r := End(s, i, es);
            Inv(r) && |r.l1| == |s.l1| && Coherent(r, i) && View(r, d, p) == AfterAll(es, p, View(s, 0, p))
    decreases |es|
  {
    if es == [] {
      CoherentCoresAgree(s, i, d, 0, p);
    } else {
      StepForAll(s, i, es[0], p, 0);
      AllCoresAgree(Step(s, es[0]), i, es[1..], p, d);
    }
  }

  /** Pages that core 0 maps for itself alone, in a section that was to be looked up, are in the global
      table all the same; another core that has still to look will share them. */
  lemma Core0SharesItsOwn(s: Tables, m: Mapping, d: nat, p: nat)
    requires Inv(s) && m.va + m.pages <= PAGES && m.va < PAGES && !WholeSections(m) && !m.allCores
    requires m.va % 256 + m.pages <= 256 && MapMemory(s, 0, m).Some? && m.va <= p < m.va + m.pages
    requires d < |s.l1| && s.l1[d][m.va / 256] == Faults(CHECK)
    ensures var r := MapMemory(s, 0, m).value;
            Shaped(r) && |r.l1| == |s.l1| && View(r, d, p) == Mapped(m.basePage + p - m.va, AttributesOf(m))
  {
    MapMemoryKeepsInv(s, 0, m);
    PagesAreOnly(s, 0, m);
    MapMemoryRefines(s, 0, m, p);
  }

  // ----- boot

  const SPARE := 64

  /** The tables with which n cores start: each with memory mapped as it is, the image of the system where it
      runs, and a level 2 table of its own for the last section; the rest is to be looked up. Of the level 2
      tables 64 are free. */
  function Boot(n: nat, ram: nat, ramA: Attributes, imageAt: nat, image: nat, imageA: Attributes,
                own: seq<seq<Entry2>>, spare: seq<seq<Entry2>>): Tables
  {
    var es := seq(SECTIONS, (i: int) =>
      if i == 0xfff then Faults(CHECK)
      else if imageAt <= i < imageAt + image then Section(i - imageAt, imageA)
      else if 0 <= i < ram then Section(i, ramA)
      else Faults(CHECK));
    Tables(seq(n, (c: nat) => es[0xfff := Table(c)]), own + spare, seq(SPARE, (k: nat) => n + SPARE - 1 - k))
  }

  /** They are in order; and all cores agree on every section but the last, on which they agree only if
      there is but one. */
  lemma BootOk(n: nat, ram: nat, ramA: Attributes, imageAt: nat, image: nat, imageA: Attributes,
               own: seq<seq<Entry2>>, spare: seq<seq<Entry2>>)
    requires n > 0 && |own| == n && |spare| == SPARE
    requires (forall t :: t in own ==> |t| == 256) && forall t :: t in spare ==> |t| == 256
    ensures var s := Boot(n, ram, ramA, imageAt, image, imageA, own, spare);
            Inv(s) && forall i: nat :: i < SECTIONS ==> (Coherent(s, i) <==> i != 0xfff || n == 1)
  {
    var s := Boot(n, ram, ramA, imageAt, image, imageA, own, spare);
    assert Shaped(s) by {
      forall k | 0 <= k < |s.l2| ensures |s.l2[k]| == 256 { assert s.l2[k] in own || s.l2[k] in spare; }
    }
    forall c: nat, i: nat, t: nat | Has(s, c, i, t) ensures i == 0xfff && t == c {}
    if n > 1 { assert s.l1[1][0xfff] != s.l1[0][0xfff]; }
  }

  /** To every core alike, the image is where it runs, the rest of memory is where it is, and below the last section
      nothing else is mapped: an access faults, and the fault is for check_global_table. */
  lemma BootMaps(n: nat, ram: nat, ramA: Attributes, imageAt: nat, image: nat, imageA: Attributes,
                 own: seq<seq<Entry2>>, spare: seq<seq<Entry2>>, c: nat, p: nat)
    requires c < n && |own| == n && |spare| == SPARE && p < 0xfff * 256
    requires (forall t :: t in own ==> |t| == 256) && forall t :: t in spare ==> |t| == 256
    ensures var s := Boot(n, ram, ramA, imageAt, image, imageA, own, spare);
            Shaped(s) && View(s, c, p) ==
              if 256 * imageAt <= p < 256 * (imageAt + image) then Mapped(p - 256 * imageAt, imageA)
              else if p < 256 * ram then Mapped(p, ramA)
              else Fault(CHECK)
  {
    BootOk(n, ram, ramA, imageAt, image, imageA, own, spare);
    var s := Boot(n, ram, ramA, imageAt, image, imageA, own, spare);
    var i := p / 256;
    assert s.l1[c][i] == s.l1[0][i];
    assert (256 * imageAt <= p < 256 * (imageAt + image) <==> imageAt <= i < imageAt + image) && (p < 256 * ram <==> i < ram);
  }

  // ----- faults

  /** strange_handler: for a fault on memory that is mapped by now */
  const STRANGE: Handler := 1

  /** find_handler */
  function FindHandler(s: Tables, c: nat, p: nat): Handler
    requires Shaped(s) && c < |s.l1| && p < PAGES
  {
    match s.l1[c][p / 256]
    case Faults(h) => h
    case Section(_, _) => STRANGE
    case Table(t) =>
      if t >= |s.l2| then CHECK
      else match s.l2[t][p % 256]
        case PageFaults(h) => h
        case Page(_, _) => STRANGE
  }

  /** What the core's own tables say, before it has looked anything up */
  function Own(s: Tables, c: nat, p: nat): Flat
    requires Shaped(s) && c < |s.l1| && p < PAGES
  {
    Through(s.l2, s.l1[c][p / 256], p % 256)
  }

  /** The handler found for an access is the one the tables name; and there is one exactly where the access
      faults. */
  lemma HandlerFound(s: Tables, c: nat, p: nat)
    requires Inv(s) && c < |s.l1| && p < PAGES
    ensures FindHandler(s, c, p) == if Own(s, c, p).Fault? then Own(s, c, p).handler else STRANGE
  {
    assert s.l1[c][p / 256].Table? ==> Has(s, c, p / 256, s.l1[c][p / 256].table);
  }

  /** One level 1 fault is enough: where a section is to be looked up, the fault finds check_global_table,
      and after that the core's own tables say what the page means, for every page of the section. */
  lemma OneFaultIsEnough(s: Tables, c: nat, p: nat, q: nat)
    requires Inv(s) && c < |s.l1| && p < PAGES && q < PAGES && p / 256 == q / 256 && s.l1[c][p / 256] == Faults(CHECK)
    ensures FindHandler(s, c, p) == CHECK
    ensures var r := LookUp(s, c, p / 256); Inv(r) && |r.l1| == |s.l1| && Own(r, c, q) == View(s, c, q)
  {
    LookUpKeepsInv(s, c, p / 256);
  }

  // ----- the addresses of level 2 tables

  const MIB := 0x10_0000

  /** table_entry: the physical address of a table, in units of 1KiB, from where core and table are mapped;
      None where it panics */
  function TableEntry(table: nat, tablesSection: nat): Option<nat> {
    if table % 0x400 != 0 then None else Some((tablesSection * MIB + table % MIB) / 0x400)
  }

  /** mapped_table: where the table is mapped, if it is one of the shared ones */
  function MappedTable(entry: nat, tablesSection: nat, tablesAt: nat): Option<nat> {
    var phys := entry * 0x400;
    if phys / MIB != tablesSection then None else Some(tablesAt * MIB + phys % MIB)
  }

  /** An entry made for a table leads back to that table, exactly when it is where the shared tables are
      mapped; so a table may be known by its place there. */
  lemma TableEntryRoundTrip(table: nat, tablesSection: nat, tablesAt: nat)
    requires table % 0x400 == 0
    ensures MappedTable(TableEntry(table, tablesSection).value, tablesSection, tablesAt) == Some(table) <==> table / MIB == tablesAt
  {
    InMib(tablesSection, table % MIB);
    EntryBack(tablesSection * MIB + table % MIB);
  }

  lemma InMib(section: nat, offset: nat)
    requires offset < MIB && offset % 0x400 == 0
    ensures (section * MIB + offset) / MIB == section && (section * MIB + offset) % MIB == offset
    ensures (section * MIB + offset) % 0x400 == 0
  {
  }

  lemma EntryBack(phys: nat)
    requires phys % 0x400 == 0
    ensures phys / 0x400 * 0x400 == phys
  {
  }

  /** Tables at different places have different entries. */
  lemma TableEntriesDiffer(t: nat, u: nat, tablesSection: nat)
    requires t % 0x400 == 0 && u % 0x400 == 0 && t / MIB == u / MIB && t != u
    ensures TableEntry(t, tablesSection) != TableEntry(u, tablesSection)
  {
    TableEntryRoundTrip(t, tablesSection, t / MIB);
    TableEntryRoundTrip(u, tablesSection, t / MIB);
  }

  // ----- in place

  lemma OneMoreSection(es: seq<Entry1>, start: nat, n: nat, base: nat, a: Attributes)
    requires start + n < |es|
    ensures WithSections(es, start, n + 1, base, a) == WithSections(es, start, n, base, a)[start + n := Section(base + n, a)]
  {
  }

  /** On core 0 both tables are the same one. */
  lemma SectionsTwice(s: Tables, c: nat, m: Mapping)
    requires Shaped(s) && c < |s.l1|
    ensures var r := MapSections(s, c, m).l1;
            |r| == |s.l1| && forall d :: 0 <= d < |r| ==>
              r[d] == if d == c || (d == 0 && m.allCores)
                      then WithSections(s.l1[d], m.va / 256, m.pages / 256, m.basePage / 256, AttributesOf(m)) else s.l1[d]
  {
    var start, n, base, a := m.va / 256, m.pages / 256, m.basePage / 256, AttributesOf(m);
    var es := WithSections(s.l1[0], start, n, base, a);
    assert WithSections(es, start, n, base, a) == es;
  }

  /** The first i pages of the mapping are in table t, and in table g if there is one. */
  ghost predicate Written(l0: seq<seq<Entry2>>, l2: seq<seq<Entry2>>, t: nat, g: Option<nat>, m: Mapping, i: nat) {
    && |l2| == |l0| && t < |l0| && (g.Some? ==> g.value < |l0|)
    && (forall k :: 0 <= k < |l0| ==> |l0[k]| == 256 && |l2[k]| == 256)
    && (forall k :: 0 <= k < |l0| && k != t && g != Some(k) ==> l2[k] == l0[k])
    && l2[t] == WithPages(l0[t], m.va % 256, i, m.basePage, AttributesOf(m))
    && (g.Some? ==> l2[g.value] == WithPages(l0[g.value], m.va % 256, i, m.basePage, AttributesOf(m)))
  }

  lemma OneMoreWritten(l0: seq<seq<Entry2>>, l2: seq<seq<Entry2>>, r2: seq<seq<Entry2>>, t: nat, g: Option<nat>,
                       m: Mapping, i: nat)
    requires Written(l0, l2, t, g, m, i)
    requires var (page, entry) := ((m.va % 256 + i) % 256, Page(m.basePage + i, AttributesOf(m)));
      var one := l2[t := l2[t][page := entry]];
      r2 == if g.Some? then one[g.value := one[g.value][page := entry]] else one
    ensures Written(l0, r2, t, g, m, i + 1)
  {
    var (page, entry) := ((m.va % 256 + i) % 256, Page(m.basePage + i, AttributesOf(m)));
    assert g == Some(t) ==> l2[t][page := entry][page := entry] == l2[t][page := entry];
  }

  class TranslationTables {
    var l1: seq<seq<Entry1>>
    var l2: seq<seq<Entry2>>
    var free: seq<nat>

    ghost function State(): Tables
      reads this
    {
      Tables(l1, l2, free)
    }

    method SetSection(c: nat, i: nat, e: Entry1)
      requires c < |l1| && i < |l1[c]|
      modifies this`l1
      ensures l1 == SetEntry(old(l1), c, i, e)
    {
      l1 := l1[c := l1[c][i := e]];
    }

    /** The loops over whole sections */
    method MapWholeSections(c: nat, start: nat, sections: nat, base: nat, a: Attributes, allCores: bool)
      requires Shaped(State()) && c < |l1| && start + sections <= SECTIONS
      modifies this`l1
      ensures |l1| == |old(l1)|
      ensures forall d :: 0 <= d < |l1| ==>
        l1[d] == if d == c || (d == 0 && allCores) then WithSections(old(l1[d]), start, sections, base, a) else old(l1[d])
    {
      var i := start;
      while i < start + sections
        invariant start <= i <= start + sections && |l1| == |old(l1)|
        invariant forall d :: 0 <= d < |l1| ==>
          l1[d] == if d == c || (d == 0 && allCores) then WithSections(old(l1[d]), start, i - start, base, a) else old(l1[d])
      {
        OneMoreSection(old(l1[c]), start, i - start, base, a);
        OneMoreSection(old(l1[0]), start, i - start, base, a);
        var entry := Section(base + (i - start), a);
        l1 := l1[c := l1[c][i := entry]];
        if allCores { l1 := l1[0 := l1[0][i := entry]]; }
        i := i + 1;
      }
    }

    /** get_free_table, and the loop that fills the table; false where it panics */
    method GetFreeTable(h: Handler) returns (ok: bool, t: nat)
      requires Shaped(State()) && FreeOk(State())
      modifies this`l2, this`free
      ensures ok <==> NewTable(old(State()), h).Some?
      ensures ok ==> t == old(free)[1] && State() == NewTable(old(State()), h).value
    {
      if |free| < 2 { return false, 0; }
      t := free[1];
      free := [free[0]] + free[2..];
      var i := 0;
      while i < 256
        invariant 0 <= i <= 256 && |l2| == |old(l2)| && |l2[t]| == 256 && free == [old(free)[0]] + old(free)[2..]
        invariant forall k :: 0 <= k < i ==> l2[t][k] == PageFaults(h)
        invariant forall k :: 0 <= k < |l2| && k != t ==> l2[k] == old(l2)[k]
      {
        l2 := l2[t := l2[t][i := PageFaults(h)]];
        i := i + 1;
      }
      assert l2[t] == AllFault(h);
      assert l2 == old(l2)[t := AllFault(h)];
      ok := true;
    }

    /** The loop over pages, into one table, or two */
    method WritePages(t: nat, g: Option<nat>, m: Mapping)
      requires Shaped(State()) && t < |l2| && (g.Some? ==> g.value < |l2|)
      modifies this`l2
      ensures State() == (var one := InTable(old(State()), t, m);
                          if g.None? || g.value == t then one else InTable(one, g.value, m))
    {
      var page, base := m.va % 256, m.basePage;
      var i := 0;
      while i < m.pages
        invariant 0 <= i <= m.pages && page == (m.va % 256 + i) % 256 && base == m.basePage + i
        invariant Written(old(l2), l2, t, g, m, i)
      {
        ghost var before := l2;
        var entry := Page(base, AttributesOf(m));
        l2 := l2[t := l2[t][page := entry]];
        if g.Some? { l2 := l2[g.value := l2[g.value][page := entry]]; }
        OneMoreWritten(old(l2), before, l2, t, g, m, i);
        base := base + 1;
        RoundIndex(m.va % 256 + i, 1);
        page := (page + 1) % 256;
        i := i + 1;
      }
    }

    /** map_memory; false where it panics */
    method Map(c: nat, m: Mapping) returns (ok: bool)
      requires Inv(State()) && c < |l1| && m.va + m.pages <= PAGES && m.va < PAGES
      modifies this
      ensures ok <==> MapMemory(old(State()), c, m).Some?
      ensures ok ==> State() == MapMemory(old(State()), c, m).value
      ensures ok ==> Inv(State()) && |l1| == |old(l1)| && forall p: nat :: Covered(m, p) ==> AsAsked(View(State(), c, p), m, p)
    {
      ok := MapOrPanic(c, m);
      if ok {
        MapMemoryKeepsInv(old(State()), c, m);
        SameCores(old(State()), c, m);
        forall p: nat | Covered(m, p) ensures AsAsked(View(State(), c, p), m, p) { PageAsAsked(old(State()), c, m, p); }
      }
    }

    method MapOrPanic(c: nat, m: Mapping) returns (ok: bool)
      requires Inv(State()) && c < |l1| && m.va + m.pages <= PAGES && m.va < PAGES
      modifies this
      ensures ok <==> MapMemory(old(State()), c, m).Some?
      ensures ok ==> State() == MapMemory(old(State()), c, m).value
    {
      ghost var s := State();
      if m.pages == 0 { return false; }
      if m.basePage % 256 == 0 && m.va % 256 == 0 && m.pages % 256 == 0 {
        MapWholeSections(c, m.va / 256, m.pages / 256, m.basePage / 256, AttributesOf(m), m.allCores);
        SectionsTwice(s, c, m);
        assert l1 == MapSections(s, c, m).l1;
        return true;
      }
      var i := m.va / 256;
      if l1[c][i] == Faults(CHECK) && m.allCores && l1[0][i].Table? {
        SetSection(c, i, l1[0][i]);
      }
      AdoptKeepsInv(s, c, i, m.allCores);
      match l1[c][i] {
        case Section(_, _) => ok := false;
        case Table(t) =>
          assert Has(State(), c, i, t);
          ok := MapIntoTable(c, t, m);
        case Faults(h) =>
          ok := MapFreshTable(c, h, m);
      }
      ok := ok && !(m.kind == Device && m.pages > 1);
    }

    method MapIntoTable(c: nat, t: nat, m: Mapping) returns (ok: bool)
      requires Inv(State()) && c < |l1| && m.va < PAGES && l1[c][m.va / 256] == Table(t)
      modifies this`l2
      ensures ok <==> MapInto(old(State()), c, m).Some?
      ensures ok ==> State() == MapInto(old(State()), c, m).value
    {
      assert Has(State(), c, m.va / 256, t);
      var global: Option<nat> := None;
      if m.allCores {
        var e := l1[0][m.va / 256];
        if !e.Table? { return false; }
        assert Has(State(), 0, m.va / 256, e.table);
        global := Some(e.table);
      }
      WritePages(t, global, m);
      ok := true;
    }

    method MapFreshTable(c: nat, h: Handler, m: Mapping) returns (ok: bool)
      requires Inv(State()) && c < |l1| && m.va < PAGES && l1[c][m.va / 256] == Faults(h)
      modifies this
      ensures ok <==> MapFresh(old(State()), c, m).Some?
      ensures ok ==> State() == MapFresh(old(State()), c, m).value
    {
      var i := m.va / 256;
      ghost var s := State();
      var t;
      ok, t := GetFreeTable(h);
      if !ok { return; }
      NewTableKeepsInv(s, h);
      if h == CHECK {
        if m.allCores {
          SetSection(0, i, Table(t));
        } else {
          var g;
          ok, g := GetFreeTable(h);
          if !ok { return; }
          SetSection(0, i, Table(g));
        }
      }
      WritePages(t, None, m);
      SetSection(c, i, Table(t));
    }
  }
}
