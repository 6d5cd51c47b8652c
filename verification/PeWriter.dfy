/** A reference writer of Windows images, and the proof that the parser inverts it. */
module PeWriter {
  import opened Substring
  import opened Binary
  import opened Sorting
  import opened PeImage

  /** `others` are sections the import addresses do not lie in, `address` is where the import section
      is mapped, `plus` tells PE32+ from PE32. */
  datatype Pe = Pe(machine: nat, subsystem: nat, plus: bool, others: seq<Section>, address: nat, names: seq<Bytes>)

  function Texts(names: seq<Bytes>): Bytes {
    if names == [] then [] else names[0] + [0] + Texts(names[1..])
  }

  /** One descriptor a name and the all-zero one; the names start at address `at`. */
  function Descriptors(names: seq<Bytes>, at: nat): (r: Bytes)
    ensures |r| == 20 * (|names| + 1)
  {
    if names == [] then Zeros(20)
    else Zeros(12) + (Put(at, 4) + (Zeros(4) + Descriptors(names[1..], at + |names[0]| + 1)))
  }

  function TextsAt(e: Pe): nat {
    20 * (|e.names| + 1)
  }

  function Imports(e: Pe): Bytes {
    Descriptors(e.names, e.address + TextsAt(e)) + Texts(e.names)
  }

  function SectionHeader(s: Section): (r: Bytes)
    ensures |r| == 40
  {
    Zeros(8) + (Put(s.virtualSize, 4) + (Put(s.address, 4) + (Put(s.rawSize, 4) + (Put(s.rawPointer, 4) + Zeros(16)))))
  }

  function SectionHeaders(sections: seq<Section>): (r: Bytes)
    ensures |r| == 40 * |sections|
  {
    if sections == [] then [] else SectionHeader(sections[0]) + SectionHeaders(sections[1..])
  }

  function Directories(e: Pe): nat {
    if e.plus then 112 else 96
  }

  function ImportsAt(e: Pe): nat {
    88 + Directories(e) + 16 + 40 * (|e.others| + 1)
  }

  function ImportSection(e: Pe): Section {
    Section(e.address, |Imports(e)|, |Imports(e)|, ImportsAt(e))
  }

  function AllSections(e: Pe): seq<Section> {
    e.others + [ImportSection(e)]
  }

  function DosHeader(): (r: Bytes)
    ensures |r| == 64
  {
    [0x4D, 0x5A] + Zeros(58) + (Put(64, 4) + [])
  }

  function FileHeader(e: Pe): (r: Bytes)
    ensures |r| == 24
  {
    [0x50, 0x45, 0, 0] + (Put(e.machine, 2) + (Put(|e.others| + 1, 2) + (Zeros(12) +
      (Put(Directories(e) + 16, 2) + Zeros(2)))))
  }

  function OptionalHeader(e: Pe): (r: Bytes)
    ensures |r| == Directories(e) + 16
  {
    Put(if e.plus then 0x20B else 0x10B, 2) + (Zeros(66) + (Put(e.subsystem, 2) + (Zeros(Directories(e) - 62) +
      (Put(e.address, 4) + Zeros(4)))))
  }

  function Write(e: Pe): Bytes {
    DosHeader() + (FileHeader(e) + (OptionalHeader(e) + (SectionHeaders(AllSections(e)) + (Imports(e) + []))))
  }

  predicate WritableSection(s: Section) {
    s.address < TWO32 && s.virtualSize < TWO32 && s.rawSize < TWO32 && s.rawPointer < TWO32
  }

  const TWO32 := 0x1_0000_0000

  predicate WritableName(name: Bytes) {
    forall i | 0 <= i < |name| :: 0 < name[i] < 128
  }

  /** Fields that fit, names in ASCII, and import addresses that lie in their own section only. */
  ghost predicate Writable(e: Pe) {
    && e.machine < 0x1_0000 && e.subsystem < 0x1_0000 && |e.others| + 1 < 0x1_0000
    && |Write(e)| < TWO32 && 0 < e.address && e.address + |Imports(e)| < TWO32
    && (forall i | 0 <= i < |e.others| :: WritableSection(e.others[i]) && Apart(e, e.others[i]))
    && (forall i | 0 <= i < |e.names| :: WritableName(e.names[i]))
  }

  ghost predicate Apart(e: Pe, s: Section) {
    forall rva | e.address <= rva < e.address + |Imports(e)| :: !Inside(s, rva)
  }

  // --- the headers -----------------------------------------------------------------------------

  lemma PartsInPlace(e: Pe)
    ensures var data := Write(e);
      && |data| == ImportsAt(e) + |Imports(e)|
      && Holds(data, 0, DosHeader()) && Holds(data, 64, FileHeader(e)) && Holds(data, 88, OptionalHeader(e))
      && Holds(data, 88 + Directories(e) + 16, SectionHeaders(AllSections(e)))
      && Holds(data, ImportsAt(e), Imports(e))
  {
    hide DosHeader, FileHeader, OptionalHeader, SectionHeaders, Imports;
    var data := Write(e);
    var s4 := Imports(e) + [];
    var s3 := SectionHeaders(AllSections(e)) + s4;
    var s2 := OptionalHeader(e) + s3;
    var s1 := FileHeader(e) + s2;
    assert Holds(data, 0, DosHeader() + s1);
    HoldsBoth(data, 0, DosHeader(), s1);
    HoldsBoth(data, 64, FileHeader(e), s2);
    HoldsBoth(data, 88, OptionalHeader(e), s3);
    HoldsBoth(data, 88 + Directories(e) + 16, SectionHeaders(AllSections(e)), s4);
    HoldsBoth(data, ImportsAt(e), Imports(e), []);
  }

  lemma DosReads(data: Bytes)
    requires Holds(data, 0, DosHeader())
    ensures |data| >= 64 && data[..2] == [0x4D, 0x5A] && FieldIs(data, 60, 64, 4)
  {
    hide Put, Little, Range;
    Ranges();
    HoldsBoth(data, 0, [0x4D, 0x5A] + Zeros(58), Put(64, 4) + []);
    HoldsBoth(data, 0, [0x4D, 0x5A], Zeros(58));
    FieldThen(data, 60, 64, 4, []);
    assert data[0..2] == data[..2];
  }

  lemma FileHeaderReads(data: Bytes, e: Pe)
    requires Holds(data, 64, FileHeader(e)) && e.machine < 0x1_0000 && |e.others| + 1 < 0x1_0000
    ensures data[64..68] == [0x50, 0x45, 0, 0]
    ensures FieldIs(data, 68, e.machine, 2) && FieldIs(data, 70, |e.others| + 1, 2)
    ensures FieldIs(data, 84, Directories(e) + 16, 2)
  {
    hide Put, Little, Range;
    Ranges();
    var p4 := Put(Directories(e) + 16, 2) + Zeros(2);
    var p3 := Zeros(12) + p4;
    var p2 := Put(|e.others| + 1, 2) + p3;
    var p1 := Put(e.machine, 2) + p2;
    HoldsBoth(data, 64, [0x50, 0x45, 0, 0], p1);
    FieldThen(data, 68, e.machine, 2, p2);
    FieldThen(data, 70, |e.others| + 1, 2, p3);
    HoldsBoth(data, 72, Zeros(12), p4);
    FieldThen(data, 84, Directories(e) + 16, 2, Zeros(2));
  }

  lemma OptionalHeaderReads(data: Bytes, e: Pe)
    requires Holds(data, 88, OptionalHeader(e)) && e.subsystem < 0x1_0000 && e.address < TWO32
    ensures FieldIs(data, 88, if e.plus then 0x20B else 0x10B, 2) && FieldIs(data, 156, e.subsystem, 2)
    ensures 88 + Directories(e) + 16 <= |data| && FieldIs(data, 88 + Directories(e) + 8, e.address, 4)
  {
    hide Put, Little, Range;
    Ranges();
    var p4 := Put(e.address, 4) + Zeros(4);
    var p3 := Zeros(Directories(e) - 62) + p4;
    var p2 := Put(e.subsystem, 2) + p3;
    var p1 := Zeros(66) + p2;
    FieldThen(data, 88, if e.plus then 0x20B else 0x10B, 2, p1);
    HoldsBoth(data, 90, Zeros(66), p2);
    FieldThen(data, 156, e.subsystem, 2, p3);
    HoldsBoth(data, 158, Zeros(Directories(e) - 62), p4);
    FieldThen(data, 96 + Directories(e), e.address, 4, Zeros(4));
  }

  lemma SectionReads(data: Bytes, at: nat, s: Section)
    requires Holds(data, at, SectionHeader(s)) && WritableSection(s)
    ensures SectionAt(data, at, s)
  {
    hide Put, Little, Range;
    Ranges();
    var p4 := Put(s.rawPointer, 4) + Zeros(16);
    var p3 := Put(s.rawSize, 4) + p4;
    var p2 := Put(s.address, 4) + p3;
    var p1 := Put(s.virtualSize, 4) + p2;
    HoldsBoth(data, at, Zeros(8), p1);
    FieldThen(data, at + 8, s.virtualSize, 4, p2);
    FieldThen(data, at + 12, s.address, 4, p3);
    FieldThen(data, at + 16, s.rawSize, 4, p4);
    FieldThen(data, at + 20, s.rawPointer, 4, Zeros(16));
  }

  lemma {:induction false} SectionsRead(data: Bytes, at: nat, sections: seq<Section>, i: nat)
    requires Holds(data, at, SectionHeaders(sections)) && i < |sections|
    requires forall k | 0 <= k < |sections| :: WritableSection(sections[k])
    ensures SectionAt(data, at + 40 * i, sections[i])
    decreases i
  {
    hide SectionHeader, SectionAt, WritableSection, Holds;
    HoldsBoth(data, at, SectionHeader(sections[0]), SectionHeaders(sections[1..]));
    if i == 0 {
      SectionReads(data, at, sections[0]);
    } else {
      SectionsRead(data, at + 40, sections[1..], i - 1);
    }
  }

  function HeaderFor(e: Pe): Header {
    Header(e.machine, e.subsystem, e.address, AllSections(e))
  }

  lemma SectionsFit(e: Pe)
    requires Writable(e)
    ensures forall k | 0 <= k < |AllSections(e)| :: WritableSection(AllSections(e)[k])
  {
    hide Write, Imports, Inside;
    PartsInPlace(e);
  }

  lemma HeaderReads(e: Pe)
    requires Writable(e)
    ensures HeaderOf(Write(e), HeaderFor(e))
  {
    hide Write, Imports, SectionHeaders, DosHeader, FileHeader, OptionalHeader, SectionAt, Inside, Holds, Little;
    var data := Write(e);
    PartsInPlace(e);
    DosReads(data);
    FileHeaderReads(data, e);
    OptionalHeaderReads(data, e);
    SectionsFit(e);
    hide Writable;
    forall i | 0 <= i < |AllSections(e)|
      ensures SectionAt(data, 88 + Directories(e) + 16 + 40 * i, AllSections(e)[i])
    {
      SectionsRead(data, 88 + Directories(e) + 16, AllSections(e), i);
    }
  }

  // --- the import table -----------------------------------------------------------------------------

  lemma AddressMaps(e: Pe, distance: nat)
    requires Writable(e) && distance < |Imports(e)|
    ensures Maps(AllSections(e), e.address + distance, ImportsAt(e) + distance)
  {
    hide Write, Imports, WritableSection, WritableName;
    var rva, n := e.address + distance, |e.others|;
    var sections := AllSections(e);
    CoversIffInside(ImportSection(e), rva);
    forall j | 0 <= j < n ensures !Covers(sections[j], rva) {
      CoversIffInside(e.others[j], rva);
      assert Apart(e, e.others[j]);
    }
    hide Covers, Inside;
    assert FirstCover(sections, rva, n);
  }

  lemma TextReads(data: Bytes, at: nat, name: Bytes, rest: Bytes)
    requires Holds(data, at, name + [0] + rest) && WritableName(name)
    ensures IsText(data, at, name) && Ascii(name) && Holds(data, at + |name| + 1, rest)
  {
    HoldsBoth(data, at, name + [0], rest);
    HoldsBoth(data, at, name, [0]);
    assert data[at + |name|] == data[at + |name|..at + |name| + 1][0];
    forall i | at <= i < at + |name| ensures data[i] != 0 {
      assert data[i] == data[at..at + |name|][i - at];
    }
  }

  /** The addresses of the import section map `shift` bytes further down in the file. */
  ghost predicate MapsFrom(sections: seq<Section>, address: nat, size: nat, shift: int) {
    forall rva: nat | address <= rva < address + size :: MapsBy(sections, rva, shift)
  }

  ghost predicate MapsBy(sections: seq<Section>, rva: nat, shift: int) {
    rva + shift >= 0 && Maps(sections, rva, rva + shift)
  }

  lemma DescriptorReads(
    data: Bytes, sections: seq<Section>, here: nat, at: nat, shift: int, name: Bytes, rest: Bytes, texts: Bytes)
    requires Holds(data, here, Zeros(12) + (Put(at, 4) + (Zeros(4) + rest))) && 0 < at < TWO32
    requires at + shift >= 0 && Maps(sections, at, at + shift)
    requires Holds(data, at + shift, name + [0] + texts) && WritableName(name)
    ensures Names(data, sections, here, name)
    ensures Holds(data, here + 20, rest) && Holds(data, at + shift + |name| + 1, texts)
  {
    hide Put, Little, Range, Maps;
    Ranges();
    var p2 := Zeros(4) + rest;
    HoldsBoth(data, here, Zeros(12), Put(at, 4) + p2);
    FieldThen(data, here + 12, at, 4, p2);
    HoldsBoth(data, here + 16, Zeros(4), rest);
    TextReads(data, at + shift, name, texts);
    NotAllZero(data, here, at);
  }

  lemma {:induction false} LittleOfZeros(s: Bytes)
    requires AllZero(s)
    ensures Little(s) == 0
  {
    if s != [] {
      LittleOfZeros(s[1..]);
    }
  }

  lemma NotAllZero(data: Bytes, here: nat, at: nat)
    requires here + 20 <= |data| && Little(data[here + 12..here + 16]) == at && at > 0
    ensures !AllZero(data[here..here + 20])
  {
    var all, field := data[here..here + 20], data[here + 12..here + 16];
    assert forall i | 0 <= i < 4 :: field[i] == all[12 + i];
    if AllZero(all) {
      LittleOfZeros(field);
    }
  }

  lemma {:induction false} DescriptorsRead(
    data: Bytes, sections: seq<Section>, here: nat, at: nat, shift: int, names: seq<Bytes>)
    requires Holds(data, here, Descriptors(names, at)) && 0 < at && at + |Texts(names)| <= TWO32
    requires MapsFrom(sections, at, |Texts(names)|, shift) && at + shift >= 0
    requires Holds(data, at + shift, Texts(names))
    requires forall i | 0 <= i < |names| :: WritableName(names[i])
    ensures Table(data, sections, here, names)
    decreases |names|
  {
    hide Maps, Names, WritableName, Holds, Table;
    if names == [] {
      EmptyTable(data, sections, here);
    } else {
      var name, texts := names[0], Texts(names[1..]);
      var next := at + |name| + 1;
      assert Texts(names) == name + [0] + texts;
      assert MapsBy(sections, at, shift);
      hide MapsBy;
      DescriptorReads(data, sections, here, at, shift, name, Descriptors(names[1..], next), texts);
      DescriptorsRead(data, sections, here + 20, next, shift, names[1..]);
      TableThen(data, sections, here, names);
    }
  }

  lemma EmptyTable(data: Bytes, sections: seq<Section>, here: nat)
    requires Holds(data, here, Zeros(20))
    ensures Table(data, sections, here, [])
  {
    hide Names;
  }

  lemma TableThen(data: Bytes, sections: seq<Section>, here: nat, names: seq<Bytes>)
    requires names != [] && Names(data, sections, here, names[0]) && Table(data, sections, here + 20, names[1..])
    ensures Table(data, sections, here, names)
  {
    hide Names, Closes;
    var rest := names[1..];
    forall i | 0 <= i < |names| ensures Names(data, sections, here + DESCRIPTOR * i, names[i]) {
      if i > 0 {
        assert names[i] == rest[i - 1];
        assert here + DESCRIPTOR * i == here + 20 + DESCRIPTOR * (i - 1);
      }
    }
    assert here + DESCRIPTOR * |names| == here + 20 + DESCRIPTOR * |rest|;
  }

  lemma TableReads(e: Pe)
    requires Writable(e)
    ensures Table(Write(e), AllSections(e), ImportsAt(e), e.names)
  {
    hide Write, Table, AllSections, Apart, WritableSection;
    PartsInPlace(e);
    var data, sections, at, shift := Write(e), AllSections(e), e.address + TextsAt(e), ImportsAt(e) - e.address;
    HoldsBoth(data, ImportsAt(e), Descriptors(e.names, at), Texts(e.names));
    forall rva: nat | at <= rva < at + |Texts(e.names)| ensures MapsBy(sections, rva, shift) {
      AddressMaps(e, rva - e.address);
    }
    DescriptorsRead(data, sections, ImportsAt(e), at, shift, e.names);
  }

  lemma ImportsStart(e: Pe)
    requires Writable(e)
    ensures e.address > 0 && Maps(AllSections(e), e.address, ImportsAt(e))
  {
    AddressMaps(e, 0);
  }

  /** The parser inverts the writer: machine, subsystem, and the names in order, in either format and
      whatever other sections come first. */
  lemma WrittenIsDescribed(e: Pe)
    requires Writable(e)
    ensures Describes(Write(e), Info(e.machine, e.subsystem, Sorted(e.names, Rank)))
  {
    hide HeaderOf, Table, Maps, Write, Writable, AllSections, ImportsAt, Sorted;
    HeaderReads(e);
    TableReads(e);
    ImportsStart(e);
    var info := Info(e.machine, e.subsystem, Sorted(e.names, Rank));
    assert DescribedBy(Write(e), info, HeaderFor(e), ImportsAt(e), e.names);
  }

  /** So that is what it answers. */
  method ParseWritten(e: Pe) returns (info: Info)
    requires Writable(e)
    ensures info.machine == e.machine && info.subsystem == e.subsystem
    ensures Ordered(info.dependents, Rank) && multiset(info.dependents) == multiset(e.names)
  {
    hide Write, Writable, Describes, HeaderOf;
    WrittenIsDescribed(e);
    var r := PeInfo(Write(e));
    info := r.value;
    OneDescription(Write(e), info, Info(e.machine, e.subsystem, Sorted(e.names, Rank)));
    SortedIsOrdered(e.names, Rank);
  }
}
