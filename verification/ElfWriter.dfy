/** A reference writer of 64-bit little-endian ELF files, and the proof that the parser inverts
    it. */
module ElfWriter {
  import opened Wrappers
  import opened Substring
  import opened Binary
  import opened ElfDynamic

  /** A dynamic entry: a needed library, or one of another kind. */
  datatype Entry = Library(name: Bytes) | Other(tag: nat, value: nat)

  /** A program header: the one that names an interpreter, or one of another kind. */
  datatype Segment = Interpreter(path: Bytes) | Plain(kind: nat)

  /** `others` are sections of no interest, without a name; `tail` is what follows the null entry
      inside the dynamic section. */
  datatype Elf = Elf(segments: seq<Segment>, others: seq<Section>, entries: seq<Entry>, tail: Bytes)

  function LibraryNames(entries: seq<Entry>): seq<Bytes> {
    if entries == [] then []
    else (if entries[0].Library? then [entries[0].name] else []) + LibraryNames(entries[1..])
  }

  function DynStr(entries: seq<Entry>): Bytes {
    if entries == [] then []
    else (if entries[0].Library? then entries[0].name + [0] else []) + DynStr(entries[1..])
  }

  /** The entries and the null entry that ends them; the names start `at` bytes into the strings. */
  function Dynamic(entries: seq<Entry>, at: nat): (r: Bytes)
    ensures |r| == 16 * (|entries| + 1)
  {
    if entries == [] then Put(0, 8) + Put(0, 8)
    else
      match entries[0]
      case Library(name) => Put(1, 8) + (Put(at, 8) + Dynamic(entries[1..], at + |name| + 1))
      case Other(tag, value) => Put(tag, 8) + (Put(value, 8) + Dynamic(entries[1..], at))
  }

  /** An empty name, `.dynamic` and `.dynstr`. */
  const SECTION_NAMES: Bytes :=
    [0] + [0x2E, 0x64, 0x79, 0x6E, 0x61, 0x6D, 0x69, 0x63] + [0] + [0x2E, 0x64, 0x79, 0x6E, 0x73, 0x74, 0x72] + [0]

  function SectionHeader(s: Section): (r: Bytes)
    ensures |r| == 64
  {
    Put(s.name, 4) + (Put(1, 4) + (Zeros(16) +
      (Put(s.offset, 8) + (Put(s.size, 8) + (Zeros(16) + (Put(s.entry, 8) + []))))))
  }

  function SectionHeaders(sections: seq<Section>): (r: Bytes)
    ensures |r| == 64 * |sections|
  {
    if sections == [] then [] else SectionHeader(sections[0]) + SectionHeaders(sections[1..])
  }

  /** The last interpreter the segments name. */
  function LastInterp(segments: seq<Segment>, before: Option<Bytes>): Option<Bytes> {
    if segments == [] then before
    else LastInterp(segments[1..], if segments[0].Interpreter? then Some(segments[0].path) else before)
  }

  function ProgramHeader(kind: nat, offset: nat, size: nat): (r: Bytes)
    ensures |r| == 56
  {
    Put(kind, 4) + (Zeros(4) + (Put(offset, 8) + (Zeros(16) + (Put(size, 8) + Zeros(16)))))
  }

  /** The interpreters' paths start `at` bytes into the file. */
  function ProgramHeaders(segments: seq<Segment>, at: nat): (r: Bytes)
    ensures |r| == 56 * |segments|
  {
    if segments == [] then []
    else
      match segments[0]
      case Interpreter(path) =>
        ProgramHeader(3, at, |path| + 1) + ProgramHeaders(segments[1..], at + |path| + 1)
      case Plain(kind) => ProgramHeader(kind, 0, 0) + ProgramHeaders(segments[1..], at)
  }

  function Paths(segments: seq<Segment>): Bytes {
    if segments == [] then []
    else (if segments[0].Interpreter? then segments[0].path + [0] else []) + Paths(segments[1..])
  }

  function PathsAt(e: Elf): nat {
    64 + 56 * |e.segments|
  }

  function Headers(e: Elf): Bytes {
    ProgramHeaders(e.segments, PathsAt(e))
  }

  function NamesAt(e: Elf): nat {
    PathsAt(e) + |Paths(e.segments)|
  }

  function StringsAt(e: Elf): nat {
    NamesAt(e) + |SECTION_NAMES|
  }

  function DynamicAt(e: Elf): nat {
    StringsAt(e) + |DynStr(e.entries)|
  }

  function DynamicBytes(e: Elf): Bytes {
    Dynamic(e.entries, 0) + e.tail
  }

  function SectionsAt(e: Elf): nat {
    DynamicAt(e) + |DynamicBytes(e)|
  }

  function DynamicSection(e: Elf): Section {
    Section(1, DynamicAt(e), |DynamicBytes(e)|, 16)
  }

  function StringSection(e: Elf): Section {
    Section(10, StringsAt(e), |DynStr(e.entries)|, 0)
  }

  function NameSection(e: Elf): Section {
    Section(0, NamesAt(e), |SECTION_NAMES|, 0)
  }

  function AllSections(e: Elf): seq<Section> {
    e.others + [DynamicSection(e), StringSection(e), NameSection(e)]
  }

  /** The 64-byte file header: where the two tables are, how long, and which section has the
      names. */
  function FileHeader(segmentsAt: nat, segments: nat, sectionsAt: nat, sections: nat, names: nat): (r: Bytes)
    ensures |r| == 64
  {
    [0x7F, 0x45, 0x4C, 0x46] + [2, 1] + Zeros(26) + (Put(segmentsAt, 8) + (Put(sectionsAt, 8) + (Zeros(6) +
      (Put(56, 2) + (Put(segments, 2) + (Put(64, 2) + (Put(sections, 2) + (Put(names, 2) + []))))))))
  }

  function HeaderFor(e: Elf): (r: Bytes)
    ensures |r| == 64
  {
    FileHeader(64, |e.segments|, SectionsAt(e), |e.others| + 3, |e.others| + 2)
  }

  function Write(e: Elf): Bytes {
    HeaderFor(e) + (Headers(e) + (Paths(e.segments) + (SECTION_NAMES +
      (DynStr(e.entries) + (DynamicBytes(e) + (SectionHeaders(AllSections(e)) + []))))))
  }

  /** What a writer must be given: counts and fields that fit, names without NUL, and a file whose
      offsets fit a signed 64-bit size. */
  ghost predicate Writable(e: Elf) {
    && Fits(e)
    && (forall i | 0 <= i < |e.segments| :: WritableSegment(e.segments[i]))
    && (forall i | 0 <= i < |e.others| :: WritableSection(e.others[i]) && e.others[i].name == 0)
    && (forall i | 0 <= i < |e.entries| :: WritableEntry(e.entries[i]))
  }

  predicate Fits(e: Elf) {
    |Write(e)| < SSIZE_LIMIT && |e.segments| < 0x1_0000 && |e.others| + 3 < 0x1_0000
  }

  const TWO32 := 0x1_0000_0000
  const TWO64 := 0x1_0000_0000_0000_0000

  predicate WritableSegment(segment: Segment) {
    segment.Plain? ==> segment.kind != 3 && segment.kind < TWO32
  }

  predicate WritableSection(s: Section) {
    s.name < TWO32 && s.offset < TWO64 && s.size < TWO64 && s.entry < TWO64
  }

  predicate WritableEntry(entry: Entry) {
    match entry
    case Library(name) => 0 !in name
    case Other(tag, value) =>
      tag != 0 && tag != 1 && tag < TWO64 && value < TWO64
  }

  // --- the parts in the file ---------------------------------------------------------------------

  /** Every part stands where its offset says. */
  lemma PartsInPlace(e: Elf)
    ensures var data := Write(e);
      && |data| == SectionsAt(e) + 64 * (|e.others| + 3)
      && Holds(data, 0, HeaderFor(e))
      && Holds(data, 64, Headers(e))
      && Holds(data, PathsAt(e), Paths(e.segments))
      && Holds(data, NamesAt(e), SECTION_NAMES)
      && Holds(data, StringsAt(e), DynStr(e.entries))
      && Holds(data, DynamicAt(e), DynamicBytes(e))
      && Holds(data, SectionsAt(e), SectionHeaders(AllSections(e)))
  {
    hide HeaderFor, ProgramHeaders, Paths, DynStr, DynamicBytes, SectionHeaders;
    var data := Write(e);
    var s7 := SectionHeaders(AllSections(e)) + [];
    var s6 := DynamicBytes(e) + s7;
    var s5 := DynStr(e.entries) + s6;
    var s4 := SECTION_NAMES + s5;
    var s3 := Paths(e.segments) + s4;
    var s2 := Headers(e) + s3;
    assert data == HeaderFor(e) + s2;
    assert Holds(data, 0, HeaderFor(e) + s2);
    HoldsBoth(data, 0, HeaderFor(e), s2);
    HoldsBoth(data, 64, Headers(e), s3);
    HoldsBoth(data, PathsAt(e), Paths(e.segments), s4);
    HoldsBoth(data, NamesAt(e), SECTION_NAMES, s5);
    HoldsBoth(data, StringsAt(e), DynStr(e.entries), s6);
    HoldsBoth(data, DynamicAt(e), DynamicBytes(e), s7);
    HoldsBoth(data, SectionsAt(e), SectionHeaders(AllSections(e)), []);
  }

  /** A slice that covers a part is that part. */
  lemma SliceOfPart(data: Bytes, at: nat, part: Bytes)
    requires Holds(data, at, part)
    ensures Slice(data, at, at + |part|) == part
  {
  }

  lemma HeaderFields(data: Bytes, segmentsAt: nat, segments: nat, sectionsAt: nat, sections: nat, names: nat)
    requires Holds(data, 0, FileHeader(segmentsAt, segments, sectionsAt, sections, names))
    requires segmentsAt < TWO64 && sectionsAt < TWO64
    requires segments < 0x1_0000 && sections < 0x1_0000 && names < 0x1_0000
    ensures Identified(data)
    ensures FieldIs(data, 32, segmentsAt, 8) && FieldIs(data, 40, sectionsAt, 8)
    ensures FieldIs(data, 54, 56, 2) && FieldIs(data, 56, segments, 2)
    ensures FieldIs(data, 58, 64, 2) && FieldIs(data, 60, sections, 2) && FieldIs(data, 62, names, 2)
  {
    hide Put, Little, Range;
    Ranges();
    var h8 := Put(names, 2) + [];
    var h7 := Put(sections, 2) + h8;
    var h6 := Put(64, 2) + h7;
    var h5 := Put(segments, 2) + h6;
    var h4 := Put(56, 2) + h5;
    var h3 := Zeros(6) + h4;
    var h2 := Put(sectionsAt, 8) + h3;
    var h1 := Put(segmentsAt, 8) + h2;
    var ident := [0x7F, 0x45, 0x4C, 0x46] + [2, 1] + Zeros(26);
    HoldsBoth(data, 0, ident, h1);
    IdentHolds(data);
    FieldThen(data, 32, segmentsAt, 8, h2);
    FieldThen(data, 40, sectionsAt, 8, h3);
    HoldsBoth(data, 48, Zeros(6), h4);
    FieldThen(data, 54, 56, 2, h5);
    FieldThen(data, 56, segments, 2, h6);
    FieldThen(data, 58, 64, 2, h7);
    FieldThen(data, 60, sections, 2, h8);
    FieldThen(data, 62, names, 2, []);
  }

  lemma IdentHolds(data: Bytes)
    requires |data| >= 64 && Holds(data, 0, [0x7F, 0x45, 0x4C, 0x46] + [2, 1] + Zeros(26))
    ensures Identified(data)
  {
    var ident := [0x7F, 0x45, 0x4C, 0x46] + [2, 1] + Zeros(26);
    assert forall i | 0 <= i < 32 :: data[i] == ident[i];
    assert data[..4] == ident[..4];
  }

  // --- the section headers ---------------------------------------------------------------------------

  lemma SectionReads(data: Bytes, at: nat, s: Section)
    requires Holds(data, at, SectionHeader(s)) && |data| < SSIZE_LIMIT && WritableSection(s)
    ensures SectionOf(data, at) == Ok(s)
  {
    hide Put, Little, Range;
    Ranges();
    var p6 := Put(s.entry, 8) + [];
    var p5 := Zeros(16) + p6;
    var p4 := Put(s.size, 8) + p5;
    var p3 := Put(s.offset, 8) + p4;
    var p2 := Zeros(16) + p3;
    var p1 := Put(1, 4) + p2;
    FieldThen(data, at, s.name, 4, p1);
    FieldThen(data, at + 4, 1, 4, p2);
    HoldsBoth(data, at + 8, Zeros(16), p3);
    FieldThen(data, at + 24, s.offset, 8, p4);
    FieldThen(data, at + 32, s.size, 8, p5);
    HoldsBoth(data, at + 40, Zeros(16), p6);
    FieldThen(data, at + 56, s.entry, 8, []);
  }

  lemma {:induction false} SectionsReadFrom(
    data: Bytes, start: nat, n: nat, i: nat, sections: seq<Section>, before: seq<Section>)
    requires Holds(data, start + i * 64, SectionHeaders(sections)) && |data| < SSIZE_LIMIT
    requires i + |sections| == n && forall k | 0 <= k < |sections| :: WritableSection(sections[k])
    ensures Sections(data, start, 64, n, i, before) == Ok(before + sections)
    decreases |sections|
  {
    hide SectionHeader, SectionOf, WritableSection, Holds;
    if sections == [] {
      assert before + sections == before;
    } else {
      var here := start + i * 64;
      HoldsBoth(data, here, SectionHeader(sections[0]), SectionHeaders(sections[1..]));
      SectionReads(data, here, sections[0]);
      SectionsReadFrom(data, start, n, i + 1, sections[1..], before + [sections[0]]);
      assert before + [sections[0]] + sections[1..] == before + sections;
    }
  }

  lemma SectionsRead(e: Elf)
    requires Writable(e)
    ensures Sections(Write(e), SectionsAt(e), 64, |e.others| + 3, 0, []) == Ok(AllSections(e))
  {
    hide Write, Sections, SectionHeaders, WritableSegment, WritableEntry, DynamicBytes, Paths, DynStr, Holds;
    PartsInPlace(e);
    SectionsReadFrom(Write(e), SectionsAt(e), |e.others| + 3, 0, AllSections(e), []);
    assert [] + AllSections(e) == AllSections(e);
  }

  lemma NamesRead()
    ensures ReadText(SECTION_NAMES, 0) == Ok([])
    ensures ReadText(SECTION_NAMES, 1) == Ok(DYNAMIC) && ReadText(SECTION_NAMES, 10) == Ok(DYNSTR)
  {
    hide TextAt;
    TextAtFinds(SECTION_NAMES, 0, []);
    TextAtFinds(SECTION_NAMES, 1, DYNAMIC);
    TextAtFinds(SECTION_NAMES, 10, DYNSTR);
  }

  /** Sections without a name are passed over. */
  lemma {:induction false} OthersArePassed(others: seq<Section>, rest: seq<Section>, p: Places)
    requires forall i | 0 <= i < |others| :: others[i].name == 0
    ensures Locate(others + rest, SECTION_NAMES, p) == Locate(rest, SECTION_NAMES, p)
    decreases |others|
  {
    hide ReadText;
    if others == [] {
      assert others + rest == rest;
    } else {
      NamesRead();
      assert (others + rest)[1..] == others[1..] + rest;
      OthersArePassed(others[1..], rest, p);
    }
  }

  lemma SectionsLocate(e: Elf)
    requires forall i | 0 <= i < |e.others| :: e.others[i].name == 0
    ensures Locate(AllSections(e), SECTION_NAMES, Places(None, None))
         == Ok(Places(Some(DynamicSection(e)), Some(StringSection(e))))
  {
    hide ReadText;
    NamesRead();
    var b, c, d := DynamicSection(e), StringSection(e), NameSection(e);
    var found := Places(Some(b), Some(c));
    OthersArePassed(e.others, [b, c, d], Places(None, None));
    assert Locate([], SECTION_NAMES, found) == Ok(found);
    assert Locate([d], SECTION_NAMES, found) == Ok(found);
    assert [c, d][1..] == [d];
    assert Locate([c, d], SECTION_NAMES, Places(Some(b), None)) == Ok(found);
    assert [b, c, d][1..] == [c, d];
  }

  // --- the program headers ---------------------------------------------------------------------------

  lemma ProgramHeaderReads(data: Bytes, at: nat, kind: nat, offset: nat, size: nat)
    requires Holds(data, at, ProgramHeader(kind, offset, size)) && |data| < SSIZE_LIMIT
    requires kind < TWO32 && offset < TWO64 && size < TWO64
    ensures Read(data, at, 4) == Ok(kind) && Read(data, at + 8, 8) == Ok(offset) && Read(data, at + 32, 8) == Ok(size)
  {
    hide Put, Little, Range;
    Ranges();
    var p4 := Put(size, 8) + Zeros(16);
    var p3 := Zeros(16) + p4;
    var p2 := Put(offset, 8) + p3;
    var p1 := Zeros(4) + p2;
    FieldThen(data, at, kind, 4, p1);
    HoldsBoth(data, at + 4, Zeros(4), p2);
    FieldThen(data, at + 8, offset, 8, p3);
    HoldsBoth(data, at + 16, Zeros(16), p4);
    FieldThen(data, at + 32, size, 8, Zeros(16));
  }

  lemma InterpreterReads(data: Bytes, here: nat, at: nat, path: Bytes, rest: Bytes, before: Option<Bytes>)
    requires Holds(data, here, ProgramHeader(3, at, |path| + 1)) && |data| < SSIZE_LIMIT
    requires Holds(data, at, path + [0] + rest)
    ensures InterpOf(data, here, before) == Ok(Some(path))
    ensures Holds(data, at + |path| + 1, rest)
  {
    hide ProgramHeader, Read;
    HoldsBoth(data, at, path + [0], rest);
    HoldsBoth(data, at, path, [0]);
    ProgramHeaderReads(data, here, 3, at, |path| + 1);
    SliceOfPart(data, at, path);
  }

  /** From any program header on, the parser keeps the last interpreter. */
  lemma {:induction false} SegmentsRead(
    data: Bytes, n: nat, i: nat, segments: seq<Segment>, at: nat, before: Option<Bytes>)
    requires Holds(data, 64 + i * 56, ProgramHeaders(segments, at)) && |data| < SSIZE_LIMIT
    requires Holds(data, at, Paths(segments)) && i + |segments| == n
    requires forall k | 0 <= k < |segments| :: WritableSegment(segments[k])
    ensures Interp(data, 64, 56, n, i, before) == Ok(LastInterp(segments, before))
    decreases |segments|
  {
    hide ProgramHeader, Holds, Slice, Read;
    if segments != [] {
      var here := 64 + i * 56;
      match segments[0]
      case Interpreter(path) =>
        HoldsBoth(data, here, ProgramHeader(3, at, |path| + 1), ProgramHeaders(segments[1..], at + |path| + 1));
        InterpreterReads(data, here, at, path, Paths(segments[1..]), before);
        SegmentsRead(data, n, i + 1, segments[1..], at + |path| + 1, Some(path));
      case Plain(kind) =>
        assert WritableSegment(segments[0]);
        HoldsBoth(data, here, ProgramHeader(kind, 0, 0), ProgramHeaders(segments[1..], at));
        ProgramHeaderReads(data, here, kind, 0, 0);
        assert [] + Paths(segments[1..]) == Paths(segments[1..]);
        SegmentsRead(data, n, i + 1, segments[1..], at, before);
    }
  }

  lemma InterpReads(e: Elf)
    requires Writable(e)
    ensures Interp(Write(e), 64, 56, |e.segments|, 0, None) == Ok(LastInterp(e.segments, None))
  {
    hide Write, Interp, ProgramHeaders, Paths, Holds, WritableSection, WritableEntry, WritableSegment;
    PartsInPlace(e);
    SegmentsRead(Write(e), |e.segments|, 0, e.segments, PathsAt(e), None);
  }

  // --- the entries -----------------------------------------------------------------------------------

  /** From any entry on, the parser collects the libraries up to the null entry. */
  lemma {:induction false} EntriesRead(
    data: Bytes, start: nat, n: nat, dynstr: Bytes, i: nat, entries: seq<Entry>, at: nat, before: seq<Bytes>)
    requires Holds(data, start + i * 16, Dynamic(entries, at)) && |data| < SSIZE_LIMIT
    requires i + |entries| < n
    requires Holds(dynstr, at, DynStr(entries)) && |dynstr| < SSIZE_LIMIT
    requires forall k | 0 <= k < |entries| :: WritableEntry(entries[k])
    ensures Needed(data, start, 16, n, dynstr, i, before) == Ok(before + LibraryNames(entries))
    decreases |entries|
  {
    hide Put, Read, ReadText, Holds;
    var here := start + i * 16;
    if entries == [] {
      assert Put(0, 8) + [] == Put(0, 8);
      EntryThen(data, here, 0, 0, []);
      assert before + [] == before;
    } else {
      match entries[0]
      case Library(name) =>
        OffsetFits(dynstr, at, DynStr(entries));
        EntryThen(data, here, 1, at, Dynamic(entries[1..], at + |name| + 1));
        NameReads(dynstr, at, name, DynStr(entries[1..]));
        EntriesRead(data, start, n, dynstr, i + 1, entries[1..], at + |name| + 1, before + [name]);
        assert before + [name] + LibraryNames(entries[1..]) == before + LibraryNames(entries);
      case Other(tag, value) =>
        EntryThen(data, here, tag, value, Dynamic(entries[1..], at));
        assert DynStr(entries) == DynStr(entries[1..]);
        assert LibraryNames(entries) == LibraryNames(entries[1..]);
        assert WritableEntry(entries[0]);
        EntriesRead(data, start, n, dynstr, i + 1, entries[1..], at, before);
    }
  }

  lemma OffsetFits(s: Bytes, at: nat, part: Bytes)
    requires Holds(s, at, part)
    ensures at <= |s|
  {
  }

  lemma EntryThen(data: Bytes, at: nat, tag: nat, value: nat, rest: Bytes)
    requires Holds(data, at, Put(tag, 8) + (Put(value, 8) + rest)) && |data| < SSIZE_LIMIT
    requires tag < TWO64 && value < TWO64
    ensures Read(data, at, 8) == Ok(tag) && Read(data, at + 8, 8) == Ok(value)
    ensures Holds(data, at + 16, rest)
  {
    hide Put, Little, Range;
    Ranges();
    FieldThen(data, at, tag, 8, Put(value, 8) + rest);
    FieldThen(data, at + 8, value, 8, rest);
  }

  lemma NameReads(dynstr: Bytes, at: nat, name: Bytes, rest: Bytes)
    requires Holds(dynstr, at, name + [0] + rest) && 0 !in name
    ensures ReadText(dynstr, at) == Ok(name) && Holds(dynstr, at + |name| + 1, rest)
  {
    HoldsBoth(dynstr, at, name + [0], rest);
    HoldsBoth(dynstr, at, name, [0]);
    var found := dynstr[at..at + |name|];
    assert forall i | at <= i < at + |name| :: dynstr[i] == found[i - at];
    assert dynstr[at + |name|..at + |name| + 1] == [dynstr[at + |name|]];
    TextAtFinds(dynstr, at, name);
  }

  /** The parser inverts the writer: the needed libraries before the null entry, in order, and the
      last interpreter, whatever other entries, segments and sections stand between. */
  lemma ParseWritten(e: Elf)
    requires Writable(e)
    ensures Parse(Write(e)) == Ok(Facts(LibraryNames(e.entries), LastInterp(e.segments, None)))
  {
    hide Write, Writable, Sections, FromSections, Interp, Little, SectionsAt, AllSections;
    FitsWhenWritable(e);
    PartsInPlace(e);
    HeaderFields(Write(e), 64, |e.segments|, SectionsAt(e), |e.others| + 3, |e.others| + 2);
    InterpReads(e);
    SectionsRead(e);
    LibrariesRead(e);
    SectionsAreLast(e);
  }

  lemma FitsWhenWritable(e: Elf)
    requires Writable(e)
    ensures Fits(e)
  {
  }

  lemma SectionsAreLast(e: Elf)
    ensures SectionsAt(e) >= 64
  {
  }

  lemma LibrariesRead(e: Elf)
    requires Writable(e)
    ensures FromSections(Write(e), AllSections(e), |e.others| + 2) == Ok(LibraryNames(e.entries))
  {
    hide Write, Locate, Libraries, Strings, DynStr, DynamicSection, StringSection, NameSection;
    hide LibraryNames, WritableSegment, WritableEntry, WritableSection, Fits;
    SectionsLocate(e);
    StringsRead(e);
    DynamicReads(e);
  }

  lemma StringsRead(e: Elf)
    ensures Strings(Write(e), NameSection(e)) == SECTION_NAMES
    ensures Strings(Write(e), StringSection(e)) == DynStr(e.entries)
  {
    hide Write, Slice, DynStr, StringsAt, NamesAt, Holds;
    PartsInPlace(e);
    SliceOfPart(Write(e), NamesAt(e), SECTION_NAMES);
    SliceOfPart(Write(e), StringsAt(e), DynStr(e.entries));
  }

  lemma DynamicReads(e: Elf)
    requires Writable(e)
    ensures Libraries(Write(e), DynamicSection(e), DynStr(e.entries)) == Ok(LibraryNames(e.entries))
  {
    hide Write, Needed, DynStr, Dynamic, WritableEntry, DynamicAt, StringsAt, SectionsAt;
    PartsInPlace(e);
    HoldsBoth(Write(e), DynamicAt(e), Dynamic(e.entries, 0), e.tail);
    assert Holds(DynStr(e.entries), 0, DynStr(e.entries));
    EntriesRead(Write(e), DynamicAt(e), |DynamicBytes(e)| / 16, DynStr(e.entries), 0, e.entries, 0, []);
    assert [] + LibraryNames(e.entries) == LibraryNames(e.entries);
  }

  // --- files the parser does not answer for --------------------------------------------------------

  /** One section, and a name section with the index of the second. */
  const UNNAMED: Bytes := FileHeader(64, 0, 64, 1, 1) + SectionHeader(Section(0, 0, 0, 0))

  /** A section table that starts where no signed 64-bit offset reaches. */
  const FAR_SECTIONS: Bytes := FileHeader(64, 0, SSIZE_LIMIT, 1, 0)

  /** Program headers that start there. */
  const FAR_SEGMENTS: Bytes := FileHeader(SSIZE_LIMIT, 1, 0, 0, 0)

  lemma UnnamedRaises()
    ensures Parse(UNNAMED) == Err(IndexError)
  {
    hide FileHeader, SectionHeader, SectionOf, Little, Parse;
    var data, section := UNNAMED, Section(0, 0, 0, 0);
    assert Holds(data, 0, FileHeader(64, 0, 64, 1, 1) + SectionHeader(section));
    HoldsBoth(data, 0, FileHeader(64, 0, 64, 1, 1), SectionHeader(section));
    HeaderFields(data, 64, 0, 64, 1, 1);
    SectionReads(data, 64, section);
    assert Sections(data, 64, 64, 1, 1, [section]) == Ok([section]);
    assert [] + [section] == [section];
    IndexErrorEscapesIff(data);
  }

  lemma FarTablesRaise()
    ensures Parse(FAR_SECTIONS) == Err(OverflowError)
    ensures Parse(FAR_SEGMENTS) == Err(OverflowError)
  {
    hide FileHeader, Little, Parse;
    assert Holds(FAR_SECTIONS, 0, FileHeader(64, 0, SSIZE_LIMIT, 1, 0));
    HeaderFields(FAR_SECTIONS, 64, 0, SSIZE_LIMIT, 1, 0);
    OverflowEscapesIff(FAR_SECTIONS);
    assert Holds(FAR_SEGMENTS, 0, FileHeader(SSIZE_LIMIT, 1, 0, 0, 0));
    HeaderFields(FAR_SEGMENTS, SSIZE_LIMIT, 1, 0, 0, 0);
    OverflowEscapesIff(FAR_SEGMENTS);
  }
}
