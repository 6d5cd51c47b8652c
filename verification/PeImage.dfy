/** The import names of a Windows image: section lookup and the descriptor walk. */
module PeImage {
  import opened Wrappers
  import opened Substring
  import opened Binary
  import opened Sorting

  datatype Error = NoMz | NoSignature | UnknownMagic | Truncated | OutsideSections | Unterminated | NotAscii

  datatype Section = Section(address: nat, virtualSize: nat, rawSize: nat, rawPointer: nat)

  // --- from a virtual address to a file offset ---------------------------------------------

  function Span(s: Section): nat {
    var span := if s.virtualSize != 0 then s.virtualSize else s.rawSize;
    var capped := if s.rawSize != 0 && s.rawSize < span then s.rawSize else span;
    if capped == 0 then 1 else capped
  }

  predicate Covers(s: Section, rva: nat) {
    s.address <= rva < s.address + Span(s)
  }

  function OffsetIn(s: Section, rva: nat): nat
    requires Covers(s, rva)
  {
    s.rawPointer + (rva - s.address)
  }

  predicate InRawBytes(s: Section, offset: nat) {
    s.rawPointer <= offset < s.rawPointer + s.rawSize
  }

  /** Section `i` is the first to cover the address. */
  predicate FirstCover(sections: seq<Section>, rva: nat, i: nat) {
    i < |sections| && Covers(sections[i], rva) && forall j | 0 <= j < i :: !Covers(sections[j], rva)
  }

  /** The offset the address stands for, in the first section that covers it. */
  ghost predicate Maps(sections: seq<Section>, rva: nat, offset: nat) {
    exists i: nat :: FirstCover(sections, rva, i) && offset == OffsetIn(sections[i], rva)
  }

  /** The address lies in the section: at its start, or before the end that each of its two sizes
      gives, where a size of zero gives none. */
  predicate Inside(s: Section, rva: nat) {
    && s.address <= rva
    && (|| rva == s.address
        || (&& (s.virtualSize > 0 || s.rawSize > 0)
            && (s.virtualSize > 0 ==> rva - s.address < s.virtualSize)
            && (s.rawSize > 0 ==> rva - s.address < s.rawSize)))
  }

  predicate FirstInside(sections: seq<Section>, rva: nat, i: nat) {
    i < |sections| && Inside(sections[i], rva) && forall j | 0 <= j < i :: !Inside(sections[j], rva)
  }

  lemma CoversIffInside(s: Section, rva: nat)
    ensures Covers(s, rva) <==> Inside(s, rva)
  {
  }

  /** The first section the address lies in decides, with its distance from the section's start. */
  method RvaToOffset(sections: seq<Section>, rva: nat) returns (r: Option<nat>)
    ensures r.Some? ==>
      exists i: nat :: FirstInside(sections, rva, i) && r.value == sections[i].rawPointer + (rva - sections[i].address)
    ensures r.None? <==> forall i | 0 <= i < |sections| :: !Inside(sections[i], rva)
    ensures r.Some? ==> Maps(sections, rva, r.value)
    ensures r.None? <==> forall i | 0 <= i < |sections| :: !Covers(sections[i], rva)
  {
    for i := 0 to |sections|
      invariant forall j | 0 <= j < i :: !Covers(sections[j], rva)
    {
      if Covers(sections[i], rva) {
        assert FirstCover(sections, rva, i);
        assert FirstInside(sections, rva, i);
        return Some(OffsetIn(sections[i], rva));
      }
    }
    return None;
  }

  lemma OneFirst(sections: seq<Section>, rva: nat, i: nat, j: nat)
    requires FirstCover(sections, rva, i) && FirstCover(sections, rva, j)
    ensures i == j
  {
  }

  lemma OneOffset(sections: seq<Section>, rva: nat, a: nat, b: nat)
    requires Maps(sections, rva, a) && Maps(sections, rva, b)
    ensures a == b
  {
    var i: nat :| FirstCover(sections, rva, i) && a == OffsetIn(sections[i], rva);
    var j: nat :| FirstCover(sections, rva, j) && b == OffsetIn(sections[j], rva);
    OneFirst(sections, rva, i, j);
  }

  /** An address lands inside the raw bytes of the section that covers it exactly when that
      section has any. */
  lemma InRawBytesIff(sections: seq<Section>, rva: nat, offset: nat, i: nat)
    requires Maps(sections, rva, offset) && FirstCover(sections, rva, i)
    ensures InRawBytes(sections[i], offset) <==> sections[i].rawSize > 0
  {
    var j: nat :| FirstCover(sections, rva, j) && offset == OffsetIn(sections[j], rva);
    OneFirst(sections, rva, i, j);
  }

  // --- the import table -----------------------------------------------------------------------

  const DESCRIPTOR: nat := 20

  predicate AllZero(s: Bytes) {
    forall i | 0 <= i < |s| :: s[i] == 0
  }

  predicate Ascii(s: Bytes) {
    forall i | 0 <= i < |s| :: s[i] < 128
  }

  predicate InFile(data: Bytes, at: nat) {
    at + DESCRIPTOR <= |data|
  }

  /** The all-zero descriptor that closes the table. */
  predicate Closes(data: Bytes, at: nat) {
    InFile(data, at) && AllZero(data[at..at + DESCRIPTOR])
  }

  /** A descriptor whose name field resolves to the ASCII text `name`. */
  ghost predicate Names(data: Bytes, sections: seq<Section>, at: nat, name: Bytes) {
    && InFile(data, at) && !AllZero(data[at..at + DESCRIPTOR])
    && Ascii(name)
    && exists offset :: Maps(sections, Little(data[at + 12..at + 16]), offset) && IsText(data, offset, name)
  }

  ghost predicate Prefix(data: Bytes, sections: seq<Section>, start: nat, names: seq<Bytes>) {
    forall i | 0 <= i < |names| :: Names(data, sections, start + DESCRIPTOR * i, names[i])
  }

  /** The names of the descriptors before the first all-zero one, in file order. */
  ghost predicate Table(data: Bytes, sections: seq<Section>, start: nat, names: seq<Bytes>) {
    Prefix(data, sections, start, names) && Closes(data, start + DESCRIPTOR * |names|)
  }

  lemma OneName(data: Bytes, sections: seq<Section>, at: nat, a: Bytes, b: Bytes)
    requires Names(data, sections, at, a) && Names(data, sections, at, b)
    ensures a == b
  {
    var rva := Little(data[at + 12..at + 16]);
    var x :| Maps(sections, rva, x) && IsText(data, x, a);
    var y :| Maps(sections, rva, y) && IsText(data, y, b);
    OneOffset(sections, rva, x, y);
    OneText(data, x, a, b);
  }

  lemma PrefixDoesNotClose(data: Bytes, sections: seq<Section>, start: nat, names: seq<Bytes>, i: nat)
    requires Prefix(data, sections, start, names) && i < |names|
    ensures !Closes(data, start + DESCRIPTOR * i)
  {
    assert Names(data, sections, start + DESCRIPTOR * i, names[i]);
  }

  /** A file has at most one import table at a place. */
  lemma OneTable(data: Bytes, sections: seq<Section>, start: nat, a: seq<Bytes>, b: seq<Bytes>)
    requires Table(data, sections, start, a) && Table(data, sections, start, b)
    ensures a == b
  {
    if |a| < |b| {
      PrefixDoesNotClose(data, sections, start, b, |a|);
    } else if |b| < |a| {
      PrefixDoesNotClose(data, sections, start, a, |b|);
    }
    forall i | 0 <= i < |a| && i < |b| ensures a[i] == b[i] {
      OneName(data, sections, start + DESCRIPTOR * i, a[i], b[i]);
    }
  }

  /** Every name of a table is ASCII text. */
  lemma NamesAreAscii(data: Bytes, sections: seq<Section>, start: nat, names: seq<Bytes>, i: nat, k: nat)
    requires Table(data, sections, start, names) && i < |names| && k < |names[i]|
    ensures 0 < names[i][k] <= 0x7F
  {
    assert Names(data, sections, start + DESCRIPTOR * i, names[i]);
    var rva := Little(data[start + DESCRIPTOR * i + 12..start + DESCRIPTOR * i + 16]);
    var offset: nat :| Maps(sections, rva, offset) && IsText(data, offset, names[i]);
    assert names[i][k] == data[offset + k];
  }

  ghost predicate Stuck(data: Bytes, sections: seq<Section>, at: nat) {
    !Closes(data, at) && forall name :: !Names(data, sections, at, name)
  }

  lemma TableIsNotStuck(data: Bytes, sections: seq<Section>, start: nat, names: seq<Bytes>, table: seq<Bytes>)
    requires Prefix(data, sections, start, names) && Table(data, sections, start, table)
    ensures !Stuck(data, sections, start + DESCRIPTOR * |names|)
  {
    if |table| < |names| {
      PrefixDoesNotClose(data, sections, start, names, |table|);
    } else if |names| < |table| {
      assert Names(data, sections, start + DESCRIPTOR * |names|, table[|names|]);
    }
  }

  /** A walk that got through `names` and is stuck there met no table. */
  lemma StuckMeansNoTable(data: Bytes, sections: seq<Section>, start: nat, names: seq<Bytes>)
    requires Prefix(data, sections, start, names)
    requires Stuck(data, sections, start + DESCRIPTOR * |names|)
    ensures forall table :: !Table(data, sections, start, table)
  {
    forall table ensures Table(data, sections, start, table) ==>
      !Stuck(data, sections, start + DESCRIPTOR * |names|)
    {
      if Table(data, sections, start, table) {
        TableIsNotStuck(data, sections, start, names, table);
      }
    }
  }

  /** The walk finds the table when the file holds one, and fails when it does not. */
  method Walk(data: Bytes, sections: seq<Section>, start: nat) returns (r: Result<seq<Bytes>, Error>)
    ensures r.Ok? ==> Table(data, sections, start, r.value)
    ensures r.Err? ==> forall names :: !Table(data, sections, start, names)
  {
    var names: seq<Bytes> := [];
    var descriptor := start;
    while true
      invariant descriptor == start + DESCRIPTOR * |names|
      invariant Prefix(data, sections, start, names)
      decreases |data| + DESCRIPTOR - descriptor
    {
      if !InFile(data, descriptor) {
        StuckMeansNoTable(data, sections, start, names);
        return Err(Truncated);
      }
      if AllZero(data[descriptor..descriptor + DESCRIPTOR]) {
        return Ok(names);
      }
      var rva := Little(data[descriptor + 12..descriptor + 16]);
      var offset := RvaToOffset(sections, rva);
      if offset.None? {
        StuckMeansNoTable(data, sections, start, names);
        return Err(OutsideSections);
      }
      forall other | Maps(sections, rva, other) ensures other == offset.value {
        OneOffset(sections, rva, other, offset.value);
      }
      var name := TextAt(data, offset.value);
      forall text ensures name == Some(text) <==> IsText(data, offset.value, text) {
        TextAtFinds(data, offset.value, text);
      }
      if name.None? {
        StuckMeansNoTable(data, sections, start, names);
        return Err(Unterminated);
      }
      if !Ascii(name.value) {
        StuckMeansNoTable(data, sections, start, names);
        return Err(NotAscii);
      }
      assert Names(data, sections, descriptor, name.value);
      names := names + [name.value];
      descriptor := descriptor + DESCRIPTOR;
    }
  }

  // --- the whole image ---------------------------------------------------------------------------

  function Rank(b: Byte): int {
    b as int
  }

  datatype Header = Header(machine: nat, subsystem: nat, importRva: nat, sections: seq<Section>)

  const MZ: Bytes := [0x4D, 0x5A]
  const SIGNATURE: Bytes := [0x50, 0x45, 0, 0]

  function Slice(data: Bytes, from: nat, to: nat): Bytes {
    if from > to || from > |data| then [] else if to > |data| then data[from..] else data[from..to]
  }

  /** The section header `base` bytes into the file: sizes and addresses after an 8-byte name. */
  predicate SectionAt(data: Bytes, base: nat, s: Section) {
    && base + 24 <= |data|
    && s.virtualSize == Little(data[base + 8..base + 12]) && s.address == Little(data[base + 12..base + 16])
    && s.rawSize == Little(data[base + 16..base + 20]) && s.rawPointer == Little(data[base + 20..base + 24])
  }

  /** Everything the headers must say of an image. */
  ghost predicate HeaderOf(data: Bytes, h: Header) {
    && |data| >= 0x40 && data[..2] == MZ
    && var pe := Little(data[0x3C..0x40]);
      var optional := pe + 24;
      && Slice(data, pe, pe + 4) == SIGNATURE
      && optional + 2 <= |data|
      && h.machine == Little(data[pe + 4..pe + 6])
      && var magic := Little(data[optional..optional + 2]);
        var directories := optional + if magic == 0x20B then 112 else 96;
        && (magic == 0x20B || magic == 0x10B)
        && directories + 16 <= |data|
        && h.subsystem == Little(data[optional + 68..optional + 70])
        && h.importRva == Little(data[directories + 8..directories + 12])
        && |h.sections| == Little(data[pe + 6..pe + 8])
        && var first := optional + Little(data[pe + 20..pe + 22]);
          forall i | 0 <= i < |h.sections| :: SectionAt(data, first + 40 * i, h.sections[i])
  }

  datatype Info = Info(machine: nat, subsystem: nat, dependents: seq<Bytes>)

  /** The facts the image states: an image without an import directory has no dependents. */
  ghost predicate Describes(data: Bytes, info: Info) {
    exists h, start, names :: DescribedBy(data, info, h, start, names)
  }

  ghost predicate DescribedBy(data: Bytes, info: Info, h: Header, start: nat, names: seq<Bytes>) {
    && HeaderOf(data, h) && info == Info(h.machine, h.subsystem, Sorted(names, Rank))
    && if h.importRva == 0 then names == []
       else Maps(h.sections, h.importRva, start) && Table(data, h.sections, start, names)
  }

  lemma HeaderSection(data: Bytes, h: Header, i: nat)
    requires HeaderOf(data, h) && i < |h.sections|
    ensures var pe := Little(data[0x3C..0x40]);
      pe + 24 <= |data| && SectionAt(data, pe + 24 + Little(data[pe + 20..pe + 22]) + 40 * i, h.sections[i])
  {
  }

  lemma OneHeader(data: Bytes, a: Header, b: Header)
    requires HeaderOf(data, a) && HeaderOf(data, b)
    ensures a == b
  {
  }

  /** The image states at most one set of facts. */
  lemma OneDescription(data: Bytes, a: Info, b: Info)
    requires Describes(data, a) && Describes(data, b)
    ensures a == b
  {
    hide HeaderOf, Maps, Table, Sorted;
    var h, start, names :| DescribedBy(data, a, h, start, names);
    var h', start', names' :| DescribedBy(data, b, h', start', names');
    OneHeader(data, h, h');
    if h.importRva != 0 {
      OneOffset(h.sections, h.importRva, start, start');
      OneTable(data, h.sections, start, names, names');
    }
  }

  method ReadSections(data: Bytes, first: nat, count: nat) returns (sections: seq<Section>, short: bool)
    ensures short ==> |sections| < count && first + 40 * |sections| + 24 > |data|
    ensures !short ==> |sections| == count
    ensures forall i | 0 <= i < |sections| :: SectionAt(data, first + 40 * i, sections[i])
  {
    sections := [];
    for i := 0 to count
      invariant |sections| == i
      invariant forall j | 0 <= j < i :: SectionAt(data, first + 40 * j, sections[j])
    {
      var base := first + 40 * i;
      if base + 24 > |data| {
        return sections, true;
      }
      sections := sections + [Section(Little(data[base + 12..base + 16]), Little(data[base + 8..base + 12]),
                                      Little(data[base + 16..base + 20]), Little(data[base + 20..base + 24]))];
    }
    return sections, false;
  }

  /** The header fields, or the error that stops the parse first. */
  method ReadHeader(data: Bytes) returns (r: Result<Header, Error>)
    ensures r.Ok? ==> HeaderOf(data, r.value)
    ensures r.Err? ==> forall h :: !HeaderOf(data, h)
    ensures r == Err(NoMz) <==> |data| < 0x40 || data[..2] != MZ
  {
    if |data| < 0x40 || data[..2] != MZ {
      return Err(NoMz);
    }
    var pe := Little(data[0x3C..0x40]);
    if Slice(data, pe, pe + 4) != SIGNATURE {
      return Err(NoSignature);
    }
    var optional := pe + 24;
    if optional + 2 > |data| {
      return Err(Truncated);
    }
    var magic := Little(data[optional..optional + 2]);
    var directories;
    if magic == 0x20B {
      directories := optional + 112;
    } else if magic == 0x10B {
      directories := optional + 96;
    } else {
      return Err(UnknownMagic);
    }
    if directories + 16 > |data| {
      return Err(Truncated);
    }
    var count, first := Little(data[pe + 6..pe + 8]), optional + Little(data[pe + 20..pe + 22]);
    var sections, short := ReadSections(data, first, count);
    if short {
      forall h ensures !HeaderOf(data, h) {
        if HeaderOf(data, h) {
          HeaderSection(data, h, |sections|);
        }
      }
      return Err(Truncated);
    }
    return Ok(Header(Little(data[pe + 4..pe + 6]), Little(data[optional + 68..optional + 70]),
                     Little(data[directories + 8..directories + 12]), sections));
  }

  /** The parse succeeds exactly on the images that describe themselves, with what they state:
      the names before the first all-zero descriptor, sorted. */
  method PeInfo(data: Bytes) returns (r: Result<Info, Error>)
    ensures r.Ok? ==> Describes(data, r.value)
    ensures r.Err? ==> forall info :: !Describes(data, info)
  {
    hide HeaderOf, Maps, Table, Sorted;
    var header := ReadHeader(data);
    if header.Err? {
      return Err(header.error);
    }
    var h := header.value;
    forall other | HeaderOf(data, other) ensures other == h {
      OneHeader(data, h, other);
    }
    if h.importRva == 0 {
      assert DescribedBy(data, Info(h.machine, h.subsystem, Sorted([], Rank)), h, 0, []);
      return Ok(Info(h.machine, h.subsystem, Sorted([], Rank)));
    }
    var start := RvaToOffset(h.sections, h.importRva);
    if start.None? {
      NotMapped(h.sections, h.importRva);
      return Err(OutsideSections);
    }
    forall other | Maps(h.sections, h.importRva, other) ensures other == start.value {
      OneOffset(h.sections, h.importRva, other, start.value);
    }
    var names := Walk(data, h.sections, start.value);
    if names.Err? {
      return Err(names.error);
    }
    assert DescribedBy(data, Info(h.machine, h.subsystem, Sorted(names.value, Rank)), h, start.value, names.value);
    return Ok(Info(h.machine, h.subsystem, Sorted(names.value, Rank)));
  }

  lemma NotMapped(sections: seq<Section>, rva: nat)
    requires forall i | 0 <= i < |sections| :: !Covers(sections[i], rva)
    ensures forall offset :: !Maps(sections, rva, offset)
  {
  }
}
