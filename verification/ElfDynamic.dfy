/** The needed libraries and the interpreter of a 64-bit little-endian ELF file, and the files the
    parser does not answer for. */
module ElfDynamic {
  import opened Wrappers
  import opened Substring
  import opened Binary

  /** `Malformed` stands for the errors the parser catches; the other two leave it. */
  datatype Failure = Malformed | IndexError | OverflowError

  datatype Facts = Facts(needed: seq<Bytes>, interp: Option<Bytes>)

  const NOTHING := Facts([], None)

  /** The first offset that does not fit the signed size `unpack_from` takes. */
  const SSIZE_LIMIT := 0x8000_0000_0000_0000

  const MAGIC: Bytes := [0x7F, 0x45, 0x4C, 0x46]
  const DYNAMIC: Bytes := [0x2E, 0x64, 0x79, 0x6E, 0x61, 0x6D, 0x69, 0x63]
  const DYNSTR: Bytes := [0x2E, 0x64, 0x79, 0x6E, 0x73, 0x74, 0x72]

  const PT_INTERP: nat := 3
  const DT_NULL: nat := 0
  const DT_NEEDED: nat := 1

  function Read(data: Bytes, at: nat, n: nat): Result<nat, Failure> {
    if at >= SSIZE_LIMIT then Err(OverflowError)
    else
      var field := Unpack(data, at, n);
      if field.None? then Err(Malformed) else Ok(field.value)
  }

  function ReadText(data: Bytes, at: nat): Result<Bytes, Failure> {
    var text := TextAt(data, at);
    if text.None? then Err(Malformed) else Ok(text.value)
  }

  /** A Python slice: a negative end counts back from the end of the file. */
  function Slice(data: Bytes, from: nat, to: int): Bytes {
    var end := if to < 0 then to + |data| else to;
    var last := if end > |data| then |data| else end;
    if from <= last then data[from..last] else []
  }

  /** A slice inside the file is its bytes; it stops at the end of the file; and the slice of an
      interpreter with neither offset nor size is the file short of its last byte. */
  lemma SliceIs(data: Bytes, from: nat, to: int)
    ensures from <= to <= |data| ==> Slice(data, from, to) == data[from..to]
    ensures from <= |data| <= to ==> Slice(data, from, to) == data[from..]
    ensures |data| > 0 ==> Slice(data, 0, -1) == data[..|data| - 1]
    ensures 0 <= to < from || |data| < from ==> Slice(data, from, to) == []
  {
  }

  // --- what each loop of the parser computes ---------------------------------------------------

  function InterpOf(data: Bytes, at: nat, before: Option<Bytes>): Result<Option<Bytes>, Failure> {
    var kind :- Read(data, at, 4);
    if kind != PT_INTERP then Ok(before)
    else
      var offset :- Read(data, at + 8, 8);
      var size :- Read(data, at + 32, 8);
      Ok(Some(Slice(data, offset, offset + size - 1)))
  }

  /** The interpreter the program headers from the `i`th leave. */
  function Interp(data: Bytes, start: nat, entry: nat, n: nat, i: nat, before: Option<Bytes>)
    : Result<Option<Bytes>, Failure>
    requires i <= n
    decreases n - i
  {
    if i == n then Ok(before)
    else
      var interp :- InterpOf(data, start + i * entry, before);
      Interp(data, start, entry, n, i + 1, interp)
  }

  method ReadInterp(data: Bytes, start: nat, entry: nat, n: nat) returns (r: Result<Option<Bytes>, Failure>)
    ensures r == Interp(data, start, entry, n, 0, None)
  {
    var interp: Option<Bytes> := None;
    for i := 0 to n
      invariant Interp(data, start, entry, n, i, interp) == Interp(data, start, entry, n, 0, None)
    {
      interp :- InterpOf(data, start + i * entry, interp);
    }
    return Ok(interp);
  }

  datatype Section = Section(name: nat, offset: nat, size: nat, entry: nat)

  function SectionOf(data: Bytes, at: nat): Result<Section, Failure> {
    var name :- Read(data, at, 4);
    var kind :- Read(data, at + 4, 4);
    var offset :- Read(data, at + 24, 8);
    var size :- Read(data, at + 32, 8);
    var entry :- Read(data, at + 56, 8);
    Ok(Section(name, offset, size, entry))
  }

  function Sections(data: Bytes, start: nat, entry: nat, n: nat, i: nat, before: seq<Section>)
    : Result<seq<Section>, Failure>
    requires i <= n
    decreases n - i
  {
    if i == n then Ok(before)
    else
      var section :- SectionOf(data, start + i * entry);
      Sections(data, start, entry, n, i + 1, before + [section])
  }

  method ReadSections(data: Bytes, start: nat, entry: nat, n: nat) returns (r: Result<seq<Section>, Failure>)
    ensures r == Sections(data, start, entry, n, 0, [])
  {
    hide SectionOf;
    var sections: seq<Section> := [];
    for i := 0 to n
      invariant Sections(data, start, entry, n, i, sections) == Sections(data, start, entry, n, 0, [])
    {
      var section :- SectionOf(data, start + i * entry);
      sections := sections + [section];
    }
    return Ok(sections);
  }

  /** The last section of each name the parser looks for. */
  datatype Places = Places(dynamic: Option<Section>, dynstr: Option<Section>)

  function Place(p: Places, name: Bytes, s: Section): Places {
    if name == DYNAMIC then p.(dynamic := Some(s))
    else if name == DYNSTR then p.(dynstr := Some(s))
    else p
  }

  function Locate(sections: seq<Section>, strtab: Bytes, before: Places): Result<Places, Failure> {
    if sections == [] then Ok(before)
    else
      var name :- ReadText(strtab, sections[0].name);
      Locate(sections[1..], strtab, Place(before, name, sections[0]))
  }

  method LocateSections(sections: seq<Section>, strtab: Bytes) returns (r: Result<Places, Failure>)
    ensures r == Locate(sections, strtab, Places(None, None))
  {
    var places := Places(None, None);
    for i := 0 to |sections|
      invariant Locate(sections[i..], strtab, places) == Locate(sections, strtab, Places(None, None))
    {
      assert sections[i..][1..] == sections[i + 1..];
      var name :- ReadText(strtab, sections[i].name);
      places := Place(places, name, sections[i]);
    }
    return Ok(places);
  }

  /** The names of the needed entries from the `i`th on, up to the first null entry. */
  function Needed(data: Bytes, start: nat, entry: nat, n: nat, dynstr: Bytes, i: nat, before: seq<Bytes>)
    : Result<seq<Bytes>, Failure>
    requires i <= n
    decreases n - i
  {
    if i == n then Ok(before)
    else
      var tag :- Read(data, start + i * entry, 8);
      var value :- Read(data, start + i * entry + 8, 8);
      if tag == DT_NULL then Ok(before)
      else if tag != DT_NEEDED then Needed(data, start, entry, n, dynstr, i + 1, before)
      else
        var name :- ReadText(dynstr, value);
        Needed(data, start, entry, n, dynstr, i + 1, before + [name])
  }

  method ReadNeeded(data: Bytes, start: nat, entry: nat, n: nat, dynstr: Bytes) returns (r: Result<seq<Bytes>, Failure>)
    ensures r == Needed(data, start, entry, n, dynstr, 0, [])
  {
    hide Read, ReadText;
    var needed: seq<Bytes> := [];
    var i := 0;
    while i < n
      invariant i <= n
      invariant Needed(data, start, entry, n, dynstr, i, needed) == Needed(data, start, entry, n, dynstr, 0, [])
    {
      var tag :- Read(data, start + i * entry, 8);
      var value :- Read(data, start + i * entry + 8, 8);
      if tag == DT_NEEDED {
        var name :- ReadText(dynstr, value);
        needed := needed + [name];
      } else if tag == DT_NULL {
        break;
      }
      i := i + 1;
    }
    return Ok(needed);
  }

  // --- the whole parse ------------------------------------------------------------------------------

  function Identified(data: Bytes): bool {
    |data| >= 64 && data[..4] == MAGIC && data[4] == 2 && data[5] == 1
  }

  function Strings(data: Bytes, s: Section): Bytes {
    Slice(data, s.offset, s.offset + s.size)
  }

  function Field(data: Bytes, at: nat, n: nat): nat
    requires at + n <= |data|
  {
    Little(data[at..at + n])
  }

  function Libraries(data: Bytes, d: Section, dynstr: Bytes): Result<seq<Bytes>, Failure> {
    if d.entry == 0 then Ok([]) else Needed(data, d.offset, d.entry, d.size / d.entry, dynstr, 0, [])
  }

  function FromSections(data: Bytes, sections: seq<Section>, names: nat): Result<seq<Bytes>, Failure> {
    if names >= |sections| then Err(IndexError)
    else
      var places :- Locate(sections, Strings(data, sections[names]), Places(None, None));
      if places.dynamic.None? || places.dynstr.None? then Ok([])
      else Libraries(data, places.dynamic.value, Strings(data, places.dynstr.value))
  }

  function Walk(data: Bytes): Result<Facts, Failure>
    requires Identified(data)
  {
    var interp :- Interp(data, Field(data, 32, 8), Field(data, 54, 2), Field(data, 56, 2), 0, None);
    var start, count := Field(data, 40, 8), Field(data, 60, 2);
    if start == 0 || count == 0 then Ok(Facts([], interp))
    else
      var sections :- Sections(data, start, Field(data, 58, 2), count, 0, []);
      var needed :- FromSections(data, sections, Field(data, 62, 2));
      Ok(Facts(needed, interp))
  }

  /** The facts of a file; a file it cannot follow has none. */
  function Parse(data: Bytes): Result<Facts, Failure> {
    if !Identified(data) then Ok(NOTHING)
    else
      var r := Walk(data);
      if r == Err(Malformed) then Ok(NOTHING) else r
  }

  method ReadLibraries(data: Bytes, sections: seq<Section>, names: nat) returns (r: Result<seq<Bytes>, Failure>)
    ensures r == FromSections(data, sections, names)
  {
    hide Locate, Needed, Slice;
    if names >= |sections| {
      return Err(IndexError);
    }
    var places :- LocateSections(sections, Strings(data, sections[names]));
    if places.dynamic.None? || places.dynstr.None? || places.dynamic.value.entry == 0 {
      return Ok([]);
    }
    var d := places.dynamic.value;
    r := ReadNeeded(data, d.offset, d.entry, d.size / d.entry, Strings(data, places.dynstr.value));
  }

  method WalkFile(data: Bytes) returns (r: Result<Facts, Failure>)
    requires Identified(data)
    ensures r == Walk(data)
  {
    hide Interp, Sections, FromSections, Little;
    var interp :- ReadInterp(data, Field(data, 32, 8), Field(data, 54, 2), Field(data, 56, 2));
    var start, count := Field(data, 40, 8), Field(data, 60, 2);
    if start == 0 || count == 0 {
      return Ok(Facts([], interp));
    }
    var sections :- ReadSections(data, start, Field(data, 58, 2), count);
    var needed :- ReadLibraries(data, sections, Field(data, 62, 2));
    return Ok(Facts(needed, interp));
  }

  method ParseElfDynamic(data: Bytes) returns (r: Result<Facts, Failure>)
    ensures r == Parse(data)
  {
    hide Walk, Little;
    if !Identified(data) {
      return Ok(NOTHING);
    }
    r := WalkFile(data);
    if r == Err(Malformed) {
      r := Ok(NOTHING);
    }
  }

  /** The magic bytes of a 64-bit little-endian file. */
  predicate LooksLikeElf(data: Bytes) {
    |data| >= 64 && [0x7F, 0x45, 0x4C, 0x46, 2, 1] <= data
  }

  /** A file of another kind, or one the parser cannot follow, has no libraries and no interpreter. */
  lemma NothingElsewhere(data: Bytes)
    ensures !LooksLikeElf(data) ==> Parse(data) == Ok(Facts([], None))
    ensures LooksLikeElf(data) ==> Identified(data)
    ensures LooksLikeElf(data) && Walk(data) == Err(Malformed) ==> Parse(data) == Ok(Facts([], None))
    ensures Parse(data) != Err(Malformed)
  {
    hide Walk;
    if |data| >= 64 {
      assert data[..4] == MAGIC && data[4] == 2 && data[5] == 1 ==> data[..6] == [0x7F, 0x45, 0x4C, 0x46, 2, 1];
      assert data[..6] == [0x7F, 0x45, 0x4C, 0x46, 2, 1] ==> data[..6][..4] == data[..4];
    }
  }

  predicate Unlinked(p: Places) {
    p.dynamic.None? || p.dynstr.None? || p.dynamic.value.entry == 0
  }

  /** A file without a section table, or without dynamic entries or their strings, keeps its
      interpreter and has no libraries. */
  lemma StaticFilesKeepInterp(data: Bytes, interp: Option<Bytes>)
    requires Identified(data)
    requires Interp(data, Field(data, 32, 8), Field(data, 54, 2), Field(data, 56, 2), 0, None) == Ok(interp)
    ensures Field(data, 40, 8) == 0 || Field(data, 60, 2) == 0 ==> Parse(data) == Ok(Facts([], interp))
    ensures Field(data, 40, 8) != 0 && Field(data, 60, 2) != 0 ==>
      var sections := Sections(data, Field(data, 40, 8), Field(data, 58, 2), Field(data, 60, 2), 0, []);
      sections.Ok? && Field(data, 62, 2) < |sections.value| ==>
        var places := Locate(sections.value, Strings(data, sections.value[Field(data, 62, 2)]), Places(None, None));
        places.Ok? && Unlinked(places.value) ==> Parse(data) == Ok(Facts([], interp))
  {
    hide Interp, Sections, Locate, Little, Needed, Slice;
  }

  // --- what escapes ---------------------------------------------------------------------------------

  /** The file has been read into memory, well short of the largest signed size. */
  predicate InMemory(data: Bytes) {
    |data| + 0x1_0000 <= 0x8000_0000_0000_0000
  }

  lemma InterpOfFailure(data: Bytes, at: nat, before: Option<Bytes>)
    requires InMemory(data)
    ensures var r := InterpOf(data, at, before);
      && (r == Err(OverflowError) <==> at >= SSIZE_LIMIT)
      && r != Err(IndexError) && (r.Ok? ==> at <= |data|)
  {
  }

  lemma {:induction false} InterpFailure(data: Bytes, start: nat, entry: nat, n: nat, i: nat, before: Option<Bytes>)
    requires InMemory(data) && entry < 0x1_0000 && i <= n
    requires i > 0 ==> start + i * entry <= |data| + entry
    ensures var r := Interp(data, start, entry, n, i, before);
      r == Err(OverflowError) <==> i == 0 < n && start >= SSIZE_LIMIT
    decreases n - i
  {
    hide InterpOf;
    if i < n {
      var at := start + i * entry;
      InterpOfFailure(data, at, before);
      assert start + (i + 1) * entry == at + entry;
      var r := InterpOf(data, at, before);
      if r.Ok? {
        InterpFailure(data, start, entry, n, i + 1, r.value);
      }
    }
  }

  lemma {:induction false} InterpNoIndex(data: Bytes, start: nat, entry: nat, n: nat, i: nat, before: Option<Bytes>)
    requires i <= n
    ensures Interp(data, start, entry, n, i, before) != Err(IndexError)
    decreases n - i
  {
    if i < n {
      var r := InterpOf(data, start + i * entry, before);
      if r.Ok? {
        InterpNoIndex(data, start, entry, n, i + 1, r.value);
      }
    }
  }

  lemma SectionOfFailure(data: Bytes, at: nat)
    requires InMemory(data)
    ensures var r := SectionOf(data, at);
      && (r == Err(OverflowError) <==> at >= SSIZE_LIMIT)
      && (r.Ok? ==> at <= |data|)
  {
  }

  lemma {:induction false} SectionsFailure(
    data: Bytes, start: nat, entry: nat, n: nat, i: nat, before: seq<Section>)
    requires InMemory(data) && entry < 0x1_0000 && i <= n
    requires i > 0 ==> start + i * entry <= |data| + entry
    ensures var r := Sections(data, start, entry, n, i, before);
      r == Err(OverflowError) <==> i == 0 < n && start >= SSIZE_LIMIT
    decreases n - i
  {
    hide SectionOf;
    if i < n {
      var at := start + i * entry;
      SectionOfFailure(data, at);
      assert start + (i + 1) * entry == at + entry;
      var r := SectionOf(data, at);
      if r.Ok? {
        SectionsFailure(data, start, entry, n, i + 1, before + [r.value]);
      }
    }
  }

  lemma {:induction false} SectionsShape(
    data: Bytes, start: nat, entry: nat, n: nat, i: nat, before: seq<Section>)
    requires i <= n
    ensures var r := Sections(data, start, entry, n, i, before);
      r != Err(IndexError) && (r.Ok? ==> |r.value| == |before| + n - i)
    decreases n - i
  {
    if i < n {
      var r := SectionOf(data, start + i * entry);
      if r.Ok? {
        SectionsShape(data, start, entry, n, i + 1, before + [r.value]);
      }
    }
  }

  lemma {:induction false} LocateFailure(sections: seq<Section>, strtab: Bytes, before: Places)
    ensures var r := Locate(sections, strtab, before); r.Ok? || r == Err(Malformed)
    decreases |sections|
  {
    if sections != [] {
      var r := ReadText(strtab, sections[0].name);
      if r.Ok? {
        LocateFailure(sections[1..], strtab, Place(before, r.value, sections[0]));
      }
    }
  }

  /** The dynamic entry is readable, is not the null entry, and its name, if it has one, ends. */
  predicate Passes(data: Bytes, at: nat, dynstr: Bytes) {
    var tag, value := Read(data, at, 8), Read(data, at + 8, 8);
    && tag.Ok? && value.Ok? && tag.value != DT_NULL
    && (tag.value == DT_NEEDED ==> ReadText(dynstr, value.value).Ok?)
  }

  /** The walk over the entries comes to one that starts past the signed range. */
  ghost predicate LeavesRange(data: Bytes, start: nat, entry: nat, n: nat, dynstr: Bytes, i: nat) {
    exists k | i <= k < n :: RangeLeftAt(data, start, entry, dynstr, i, k)
  }

  predicate RangeLeftAt(data: Bytes, start: nat, entry: nat, dynstr: Bytes, i: nat, k: nat) {
    && start + k * entry >= 0x8000_0000_0000_0000
    && forall j: nat | i <= j < k :: Passes(data, start + j * entry, dynstr)
  }

  lemma NeededStep(data: Bytes, at: nat, dynstr: Bytes)
    requires InMemory(data)
    ensures Passes(data, at, dynstr) ==> at < SSIZE_LIMIT
    ensures Read(data, at, 8) == Err(OverflowError) <==> at >= SSIZE_LIMIT
    ensures Read(data, at, 8).Ok? ==> Read(data, at + 8, 8) != Err(OverflowError)
  {
  }

  lemma {:induction false} NeededFailure(
    data: Bytes, start: nat, entry: nat, n: nat, dynstr: Bytes, i: nat, before: seq<Bytes>)
    requires InMemory(data) && i <= n
    ensures var r := Needed(data, start, entry, n, dynstr, i, before);
      && (r == Err(OverflowError) <==> LeavesRange(data, start, entry, n, dynstr, i))
      && r != Err(IndexError)
    decreases n - i
  {
    hide Read, ReadText;
    if i < n {
      var at := start + i * entry;
      NeededStep(data, at, dynstr);
      ReadKinds(data, at, dynstr);
      if Passes(data, at, dynstr) {
        var value := Read(data, at + 8, 8).value;
        var next := if Read(data, at, 8).value == DT_NEEDED then before + [ReadText(dynstr, value).value] else before;
        NeededFailure(data, start, entry, n, dynstr, i + 1, next);
        LeavesLater(data, start, entry, n, dynstr, i);
      } else if at >= SSIZE_LIMIT {
        assert RangeLeftAt(data, start, entry, dynstr, i, i);
      } else {
        StaysHere(data, start, entry, n, dynstr, i);
      }
    }
  }

  lemma ReadKinds(data: Bytes, at: nat, dynstr: Bytes)
    ensures Read(data, at, 8) != Err(IndexError) && Read(data, at + 8, 8) != Err(IndexError)
    ensures forall value :: ReadText(dynstr, value).Ok? || ReadText(dynstr, value) == Err(Malformed)
  {
  }

  lemma LeavesLater(data: Bytes, start: nat, entry: nat, n: nat, dynstr: Bytes, i: nat)
    requires InMemory(data) && i < n && Passes(data, start + i * entry, dynstr)
    ensures LeavesRange(data, start, entry, n, dynstr, i) <==> LeavesRange(data, start, entry, n, dynstr, i + 1)
  {
    hide Passes;
    NeededStep(data, start + i * entry, dynstr);
    if LeavesRange(data, start, entry, n, dynstr, i) {
      var k :| i <= k < n && RangeLeftAt(data, start, entry, dynstr, i, k);
      assert RangeLeftAt(data, start, entry, dynstr, i + 1, k);
    }
    if LeavesRange(data, start, entry, n, dynstr, i + 1) {
      var k :| i + 1 <= k < n && RangeLeftAt(data, start, entry, dynstr, i + 1, k);
      assert RangeLeftAt(data, start, entry, dynstr, i, k);
    }
  }

  lemma StaysHere(data: Bytes, start: nat, entry: nat, n: nat, dynstr: Bytes, i: nat)
    requires i < n && !Passes(data, start + i * entry, dynstr) && start + i * entry < SSIZE_LIMIT
    ensures !LeavesRange(data, start, entry, n, dynstr, i)
  {
    hide Passes;
    forall k: nat | i <= k < n ensures !RangeLeftAt(data, start, entry, dynstr, i, k) {
    }
  }

  /** The parse gets past the program headers to a section table. */
  predicate ReachesSections(data: Bytes)
    requires Identified(data)
  {
    && Interp(data, Field(data, 32, 8), Field(data, 54, 2), Field(data, 56, 2), 0, None).Ok?
    && Field(data, 40, 8) != 0 && Field(data, 60, 2) != 0
  }

  function SectionTable(data: Bytes): Result<seq<Section>, Failure>
    requires Identified(data)
  {
    Sections(data, Field(data, 40, 8), Field(data, 58, 2), Field(data, 60, 2), 0, [])
  }

  /** An `IndexError` leaves the parser exactly when every header is readable and the index of the
      name section is not below the number of sections. */
  lemma IndexErrorEscapesIff(data: Bytes)
    ensures Parse(data) == Err(IndexError) <==>
      && Identified(data) && ReachesSections(data)
      && SectionTable(data).Ok? && Field(data, 62, 2) >= Field(data, 60, 2)
  {
    hide Interp, Sections, FromSections, Little;
    if Identified(data) {
      InterpNoIndex(data, Field(data, 32, 8), Field(data, 54, 2), Field(data, 56, 2), 0, None);
      SectionsShape(data, Field(data, 40, 8), Field(data, 58, 2), Field(data, 60, 2), 0, []);
      if ReachesSections(data) && SectionTable(data).Ok? {
        FromSectionsIndex(data, SectionTable(data).value, Field(data, 62, 2));
      }
    }
  }

  lemma FromSectionsIndex(data: Bytes, sections: seq<Section>, names: nat)
    ensures FromSections(data, sections, names) == Err(IndexError) <==> names >= |sections|
  {
    hide Locate, Needed;
    if names < |sections| {
      LocateFailure(sections, Strings(data, sections[names]), Places(None, None));
      forall d, dynstr ensures Libraries(data, d, dynstr) != Err(IndexError) {
        if d.entry != 0 {
          NeededNoIndex(data, d.offset, d.entry, d.size / d.entry, dynstr, 0, []);
        }
      }
    }
  }

  lemma {:induction false} NeededNoIndex(
    data: Bytes, start: nat, entry: nat, n: nat, dynstr: Bytes, i: nat, before: seq<Bytes>)
    requires i <= n
    ensures Needed(data, start, entry, n, dynstr, i, before) != Err(IndexError)
    decreases n - i
  {
    hide Read, ReadText;
    if i < n {
      ReadKinds(data, start + i * entry, dynstr);
      NeededNoIndex(data, start, entry, n, dynstr, i + 1, before);
      var value := Read(data, start + i * entry + 8, 8);
      if value.Ok? && ReadText(dynstr, value.value).Ok? {
        NeededNoIndex(data, start, entry, n, dynstr, i + 1, before + [ReadText(dynstr, value.value).value]);
      }
    }
  }

  /** The dynamic section and its strings, if the parse gets to walk them. */
  function Walked(data: Bytes, sections: seq<Section>, names: nat): Option<(Section, Bytes)> {
    if names >= |sections| then None
    else
      var places := Locate(sections, Strings(data, sections[names]), Places(None, None));
      if places.Err? || places.value.dynamic.None? || places.value.dynstr.None? then None
      else if places.value.dynamic.value.entry == 0 then None
      else Some((places.value.dynamic.value, Strings(data, places.value.dynstr.value)))
  }

  ghost predicate EntriesLeaveRange(data: Bytes, walked: Option<(Section, Bytes)>) {
    walked.Some? && walked.value.0.entry != 0 &&
    var (d, dynstr) := walked.value;
    LeavesRange(data, d.offset, d.entry, d.size / d.entry, dynstr, 0)
  }

  lemma FromSectionsOverflow(data: Bytes, sections: seq<Section>, names: nat)
    requires InMemory(data)
    ensures FromSections(data, sections, names) == Err(OverflowError) <==>
      EntriesLeaveRange(data, Walked(data, sections, names))
  {
    hide Locate, Needed, LeavesRange;
    if names < |sections| {
      LocateFailure(sections, Strings(data, sections[names]), Places(None, None));
      var walked := Walked(data, sections, names);
      if walked.Some? {
        var (d, dynstr) := walked.value;
        NeededFailure(data, d.offset, d.entry, d.size / d.entry, dynstr, 0, []);
      }
    }
  }

  /** An `OverflowError` leaves the parser exactly when it comes to a table or an entry that starts
      past the signed range: the program headers, the section headers, or a dynamic entry. */
  lemma OverflowEscapesIff(data: Bytes)
    requires InMemory(data)
    ensures Parse(data) == Err(OverflowError) <==>
      && Identified(data)
      && (|| (Field(data, 56, 2) > 0 && Field(data, 32, 8) >= 0x8000_0000_0000_0000)
          || (ReachesSections(data) &&
                (|| Field(data, 40, 8) >= 0x8000_0000_0000_0000
                 || (SectionTable(data).Ok? &&
                       EntriesLeaveRange(data, Walked(data, SectionTable(data).value, Field(data, 62, 2)))))))
  {
    hide Interp, Sections, FromSections, Little, Walked, EntriesLeaveRange;
    if Identified(data) {
      HalfFits(data, 54);
      HalfFits(data, 58);
      InterpFailure(data, Field(data, 32, 8), Field(data, 54, 2), Field(data, 56, 2), 0, None);
      SectionsFailure(data, Field(data, 40, 8), Field(data, 58, 2), Field(data, 60, 2), 0, []);
      if ReachesSections(data) && SectionTable(data).Ok? {
        FromSectionsOverflow(data, SectionTable(data).value, Field(data, 62, 2));
      }
    }
  }

  lemma HalfFits(data: Bytes, at: nat)
    requires at + 2 <= |data|
    ensures Field(data, at, 2) < 0x1_0000
  {
    var s := data[at..at + 2];
    assert Little(s) == s[0] as nat + 256 * Little(s[1..]);
    assert Little(s[1..]) == s[1] as nat + 256 * Little(s[1..][1..]);
  }
}
