/** The PE reader (parse_pe_summary, parse_pe_imports, parse_pe_exports and their helpers): what it
    reads for every byte string, and that its guarded offsets never run past the data. */
module PeReader {
  import opened Bits
  import opened Integers
  import opened Wrappers

  datatype Warning =
    | TruncatedDosHeader
    | MissingSignature
    | OptionalHeaderTruncated
    | SectionTableTruncated
    | EofReadingU16
    | EofReadingU32

  /** A value or the ValueError that ended the reading. */
  type Reading<+T> = Result<T, Warning>

  datatype Section = Section(name: Bytes, virtualAddress: nat, virtualSize: nat,
                             rawPointer: nat, rawSize: nat, characteristics: nat)
  datatype Import = Import(library: Bytes, originalThunk: nat, firstThunk: nat)
  datatype Summary = Summary(machine: Option<nat>, sections: seq<Section>, imports: seq<Import>,
                             exports: seq<Bytes>, entryRva: Option<nat>, warnings: seq<Warning>)

  // ---- Little-endian numbers -------------------------------------------------------------------

  function U16(data: Bytes, at: nat): nat
    requires at + 2 <= |data|
  {
    data[at] as int + 256 * data[at + 1] as int
  }

  function U32(data: Bytes, at: nat): nat
    requires at + 4 <= |data|
  {
    data[at] as int + 256 * data[at + 1] as int + 65536 * data[at + 2] as int + 0x100_0000 * data[at + 3] as int
  }

  function ReadU16(data: Bytes, at: nat): Reading<nat> {
    if at + 2 > |data| then Err(EofReadingU16) else Ok(U16(data, at))
  }

  function ReadU32(data: Bytes, at: nat): Reading<nat> {
    if at + 4 > |data| then Err(EofReadingU32) else Ok(U32(data, at))
  }

  // ---- Sections ----------------------------------------------------------------------------------

  function BeforeNul(b: Bytes): (r: Bytes)
    ensures r <= b && 0 !in r && (r == b || b[|r|] == 0)
  {
    if b == [] || b[0] == 0 then [] else [b[0]] + BeforeNul(b[1..])
  }

  function SectionAt(data: Bytes, at: nat): Section
    requires at + 40 <= |data|
  {
    Section(BeforeNul(data[at..at + 8]), U32(data, at + 12), U32(data, at + 8),
            U32(data, at + 20), U32(data, at + 16), U32(data, at + 36))
  }

  /** As many of `n` headers of 40 bytes as the data holds. */
  function SectionTable(data: Bytes, at: nat, n: nat): (r: seq<Section>)
    ensures |r| <= n
    ensures |r| < n <==> at + 40 * n > |data| && n > 0
    decreases n
  {
    if n == 0 || at + 40 > |data| then [] else [SectionAt(data, at)] + SectionTable(data, at + 40, n - 1)
  }

  predicate Holds(s: Section, rva: nat) {
    s.virtualAddress <= rva < s.virtualAddress + Max(s.virtualSize, s.rawSize)
  }

  function RvaToOffset(sections: seq<Section>, rva: nat): Option<nat> {
    if sections == [] then None
    else if Holds(sections[0], rva) then Some(sections[0].rawPointer + (rva - sections[0].virtualAddress))
    else RvaToOffset(sections[1..], rva)
  }

  /** A section holds as many addresses as the larger of its two sizes says. */
  lemma SectionHolds(s: Section, k: nat, below: nat)
    ensures RvaToOffset([s], s.virtualAddress + k) ==
            if k < s.virtualSize || k < s.rawSize then Some(s.rawPointer + k) else None
    ensures below < s.virtualAddress ==> RvaToOffset([s], below) == None
  {
    assert [s][1..] == [];
  }

  predicate FirstHolding(sections: seq<Section>, rva: nat, i: nat) {
    i < |sections| && Holds(sections[i], rva) && forall j | 0 <= j < i :: !Holds(sections[j], rva)
  }

  /** The offset is taken in the first section that holds the address. */
  lemma {:induction false} RvaInFirstSection(sections: seq<Section>, rva: nat, i: nat)
    requires FirstHolding(sections, rva, i)
    ensures RvaToOffset(sections, rva) == Some(sections[i].rawPointer + (rva - sections[i].virtualAddress))
  {
    hide Holds;
    if i > 0 {
      assert !Holds(sections[0], rva);
      var others := sections[1..];
      assert forall j | 0 <= j < i - 1 :: others[j] == sections[j + 1];
      RvaInFirstSection(others, rva, i - 1);
    }
  }

  /** There is an offset exactly when some section holds the address. */
  lemma {:induction false} RvaInNoSection(sections: seq<Section>, rva: nat)
    ensures RvaToOffset(sections, rva) == None <==> forall i | 0 <= i < |sections| :: !Holds(sections[i], rva)
  {
    hide Holds;
    if sections != [] {
      var others := sections[1..];
      RvaInNoSection(others, rva);
      assert forall i | 0 < i < |sections| :: sections[i] == others[i - 1];
    }
  }

  /** Up to 256 bytes before the first NUL; nothing when the offset is outside the data. */
  function CString(data: Bytes, at: nat): Bytes {
    if at >= |data| then []
    else BeforeNul(data[at..if |data| < at + 256 then |data| else at + 256])
  }

  lemma {:induction false} BeforeNulStops(name: Bytes, rest: Bytes)
    requires 0 !in name && (rest == [] || rest[0] == 0)
    ensures BeforeNul(name + rest) == name
  {
    if name != [] {
      BeforeNulStops(name[1..], rest);
      assert (name + rest)[1..] == name[1..] + rest;
    } else {
      assert name + rest == rest;
    }
  }

  /** A name ends before its NUL, with the data, or after 256 bytes, and outside the data there is none. */
  lemma NameEnds(data: Bytes, at: nat, name: Bytes)
    requires at + |name| <= |data| && data[at..at + |name|] == name && 0 !in name
    requires |name| == 256 || (|name| < 256 && (at + |name| == |data| || data[at + |name|] == 0))
    ensures CString(data, at) == name
    ensures CString(data, |data|) == []
  {
    var window := data[at..if |data| < at + 256 then |data| else at + 256];
    var rest := window[|name|..];
    assert window == name + rest by {
      assert window[..|name|] == name;
    }
    assert rest != [] ==> rest[0] == data[at + |name|];
    BeforeNulStops(name, rest);
  }

  // ---- Imports and exports -------------------------------------------------------------------------

  predicate NullDescriptor(data: Bytes, at: nat)
    requires at + 20 <= |data|
  {
    U32(data, at) == 0 && U32(data, at + 12) == 0 && U32(data, at + 16) == 0
  }

  function ImportAt(data: Bytes, sections: seq<Section>, at: nat): Import
    requires at + 20 <= |data|
  {
    var name := RvaToOffset(sections, U32(data, at + 12));
    Import(if name.Some? then CString(data, name.value) else [], U32(data, at), U32(data, at + 16))
  }

  function ImportTable(data: Bytes, sections: seq<Section>, at: nat, n: nat): seq<Import>
    decreases n
  {
    if n == 0 || at + 20 > |data| || NullDescriptor(data, at) then []
    else [ImportAt(data, sections, at)] + ImportTable(data, sections, at + 20, n - 1)
  }

  predicate IsDescriptor(data: Bytes, at: nat) {
    at + 20 <= |data| && !NullDescriptor(data, at)
  }

  /** The descriptors one after the other, up to the limit, the end of the data or the first null one. */
  lemma {:induction false} ImportTableIsExact(data: Bytes, sections: seq<Section>, at: nat, n: nat)
    ensures var r := ImportTable(data, sections, at, n);
            && |r| <= n
            && (forall i | 0 <= i < |r| ::
                  IsDescriptor(data, at + 20 * i) && r[i] == ImportAt(data, sections, at + 20 * i))
            && (|r| < n ==> !IsDescriptor(data, at + 20 * |r|))
    decreases n
  {
    hide ImportAt, NullDescriptor;
    if n > 0 && IsDescriptor(data, at) {
      ImportTableIsExact(data, sections, at + 20, n - 1);
      var more := ImportTable(data, sections, at + 20, n - 1);
      var r := ImportTable(data, sections, at, n);
      forall i | 0 <= i < |r|
        ensures IsDescriptor(data, at + 20 * i) && r[i] == ImportAt(data, sections, at + 20 * i)
      {
        if i > 0 {
          assert r[i] == more[i - 1] && at + 20 * i == at + 20 + 20 * (i - 1);
        }
      }
    }
  }

  /** The names whose addresses lie in a section, among `n` entries as far as the data holds them. */
  function ExportTable(data: Bytes, sections: seq<Section>, at: nat, n: nat): (r: seq<Bytes>)
    ensures |r| <= n
    decreases n
  {
    if n == 0 || at + 4 > |data| then []
    else
      var name := RvaToOffset(sections, U32(data, at));
      (if name.Some? then [CString(data, name.value)] else []) + ExportTable(data, sections, at + 4, n - 1)
  }

  /** How many of `n` entries of four bytes the data holds from `at` on. */
  function Fitting(data: Bytes, at: nat, n: nat): (count: nat)
    ensures count > 0 ==> at + 4 * count <= |data|
  {
    if at > |data| then 0 else Min(n, (|data| - at) / 4)
  }

  /** The name an entry leads to, if its address lies in a section. */
  function EntryName(data: Bytes, sections: seq<Section>, at: nat): Option<Bytes>
    requires at + 4 <= |data|
  {
    match RvaToOffset(sections, U32(data, at))
    case None => None
    case Some(name) => Some(CString(data, name))
  }

  function EntryNames(data: Bytes, sections: seq<Section>, at: nat, count: nat): (r: seq<Option<Bytes>>)
    requires count > 0 ==> at + 4 * count <= |data|
    ensures |r| == count && forall i | 0 <= i < count :: r[i] == EntryName(data, sections, at + 4 * i)
  {
    seq(count, i requires 0 <= i < count => EntryName(data, sections, at + 4 * i))
  }

  /** The values that are there, in order. */
  function Somes<T>(s: seq<Option<T>>): seq<T> {
    if s == [] then [] else (if s[0].Some? then [s[0].value] else []) + Somes(s[1..])
  }

  /** The exports are the names of all those entries that have one, among as many of the first `n` as fit
      into the data, in the order of the table. */
  lemma {:induction false} ExportTableIsExact(data: Bytes, sections: seq<Section>, at: nat, n: nat)
    ensures ExportTable(data, sections, at, n) == Somes(EntryNames(data, sections, at, Fitting(data, at, n)))
    decreases n
  {
    hide U32, CString, RvaToOffset, EntryNames;
    var count := Fitting(data, at, n);
    if n > 0 && at + 4 <= |data| {
      ExportTableIsExact(data, sections, at + 4, n - 1);
      FittingStep(data, at, n);
      var names, others := EntryNames(data, sections, at, count), EntryNames(data, sections, at + 4, count - 1);
      assert names == [EntryName(data, sections, at)] + others by {
        assert forall i | 0 < i < count :: at + 4 * i == (at + 4) + 4 * (i - 1);
      }
    }
  }

  lemma FittingStep(data: Bytes, at: nat, n: nat)
    requires n > 0 && at + 4 <= |data|
    ensures Fitting(data, at, n) == 1 + Fitting(data, at + 4, n - 1)
  {}

  // ---- The whole file --------------------------------------------------------------------------------

  function Imports(data: Bytes, sections: seq<Section>, rva: nat, limit: nat): seq<Import> {
    match RvaToOffset(sections, rva)
    case None => []
    case Some(at) => ImportTable(data, sections, at, limit)
  }

  function Exports(data: Bytes, sections: seq<Section>, rva: nat, limit: nat): seq<Bytes> {
    match RvaToOffset(sections, rva)
    case None => []
    case Some(at) =>
      if at + 40 > |data| then []
      else
        match RvaToOffset(sections, U32(data, at + 32))
        case None => []
        case Some(names) => ExportTable(data, sections, names, Min(U32(data, at + 24), limit))
  }

  predicate HasSignature(data: Bytes, at: nat) {
    at + 24 <= |data| && data[at..at + 4] == [0x50, 0x45, 0, 0]
  }

  /** The summary of a file that passes both header checks; every number is read inside the data. */
  function SummaryAt(data: Bytes, pe: nat): Summary
    requires HasSignature(data, pe)
  {
    var opt, optSize := pe + 24, U16(data, pe + 20);
    var plus := opt + 2 <= |data| && U16(data, opt) == 0x20B;
    var directory := opt + if plus then 112 else 96;
    var listed := directory + 16 <= |data|;
    var count := Min(U16(data, pe + 6), 64);
    var sections := SectionTable(data, opt + optSize, count);
    Summary(
      Some(U16(data, pe + 4)),
      sections,
      if listed && U32(data, directory + 8) != 0 then Imports(data, sections, U32(data, directory + 8), 128) else [],
      if listed && U32(data, directory) != 0 then Exports(data, sections, U32(data, directory), 128) else [],
      if opt + 20 <= |data| then Some(U32(data, opt + 16)) else None,
      (if opt + optSize > |data| then [OptionalHeaderTruncated] else []) +
      (if |sections| < count then [SectionTableTruncated] else []))
  }

  const NOTHING := Summary(None, [], [], [], None, [])

  function Summarize(data: Bytes): Summary {
    if |data| < 0x40 then NOTHING.(warnings := [TruncatedDosHeader])
    else if !HasSignature(data, U32(data, 0x3C)) then NOTHING.(warnings := [MissingSignature])
    else SummaryAt(data, U32(data, 0x3C))
  }

  /** The two checks that end the reading, for every file. */
  lemma HeaderChecks(data: Bytes)
    ensures TruncatedDosHeader in Summarize(data).warnings <==> |data| < 64
    ensures MissingSignature in Summarize(data).warnings <==>
            |data| >= 64 &&
            var pe := U32(data, 0x3C);
            pe + 24 > |data| || [data[pe], data[pe + 1], data[pe + 2], data[pe + 3]] != ['P' as int, 'E' as int, 0, 0]
  {
    hide U32, U16, SectionTable, Imports, Exports;
    if |data| >= 64 {
      var pe := U32(data, 0x3C);
      if pe + 24 <= |data| {
        assert data[pe..pe + 4] == [data[pe], data[pe + 1], data[pe + 2], data[pe + 3]];
      }
    }
  }

  /** Imports and exports come from the addresses of the second and the first directory, sixteen bytes at a place that
      depends on the magic number; without these bytes, or at address 0, there are none. */
  lemma DirectoriesDecide(data: Bytes)
    requires |data| >= 64 && HasSignature(data, U32(data, 0x3C))
    ensures var r, pe := Summarize(data), U32(data, 0x3C);
            var at := pe + if pe + 26 <= |data| && U16(data, pe + 24) == 0x20B then 136 else 120;
            && (at + 16 > |data| ==> r.imports == [] && r.exports == [])
            && (at + 16 <= |data| ==>
                  && r.exports == (if U32(data, at) == 0 then [] else Exports(data, r.sections, U32(data, at), 128))
                  && r.imports == (if U32(data, at + 8) == 0 then [] else Imports(data, r.sections, U32(data, at + 8), 128)))
  {
    hide U32, U16, SectionTable, Imports, Exports, HasSignature;
  }

  /** No file makes the reader run into the end of the data, and no table grows past its cap. */
  lemma ReadsStayInside(data: Bytes)
    ensures var r := Summarize(data);
            && EofReadingU16 !in r.warnings && EofReadingU32 !in r.warnings
            && |r.sections| <= 64 && |r.imports| <= 128 && |r.exports| <= 128
  {
    hide SectionTable, ImportTable, ExportTable, RvaToOffset, U16, U32;
    if |data| >= 0x40 && HasSignature(data, U32(data, 0x3C)) {
      var r := SummaryAt(data, U32(data, 0x3C));
      forall rva ensures |Imports(data, r.sections, rva, 128)| <= 128 {
        match RvaToOffset(r.sections, rva)
        case None =>
        case Some(at) => ImportTableIsExact(data, r.sections, at, 128);
      }
    }
  }

  // ---- The program -----------------------------------------------------------------------------------

  method FindOffset(sections: seq<Section>, rva: nat) returns (r: Option<nat>)
    ensures r == RvaToOffset(sections, rva)
  {
    for i := 0 to |sections|
      invariant RvaToOffset(sections, rva) == RvaToOffset(sections[i..], rva)
    {
      if Holds(sections[i], rva) {
        return Some(sections[i].rawPointer + (rva - sections[i].virtualAddress));
      }
      assert sections[i..][1..] == sections[i + 1..];
    }
    return None;
  }

  method ParsePeImports(data: Bytes, sections: seq<Section>, importRva: nat, limit: nat)
    returns (failure: Option<Warning>, imports: seq<Import>)
    ensures failure == None && imports == Imports(data, sections, importRva, limit)
  {
    hide RvaToOffset, CString, U32, ImportTable;
    failure, imports := None, [];
    var offset := FindOffset(sections, importRva);
    if offset == None {
      return;
    }
    var at := offset.value;
    ghost var all := ImportTable(data, sections, at, limit);
    while at < |data| && at < offset.value + 20 * limit
      invariant at == offset.value + 20 * |imports| && |imports| <= limit
      invariant all == imports + ImportTable(data, sections, at, limit - |imports|)
    {
      ImportStep(data, sections, at, limit - |imports|);
      if at + 20 > |data| {
        break;
      }
      var original :- ReadU32(data, at);
      var name :- ReadU32(data, at + 12);
      var first :- ReadU32(data, at + 16);
      if original == 0 && name == 0 && first == 0 {
        break;
      }
      var nameOffset := FindOffset(sections, name);
      var library := if nameOffset.Some? then CString(data, nameOffset.value) else [];
      MoveAcross(imports, Import(library, original, first), ImportTable(data, sections, at + 20, limit - |imports| - 1));
      imports := imports + [Import(library, original, first)];
      at := at + 20;
      if |imports| >= limit {
        break;
      }
    }
    ImportStep(data, sections, at, limit - |imports|);
    assert imports + [] == imports;
  }

  lemma ImportStep(data: Bytes, sections: seq<Section>, at: nat, n: nat)
    ensures ImportTable(data, sections, at, n) ==
            if n == 0 || at + 20 > |data| || NullDescriptor(data, at) then []
            else [ImportAt(data, sections, at)] + ImportTable(data, sections, at + 20, n - 1)
  {}

  lemma MoveAcross<T>(front: seq<T>, x: T, back: seq<T>)
    ensures front + ([x] + back) == (front + [x]) + back
  {}

  method ParsePeExports(data: Bytes, sections: seq<Section>, exportRva: nat, limit: nat)
    returns (failure: Option<Warning>, exports: seq<Bytes>)
    ensures failure == None && exports == Exports(data, sections, exportRva, limit)
  {
    hide RvaToOffset, CString, U32, ExportTable;
    failure, exports := None, [];
    var offset := FindOffset(sections, exportRva);
    if offset == None || offset.value + 40 > |data| {
      return;
    }
    var nameCount :- ReadU32(data, offset.value + 24);
    var namesRva :- ReadU32(data, offset.value + 32);
    var names := FindOffset(sections, namesRva);
    if names == None {
      return;
    }
    failure, exports := ParseExportNames(data, sections, names.value, Min(nameCount, limit));
  }

  /** The loop over the name table. */
  method ParseExportNames(data: Bytes, sections: seq<Section>, names: nat, count: nat)
    returns (failure: Option<Warning>, exports: seq<Bytes>)
    ensures failure == None && exports == ExportTable(data, sections, names, count)
  {
    hide RvaToOffset, CString, U32, ExportTable;
    failure, exports := None, [];
    ghost var all := ExportTable(data, sections, names, count);
    for index := 0 to count
      invariant all == exports + ExportTable(data, sections, names + 4 * index, count - index)
    {
      var entry := names + index * 4;
      ExportStep(data, sections, entry, count - index);
      if entry + 4 > |data| {
        assert exports + [] == exports;
        return;
      }
      var rva :- ReadU32(data, entry);
      var name := FindOffset(sections, rva);
      if name.Some? {
        MoveAcross(exports, CString(data, name.value), ExportTable(data, sections, entry + 4, count - index - 1));
        exports := exports + [CString(data, name.value)];
      }
    }
    ExportStep(data, sections, names + 4 * count, 0);
    assert exports + [] == exports;
  }

  lemma ExportStep(data: Bytes, sections: seq<Section>, at: nat, n: nat)
    ensures ExportTable(data, sections, at, n) ==
            if n == 0 || at + 4 > |data| then []
            else
              match RvaToOffset(sections, U32(data, at))
              case Some(name) => [CString(data, name)] + ExportTable(data, sections, at + 4, n - 1)
              case None => ExportTable(data, sections, at + 4, n - 1)
  {}

  /** The loop over the section headers; a header that does not fit ends it. */
  method ParseSections(data: Bytes, at: nat, count: nat)
    returns (failure: Option<Warning>, sections: seq<Section>, truncated: bool)
    ensures failure == None && sections == SectionTable(data, at, count) && truncated == (|sections| < count)
  {
    hide U32, SectionTable;
    failure, sections, truncated := None, [], false;
    ghost var all := SectionTable(data, at, count);
    for index := 0 to count
      invariant |sections| == index
      invariant all == sections + SectionTable(data, at + 40 * index, count - index)
    {
      var offset := at + index * 40;
      SectionStep(data, offset, count - index);
      if offset + 40 > |data| {
        assert sections + [] == sections;
        return None, sections, true;
      }
      var name := BeforeNul(data[offset..offset + 8]);
      var virtualSize :- ReadU32(data, offset + 8);
      var virtualAddress :- ReadU32(data, offset + 12);
      var rawSize :- ReadU32(data, offset + 16);
      var rawPointer :- ReadU32(data, offset + 20);
      var characteristics :- ReadU32(data, offset + 36);
      var section := Section(name, virtualAddress, virtualSize, rawPointer, rawSize, characteristics);
      MoveAcross(sections, section, SectionTable(data, offset + 40, count - index - 1));
      sections := sections + [section];
    }
    SectionStep(data, at + 40 * count, 0);
    assert sections + [] == sections;
  }

  lemma SectionStep(data: Bytes, at: nat, n: nat)
    ensures SectionTable(data, at, n) ==
            if n == 0 || at + 40 > |data| then []
            else [SectionAt(data, at)] + SectionTable(data, at + 40, n - 1)
  {}

  /** The addresses of the export and import directories, 0 where the data holds none. */
  method ReadDirectories(data: Bytes, directory: nat)
    returns (failure: Option<Warning>, exportRva: nat, importRva: nat)
    ensures failure == None
    ensures exportRva == if directory + 16 <= |data| then U32(data, directory) else 0
    ensures importRva == if directory + 16 <= |data| then U32(data, directory + 8) else 0
  {
    hide U32;
    failure, exportRva, importRva := None, 0, 0;
    if directory + 16 <= |data| {
      exportRva :- ReadU32(data, directory);
      var exportSize :- ReadU32(data, directory + 4);
      importRva :- ReadU32(data, directory + 8);
      var importSize :- ReadU32(data, directory + 12);
    }
  }

  /** The body of the try block of parse_pe_summary: what it has filled in when it ends or raises. The
      only errors that leave it are the two failed header checks. */
  method ParseHeaders(data: Bytes) returns (failure: Option<Warning>, r: Summary)
    ensures failure != Some(EofReadingU16) && failure != Some(EofReadingU32)
    ensures failure == None ==> r == Summarize(data)
    ensures failure.Some? ==> r == NOTHING && Summarize(data) == NOTHING.(warnings := [failure.value])
  {
    hide U16, U32, SectionTable, Imports, Exports;
    failure, r := None, NOTHING;
    if |data| < 0x40 {
      return Some(TruncatedDosHeader), r;
    }
    var pe :- ReadU32(data, 0x3C);
    if pe + 24 > |data| || data[pe..pe + 4] != [0x50, 0x45, 0, 0] {
      return Some(MissingSignature), r;
    }
    var machine :- ReadU16(data, pe + 4);
    r := r.(machine := Some(machine));
    var sectionCount :- ReadU16(data, pe + 6);
    var optSize :- ReadU16(data, pe + 20);
    var opt := pe + 24;
    var magic := 0;
    if opt + 2 <= |data| {
      magic :- ReadU16(data, opt);
    }
    var plus := magic == 0x20B;
    if opt + optSize > |data| {
      r := r.(warnings := r.warnings + [OptionalHeaderTruncated]);
    }
    if opt + 20 <= |data| {
      var entry :- ReadU32(data, opt + 16);
      r := r.(entryRva := Some(entry));
    }
    var directory := opt + if plus then 112 else 96;
    var unread, exportRva, importRva := ReadDirectories(data, directory);
    if unread.Some? {
      return unread, r;
    }
    var failed, sections, truncated := ParseSections(data, opt + optSize, Min(sectionCount, 64));
    r := r.(sections := sections);
    if failed.Some? {
      return failed, r;
    }
    if truncated {
      r := r.(warnings := r.warnings + [SectionTableTruncated]);
    }
    if importRva != 0 {
      var failed, imports := ParsePeImports(data, sections, importRva, 128);
      if failed.Some? {
        return failed, r;
      }
      r := r.(imports := imports);
    }
    if exportRva != 0 {
      var failed, exports := ParsePeExports(data, sections, exportRva, 128);
      if failed.Some? {
        return failed, r;
      }
      r := r.(exports := exports);
    }
  }

  /** parse_pe_summary: an error ends the reading with a warning and keeps what was read before. */
  method ParsePeSummary(data: Bytes) returns (r: Summary)
    ensures r == Summarize(data)
  {
    var failure;
    failure, r := ParseHeaders(data);
    if failure.Some? {
      r := r.(warnings := r.warnings + [failure.value]);
    }
  }
}
