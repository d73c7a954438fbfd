/** PE images written the way a linker lays them out, and the proof that the reader gives back what was
    written: section headers, import descriptors, export tables and the names they lead to. */
module PeImages {
  import opened Text
  import opened Bits
  import opened Wrappers
  import opened PeReader

  // ---- Numbers -----------------------------------------------------------------------------------

  /** struct.pack with "<I". */
  function Le32(n: nat): (b: Bytes)
    requires n < 0x1_0000_0000
    ensures |b| == 4
  {
    [n % 256, n / 256 % 256, n / 65536 % 256, n / 0x100_0000]
  }

  lemma Le32IsRead(n: nat, data: Bytes, at: nat)
    requires n < 0x1_0000_0000 && at + 4 <= |data| && data[at..at + 4] == Le32(n)
    ensures U32(data, at) == n
  {
    var b := data[at..at + 4];
    assert b[0] == data[at] && b[1] == data[at + 1] && b[2] == data[at + 2] && b[3] == data[at + 3];
    Le32Sum(n);
  }

  lemma Le32Sum(n: nat)
    requires n < 0x1_0000_0000
    ensures n % 256 + 256 * (n / 256 % 256) + 65536 * (n / 65536 % 256) + 0x100_0000 * (n / 0x100_0000) == n
  {
    assert n / 65536 == n / 256 / 256 && n / 0x100_0000 == n / 256 / 256 / 256;
  }

  // ---- A section table that was written is read back ---------------------------------------------------

  predicate Writable(s: Section) {
    && |s.name| <= 8 && 0 !in s.name
    && s.virtualAddress < 0x1_0000_0000 && s.virtualSize < 0x1_0000_0000 && s.rawPointer < 0x1_0000_0000
    && s.rawSize < 0x1_0000_0000 && s.characteristics < 0x1_0000_0000
  }

  function Zeros(n: nat): (b: Bytes)
    ensures |b| == n && forall i | 0 <= i < n :: b[i] == 0
  {
    seq(n, _ => 0)
  }

  function SectionHeader(s: Section): (b: Bytes)
    requires Writable(s)
    ensures |b| == 40
  {
    s.name + Zeros(8 - |s.name|) + Le32(s.virtualSize) + Le32(s.virtualAddress) + Le32(s.rawSize) +
    Le32(s.rawPointer) + Zeros(12) + Le32(s.characteristics)
  }

  function SectionHeaders(sections: seq<Section>): (b: Bytes)
    requires forall i | 0 <= i < |sections| :: Writable(sections[i])
    ensures |b| == 40 * |sections|
  {
    if sections == [] then [] else SectionHeader(sections[0]) + SectionHeaders(sections[1..])
  }

  lemma {:induction false} BeforePadding(name: Bytes, n: nat)
    requires 0 !in name
    ensures BeforeNul(name + Zeros(n)) == name
  {
    if name != [] {
      BeforePadding(name[1..], n);
      assert (name + Zeros(n))[1..] == name[1..] + Zeros(n);
    } else {
      assert name + Zeros(n) == Zeros(n);
    }
  }

  lemma SliceOfSlice(data: Bytes, at: nat, n: nat, i: nat, j: nat)
    requires at + n <= |data| && i <= j <= n
    ensures data[at..at + n][i..j] == data[at + i..at + j]
  {
    var inner, outer := data[at..at + n][i..j], data[at + i..at + j];
    assert |inner| == |outer| && forall k | 0 <= k < |inner| :: inner[k] == outer[k];
  }

  lemma HeaderIsRead(s: Section, data: Bytes, at: nat)
    requires Writable(s) && at + 40 <= |data| && data[at..at + 40] == SectionHeader(s)
    ensures SectionAt(data, at) == s
  {
    hide U32, Le32, BeforeNul;
    var h := SectionHeader(s);
    SliceOfSlice(data, at, 40, 0, 8);
    SliceOfSlice(data, at, 40, 8, 12);
    SliceOfSlice(data, at, 40, 12, 16);
    SliceOfSlice(data, at, 40, 16, 20);
    SliceOfSlice(data, at, 40, 20, 24);
    SliceOfSlice(data, at, 40, 36, 40);
    BeforePadding(s.name, 8 - |s.name|);
    assert h[0..8] == s.name + Zeros(8 - |s.name|);
    assert h[8..12] == Le32(s.virtualSize);
    assert h[12..16] == Le32(s.virtualAddress);
    assert h[16..20] == Le32(s.rawSize);
    assert h[20..24] == Le32(s.rawPointer);
    assert h[36..40] == Le32(s.characteristics);
    Le32IsRead(s.virtualSize, data, at + 8);
    Le32IsRead(s.virtualAddress, data, at + 12);
    Le32IsRead(s.rawSize, data, at + 16);
    Le32IsRead(s.rawPointer, data, at + 20);
    Le32IsRead(s.characteristics, data, at + 36);
  }

  /** Wherever a table of section headers stands in a file, it is read back header by header. */
  lemma {:induction false} SectionsRoundTrip(sections: seq<Section>, data: Bytes, at: nat)
    requires forall i | 0 <= i < |sections| :: Writable(sections[i])
    requires at + 40 * |sections| <= |data|
    requires data[at..at + 40 * |sections|] == SectionHeaders(sections)
    ensures SectionTable(data, at, |sections|) == sections
  {
    hide SectionAt, SectionHeader, Writable;
    if sections != [] {
      var all := SectionHeaders(sections);
      assert data[at..at + 40] == all[..40] == SectionHeader(sections[0]);
      HeaderIsRead(sections[0], data, at);
      assert data[at + 40..at + 40 + 40 * |sections[1..]|] == all[40..] == SectionHeaders(sections[1..]);
      SectionsRoundTrip(sections[1..], data, at + 40);
      assert sections == [sections[0]] + sections[1..];
    }
  }

  // ---- Bytes in a file -----------------------------------------------------------------------------------

  /** The bytes of `piece` stand at `at`. */
  predicate Has(data: Bytes, at: nat, piece: Bytes) {
    at + |piece| <= |data| && data[at..at + |piece|] == piece
  }

  lemma HasParts(data: Bytes, at: nat, a: Bytes, b: Bytes)
    requires Has(data, at, a + b)
    ensures Has(data, at, a) && Has(data, at + |a|, b)
  {
    SliceOfSlice(data, at, |a| + |b|, 0, |a|);
    SliceOfSlice(data, at, |a| + |b|, |a|, |a| + |b|);
    assert (a + b)[0..|a|] == a && (a + b)[|a|..|a| + |b|] == b;
  }

  function Le16(n: nat): (b: Bytes)
    requires n < 0x1_0000
    ensures |b| == 2
  {
    [n % 256, n / 256]
  }

  lemma Le16IsRead(n: nat, data: Bytes, at: nat)
    requires n < 0x1_0000 && Has(data, at, Le16(n))
    ensures U16(data, at) == n
  {
    var b := data[at..at + 2];
    assert b[0] == data[at] && b[1] == data[at + 1];
  }

  // ---- Names, descriptors and name tables that were written ------------------------------------------

  /** Names one after the other, each with a NUL behind it. */
  function NameBlob(names: seq<Bytes>): Bytes {
    if names == [] then [] else names[0] + [0] + NameBlob(names[1..])
  }

  /** Where each of them starts when the first one starts at `base`. */
  function Starts(names: seq<Bytes>, base: nat): (r: seq<nat>)
    ensures |r| == |names| && forall i | 0 <= i < |r| :: r[i] < base + |NameBlob(names)|
  {
    if names == [] then [] else [base] + Starts(names[1..], base + |names[0]| + 1)
  }

  predicate NameOk(name: Bytes) {
    |name| <= 256 && 0 !in name
  }

  lemma {:induction false} BeforeFirstNul(name: Bytes, rest: Bytes)
    requires 0 !in name
    ensures BeforeNul(name + [0] + rest) == name && BeforeNul(name) == name
  {
    if name != [] {
      BeforeFirstNul(name[1..], rest);
      assert (name + [0] + rest)[1..] == name[1..] + [0] + rest;
    }
  }

  /** A terminated name is read back whatever follows it. */
  lemma NameIsRead(name: Bytes, data: Bytes, at: nat)
    requires NameOk(name) && Has(data, at, name + [0])
    ensures CString(data, at) == name
  {
    hide BeforeNul;
    var window := data[at..if |data| < at + 256 then |data| else at + 256];
    if |name| < 256 {
      assert window == name + [0] + window[|name| + 1..] by {
        SliceOfSlice(data, at, |window|, 0, |name| + 1);
      }
      BeforeFirstNul(name, window[|name| + 1..]);
    } else {
      SliceOfSlice(data, at, |name| + 1, 0, |name|);
      assert (name + [0])[0..|name|] == name == window;
      BeforeFirstNul(name, []);
    }
  }

  /** The address leads through the sections to this name. */
  predicate Leads(data: Bytes, sections: seq<Section>, rva: nat, name: Bytes) {
    0 < rva < 0x1_0000_0000 && RvaToOffset(sections, rva).Some? && CString(data, RvaToOffset(sections, rva).value) == name
  }

  predicate AllLead(data: Bytes, sections: seq<Section>, rvas: seq<nat>, names: seq<Bytes>) {
    |rvas| == |names| && forall i | 0 <= i < |names| :: Leads(data, sections, rvas[i], names[i])
  }

  /** The first of the sections maps `size` addresses from `base` on to the offsets from `pointer` on. */
  predicate Maps(sections: seq<Section>, base: nat, pointer: nat, size: nat) {
    && sections != [] && 0 < base && base + size <= 0x1_0000_0000
    && sections[0].virtualAddress == base && sections[0].rawPointer == pointer && sections[0].rawSize == size
  }

  lemma MappedAddress(sections: seq<Section>, base: nat, pointer: nat, size: nat, i: nat)
    requires Maps(sections, base, pointer, size) && i < size
    ensures RvaToOffset(sections, base + i) == Some(pointer + i)
  {}

  lemma {:induction false} NamesAreRead(names: seq<Bytes>, data: Bytes, sections: seq<Section>,
                                        base: nat, pointer: nat, size: nat, i: nat)
    requires forall k | 0 <= k < |names| :: NameOk(names[k])
    requires Maps(sections, base, pointer, size) && i + |NameBlob(names)| <= size
    requires Has(data, pointer + i, NameBlob(names))
    ensures AllLead(data, sections, Starts(names, base + i), names)
  {
    hide Maps, CString, RvaToOffset, Has;
    if names != [] {
      var first, others := names[0], names[1..];
      HasParts(data, pointer + i, first + [0], NameBlob(others));
      NamesAreRead(others, data, sections, base, pointer, size, i + |first| + 1);
      NameIsRead(first, data, pointer + i);
      MappedAddress(sections, base, pointer, size, i);
      AddressFits(sections, base, pointer, size, i);
      FirstLeads(data, sections, base + i, first, Starts(others, base + i + |first| + 1), others);
    }
  }

  lemma AddressFits(sections: seq<Section>, base: nat, pointer: nat, size: nat, i: nat)
    requires Maps(sections, base, pointer, size) && i < size
    ensures 0 < base + i < 0x1_0000_0000
  {}

  lemma FirstLeads(data: Bytes, sections: seq<Section>, rva: nat, name: Bytes, rvas: seq<nat>, names: seq<Bytes>)
    requires Leads(data, sections, rva, name) && AllLead(data, sections, rvas, names)
    ensures AllLead(data, sections, [rva] + rvas, [name] + names)
  {
    hide Leads;
  }

  lemma OthersLead(data: Bytes, sections: seq<Section>, rvas: seq<nat>, names: seq<Bytes>)
    requires AllLead(data, sections, rvas, names) && names != []
    ensures Leads(data, sections, rvas[0], names[0]) && AllLead(data, sections, rvas[1..], names[1..])
  {
    hide Leads;
  }

  predicate ThunksOk(imports: seq<Import>) {
    forall i | 0 <= i < |imports| ::
      imports[i].originalThunk < 0x1_0000_0000 && imports[i].firstThunk < 0x1_0000_0000
  }

  predicate RvasOk(rvas: seq<nat>) {
    forall i | 0 <= i < |rvas| :: rvas[i] < 0x1_0000_0000
  }

  function Libraries(imports: seq<Import>): (r: seq<Bytes>)
    ensures |r| == |imports| && forall i | 0 <= i < |r| :: r[i] == imports[i].library
  {
    seq(|imports|, i requires 0 <= i < |imports| => imports[i].library)
  }

  function Descriptor(i: Import, rva: nat): (b: Bytes)
    requires i.originalThunk < 0x1_0000_0000 && i.firstThunk < 0x1_0000_0000 && rva < 0x1_0000_0000
    ensures |b| == 20
  {
    Le32(i.originalThunk) + (Zeros(8) + (Le32(rva) + Le32(i.firstThunk)))
  }

  function Descriptors(imports: seq<Import>, rvas: seq<nat>): (b: Bytes)
    requires ThunksOk(imports) && RvasOk(rvas) && |rvas| == |imports|
    ensures |b| == 20 * |imports|
  {
    if imports == [] then [] else Descriptor(imports[0], rvas[0]) + Descriptors(imports[1..], rvas[1..])
  }

  lemma DescriptorIsRead(i: Import, rva: nat, data: Bytes, sections: seq<Section>, at: nat)
    requires i.originalThunk < 0x1_0000_0000 && i.firstThunk < 0x1_0000_0000
    requires Leads(data, sections, rva, i.library) && Has(data, at, Descriptor(i, rva))
    ensures at + 20 <= |data| && !NullDescriptor(data, at) && ImportAt(data, sections, at) == i
  {
    hide U32, Le32, CString, RvaToOffset, Has;
    HasFits(data, at, Descriptor(i, rva));
    HasParts(data, at, Le32(i.originalThunk), Zeros(8) + (Le32(rva) + Le32(i.firstThunk)));
    HasParts(data, at + 4, Zeros(8), Le32(rva) + Le32(i.firstThunk));
    HasParts(data, at + 12, Le32(rva), Le32(i.firstThunk));
    NumberIsRead(i.originalThunk, data, at);
    NumberIsRead(rva, data, at + 12);
    NumberIsRead(i.firstThunk, data, at + 16);
  }

  lemma NumberIsRead(n: nat, data: Bytes, at: nat)
    requires n < 0x1_0000_0000 && Has(data, at, Le32(n))
    ensures at + 4 <= |data| && U32(data, at) == n
  {
    hide U32, Le32;
    Le32IsRead(n, data, at);
  }

  lemma ZerosAreRead(data: Bytes, at: nat, n: nat, i: nat)
    requires Has(data, at, Zeros(n)) && i + 4 <= n
    ensures U32(data, at + i) == 0
  {
    assert forall k | 0 <= k < n :: data[at..at + n][k] == Zeros(n)[k] == 0;
    assert data[at + i] == data[at..at + n][i] && data[at + i + 1] == data[at..at + n][i + 1];
    assert data[at + i + 2] == data[at..at + n][i + 2] && data[at + i + 3] == data[at..at + n][i + 3];
  }

  lemma NullIsRead(data: Bytes, at: nat)
    requires Has(data, at, Zeros(20))
    ensures at + 20 <= |data| && NullDescriptor(data, at)
  {
    hide U32;
    HasFits(data, at, Zeros(20));
    ZerosAreRead(data, at, 20, 0);
    ZerosAreRead(data, at, 20, 12);
    ZerosAreRead(data, at, 20, 16);
  }

  /** A terminated table of descriptors is read back whole, with the names their addresses lead to. */
  lemma {:induction false} ImportsRoundTrip(imports: seq<Import>, rvas: seq<nat>, data: Bytes, sections: seq<Section>,
                                            at: nat, limit: nat)
    requires ThunksOk(imports) && RvasOk(rvas) && |rvas| == |imports|
    requires AllLead(data, sections, rvas, Libraries(imports))
    requires Has(data, at, Descriptors(imports, rvas) + Zeros(20)) && |imports| <= limit
    ensures ImportTable(data, sections, at, limit) == imports
  {
    hide Descriptor, NullDescriptor, ImportAt, Has, AllLead, Zeros;
    if imports == [] {
      assert Descriptors(imports, rvas) + Zeros(20) == Zeros(20);
      NullIsRead(data, at);
    } else {
      var others := Descriptors(imports[1..], rvas[1..]);
      AppendAssociates(Descriptor(imports[0], rvas[0]), others, Zeros(20));
      HasParts(data, at, Descriptor(imports[0], rvas[0]), others + Zeros(20));
      OthersLead(data, sections, rvas, Libraries(imports));
      assert Libraries(imports)[1..] == Libraries(imports[1..]);
      DescriptorIsRead(imports[0], rvas[0], data, sections, at);
      ImportsRoundTrip(imports[1..], rvas[1..], data, sections, at + 20, limit - 1);
    }
  }

  function Pointers(rvas: seq<nat>): (b: Bytes)
    requires RvasOk(rvas)
    ensures |b| == 4 * |rvas|
  {
    if rvas == [] then [] else Le32(rvas[0]) + Pointers(rvas[1..])
  }

  lemma {:induction false} ExportsRoundTrip(names: seq<Bytes>, rvas: seq<nat>, data: Bytes, sections: seq<Section>, at: nat)
    requires RvasOk(rvas) && |rvas| == |names| && AllLead(data, sections, rvas, names)
    requires Has(data, at, Pointers(rvas))
    ensures ExportTable(data, sections, at, |names|) == names
  {
    hide Le32, U32, CString, RvaToOffset, Has, AllLead;
    if names != [] {
      OthersLead(data, sections, rvas, names);
      HasParts(data, at, Le32(rvas[0]), Pointers(rvas[1..]));
      NumberIsRead(rvas[0], data, at);
      ExportsRoundTrip(names[1..], rvas[1..], data, sections, at + 4);
    }
  }

  // ---- A whole image that was written is read back -----------------------------------------------------

  /** `base` is the address of the section that holds the import and export tables. */
  datatype Image = Image(machine: nat, entry: nat, plus: bool, base: nat, sections: seq<Section>,
                         imports: seq<Import>, exports: seq<Bytes>)

  /** Where the parts of the tables stand in their section: the export directory behind the import
      descriptors, the name table behind it, then the names of the libraries and those of the exports. */
  function DirectoryAt(image: Image): nat {
    20 * |image.imports| + 20
  }

  function PointersAt(image: Image): nat {
    DirectoryAt(image) + 40
  }

  function LibrariesAt(image: Image): nat {
    PointersAt(image) + 4 * |image.exports|
  }

  function ExportsAt(image: Image): nat {
    LibrariesAt(image) + |NameBlob(Libraries(image.imports))|
  }

  function TablesSize(image: Image): nat {
    ExportsAt(image) + |NameBlob(image.exports)|
  }

  /** The length of the optional header with its first two directories. */
  function OptionalSize(plus: bool): nat {
    if plus then 128 else 112
  }

  function TablesAt(image: Image): nat {
    0x40 + 24 + OptionalSize(image.plus) + 40 * (1 + |image.sections|)
  }

  /** Everything is within the field widths of the format and the caps of the reader. */
  predicate ImageOk(image: Image) {
    && image.machine < 0x1_0000 && image.entry < 0x1_0000_0000
    && |image.sections| < 64 && (forall i | 0 <= i < |image.sections| :: Writable(image.sections[i]))
    && |image.imports| <= 128 && ThunksOk(image.imports)
    && (forall i | 0 <= i < |image.imports| :: NameOk(image.imports[i].library))
    && |image.exports| <= 128 && (forall i | 0 <= i < |image.exports| :: NameOk(image.exports[i]))
    && 0 < image.base && image.base + TablesSize(image) < 0x1_0000_0000
    && TablesAt(image) + TablesSize(image) < 0x1_0000_0000
  }

  const TABLES_NAME: Bytes := [0x2E, 0x72, 0x64, 0x61, 0x74, 0x61]

  /** The section of the tables comes first, so that no other section can hide it. */
  function AllSections(image: Image): seq<Section> {
    [Section(TABLES_NAME, image.base, TablesSize(image), TablesAt(image), TablesSize(image), 0x4000_0040)] + image.sections
  }

  function DosHeader(): (b: Bytes)
    ensures |b| == 0x40
  {
    [0x4D, 0x5A] + Zeros(0x3A) + Le32(0x40)
  }

  function FileHeader(image: Image): (b: Bytes)
    requires ImageOk(image)
    ensures |b| == 24
  {
    [0x50, 0x45, 0, 0] + (Le16(image.machine) + (Le16(1 + |image.sections|) + (Zeros(12) +
    (Le16(OptionalSize(image.plus)) + Zeros(2)))))
  }

  /** The address of a table, or 0 when there is nothing in it. */
  function ImportRva(image: Image): nat {
    if image.imports == [] then 0 else image.base
  }

  function ExportRva(image: Image): nat {
    if image.exports == [] then 0 else image.base + DirectoryAt(image)
  }

  function Directories(image: Image): (b: Bytes)
    requires ImageOk(image)
    ensures |b| == 16
  {
    Le32(ExportRva(image)) + (Zeros(4) + (Le32(ImportRva(image)) + Zeros(4)))
  }

  function OptionalHeader(image: Image): (b: Bytes)
    requires ImageOk(image)
    ensures |b| == OptionalSize(image.plus)
  {
    Le16(if image.plus then 0x20B else 0x10B) + (Zeros(14) + (Le32(image.entry) +
    (Zeros(OptionalSize(image.plus) - 36) + Directories(image))))
  }

  function ExportDirectory(image: Image): (b: Bytes)
    requires ImageOk(image)
    ensures |b| == 40
  {
    Zeros(24) + (Le32(|image.exports|) + (Zeros(4) + (Le32(image.base + PointersAt(image)) + Zeros(4))))
  }

  function ImportDescriptors(image: Image): (b: Bytes)
    requires ImageOk(image)
    ensures |b| == DirectoryAt(image)
  {
    Descriptors(image.imports, Starts(Libraries(image.imports), image.base + LibrariesAt(image))) + Zeros(20)
  }

  function ExportPointers(image: Image): (b: Bytes)
    requires ImageOk(image)
    ensures |b| == 4 * |image.exports|
  {
    Pointers(Starts(image.exports, image.base + ExportsAt(image)))
  }

  function Tables(image: Image): (b: Bytes)
    requires ImageOk(image)
    ensures |b| == TablesSize(image)
  {
    ImportDescriptors(image) + (ExportDirectory(image) + (ExportPointers(image) +
    (NameBlob(Libraries(image.imports)) + NameBlob(image.exports))))
  }

  lemma SectionsAreWritable(image: Image)
    requires ImageOk(image)
    ensures forall i | 0 <= i < |AllSections(image)| :: Writable(AllSections(image)[i])
    ensures Maps(AllSections(image), image.base, TablesAt(image), TablesSize(image))
  {}

  function ImageBytes(image: Image): Bytes
    requires ImageOk(image)
  {
    SectionsAreWritable(image);
    DosHeader() + (FileHeader(image) + (OptionalHeader(image) + (SectionHeaders(AllSections(image)) + Tables(image))))
  }

  lemma DosHeaderIsRead(data: Bytes)
    requires Has(data, 0, DosHeader())
    ensures U32(data, 0x3C) == 0x40
  {
    hide U32, Le32;
    HasParts(data, 0, [0x4D, 0x5A] + Zeros(0x3A), Le32(0x40));
    Le32IsRead(0x40, data, 0x3C);
  }

  lemma FileHeaderIsRead(image: Image, data: Bytes, at: nat)
    requires ImageOk(image) && Has(data, at, FileHeader(image))
    ensures HasSignature(data, at)
    ensures U16(data, at + 4) == image.machine && U16(data, at + 6) == 1 + |image.sections|
    ensures U16(data, at + 20) == OptionalSize(image.plus)
  {
    hide U16, Le16, Has, TablesSize, TablesAt, ThunksOk, NameOk, Writable;
    var size := Le16(OptionalSize(image.plus)) + Zeros(2);
    var count := Le16(1 + |image.sections|) + (Zeros(12) + size);
    HasParts(data, at, [0x50, 0x45, 0, 0], Le16(image.machine) + count);
    HasParts(data, at + 4, Le16(image.machine), count);
    HasParts(data, at + 6, Le16(1 + |image.sections|), Zeros(12) + size);
    HasParts(data, at + 8, Zeros(12), size);
    HasParts(data, at + 20, Le16(OptionalSize(image.plus)), Zeros(2));
    Le16IsRead(image.machine, data, at + 4);
    Le16IsRead(1 + |image.sections|, data, at + 6);
    Le16IsRead(OptionalSize(image.plus), data, at + 20);
    SignatureIsThere(data, at);
    HasFits(data, at, FileHeader(image));
  }

  lemma HasFits(data: Bytes, at: nat, piece: Bytes)
    requires Has(data, at, piece)
    ensures at + |piece| <= |data|
  {}

  lemma SignatureIsThere(data: Bytes, at: nat)
    requires Has(data, at, [0x50, 0x45, 0, 0])
    ensures at + 4 <= |data| && data[at..at + 4] == [0x50, 0x45, 0, 0]
  {}

  lemma DirectoriesAreRead(image: Image, data: Bytes, at: nat)
    requires ImageOk(image) && Has(data, at, Directories(image))
    ensures at + 16 <= |data| && U32(data, at) == ExportRva(image) && U32(data, at + 8) == ImportRva(image)
  {
    hide U32, Le32, Has;
    HasFits(data, at, Directories(image));
    HasParts(data, at, Le32(ExportRva(image)), Zeros(4) + (Le32(ImportRva(image)) + Zeros(4)));
    HasParts(data, at + 4, Zeros(4), Le32(ImportRva(image)) + Zeros(4));
    HasParts(data, at + 8, Le32(ImportRva(image)), Zeros(4));
    NumberIsRead(ExportRva(image), data, at);
    NumberIsRead(ImportRva(image), data, at + 8);
  }

  lemma OptionalHeaderIsRead(image: Image, data: Bytes, at: nat)
    requires ImageOk(image) && Has(data, at, OptionalHeader(image))
    ensures at + OptionalSize(image.plus) <= |data|
    ensures U16(data, at) == 0x20B <==> image.plus
    ensures U32(data, at + 16) == image.entry
    ensures var directory := at + if image.plus then 112 else 96;
            U32(data, directory) == ExportRva(image) && U32(data, directory + 8) == ImportRva(image)
  {
    hide U16, U32, Le16, Le32, Has, Directories, TablesSize, TablesAt, ThunksOk, NameOk, Writable, ExportRva, ImportRva;
    var magic := if image.plus then 0x20B else 0x10B;
    var tail := Zeros(OptionalSize(image.plus) - 36) + Directories(image);
    HasFits(data, at, OptionalHeader(image));
    HasParts(data, at, Le16(magic), Zeros(14) + (Le32(image.entry) + tail));
    HasParts(data, at + 2, Zeros(14), Le32(image.entry) + tail);
    HasParts(data, at + 16, Le32(image.entry), tail);
    HasParts(data, at + 20, Zeros(OptionalSize(image.plus) - 36), Directories(image));
    Le16IsRead(magic, data, at);
    NumberIsRead(image.entry, data, at + 16);
    DirectoriesAreRead(image, data, at + OptionalSize(image.plus) - 16);
  }

  lemma ExportDirectoryIsRead(image: Image, data: Bytes, at: nat)
    requires ImageOk(image) && Has(data, at, ExportDirectory(image))
    ensures at + 40 <= |data| && U32(data, at + 24) == |image.exports|
    ensures U32(data, at + 32) == image.base + PointersAt(image)
  {
    hide U32, Le32, Has;
    var names := image.base + PointersAt(image);
    HasFits(data, at, ExportDirectory(image));
    HasParts(data, at, Zeros(24), Le32(|image.exports|) + (Zeros(4) + (Le32(names) + Zeros(4))));
    HasParts(data, at + 24, Le32(|image.exports|), Zeros(4) + (Le32(names) + Zeros(4)));
    HasParts(data, at + 28, Zeros(4), Le32(names) + Zeros(4));
    HasParts(data, at + 32, Le32(names), Zeros(4));
    NumberIsRead(|image.exports|, data, at + 24);
    NumberIsRead(names, data, at + 32);
  }

  /** The parts of the tables, each where the layout puts it. */
  lemma TablesHaveParts(image: Image, data: Bytes, at: nat)
    requires ImageOk(image) && Has(data, at, Tables(image))
    ensures Has(data, at, ImportDescriptors(image)) && Has(data, at + DirectoryAt(image), ExportDirectory(image))
    ensures Has(data, at + PointersAt(image), ExportPointers(image))
    ensures Has(data, at + LibrariesAt(image), NameBlob(Libraries(image.imports)))
    ensures Has(data, at + ExportsAt(image), NameBlob(image.exports))
  {
    hide Has, ImportDescriptors, ExportDirectory, ExportPointers, NameBlob, ImageOk;
    var libraries, exports := NameBlob(Libraries(image.imports)), NameBlob(image.exports);
    var names := ExportPointers(image) + (libraries + exports);
    HasParts(data, at, ImportDescriptors(image), ExportDirectory(image) + names);
    HasParts(data, at + DirectoryAt(image), ExportDirectory(image), names);
    HasParts(data, at + PointersAt(image), ExportPointers(image), libraries + exports);
    HasParts(data, at + LibrariesAt(image), libraries, exports);
  }

  lemma ImportsAreRead(image: Image, data: Bytes)
    requires ImageOk(image) && Has(data, TablesAt(image), Tables(image))
    ensures Imports(data, AllSections(image), image.base, 128) == image.imports
  {
    hide Has, ImportTable, AllSections, NameOk, Tables, TablesAt, Descriptors, Starts, RvaToOffset, NameBlob;
    var sections, pointer, libraries := AllSections(image), TablesAt(image), Libraries(image.imports);
    SectionsAreWritable(image);
    TablesHaveParts(image, data, pointer);
    MappedAddress(sections, image.base, pointer, TablesSize(image), 0);
    NamesAreRead(libraries, data, sections, image.base, pointer, TablesSize(image), LibrariesAt(image));
    ImportsRoundTrip(image.imports, Starts(libraries, image.base + LibrariesAt(image)), data, sections, pointer, 128);
  }

  lemma ExportsAreRead(image: Image, data: Bytes)
    requires ImageOk(image) && Has(data, TablesAt(image), Tables(image)) && image.exports != []
    ensures Exports(data, AllSections(image), image.base + DirectoryAt(image), 128) == image.exports
  {
    hide Has, U32, ExportTable, AllSections, NameOk, Tables, TablesAt, Pointers, Starts, RvaToOffset, NameBlob;
    var sections, pointer := AllSections(image), TablesAt(image);
    SectionsAreWritable(image);
    TablesHaveParts(image, data, pointer);
    MappedAddress(sections, image.base, pointer, TablesSize(image), DirectoryAt(image));
    MappedAddress(sections, image.base, pointer, TablesSize(image), PointersAt(image));
    ExportDirectoryIsRead(image, data, pointer + DirectoryAt(image));
    NamesAreRead(image.exports, data, sections, image.base, pointer, TablesSize(image), ExportsAt(image));
    ExportsRoundTrip(image.exports, Starts(image.exports, image.base + ExportsAt(image)), data, sections,
                     pointer + PointersAt(image));
  }

  /** A written image, whatever follows it, is summarised as what was written: its sections, its imports and
      exports with the names their addresses lead to, and no warning. */
  lemma ImageRoundTrip(image: Image, rest: Bytes)
    requires ImageOk(image)
    ensures Summarize(ImageBytes(image) + rest) ==
            Summary(Some(image.machine), AllSections(image), image.imports, image.exports, Some(image.entry), [])
  {
    hide U16, U32, DosHeader, FileHeader, OptionalHeader, SectionHeaders, SectionTable, Has, HasSignature, Writable,
      Tables, Imports, Exports, NameOk, ThunksOk, TablesSize;
    var data := ImageBytes(image) + rest;
    var sections := AllSections(image);
    SectionsAreWritable(image);
    var table := SectionHeaders(sections) + Tables(image);
    PrefixIsThere(ImageBytes(image), rest);
    HasParts(data, 0, DosHeader(), FileHeader(image) + (OptionalHeader(image) + table));
    HasParts(data, 0x40, FileHeader(image), OptionalHeader(image) + table);
    HasParts(data, 0x40 + 24, OptionalHeader(image), table);
    HasParts(data, 0x40 + 24 + OptionalSize(image.plus), SectionHeaders(sections), Tables(image));
    HasFits(data, 0, DosHeader());
    DosHeaderIsRead(data);
    FileHeaderIsRead(image, data, 0x40);
    OptionalHeaderIsRead(image, data, 0x40 + 24);
    TableIsThere(sections, data, 0x40 + 24 + OptionalSize(image.plus));
    ImportsAreRead(image, data);
    if image.exports != [] {
      ExportsAreRead(image, data);
    }
  }

  lemma PrefixIsThere(front: Bytes, rest: Bytes)
    ensures Has(front + rest, 0, front)
  {}

  lemma TableIsThere(sections: seq<Section>, data: Bytes, at: nat)
    requires forall i | 0 <= i < |sections| :: Writable(sections[i])
    requires Has(data, at, SectionHeaders(sections))
    ensures SectionTable(data, at, |sections|) == sections
  {
    SectionsRoundTrip(sections, data, at);
  }

  // ---- An image that is cut off --------------------------------------------------------------------

  lemma CutNumbers(data: Bytes, n: nat, at: nat)
    requires n <= |data|
    ensures at + 2 <= n ==> U16(data[..n], at) == U16(data, at)
    ensures at + 4 <= n ==> U32(data[..n], at) == U32(data, at)
  {}

  lemma CutSection(data: Bytes, n: nat, at: nat)
    requires at + 40 <= n <= |data|
    ensures SectionAt(data[..n], at) == SectionAt(data, at)
  {
    hide U32, BeforeNul;
    CutNumbers(data, n, at + 8);
    CutNumbers(data, n, at + 12);
    CutNumbers(data, n, at + 16);
    CutNumbers(data, n, at + 20);
    CutNumbers(data, n, at + 36);
    assert data[..n][at..at + 8] == data[at..at + 8];
  }

  /** How many of `k` headers end before the cut. */
  function WholeHeaders(at: nat, n: nat, k: nat): nat {
    if n < at then 0 else if (n - at) / 40 < k then (n - at) / 40 else k
  }

  lemma {:induction false} CutSections(data: Bytes, n: nat, at: nat, k: nat)
    requires n <= |data| && |SectionTable(data, at, k)| == k
    ensures SectionTable(data[..n], at, k) == SectionTable(data, at, k)[..WholeHeaders(at, n, k)]
    decreases k
  {
    hide SectionAt;
    if k > 0 && at + 40 <= n {
      CutSection(data, n, at);
      CutSections(data, n, at + 40, k - 1);
      assert WholeHeaders(at, n, k) == 1 + WholeHeaders(at + 40, n, k - 1);
    }
  }

  /** A written image that is cut anywhere is reported with as much of its headers as is there, and with the warnings
      that say what is not. */
  lemma CutImage(image: Image, n: nat)
    requires ImageOk(image) && n < |ImageBytes(image)|
    ensures var r := Summarize(ImageBytes(image)[..n]);
            var opt := 0x58 + OptionalSize(image.plus);
            var whole := WholeHeaders(opt, n, 1 + |image.sections|);
            && (n < 0x40 ==> r == NOTHING.(warnings := [TruncatedDosHeader]))
            && (0x40 <= n < 0x58 ==> r == NOTHING.(warnings := [MissingSignature]))
            && (0x58 <= n ==>
                  && r.machine == Some(image.machine) && r.sections == AllSections(image)[..whole]
                  && r.entryRva == (if n < 0x6C then None else Some(image.entry))
                  && r.warnings == (if n < opt then [OptionalHeaderTruncated] else []) +
                                   (if whole <= |image.sections| then [SectionTableTruncated] else []))
  {
    hide U16, U32, SectionTable, Imports, Exports, ImageBytes, OptionalSize, AllSections;
    if n >= 0x40 {
      var full := ImageBytes(image);
      HeadersAreThere(image);
      CutNumbers(full, n, 0x3C);
      if n >= 0x58 {
        CutNumbers(full, n, 0x44);
        CutNumbers(full, n, 0x46);
        CutNumbers(full, n, 0x54);
        CutNumbers(full, n, 0x68);
        assert full[..n][0x40..0x44] == full[0x40..0x44];
        var opt := 0x58 + OptionalSize(image.plus);
        CutSections(full, n, opt, 1 + |image.sections|);
      }
    }
  }

  /** What the headers of a written image say. */
  lemma HeadersAreThere(image: Image)
    requires ImageOk(image)
    ensures var data := ImageBytes(image);
            && |data| >= 0x58 + OptionalSize(image.plus)
            && U32(data, 0x3C) == 0x40 && HasSignature(data, 0x40)
            && U16(data, 0x44) == image.machine && U16(data, 0x46) == 1 + |image.sections|
            && U16(data, 0x54) == OptionalSize(image.plus) && U32(data, 0x68) == image.entry
            && SectionTable(data, 0x58 + OptionalSize(image.plus), 1 + |image.sections|) == AllSections(image)
            && |AllSections(image)| == 1 + |image.sections|
  {
    hide U16, U32, DosHeader, FileHeader, OptionalHeader, SectionHeaders, SectionTable, Has, HasSignature, Writable,
      Tables, NameOk, ThunksOk, TablesSize;
    var data := ImageBytes(image);
    var sections := AllSections(image);
    SectionsAreWritable(image);
    var table := SectionHeaders(sections) + Tables(image);
    PrefixIsThere(data, []);
    assert data + [] == data;
    HasParts(data, 0, DosHeader(), FileHeader(image) + (OptionalHeader(image) + table));
    HasParts(data, 0x40, FileHeader(image), OptionalHeader(image) + table);
    HasParts(data, 0x58, OptionalHeader(image), table);
    HasParts(data, 0x58 + OptionalSize(image.plus), SectionHeaders(sections), Tables(image));
    HasFits(data, 0x58, OptionalHeader(image));
    DosHeaderIsRead(data);
    FileHeaderIsRead(image, data, 0x40);
    OptionalHeaderIsRead(image, data, 0x58);
    TableIsThere(sections, data, 0x58 + OptionalSize(image.plus));
  }
}
