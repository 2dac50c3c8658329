/** The file format that the reader has to read, byte by byte: the structures in the order and widths of their fields,
    with every number written out.  Nothing here uses the reader's offsets or constants.

    The fields that the reader does not look at can have any value.
*/
module ElfFormat {
  import opened Wrappers
  import opened Bytes
  import opened ElfNotes
  import opened ElfImage

  // ---------- Little-endian words ----------

  function U16(v: nat): (s: seq<byte>)
    ensures |s| == 2
  {
    [v % 256, v / 256 % 256]
  }

  function U32(v: nat): (s: seq<byte>)
    ensures |s| == 4
  {
    [v % 256, v / 256 % 256, v / 65536 % 256, v / 16777216 % 256]
  }

  function U64(v: nat): (s: seq<byte>)
    ensures |s| == 8
  {
    [v % 256, v / 256 % 256, v / 65536 % 256, v / 16777216 % 256, v / 4294967296 % 256, v / 1099511627776 % 256,
     v / 281474976710656 % 256, v / 72057594037927936 % 256]
  }

  /** An address or a size: four or eight bytes. */
  function Word(elf64: bool, v: nat): (s: seq<byte>)
    ensures |s| == if elf64 then 8 else 4
  {
    if elf64 then U64(v) else U32(v)
  }

  predicate WordFits(elf64: bool, v: nat) {
    v < if elf64 then 0x1_0000_0000_0000_0000 else 0x1_0000_0000
  }

  lemma PackStep(v: nat, n: nat)
    ensures Pack(v, n + 1) == [v % 256] + Pack(v / 256, n)
  {
  }

  lemma NoBytes(v: nat)
    ensures Pack(v, 0) == []
  {
  }

  lemma Pack2(v: nat)
    ensures Pack(v, 2) == U16(v)
  {
    hide Pack;
    PackStep(v, 1);
    PackStep(v / 256, 0);
    NoBytes(v / 256 / 256);
  }

  lemma Quarters(v: nat)
    ensures v / 256 / 256 == v / 65536 && v / 65536 / 256 == v / 16777216 && v / 16777216 / 256 == v / 4294967296
  {
  }

  lemma Pack4(v: nat)
    ensures Pack(v, 4) == U32(v)
  {
    hide Pack;
    Quarters(v);
    PackStep(v, 3);
    PackStep(v / 256, 2);
    PackStep(v / 65536, 1);
    PackStep(v / 16777216, 0);
    NoBytes(v / 4294967296);
  }

  lemma Eighths(v: nat)
    ensures v / 4294967296 / 256 == v / 1099511627776 && v / 1099511627776 / 256 == v / 281474976710656
    ensures v / 281474976710656 / 256 == v / 72057594037927936
  {
  }

  lemma Pack8(v: nat)
    ensures Pack(v, 8) == U64(v)
  {
    hide Pack;
    Quarters(v);
    Eighths(v);
    PackStep(v, 7);
    PackStep(v / 256, 6);
    PackStep(v / 65536, 5);
    PackStep(v / 16777216, 4);
    PackStep(v / 4294967296, 3);
    PackStep(v / 1099511627776, 2);
    PackStep(v / 281474976710656, 1);
    PackStep(v / 72057594037927936, 0);
    NoBytes(v / 72057594037927936 / 256);
  }

  /** A word that lies in the file is read as its value. */
  lemma WordRead(data: seq<byte>, at: nat, elf64: bool, v: nat)
    requires at + |Word(elf64, v)| <= |data| && data[at..at + |Word(elf64, v)|] == Word(elf64, v) && WordFits(elf64, v)
    ensures Field(data, at, if elf64 then 8 else 4) == v
  {
    FieldWidths();
    if elf64 {
      Pack8(v);
      UnpackPack(v, 8);
    } else {
      Pack4(v);
      UnpackPack(v, 4);
    }
  }

  lemma HalfRead(data: seq<byte>, at: nat, v: nat)
    requires at + 2 <= |data| && data[at..at + 2] == U16(v) && v < 0x1_0000
    ensures Field(data, at, 2) == v
  {
    FieldWidths();
    Pack2(v);
    UnpackPack(v, 2);
  }

  // ---------- The structures ----------

  datatype FileHeader = FileHeader(etype: nat, machine: nat, version: nat, entry: nat, phoff: nat, shoff: nat, flags: nat,
                                   ehsize: nat, phentsize: nat, phnum: nat, shentsize: nat, shnum: nat, shstrndx: nat)

  datatype Program = Program(ptype: nat, flags: nat, offset: nat, vaddr: nat, paddr: nat, filesz: nat, memsz: nat,
                             align: nat)

  /** The first section header up to the field that can hold the number of program headers. */
  datatype Section = Section(name: nat, stype: nat, flags: nat, addr: nat, offset: nat, size: nat, link: nat, info: nat)

  /** Sixteen bytes of identification, and the fields. */
  function FileHeaderBytes(elf64: bool, ident: seq<byte>, f: FileHeader): seq<byte> {
    [0x7f, 0x45, 0x4c, 0x46, if elf64 then 2 else 1, 1] + ident
    + (U16(f.etype) + U16(f.machine) + U32(f.version) + Word(elf64, f.entry))
    + (Word(elf64, f.phoff) + Word(elf64, f.shoff))
    + (U32(f.flags) + U16(f.ehsize)) + (U16(f.phentsize) + U16(f.phnum)) + (U16(f.shentsize) + U16(f.shnum) + U16(f.shstrndx))
  }

  /** The flags are the second field of a 64-bit program header, and the last but one of a 32-bit one. */
  function ProgramBytes(elf64: bool, p: Program): seq<byte> {
    if elf64 then
      (U32(p.ptype) + U32(p.flags)) + (U64(p.offset) + U64(p.vaddr)) + (U64(p.paddr) + U64(p.filesz))
      + (U64(p.memsz) + U64(p.align))
    else
      (U32(p.ptype) + U32(p.offset)) + (U32(p.vaddr) + U32(p.paddr)) + (U32(p.filesz) + U32(p.memsz))
      + (U32(p.flags) + U32(p.align))
  }

  function SectionBytes(elf64: bool, s: Section): seq<byte> {
    (U32(s.name) + U32(s.stype)) + (Word(elf64, s.flags) + Word(elf64, s.addr)) + (Word(elf64, s.offset) + Word(elf64, s.size))
    + (U32(s.link) + U32(s.info))
  }

  /** Some bytes lie in the file. */
  predicate Lies(data: seq<byte>, at: nat, part: seq<byte>) {
    at + |part| <= |data| && data[at..at + |part|] == part
  }

  lemma PartOfPart(data: seq<byte>, a: nat, b: nat, c: nat, d: nat)
    requires a <= b <= |data| && c <= d <= b - a
    ensures data[a..b][c..d] == data[a + c..a + d]
  {
    var x, y := data[a..b][c..d], data[a + c..a + d];
    assert |x| == |y|;
    forall i | 0 <= i < |x| ensures x[i] == y[i] {
      assert x[i] == data[a..b][c + i] == data[a + c + i] == y[i];
    }
  }

  lemma PartLies(data: seq<byte>, at: nat, part: seq<byte>, before: seq<byte>, field: seq<byte>, after: seq<byte>)
    requires Lies(data, at, part) && part == before + field + after
    ensures Lies(data, at + |before|, field)
  {
    assert part[|before|..|before| + |field|] == field;
    PartOfPart(data, at, at + |part|, |before|, |before| + |field|);
  }

  // ---------- The file header ----------

  predicate Starts(data: seq<byte>, elf64: bool, ident: seq<byte>, f: FileHeader) {
    |ident| == 10 && Lies(data, 0, FileHeaderBytes(elf64, ident, f)) &&
    WordFits(elf64, f.phoff) && WordFits(elf64, f.shoff) && f.phentsize < 0x1_0000 && f.phnum < 0x1_0000
  }

  function ClassOf(elf64: bool): Class {
    if elf64 then Elf64 else Elf32
  }

  lemma FileHeaderSize(elf64: bool, ident: seq<byte>, f: FileHeader)
    requires |ident| == 10
    ensures |FileHeaderBytes(elf64, ident, f)| == if elf64 then 64 else 52
  {
  }

  lemma Identified(data: seq<byte>, elf64: bool, ident: seq<byte>, f: FileHeader)
    requires Starts(data, elf64, ident, f)
    ensures Identify(data) == Some(ClassOf(elf64)) && |data| >= HeaderSize(ClassOf(elf64))
  {
    hide U16, U32, Word;
    FileHeaderSize(elf64, ident, f);
    var h := FileHeaderBytes(elf64, ident, f);
    var first: seq<byte> := [0x7f, 0x45, 0x4c, 0x46, if elf64 then 2 else 1, 1];
    assert h[..6] == first;
    assert data[..|h|] == h;
    assert data[..6] == first;
    assert data[..4] == data[..6][..4] && data[4] == data[..6][4] && data[5] == data[..6][5];
  }

  lemma LyingWord(data: seq<byte>, at: nat, elf64: bool, v: nat)
    requires Lies(data, at, Word(elf64, v)) && WordFits(elf64, v)
    ensures at + (if elf64 then 8 else 4) <= |data| && Field(data, at, if elf64 then 8 else 4) == v
  {
    WordRead(data, at, elf64, v);
  }

  lemma LyingHalf(data: seq<byte>, at: nat, v: nat)
    requires Lies(data, at, U16(v)) && v < 0x1_0000
    ensures at + 2 <= |data| && Field(data, at, 2) == v
  {
    HalfRead(data, at, v);
  }

  /** The four fields that the reader uses. */
  lemma HeaderFields(data: seq<byte>, elf64: bool, ident: seq<byte>, f: FileHeader)
    requires Starts(data, elf64, ident, f)
    ensures var c := ClassOf(elf64);
            |data| >= HeaderSize(c) && Field(data, PhoffAt(c), AddressSize(c)) == f.phoff &&
            Field(data, ShoffAt(c), AddressSize(c)) == f.shoff && Field(data, PhentsizeAt(c), 2) == f.phentsize &&
            Field(data, PhnumAt(c), 2) == f.phnum
  {
    hide U16, U32, Word, Field, Lies, WordFits;
    Identified(data, elf64, ident, f);
    var h := FileHeaderBytes(elf64, ident, f);
    var a := [0x7f, 0x45, 0x4c, 0x46, if elf64 then 2 else 1, 1] + ident
             + (U16(f.etype) + U16(f.machine) + U32(f.version) + Word(elf64, f.entry));
    var b := U32(f.flags) + U16(f.ehsize);
    var d := U16(f.shentsize) + U16(f.shnum) + U16(f.shstrndx);
    var phoff, shoff, phentsize, phnum := Word(elf64, f.phoff), Word(elf64, f.shoff), U16(f.phentsize), U16(f.phnum);
    assert h == a + phoff + (shoff + b + (phentsize + phnum) + d);
    PartLies(data, 0, h, a, phoff, shoff + b + (phentsize + phnum) + d);
    assert h == (a + phoff) + shoff + (b + (phentsize + phnum) + d);
    PartLies(data, 0, h, a + phoff, shoff, b + (phentsize + phnum) + d);
    var e := a + phoff + shoff + b;
    assert h == e + phentsize + (phnum + d);
    PartLies(data, 0, h, e, phentsize, phnum + d);
    assert h == (e + phentsize) + phnum + d;
    PartLies(data, 0, h, e + phentsize, phnum, d);
    LyingWord(data, |a|, elf64, f.phoff);
    LyingWord(data, |a| + |phoff|, elf64, f.shoff);
    LyingHalf(data, |e|, f.phentsize);
    LyingHalf(data, |e| + 2, f.phnum);
  }

  lemma Lying32(data: seq<byte>, at: nat, v: nat)
    requires Lies(data, at, U32(v)) && v < 0x1_0000_0000
    ensures at + 4 <= |data| && Field(data, at, 4) == v
  {
    WordRead(data, at, false, v);
  }

  // ---------- Program headers and the first section header ----------

  predicate HasProgram(data: seq<byte>, elf64: bool, at: nat, p: Program) {
    Lies(data, at, ProgramBytes(elf64, p)) && p.ptype < 0x1_0000_0000 &&
    WordFits(elf64, p.offset) && WordFits(elf64, p.filesz) && WordFits(elf64, p.align)
  }

  predicate HasSection(data: seq<byte>, elf64: bool, at: nat, s: Section) {
    Lies(data, at, SectionBytes(elf64, s)) && s.info < 0x1_0000_0000
  }

  lemma ProgramRead64(data: seq<byte>, at: nat, p: Program)
    requires HasProgram(data, true, at, p)
    ensures at + PhdrSize(Elf64) <= |data| && HeaderAt(data, Elf64, at) == ProgramHeader(p.ptype, p.offset, p.filesz, p.align)
  {
    hide U32, U64, Field, Lies, WordFits;
    var h := ProgramBytes(true, p);
    var first, second, third := U32(p.ptype) + U32(p.flags), U64(p.offset) + U64(p.vaddr), U64(p.paddr) + U64(p.filesz);
    var last := U64(p.memsz) + U64(p.align);
    assert h == [] + U32(p.ptype) + (U32(p.flags) + second + third + last);
    PartLies(data, at, h, [], U32(p.ptype), U32(p.flags) + second + third + last);
    assert h == first + U64(p.offset) + (U64(p.vaddr) + third + last);
    PartLies(data, at, h, first, U64(p.offset), U64(p.vaddr) + third + last);
    var middle := first + second + U64(p.paddr);
    assert h == middle + U64(p.filesz) + last;
    PartLies(data, at, h, middle, U64(p.filesz), last);
    var all := first + second + third + U64(p.memsz);
    assert h == all + U64(p.align) + [];
    PartLies(data, at, h, all, U64(p.align), []);
    Lying32(data, at, p.ptype);
    LyingWord(data, at + 8, true, p.offset);
    LyingWord(data, at + 32, true, p.filesz);
    LyingWord(data, at + 48, true, p.align);
  }

  lemma ProgramRead32(data: seq<byte>, at: nat, p: Program)
    requires HasProgram(data, false, at, p)
    ensures at + PhdrSize(Elf32) <= |data| && HeaderAt(data, Elf32, at) == ProgramHeader(p.ptype, p.offset, p.filesz, p.align)
  {
    hide U32, Field, Lies, WordFits;
    var h := ProgramBytes(false, p);
    var first, second, third := U32(p.ptype) + U32(p.offset), U32(p.vaddr) + U32(p.paddr), U32(p.filesz) + U32(p.memsz);
    var last := U32(p.flags) + U32(p.align);
    assert h == [] + U32(p.ptype) + (U32(p.offset) + second + third + last);
    PartLies(data, at, h, [], U32(p.ptype), U32(p.offset) + second + third + last);
    assert h == U32(p.ptype) + U32(p.offset) + (second + third + last);
    PartLies(data, at, h, U32(p.ptype), U32(p.offset), second + third + last);
    assert h == (first + second) + U32(p.filesz) + (U32(p.memsz) + last);
    PartLies(data, at, h, first + second, U32(p.filesz), U32(p.memsz) + last);
    var all := first + second + third + U32(p.flags);
    assert h == all + U32(p.align) + [];
    PartLies(data, at, h, all, U32(p.align), []);
    Lying32(data, at, p.ptype);
    LyingWord(data, at + 4, false, p.offset);
    LyingWord(data, at + 16, false, p.filesz);
    LyingWord(data, at + 28, false, p.align);
  }

  lemma ProgramRead(data: seq<byte>, elf64: bool, at: nat, p: Program)
    requires HasProgram(data, elf64, at, p)
    ensures at + PhdrSize(ClassOf(elf64)) <= |data|
    ensures HeaderAt(data, ClassOf(elf64), at) == ProgramHeader(p.ptype, p.offset, p.filesz, p.align)
  {
    hide HasProgram, HeaderAt;
    if elf64 {
      ProgramRead64(data, at, p);
    } else {
      ProgramRead32(data, at, p);
    }
  }

  lemma SectionRead(data: seq<byte>, elf64: bool, at: nat, s: Section)
    requires HasSection(data, elf64, at, s)
    ensures at + InfoAt(ClassOf(elf64)) + 4 <= |data| && Field(data, at + InfoAt(ClassOf(elf64)), 4) == s.info
  {
    hide U32, Word, Field, Lies;
    var h := SectionBytes(elf64, s);
    var before := (U32(s.name) + U32(s.stype)) + (Word(elf64, s.flags) + Word(elf64, s.addr))
                  + (Word(elf64, s.offset) + Word(elf64, s.size)) + U32(s.link);
    assert h == before + U32(s.info) + [];
    PartLies(data, at, h, before, U32(s.info), []);
    Lying32(data, at + |before|, s.info);
  }

  // ---------- Files ----------

  /** What a file with program headers says: its header, the first section header where that holds the number of program
      headers, and the program headers. */
  datatype File = File(elf64: bool, ident: seq<byte>, header: FileHeader, section: Section, programs: seq<Program>)

  /** The number of program headers is in the file header, or it is 0xFFFF there and in the first section header. */
  predicate HasCount(data: seq<byte>, x: File) {
    x.header.phnum != 0 &&
    if x.header.phnum == 0xFFFF then
      HasSection(data, x.elf64, x.header.shoff, x.section) && x.section.info == |x.programs|
    else x.header.phnum == |x.programs|
  }

  /** Each entry of the table has at least the size of a program header; what follows it in the entry is ignored. */
  predicate HasTable(data: seq<byte>, x: File) {
    x.header.phentsize >= (if x.elf64 then 56 else 32) &&
    x.header.phoff + |x.programs| * x.header.phentsize <= |data| &&
    forall i :: 0 <= i < |x.programs| ==>
                  HasProgram(data, x.elf64, x.header.phoff + i * x.header.phentsize, x.programs[i])
  }

  predicate IsFile(data: seq<byte>, x: File) {
    Starts(data, x.elf64, x.ident, x.header) && HasCount(data, x) && HasTable(data, x)
  }

  predicate CutOff(data: seq<byte>, p: Program) {
    p.ptype == 4 && p.offset + p.filesz > |data|
  }

  /** The records in the note segments, which have type 4. */
  function FileRecords(data: seq<byte>, programs: seq<Program>): seq<seq<byte>> {
    if programs == [] then []
    else
      var p := programs[0];
      (if p.ptype == 4 && p.offset + p.filesz <= |data| then
         SegmentRecords(data[p.offset..p.offset + p.filesz], if p.align == 8 then 8 else 4)
       else [])
      + FileRecords(data, programs[1..])
  }

  lemma CountRead(data: seq<byte>, x: File)
    requires Starts(data, x.elf64, x.ident, x.header) && HasCount(data, x)
    ensures var c := ClassOf(x.elf64); |data| >= HeaderSize(c) && HeaderCount(data, c) == Ok(|x.programs|)
  {
    hide Starts, HasSection, Field;
    HeaderFields(data, x.elf64, x.ident, x.header);
    if x.header.phnum == 0xFFFF {
      SectionRead(data, x.elf64, x.header.shoff, x.section);
    }
  }

  lemma TableRead(data: seq<byte>, x: File)
    requires IsFile(data, x)
    ensures var c := ClassOf(x.elf64);
            x.header.phentsize >= PhdrSize(c) && x.header.phoff + |x.programs| * x.header.phentsize <= |data| &&
            Headers(data, c) == Ok(HeadersFrom(data, c, x.header.phoff, x.header.phentsize, |x.programs|, 0))
  {
    hide Starts, HasSection, HasProgram, Field, HeadersFrom, HeaderCount;
    HeaderFields(data, x.elf64, x.ident, x.header);
    CountRead(data, x);
  }

  /** What is read from the program headers on from some entry. */
  predicate ReadAs(data: seq<byte>, segments: Result<seq<NoteSegment>, ElfError>, programs: seq<Program>) {
    if exists k :: 0 <= k < |programs| && CutOff(data, programs[k]) then segments == Err(TruncatedSegment)
    else segments.Ok? && ImageRecords(segments.value) == FileRecords(data, programs)
  }

  lemma EntryRead(data: seq<byte>, p: Program, headers: seq<ProgramHeader>, programs: seq<Program>)
    requires ReadAs(data, NoteSegments(data, headers), programs)
    ensures var h := ProgramHeader(p.ptype, p.offset, p.filesz, p.align);
            ReadAs(data, NoteSegments(data, [h] + headers), [p] + programs)
  {
    hide SegmentRecords;
    var h := ProgramHeader(p.ptype, p.offset, p.filesz, p.align);
    var all := [p] + programs;
    assert ([h] + headers)[1..] == headers && all[1..] == programs;
    assert forall k :: 0 <= k < |programs| ==> all[k + 1] == programs[k];
    if CutOff(data, p) {
      assert CutOff(data, all[0]);
    }
    if k :| 0 <= k < |programs| && CutOff(data, programs[k]) {
      assert CutOff(data, all[k + 1]);
    }
    if !CutOff(data, p) && NoteSegments(data, headers).Ok? && p.ptype == 4 {
      var segment := NoteSegment(data[p.offset..p.offset + p.filesz], NoteAlignment(p.align));
      assert ([segment] + NoteSegments(data, headers).value)[1..] == NoteSegments(data, headers).value;
    }
  }

  lemma NoEntries(data: seq<byte>)
    ensures ReadAs(data, NoteSegments(data, []), [])
  {
  }

  lemma {:induction false} EntriesRead(data: seq<byte>, x: File, i: nat)
    requires IsFile(data, x) && i <= |x.programs|
    ensures x.header.phentsize >= PhdrSize(ClassOf(x.elf64)) &&
            x.header.phoff + |x.programs| * x.header.phentsize <= |data|
    ensures ReadAs(data, NoteSegments(data, HeadersFrom(data, ClassOf(x.elf64), x.header.phoff, x.header.phentsize,
                                                        |x.programs|, i)), x.programs[i..])
    decreases |x.programs| - i
  {
    hide Starts, HasCount, HasProgram, HeaderAt, ReadAs, NoteSegments;
    var c, size, count := ClassOf(x.elf64), x.header.phentsize, |x.programs|;
    if i == count {
      NoEntries(data);
      assert x.programs[i..] == [];
    } else {
      EntriesRead(data, x, i + 1);
      HeadersStep(data, c, x.header.phoff, size, count, i);
      ProgramRead(data, x.elf64, x.header.phoff + i * size, x.programs[i]);
      EntryRead(data, x.programs[i], HeadersFrom(data, c, x.header.phoff, size, count, i + 1), x.programs[i + 1..]);
      assert x.programs[i..] == [x.programs[i]] + x.programs[i + 1..];
    }
  }

  lemma FileStarts(data: seq<byte>, x: File)
    requires IsFile(data, x)
    ensures Identify(data) == Some(ClassOf(x.elf64))
  {
    hide Starts, HasCount, HasTable;
    Identified(data, x.elf64, x.ident, x.header);
  }

  /** Every file with program headers, of either class and with any values in the fields that are not used, is read as
      the records in its segments of type 4, unless one of them is cut off or there is more than one record. */
  lemma FormatRead(data: seq<byte>, x: File)
    requires IsFile(data, x)
    ensures var records := FileRecords(data, x.programs);
            ModuleInfo(data) ==
            if exists i :: 0 <= i < |x.programs| && CutOff(data, x.programs[i]) then Err(TruncatedSegment)
            else if |records| > 1 then Err(ManyRecords)
            else if |records| == 1 then Ok(records[0])
            else Ok([])
  {
    hide IsFile, Starts, HasCount, HasTable, HeadersFrom, NoteSegments, ImageRecords, FileRecords, Headers;
    FileStarts(data, x);
    TableRead(data, x);
    EntriesRead(data, x, 0);
    assert x.programs[0..] == x.programs;
  }

  /** What is no little-endian ELF file of either class is a file without metadata, and what is too short for its header
      is an error. */
  lemma OtherFiles(data: seq<byte>)
    ensures |data| < 16 || data[..4] != [0x7f, 0x45, 0x4c, 0x46] || data[5] != 1 || (data[4] != 1 && data[4] != 2) ==>
              ModuleInfo(data) == Ok([])
    ensures |data| >= 16 && data[..4] == [0x7f, 0x45, 0x4c, 0x46] && data[5] == 1 && (data[4] == 1 || data[4] == 2) &&
            |data| < (if data[4] == 2 then 64 else 52) ==>
              ModuleInfo(data) == Err(TruncatedHeader)
  {
  }

  /** A file without program headers is one without metadata; a number that is not in the file, entries that are too
      small and a table that is cut off are errors. */
  lemma BadTables(data: seq<byte>, elf64: bool, ident: seq<byte>, f: FileHeader, section: Section)
    requires Starts(data, elf64, ident, f)
    ensures f.phnum == 0 ==> ModuleInfo(data) == Ok([])
    ensures f.phnum == 0xFFFF && f.shoff + (if elf64 then 48 else 32) > |data| ==>
              ModuleInfo(data) == Err(TruncatedSectionHeader)
    ensures f.phnum != 0 && (f.phnum == 0xFFFF ==> HasSection(data, elf64, f.shoff, section)) ==>
              var count := if f.phnum == 0xFFFF then section.info else f.phnum;
              f.phentsize < (if elf64 then 56 else 32) || f.phoff + count * f.phentsize > |data| ==>
                ModuleInfo(data) == Err(BadProgramHeaders)
  {
    hide Starts, HasSection, Field, HeadersFrom, NoteSegments, Verdict, Identify;
    HeaderFields(data, elf64, ident, f);
    Identified(data, elf64, ident, f);
    if f.phnum == 0 {
      NoHeaders(data);
    }
    if f.phnum == 0xFFFF && HasSection(data, elf64, f.shoff, section) {
      SectionRead(data, elf64, f.shoff, section);
    }
  }

  // ---------- Notes ----------

  /** A note: the sizes of its name and its description, its type, and the two of them, with what follows each. */
  function NoteBytes(n: Note): seq<byte> {
    U32(|n.name|) + U32(|n.desc|) + U32(n.ntype) + n.name + n.namePad + n.desc + n.descPad
  }

  function NotesBytes(notes: seq<Note>): seq<byte> {
    if notes == [] then [] else NoteBytes(notes[0]) + NotesBytes(notes[1..])
  }

  /** The descriptions of the notes with the name "Qore" and a zero byte and the type of module metadata. */
  function Descriptions(notes: seq<Note>): seq<seq<byte>> {
    if notes == [] then []
    else
      (if notes[0].name == [0x51, 0x6f, 0x72, 0x65, 0x00] && notes[0].ntype == 0x494D4151 then [notes[0].desc] else [])
      + Descriptions(notes[1..])
  }

  /** The number of bytes up to the next multiple of the alignment. */
  function PaddingAfter(size: nat, a: nat): nat
    requires a > 0
  {
    (a - size % a) % a
  }

  /** The description starts at the next multiple of the alignment after the name, and the next note after the
      description; the padding at the end of the segment may be incomplete. */
  predicate WellPadded(notes: seq<Note>, followed: bool, a: nat)
    requires a > 0
  {
    notes == [] ||
    (var n := notes[0];
     |n.name| < 0x1_0000_0000 && |n.desc| < 0x1_0000_0000 && n.ntype < 0x1_0000_0000 &&
     |n.namePad| == PaddingAfter(12 + |n.name|, a) && |n.descPad| <= PaddingAfter(|n.desc|, a) &&
     (notes[1..] != [] || followed ==> |n.descPad| == PaddingAfter(|n.desc|, a)) &&
     WellPadded(notes[1..], followed, a))
  }

  predicate Sizes(rest: seq<byte>, nameSize: nat, descSize: nat)
    requires |rest| >= 8
  {
    nameSize < 0x1_0000_0000 && descSize < 0x1_0000_0000 && rest[..8] == U32(nameSize) + U32(descSize)
  }

  /** The rest of a segment, in which no further note fits: it is too short for one, or its description does not end in
      it. */
  ghost predicate NoFurtherNote(rest: seq<byte>, a: nat)
    requires a > 0
  {
    |rest| < 12 ||
    exists nameSize: nat, descSize: nat ::
      Sizes(rest, nameSize, descSize) && 12 + nameSize + PaddingAfter(12 + nameSize, a) + descSize > |rest|
  }

  lemma NoteEncoded(n: Note)
    ensures NoteBytes(n) == EncodeNote(n)
  {
    hide Pack;
    Pack4(|n.name|);
    Pack4(|n.desc|);
    Pack4(n.ntype);
  }

  lemma {:induction false} NotesEncoded(notes: seq<Note>)
    ensures NotesBytes(notes) == Encode(notes) && Descriptions(notes) == Records(notes)
  {
    hide NoteBytes, EncodeNote;
    if notes == [] {
    } else {
      NoteEncoded(notes[0]);
      NotesEncoded(notes[1..]);
    }
  }

  lemma Padding4(size: nat)
    ensures PaddingAfter(size, 4) < 4 && Multiple(size + PaddingAfter(size, 4), 4)
  {
  }

  lemma Padding8(size: nat)
    ensures PaddingAfter(size, 8) < 8 && Multiple(size + PaddingAfter(size, 8), 8)
  {
  }

  lemma ZeroIsMultiple(a: nat)
    ensures Multiple(0, a)
  {
  }

  /** The next multiple of the alignment is the one that the reader computes. */
  lemma NextMultiple(size: nat, a: nat)
    requires a == 4 || a == 8
    ensures Align(size, a) == size + PaddingAfter(size, a)
  {
    hide Align, PaddingAfter, Multiple;
    AlignMeaning(size, a);
    Padding4(size);
    Padding8(size);
    ZeroIsMultiple(a);
    OneMultiple(0, size + PaddingAfter(size, a), Align(size, a), size, a);
  }

  lemma {:induction false} PaddedIsValid(notes: seq<Note>, rest: seq<byte>, a: nat)
    requires (a == 4 || a == 8) && WellPadded(notes, rest != [], a)
    ensures ValidChain(notes, rest, a)
  {
    hide Align, PaddingAfter;
    if notes == [] {
    } else {
      NextMultiple(12 + |notes[0].name|, a);
      NextMultiple(|notes[0].desc|, a);
      PaddedIsValid(notes[1..], rest, a);
    }
  }

  lemma NothingFits(rest: seq<byte>, a: nat)
    requires (a == 4 || a == 8) && NoFurtherNote(rest, a)
    ensures !StartsWithNote(rest, a)
  {
    hide Align, Field, U32, PaddingAfter;
    if |rest| >= 12 {
      var nameSize: nat, descSize: nat :|
        Sizes(rest, nameSize, descSize) && 12 + nameSize + PaddingAfter(12 + nameSize, a) + descSize > |rest|;
      assert rest[0..4] == rest[..8][0..4] == U32(nameSize);
      assert rest[4..8] == rest[..8][4..8] == U32(descSize);
      Lying32(rest, 0, nameSize);
      Lying32(rest, 4, descSize);
      NextMultiple(12 + nameSize, a);
    }
  }

  /** Every segment of notes is read as the descriptions of its metadata notes, in order. */
  lemma NotesRead(notes: seq<Note>, rest: seq<byte>, a: nat)
    requires (a == 4 || a == 8) && WellPadded(notes, rest != [], a) && NoFurtherNote(rest, a)
    ensures SegmentRecords(NotesBytes(notes) + rest, a) == Descriptions(notes)
  {
    hide WellPadded, NoFurtherNote, Descriptions, NotesBytes;
    NotesEncoded(notes);
    PaddedIsValid(notes, rest, a);
    NothingFits(rest, a);
    DecodeEncode(notes, rest, a);
  }

  /** The bytes of the note that qcc emits. */
  lemma QccBytes(record: seq<byte>)
    ensures EncodeNote(QccNote(record)) ==
            U32(5) + U32(|record|) + U32(0x494D4151) + [0x51, 0x6f, 0x72, 0x65, 0, 0, 0, 0] + record
            + seq(PaddingAfter(|record|, 4), i => 0)
  {
    hide Align, U32;
    var n := QccNote(record);
    NoteEncoded(n);
    NextMultiple(|record|, 4);
    assert n.descPad == seq(PaddingAfter(|record|, 4), i => 0);
    assert n.name + n.namePad == [0x51, 0x6f, 0x72, 0x65, 0, 0, 0, 0];
    assert NoteBytes(n) == U32(5) + U32(|record|) + U32(0x494D4151) + (n.name + n.namePad) + n.desc + n.descPad;
  }
}
