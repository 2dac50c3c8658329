/** The reader of a whole ELF image: the file header, the program headers and the note segments they describe. */
module ElfImage {
  import opened Wrappers
  import opened Bytes
  import opened ElfNotes

  const MAGIC: seq<byte> := [0x7f, 0x45, 0x4c, 0x46]
  const PT_NOTE := 4
  const PN_XNUM := 0xFFFF

  datatype Class = Elf32 | Elf64

  /** The reasons for a ValueError. */
  datatype ElfError = TruncatedHeader | TruncatedSectionHeader | BadProgramHeaders | TruncatedSegment | ManyRecords

  datatype ProgramHeader = ProgramHeader(ptype: nat, offset: nat, size: nat, alignment: nat)

  /** The bytes of a note segment, with the alignment that its notes use. */
  datatype NoteSegment = NoteSegment(contents: seq<byte>, alignment: nat)

  // The two file formats: the sizes of the structures and the offsets of their fields

  function AddressSize(c: Class): nat { if c == Elf64 then 8 else 4 }
  function HeaderSize(c: Class): nat { if c == Elf64 then 64 else 52 }
  function PhoffAt(c: Class): nat { if c == Elf64 then 32 else 28 }
  function ShoffAt(c: Class): nat { if c == Elf64 then 40 else 32 }
  function PhentsizeAt(c: Class): nat { if c == Elf64 then 54 else 42 }
  function PhnumAt(c: Class): nat { if c == Elf64 then 56 else 44 }
  function InfoAt(c: Class): nat { if c == Elf64 then 44 else 28 }
  function PhdrSize(c: Class): nat { if c == Elf64 then 56 else 32 }
  function OffsetAt(c: Class): nat { if c == Elf64 then 8 else 4 }
  function SizeAt(c: Class): nat { if c == Elf64 then 32 else 16 }
  function AlignmentAt(c: Class): nat { if c == Elf64 then 48 else 28 }

  /** The class of a little-endian ELF image; None for any other file. */
  function Identify(data: seq<byte>): Option<Class> {
    if |data| < 16 || data[..4] != MAGIC || data[5] != 1 || (data[4] != 1 && data[4] != 2) then None
    else Some(if data[4] == 2 then Elf64 else Elf32)
  }

  /** The number of program headers; in the extended form it is in the first section header. */
  function HeaderCount(data: seq<byte>, c: Class): Result<nat, ElfError>
    requires |data| >= HeaderSize(c)
  {
    var phnum := Field(data, PhnumAt(c), 2);
    if phnum != PN_XNUM then Ok(phnum)
    else
      var info := Field(data, ShoffAt(c), AddressSize(c)) + InfoAt(c);
      if info + 4 > |data| then Err(TruncatedSectionHeader) else Ok(Field(data, info, 4))
  }

  function HeaderAt(data: seq<byte>, c: Class, base: nat): ProgramHeader
    requires base + PhdrSize(c) <= |data|
  {
    ProgramHeader(Field(data, base, 4), Field(data, base + OffsetAt(c), AddressSize(c)),
                  Field(data, base + SizeAt(c), AddressSize(c)), Field(data, base + AlignmentAt(c), AddressSize(c)))
  }

  lemma Distribute(count: nat, size: nat)
    ensures (count + 1) * size == count * size + size
  {
  }

  /** A table entry lies inside the table. */
  lemma {:induction false} EntryInside(index: nat, count: nat, size: nat)
    requires index < count
    ensures index * size + size <= count * size
  {
    if index + 1 == count {
    } else {
      EntryInside(index, count - 1, size);
    }
    Distribute(count - 1, size);
  }

  /** The entries of the program header table from index on. */
  function HeadersFrom(data: seq<byte>, c: Class, phoff: nat, size: nat, count: nat, index: nat): seq<ProgramHeader>
    requires size >= PhdrSize(c) && phoff + count * size <= |data| && index <= count
    decreases count - index
  {
    if index == count then []
    else
      EntryInside(index, count, size);
      [HeaderAt(data, c, phoff + index * size)] + HeadersFrom(data, c, phoff, size, count, index + 1)
  }

  function Headers(data: seq<byte>, c: Class): Result<seq<ProgramHeader>, ElfError> {
    if |data| < HeaderSize(c) then Err(TruncatedHeader)
    else if Field(data, PhnumAt(c), 2) == 0 then Ok([])
    else
      match HeaderCount(data, c)
      case Err(e) => Err(e)
      case Ok(count) =>
        var phoff, size := Field(data, PhoffAt(c), AddressSize(c)), Field(data, PhentsizeAt(c), 2);
        if size < PhdrSize(c) || phoff + count * size > |data| then Err(BadProgramHeaders)
        else Ok(HeadersFrom(data, c, phoff, size, count, 0))
  }

  function NoteAlignment(alignment: nat): nat {
    if alignment == 8 then 8 else 4
  }

  /** The contents of the note segments that the headers describe, in the order of the headers. */
  function NoteSegments(data: seq<byte>, headers: seq<ProgramHeader>): Result<seq<NoteSegment>, ElfError> {
    if headers == [] then Ok([])
    else
      var h := headers[0];
      if h.ptype != PT_NOTE then NoteSegments(data, headers[1..])
      else if h.offset + h.size > |data| then Err(TruncatedSegment)
      else
        match NoteSegments(data, headers[1..])
        case Err(e) => Err(e)
        case Ok(others) =>
          Ok([NoteSegment(data[h.offset..h.offset + h.size], NoteAlignment(h.alignment))] + others)
  }

  /** The records of all note segments of an image. */
  function ImageRecords(segments: seq<NoteSegment>): seq<seq<byte>> {
    if segments == [] then []
    else SegmentRecords(segments[0].contents, NoteAlignment(segments[0].alignment)) + ImageRecords(segments[1..])
  }

  /** An image must not hold more than one record; empty bytes stand for none. */
  function Verdict(records: seq<seq<byte>>): Result<seq<byte>, ElfError> {
    if |records| > 1 then Err(ManyRecords) else Ok(if records == [] then [] else records[0])
  }

  function ImageSegments(data: seq<byte>, c: Class): Result<seq<NoteSegment>, ElfError> {
    match Headers(data, c)
    case Err(e) => Err(e)
    case Ok(headers) => NoteSegments(data, headers)
  }

  /** The module metadata record of a file. */
  function ModuleInfo(data: seq<byte>): Result<seq<byte>, ElfError> {
    match Identify(data)
    case None => Ok([])
    case Some(c) =>
      match ImageSegments(data, c)
      case Err(e) => Err(e)
      case Ok(segments) => Verdict(ImageRecords(segments))
  }

  // ---------- The reader ----------

  lemma HeadersStep(data: seq<byte>, c: Class, phoff: nat, size: nat, count: nat, index: nat)
    requires size >= PhdrSize(c) && phoff + count * size <= |data| && index < count
    ensures phoff + index * size + PhdrSize(c) <= |data|
    ensures HeadersFrom(data, c, phoff, size, count, index)
         == [HeaderAt(data, c, phoff + index * size)] + HeadersFrom(data, c, phoff, size, count, index + 1)
  {
    EntryInside(index, count, size);
  }

  /** What the loop over the program headers still has to do, given the records found so far. */
  function Remaining(data: seq<byte>, headers: seq<ProgramHeader>, found: seq<seq<byte>>): Result<seq<byte>, ElfError> {
    match NoteSegments(data, headers)
    case Err(e) => Err(e)
    case Ok(segments) => Verdict(found + ImageRecords(segments))
  }

  lemma RemainingStep(data: seq<byte>, h: ProgramHeader, rest: seq<ProgramHeader>, found: seq<seq<byte>>)
    ensures h.ptype != PT_NOTE ==> Remaining(data, [h] + rest, found) == Remaining(data, rest, found)
    ensures h.ptype == PT_NOTE && h.offset + h.size > |data| ==> Remaining(data, [h] + rest, found) == Err(TruncatedSegment)
    ensures h.ptype == PT_NOTE && h.offset + h.size <= |data| ==>
              Remaining(data, [h] + rest, found) ==
              Remaining(data, rest,
                        found + SegmentRecords(data[h.offset..h.offset + h.size], NoteAlignment(h.alignment)))
  {
    hide SegmentRecords;
    assert ([h] + rest)[1..] == rest;
    if h.ptype == PT_NOTE && h.offset + h.size <= |data| && NoteSegments(data, rest).Ok? {
      var segment := NoteSegment(data[h.offset..h.offset + h.size], NoteAlignment(h.alignment));
      var others := NoteSegments(data, rest).value;
      assert ([segment] + others)[1..] == others;
      var records := SegmentRecords(segment.contents, segment.alignment);
      assert found + (records + ImageRecords(others)) == (found + records) + ImageRecords(others);
    }
  }

  lemma NoHeaders(data: seq<byte>)
    ensures NoteSegments(data, []) == Ok([])
    ensures Verdict(ImageRecords([])) == Ok([])
  {
  }

  lemma AllRead(data: seq<byte>, c: Class, phoff: nat, size: nat, count: nat, found: seq<seq<byte>>)
    requires size >= PhdrSize(c) && phoff + count * size <= |data|
    ensures Remaining(data, HeadersFrom(data, c, phoff, size, count, count), found) == Verdict(found)
  {
    assert found + [] == found;
  }

  /** The loop over the program headers. */
  method ReadSegments(data: seq<byte>, c: Class, phoff: nat, phentsize: nat, phnum: nat)
    returns (r: Result<seq<byte>, ElfError>)
    requires phentsize >= PhdrSize(c) && phoff + phnum * phentsize <= |data|
    ensures r == Remaining(data, HeadersFrom(data, c, phoff, phentsize, phnum, 0), [])
  {
    hide HeadersFrom, NoteSegments, Remaining, SegmentRecords, HeaderAt;
    var records: seq<seq<byte>> := [];
    for index := 0 to phnum
      invariant Remaining(data, HeadersFrom(data, c, phoff, phentsize, phnum, index), records)
             == Remaining(data, HeadersFrom(data, c, phoff, phentsize, phnum, 0), [])
    {
      HeadersStep(data, c, phoff, phentsize, phnum, index);
      var entry := HeaderAt(data, c, phoff + index * phentsize);
      RemainingStep(data, entry, HeadersFrom(data, c, phoff, phentsize, phnum, index + 1), records);
      if entry.ptype != PT_NOTE {
        continue;
      }
      if entry.offset + entry.size > |data| {
        return Err(TruncatedSegment);
      }
      records := ReadNotes(data[entry.offset..entry.offset + entry.size], NoteAlignment(entry.alignment), records);
    }
    AllRead(data, c, phoff, phentsize, phnum, records);
    if |records| > 1 {
      return Err(ManyRecords);
    }
    return Ok(if records == [] then [] else records[0]);
  }

  /** Reads the module metadata record of a file: the file header is checked, and then a loop reads the note segments
      that the program headers describe. */
  method ReadModuleInfo(data: seq<byte>) returns (r: Result<seq<byte>, ElfError>)
    ensures r == ModuleInfo(data)
  {
    hide HeadersFrom, NoteSegments, SegmentRecords, HeaderAt, Field;
    if |data| < 16 || data[..4] != MAGIC || data[5] != 1 || (data[4] != 1 && data[4] != 2) {
      return Ok([]);
    }
    var c := if data[4] == 2 then Elf64 else Elf32;
    if |data| < HeaderSize(c) {
      return Err(TruncatedHeader);
    }
    var phoff := Field(data, PhoffAt(c), AddressSize(c));
    var shoff := Field(data, ShoffAt(c), AddressSize(c));
    var phentsize := Field(data, PhentsizeAt(c), 2);
    var phnum := Field(data, PhnumAt(c), 2);
    if phnum == 0 {
      assert Headers(data, c) == Ok([]);
      NoHeaders(data);
      return Ok([]);
    }
    if phnum == PN_XNUM {
      var info := shoff + InfoAt(c);
      if info + 4 > |data| {
        return Err(TruncatedSectionHeader);
      }
      phnum := Field(data, info, 4);
    }
    if phentsize < PhdrSize(c) || phoff + phnum * phentsize > |data| {
      return Err(BadProgramHeaders);
    }
    assert Headers(data, c) == Ok(HeadersFrom(data, c, phoff, phentsize, phnum, 0));
    r := ReadSegments(data, c, phoff, phentsize, phnum);
  }
}
