/** A writer of ELF images with notes, and the proof that the reader inverts it. */
module ElfWriter {
  import opened Wrappers
  import opened Bytes
  import opened ElfNotes
  import opened ElfImage
  import opened ElfLayout

  /** A segment and the bytes that precede it in the file. */
  datatype Piece = Piece(gap: seq<byte>, segment: Segment)

  function Zeros(n: nat): (z: seq<byte>)
    ensures |z| == n
  {
    seq(n, i => 0)
  }

  function ClassByte(c: Class): byte { if c == Elf64 then 2 else 1 }
  function SectionSize(c: Class): nat { if c == Elf64 then 64 else 40 }

  function FileHeader(c: Class, phoff: nat, shoff: nat, phnum: nat): (h: seq<byte>)
    ensures |h| == HeaderSize(c)
  {
    MAGIC + [ClassByte(c), 1] + Zeros(PhoffAt(c) - 6)
    + (Pack(phoff, AddressSize(c)) + Pack(shoff, AddressSize(c)))
    + (Zeros(6) + Pack(PhdrSize(c), 2) + Pack(phnum, 2) + Zeros(6))
  }

  /** The first section header, which holds the number of program headers in the extended form. */
  function SectionHeader(c: Class, count: nat): (h: seq<byte>)
    ensures |h| == SectionSize(c)
  {
    Zeros(InfoAt(c)) + Pack(count, 4) + Zeros(SectionSize(c) - InfoAt(c) - 4)
  }

  function ProgramHeaderBytes(c: Class, s: Segment, offset: nat): (h: seq<byte>)
    ensures |h| == PhdrSize(c)
  {
    (Pack(s.ptype, 4) + Zeros(OffsetAt(c) - 4) + Pack(offset, AddressSize(c)))
    + (Zeros(SizeAt(c) - OffsetAt(c) - AddressSize(c)) + Pack(|s.contents|, AddressSize(c)))
    + (Zeros(8) + Pack(s.alignment, AddressSize(c)))
  }

  function Offsets(pieces: seq<Piece>, start: nat): (offsets: seq<nat>)
    ensures |offsets| == |pieces|
  {
    if pieces == [] then []
    else
      var offset := start + |pieces[0].gap|;
      [offset] + Offsets(pieces[1..], offset + |pieces[0].segment.contents|)
  }

  function Table(c: Class, pieces: seq<Piece>, offsets: seq<nat>): (t: seq<byte>)
    requires |offsets| == |pieces|
    ensures |t| == |pieces| * PhdrSize(c)
  {
    if pieces == [] then []
    else
      Distribute(|pieces| - 1, PhdrSize(c));
      ProgramHeaderBytes(c, pieces[0].segment, offsets[0]) + Table(c, pieces[1..], offsets[1..])
  }

  function Body(pieces: seq<Piece>): seq<byte> {
    if pieces == [] then [] else pieces[0].gap + pieces[0].segment.contents + Body(pieces[1..])
  }

  function Segments(pieces: seq<Piece>): (segments: seq<Segment>)
    ensures |segments| == |pieces|
    ensures forall i :: 0 <= i < |pieces| ==> segments[i] == pieces[i].segment
  {
    seq(|pieces|, i requires 0 <= i < |pieces| => pieces[i].segment)
  }

  /** The part of the image before the program header table. */
  function Front(c: Class, count: nat, extended: bool): seq<byte> {
    if extended then
      FileHeader(c, HeaderSize(c) + SectionSize(c), HeaderSize(c), PN_XNUM) + SectionHeader(c, count)
    else
      FileHeader(c, HeaderSize(c), 0, count)
  }

  function BodyStart(c: Class, count: nat, extended: bool): nat {
    |Front(c, count, extended)| + count * PhdrSize(c)
  }

  function Image(c: Class, pieces: seq<Piece>, extended: bool): seq<byte> {
    Front(c, |pieces|, extended) + Table(c, pieces, Offsets(pieces, BodyStart(c, |pieces|, extended))) + Body(pieces)
  }

  function ImagePlaces(c: Class, pieces: seq<Piece>, extended: bool): Places {
    Places(c, |Front(c, |pieces|, extended)|, if extended then HeaderSize(c) else 0, PhdrSize(c), extended,
           Offsets(pieces, BodyStart(c, |pieces|, extended)))
  }

  /** The numbers of the image fit the fields of the format. */
  predicate Representable(c: Class, pieces: seq<Piece>, extended: bool) {
    |Image(c, pieces, extended)| < Pow256(AddressSize(c)) &&
    (if extended then |pieces| < Pow256(4) else |pieces| < PN_XNUM) &&
    forall i :: 0 <= i < |pieces| ==>
                  pieces[i].segment.ptype < Pow256(4) && pieces[i].segment.alignment < Pow256(AddressSize(c))
  }

  // ---------- Fields ----------

  lemma FieldWritten(before: seq<byte>, v: nat, n: nat, after: seq<byte>)
    requires v < Pow256(n)
    ensures Field(before + Pack(v, n) + after, |before|, n) == v
  {
    UnpackPack(v, n);
    assert (before + Pack(v, n) + after)[|before|..|before| + n] == Pack(v, n);
  }

  /** A field of a part of the file is a field of the file. */
  lemma FieldOfPart(before: seq<byte>, part: seq<byte>, after: seq<byte>, offset: nat, n: nat)
    requires offset + n <= |part|
    ensures Field(before + part + after, |before| + offset, n) == Field(part, offset, n)
  {
    assert (before + part + after)[|before| + offset..|before| + offset + n] == part[offset..offset + n];
  }

  lemma FileHeaderFields(c: Class, phoff: nat, shoff: nat, phnum: nat)
    requires phoff < Pow256(AddressSize(c)) && shoff < Pow256(AddressSize(c)) && phnum < Pow256(2)
    ensures var h := FileHeader(c, phoff, shoff, phnum);
            Field(h, PhoffAt(c), AddressSize(c)) == phoff && Field(h, ShoffAt(c), AddressSize(c)) == shoff &&
            Field(h, PhentsizeAt(c), 2) == PhdrSize(c) && Field(h, PhnumAt(c), 2) == phnum
  {
    hide Field, Pack, Unpack;
    FieldWidths();
    var h := FileHeader(c, phoff, shoff, phnum);
    var ident := MAGIC + [ClassByte(c), 1] + Zeros(PhoffAt(c) - 6);
    var w := AddressSize(c);
    var tail := Zeros(6) + Pack(PhdrSize(c), 2) + Pack(phnum, 2) + Zeros(6);
    assert h == ident + Pack(phoff, w) + (Pack(shoff, w) + tail);
    FieldWritten(ident, phoff, w, Pack(shoff, w) + tail);
    assert h == (ident + Pack(phoff, w)) + Pack(shoff, w) + tail;
    FieldWritten(ident + Pack(phoff, w), shoff, w, tail);
    var front := ident + (Pack(phoff, w) + Pack(shoff, w)) + Zeros(6);
    assert h == front + Pack(PhdrSize(c), 2) + (Pack(phnum, 2) + Zeros(6));
    FieldWritten(front, PhdrSize(c), 2, Pack(phnum, 2) + Zeros(6));
    assert h == (front + Pack(PhdrSize(c), 2)) + Pack(phnum, 2) + Zeros(6);
    FieldWritten(front + Pack(PhdrSize(c), 2), phnum, 2, Zeros(6));
  }

  lemma ProgramHeaderFields(c: Class, s: Segment, offset: nat)
    requires s.ptype < Pow256(4) && offset < Pow256(AddressSize(c))
    requires |s.contents| < Pow256(AddressSize(c)) && s.alignment < Pow256(AddressSize(c))
    ensures HeaderAt(ProgramHeaderBytes(c, s, offset), c, 0)
         == ProgramHeader(s.ptype, offset, |s.contents|, s.alignment)
  {
    hide Field, Pack, Unpack;
    var w := AddressSize(c);
    var h := ProgramHeaderBytes(c, s, offset);
    var first := Pack(s.ptype, 4) + Zeros(OffsetAt(c) - 4);
    var second := Zeros(SizeAt(c) - OffsetAt(c) - w) + Pack(|s.contents|, w);
    var third := Zeros(8) + Pack(s.alignment, w);
    assert h == [] + Pack(s.ptype, 4) + (Zeros(OffsetAt(c) - 4) + Pack(offset, w) + second + third);
    FieldWritten([], s.ptype, 4, Zeros(OffsetAt(c) - 4) + Pack(offset, w) + second + third);
    assert h == first + Pack(offset, w) + (second + third);
    FieldWritten(first, offset, w, second + third);
    var front := first + Pack(offset, w) + Zeros(SizeAt(c) - OffsetAt(c) - w);
    assert h == front + Pack(|s.contents|, w) + third;
    FieldWritten(front, |s.contents|, w, third);
    var all := first + Pack(offset, w) + second + Zeros(8);
    assert h == all + Pack(s.alignment, w) + [];
    FieldWritten(all, s.alignment, w, []);
  }

  // ---------- The image is laid out as its places say ----------

  lemma HeaderOfPart(before: seq<byte>, part: seq<byte>, after: seq<byte>, c: Class)
    requires |part| == PhdrSize(c)
    ensures HeaderAt(before + part + after, c, |before|) == HeaderAt(part, c, 0)
  {
    hide Field;
    FieldOfPart(before, part, after, 0, 4);
    FieldOfPart(before, part, after, OffsetAt(c), AddressSize(c));
    FieldOfPart(before, part, after, SizeAt(c), AddressSize(c));
    FieldOfPart(before, part, after, AlignmentAt(c), AddressSize(c));
  }

  lemma {:induction false} TableEntry(c: Class, before: seq<byte>, pieces: seq<Piece>, offsets: seq<nat>,
                                      after: seq<byte>, i: nat)
    requires |offsets| == |pieces| && i < |pieces|
    ensures |before| + i * PhdrSize(c) + PhdrSize(c) <= |before + Table(c, pieces, offsets) + after|
    ensures HeaderAt(before + Table(c, pieces, offsets) + after, c, |before| + i * PhdrSize(c))
         == HeaderAt(ProgramHeaderBytes(c, pieces[i].segment, offsets[i]), c, 0)
    decreases i
  {
    hide HeaderAt, ProgramHeaderBytes;
    EntryInside(i, |pieces|, PhdrSize(c));
    var first := ProgramHeaderBytes(c, pieces[0].segment, offsets[0]);
    var rest := Table(c, pieces[1..], offsets[1..]);
    assert before + Table(c, pieces, offsets) + after == before + first + (rest + after);
    if i == 0 {
      HeaderOfPart(before, first, rest + after, c);
    } else {
      TableEntry(c, before + first, pieces[1..], offsets[1..], after, i - 1);
      Distribute(i - 1, PhdrSize(c));
      assert before + first + (rest + after) == (before + first) + rest + after;
    }
  }

  lemma {:induction false} BodyEntry(before: seq<byte>, pieces: seq<Piece>, i: nat)
    requires i < |pieces|
    ensures var data := before + Body(pieces);
            var offset, contents := Offsets(pieces, |before|)[i], pieces[i].segment.contents;
            offset + |contents| <= |data| && data[offset..offset + |contents|] == contents
    decreases i
  {
    var gap, contents := pieces[0].gap, pieces[0].segment.contents;
    assert before + Body(pieces) == (before + gap + contents) + Body(pieces[1..]);
    if i == 0 {
    } else {
      BodyEntry(before + gap + contents, pieces[1..], i - 1);
    }
  }

  lemma HeaderIdentified(c: Class, phoff: nat, shoff: nat, phnum: nat, rest: seq<byte>)
    ensures Identify(FileHeader(c, phoff, shoff, phnum) + rest) == Some(c)
  {
    var data := FileHeader(c, phoff, shoff, phnum) + rest;
    assert data[..4] == MAGIC && data[4] == ClassByte(c) && data[5] == 1;
  }

  lemma CountLaid(c: Class, header: seq<byte>, count: nat, rest: seq<byte>)
    requires |header| == HeaderSize(c) && count < Pow256(4)
    ensures Field(header + SectionHeader(c, count) + rest, HeaderSize(c) + InfoAt(c), 4) == count
  {
    hide Field;
    var tail := Zeros(SectionSize(c) - InfoAt(c) - 4);
    assert header + SectionHeader(c, count) + rest == (header + Zeros(InfoAt(c))) + Pack(count, 4) + (tail + rest);
    FieldWritten(header + Zeros(InfoAt(c)), count, 4, tail + rest);
  }

  /** The fields of a file that starts with a file header. */
  lemma StartsWithHeader(c: Class, phoff: nat, shoff: nat, phnum: nat, rest: seq<byte>)
    requires phoff < Pow256(AddressSize(c)) && shoff < Pow256(AddressSize(c)) && phnum < Pow256(2)
    ensures var data := FileHeader(c, phoff, shoff, phnum) + rest;
            Identify(data) == Some(c) && |data| >= HeaderSize(c) &&
            Field(data, PhoffAt(c), AddressSize(c)) == phoff && Field(data, ShoffAt(c), AddressSize(c)) == shoff &&
            Field(data, PhentsizeAt(c), 2) == PhdrSize(c) && Field(data, PhnumAt(c), 2) == phnum
  {
    hide Field, FileHeader, Identify;
    var header := FileHeader(c, phoff, shoff, phnum);
    assert header + rest == [] + header + rest;
    FileHeaderFields(c, phoff, shoff, phnum);
    FieldOfPart([], header, rest, PhoffAt(c), AddressSize(c));
    FieldOfPart([], header, rest, ShoffAt(c), AddressSize(c));
    FieldOfPart([], header, rest, PhentsizeAt(c), 2);
    FieldOfPart([], header, rest, PhnumAt(c), 2);
    HeaderIdentified(c, phoff, shoff, phnum, rest);
  }

  lemma FrontLaid(c: Class, pieces: seq<Piece>, extended: bool)
    requires Representable(c, pieces, extended)
    ensures HeaderLaid(Image(c, pieces, extended), ImagePlaces(c, pieces, extended), |pieces|)
  {
    hide Field, FileHeader, SectionHeader, Table, Body, Identify;
    FieldWidths();
    var data, p := Image(c, pieces, extended), ImagePlaces(c, pieces, extended);
    var header := FileHeader(c, p.phoff, p.shoff, if extended then PN_XNUM else |pieces|);
    assert data == header + data[HeaderSize(c)..];
    StartsWithHeader(c, p.phoff, p.shoff, if extended then PN_XNUM else |pieces|, data[HeaderSize(c)..]);
    if extended {
      CountLaid(c, header, |pieces|, data[HeaderSize(c) + SectionSize(c)..]);
      assert data == header + SectionHeader(c, |pieces|) + data[HeaderSize(c) + SectionSize(c)..];
    }
  }

  lemma PieceLaid(c: Class, pieces: seq<Piece>, extended: bool, i: nat)
    requires Representable(c, pieces, extended) && i < |pieces|
    ensures var data, p := Image(c, pieces, extended), ImagePlaces(c, pieces, extended);
            EntryFits(p, |pieces|, |data|, i) &&
            SegmentLaid(data, c, p.phoff + i * PhdrSize(c), p.offsets[i], pieces[i].segment)
  {
    hide HeaderAt, ProgramHeaderBytes, Table, Body, Offsets, Front;
    var data, p := Image(c, pieces, extended), ImagePlaces(c, pieces, extended);
    var table := Table(c, pieces, p.offsets);
    EntryInside(i, |pieces|, PhdrSize(c));
    TableEntry(c, Front(c, |pieces|, extended), pieces, p.offsets, Body(pieces), i);
    BodyEntry(Front(c, |pieces|, extended) + table, pieces, i);
    ProgramHeaderFields(c, pieces[i].segment, p.offsets[i]);
  }

  lemma ImageLength(c: Class, pieces: seq<Piece>, extended: bool)
    ensures |Front(c, |pieces|, extended)| + |pieces| * PhdrSize(c) <= |Image(c, pieces, extended)|
  {
  }

  lemma ImageLaid(c: Class, pieces: seq<Piece>, extended: bool)
    requires Representable(c, pieces, extended)
    ensures Laid(Image(c, pieces, extended), ImagePlaces(c, pieces, extended), Segments(pieces))
  {
    hide HeaderLaid, SegmentLaid, Image, Representable;
    var data, p := Image(c, pieces, extended), ImagePlaces(c, pieces, extended);
    FrontLaid(c, pieces, extended);
    ImageLength(c, pieces, extended);
    forall i | 0 <= i < |pieces|
      ensures EntryFits(p, |pieces|, |data|, i)
      ensures SegmentLaid(data, c, p.phoff + i * PhdrSize(c), p.offsets[i], Segments(pieces)[i])
    {
      PieceLaid(c, pieces, extended, i);
    }
  }

  /** The reader inverts the writer: it finds the records of the note segments that were written. */
  lemma WrittenImage(c: Class, pieces: seq<Piece>, extended: bool)
    requires Representable(c, pieces, extended)
    ensures ModuleInfo(Image(c, pieces, extended)) == Verdict(ImageRecords(NoteContents(Segments(pieces))))
  {
    ImageLaid(c, pieces, extended);
    LaidOutImage(Image(c, pieces, extended), ImagePlaces(c, pieces, extended), Segments(pieces));
  }

  // ---------- From notes to the record ----------

  /** The notes of a segment, and what follows the last of them. */
  datatype Chain = Chain(notes: seq<Note>, rest: seq<byte>, alignment: nat)

  predicate ValidChains(chains: seq<Chain>) {
    forall i :: 0 <= i < |chains| ==>
                  var a := NoteAlignment(chains[i].alignment);
                  ValidChain(chains[i].notes, chains[i].rest, a) && !StartsWithNote(chains[i].rest, a)
  }

  function ChainSegments(chains: seq<Chain>): seq<NoteSegment> {
    if chains == [] then []
    else [NoteSegment(Encode(chains[0].notes) + chains[0].rest, NoteAlignment(chains[0].alignment))]
         + ChainSegments(chains[1..])
  }

  function ChainRecords(chains: seq<Chain>): seq<seq<byte>> {
    if chains == [] then [] else Records(chains[0].notes) + ChainRecords(chains[1..])
  }

  lemma {:induction false} ChainsRead(chains: seq<Chain>)
    requires ValidChains(chains)
    ensures ImageRecords(ChainSegments(chains)) == ChainRecords(chains)
  {
    if chains == [] {
    } else {
      var a := NoteAlignment(chains[0].alignment);
      DecodeEncode(chains[0].notes, chains[0].rest, a);
      forall i | 0 <= i < |chains[1..]|
        ensures var b := NoteAlignment(chains[1..][i].alignment);
                ValidChain(chains[1..][i].notes, chains[1..][i].rest, b) && !StartsWithNote(chains[1..][i].rest, b)
      {
        assert chains[1..][i] == chains[i + 1];
      }
      ChainsRead(chains[1..]);
      var segment := NoteSegment(Encode(chains[0].notes) + chains[0].rest, a);
      assert ([segment] + ChainSegments(chains[1..]))[1..] == ChainSegments(chains[1..]);
    }
  }

  /** Every image written from chains of notes is read back as the record that its notes hold. */
  lemma NotesToRecord(c: Class, pieces: seq<Piece>, extended: bool, chains: seq<Chain>)
    requires Representable(c, pieces, extended) && ValidChains(chains)
    requires NoteContents(Segments(pieces)) == ChainSegments(chains)
    ensures ModuleInfo(Image(c, pieces, extended)) == Verdict(ChainRecords(chains))
  {
    hide Verdict, Image;
    WrittenImage(c, pieces, extended);
    ChainsRead(chains);
  }

  /** A module that holds the note of qcc in a segment of its own, anywhere in the file: its record is read exactly if
      the segment is not aligned to 8 bytes; otherwise the file is taken for one without metadata. */
  lemma QccModule(c: Class, gap: seq<byte>, alignment: nat, record: seq<byte>, extended: bool)
    requires |record| < WORD
    requires Representable(c, [Piece(gap, Segment(PT_NOTE, alignment, EncodeNote(QccNote(record))))], extended)
    ensures ModuleInfo(Image(c, [Piece(gap, Segment(PT_NOTE, alignment, EncodeNote(QccNote(record))))], extended)) ==
            Ok(if alignment == 8 then [] else record)
  {
    hide Image, Representable, EncodeNote, QccNote, SegmentRecords;
    var a := if alignment == 8 then 8 else 4;
    var segment := Segment(PT_NOTE, alignment, EncodeNote(QccNote(record)));
    WrittenImage(c, [Piece(gap, segment)], extended);
    assert Segments([Piece(gap, segment)]) == [segment];
    assert [segment][1..] == [];
    var noteSegment := NoteSegment(segment.contents, a);
    assert NoteContents([segment]) == [noteSegment] + [];
    assert [noteSegment] + [] == [noteSegment] && [noteSegment][1..] == [];
    QccNoteRead(record, a);
    assert ImageRecords([noteSegment]) == SegmentRecords(segment.contents, a) + [];
  }
}
