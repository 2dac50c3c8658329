/** What the reader promises about images: the record does not depend on where the note segments lie, an image that
    lost its end is never read as something else, and a record is returned exactly when it is the only one. */
module ElfLayout {
  import opened Wrappers
  import opened Bytes
  import opened ElfImage

  /** A segment as a linker knows it: its type, its alignment and its bytes. */
  datatype Segment = Segment(ptype: nat, alignment: nat, contents: seq<byte>)

  /** Where an image keeps its tables, and where each segment starts in the file. */
  datatype Places = Places(c: Class, phoff: nat, shoff: nat, phentsize: nat, extended: bool, offsets: seq<nat>)

  /** The contents and the alignment classes of the note segments, without their places. */
  function NoteContents(segments: seq<Segment>): seq<NoteSegment> {
    if segments == [] then []
    else (if segments[0].ptype == PT_NOTE
          then [NoteSegment(segments[0].contents, NoteAlignment(segments[0].alignment))] else [])
         + NoteContents(segments[1..])
  }

  /** The file header describes the program header table, in the plain or in the extended form. */
  predicate HeaderLaid(data: seq<byte>, p: Places, count: nat) {
    Identify(data) == Some(p.c) && |data| >= HeaderSize(p.c) &&
    Field(data, PhoffAt(p.c), AddressSize(p.c)) == p.phoff && Field(data, ShoffAt(p.c), AddressSize(p.c)) == p.shoff &&
    Field(data, PhentsizeAt(p.c), 2) == p.phentsize && p.phentsize >= PhdrSize(p.c) &&
    p.phoff + count * p.phentsize <= |data| &&
    if p.extended then
      Field(data, PhnumAt(p.c), 2) == PN_XNUM && p.shoff + InfoAt(p.c) + 4 <= |data| &&
      Field(data, p.shoff + InfoAt(p.c), 4) == count
    else
      Field(data, PhnumAt(p.c), 2) == count && count < PN_XNUM
  }

  /** One segment: its program header gives its type and, for notes, the place where its bytes are. */
  predicate SegmentLaid(data: seq<byte>, c: Class, base: nat, offset: nat, s: Segment)
    requires base + PhdrSize(c) <= |data|
  {
    var h := HeaderAt(data, c, base);
    h.ptype == s.ptype &&
    (s.ptype == PT_NOTE ==>
       h.offset == offset && h.size == |s.contents| && h.alignment == s.alignment &&
       offset + |s.contents| <= |data| && data[offset..offset + |s.contents|] == s.contents)
  }

  predicate EntryFits(p: Places, count: nat, length: nat, i: nat)
    requires i < count && p.phentsize >= PhdrSize(p.c) && p.phoff + count * p.phentsize <= length
    ensures EntryFits(p, count, length, i) && p.phoff + i * p.phentsize + PhdrSize(p.c) <= length
  {
    EntryInside(i, count, p.phentsize);
    true
  }

  predicate SegmentsLaid(data: seq<byte>, p: Places, segments: seq<Segment>)
    requires p.phentsize >= PhdrSize(p.c) && p.phoff + |segments| * p.phentsize <= |data|
  {
    |p.offsets| == |segments| &&
    forall i :: 0 <= i < |segments| ==>
                  EntryFits(p, |segments|, |data|, i) &&
                  SegmentLaid(data, p.c, p.phoff + i * p.phentsize, p.offsets[i], segments[i])
  }

  /** The file is an image of the segments, laid out at the places. */
  predicate Laid(data: seq<byte>, p: Places, segments: seq<Segment>) {
    HeaderLaid(data, p, |segments|) && SegmentsLaid(data, p, segments)
  }

  // ---------- The record does not depend on the layout ----------

  lemma SegmentRead(data: seq<byte>, c: Class, base: nat, offset: nat, s: Segment,
                    headers: seq<ProgramHeader>, others: seq<Segment>)
    requires base + PhdrSize(c) <= |data| && SegmentLaid(data, c, base, offset, s)
    requires NoteSegments(data, headers) == Ok(NoteContents(others))
    ensures NoteSegments(data, [HeaderAt(data, c, base)] + headers) == Ok(NoteContents([s] + others))
  {
    hide HeaderAt;
    var h := HeaderAt(data, c, base);
    assert ([h] + headers)[1..] == headers && ([s] + others)[1..] == others;
    assert [] + NoteContents(others) == NoteContents(others);
  }

  lemma {:induction false} SegmentsRead(data: seq<byte>, p: Places, segments: seq<Segment>, i: nat)
    requires p.phentsize >= PhdrSize(p.c) && p.phoff + |segments| * p.phentsize <= |data|
    requires SegmentsLaid(data, p, segments) && i <= |segments|
    ensures NoteSegments(data, HeadersFrom(data, p.c, p.phoff, p.phentsize, |segments|, i)) == Ok(NoteContents(segments[i..]))
    decreases |segments| - i
  {
    hide HeaderAt;
    if i == |segments| {
    } else {
      SegmentsRead(data, p, segments, i + 1);
      HeadersStep(data, p.c, p.phoff, p.phentsize, |segments|, i);
      assert EntryFits(p, |segments|, |data|, i);
      SegmentRead(data, p.c, p.phoff + i * p.phentsize, p.offsets[i], segments[i],
                  HeadersFrom(data, p.c, p.phoff, p.phentsize, |segments|, i + 1), segments[i + 1..]);
      assert segments[i..] == [segments[i]] + segments[i + 1..];
    }
  }

  lemma HeadersRead(data: seq<byte>, p: Places, count: nat)
    requires HeaderLaid(data, p, count)
    ensures Headers(data, p.c) == Ok(HeadersFrom(data, p.c, p.phoff, p.phentsize, count, 0))
  {
    hide Field;
  }

  /** An image is read as the records of its note segments, wherever they lie and however the count is given. */
  lemma LaidOutImage(data: seq<byte>, p: Places, segments: seq<Segment>)
    requires Laid(data, p, segments)
    ensures ModuleInfo(data) == Verdict(ImageRecords(NoteContents(segments)))
  {
    hide HeaderAt, Field, SegmentsLaid, Headers, NoteSegments;
    HeadersRead(data, p, |segments|);
    SegmentsRead(data, p, segments, 0);
    assert segments[0..] == segments;
  }

  /** Two images of either class with the same note contents hold the same record. */
  lemma LayoutIndependent(data: seq<byte>, p: Places, segments: seq<Segment>,
                          data': seq<byte>, p': Places, segments': seq<Segment>)
    requires Laid(data, p, segments) && Laid(data', p', segments')
    requires NoteContents(segments) == NoteContents(segments')
    ensures ModuleInfo(data) == ModuleInfo(data')
  {
    LaidOutImage(data, p, segments);
    LaidOutImage(data', p', segments');
  }

  // ---------- Truncation ----------

  lemma FieldOfPrefix(data: seq<byte>, n: nat, offset: nat, width: nat)
    requires offset + width <= n <= |data|
    ensures Field(data[..n], offset, width) == Field(data, offset, width)
  {
    assert data[..n][offset..offset + width] == data[offset..offset + width];
  }

  lemma HeaderOfPrefix(data: seq<byte>, c: Class, n: nat, base: nat)
    requires base + PhdrSize(c) <= n <= |data|
    ensures HeaderAt(data[..n], c, base) == HeaderAt(data, c, base)
  {
    FieldOfPrefix(data, n, base, 4);
    FieldOfPrefix(data, n, base + OffsetAt(c), AddressSize(c));
    FieldOfPrefix(data, n, base + SizeAt(c), AddressSize(c));
    FieldOfPrefix(data, n, base + AlignmentAt(c), AddressSize(c));
  }

  lemma {:induction false} TableOfPrefix(data: seq<byte>, c: Class, n: nat, phoff: nat, size: nat, count: nat, i: nat)
    requires n <= |data| && size >= PhdrSize(c) && phoff + count * size <= n && i <= count
    ensures HeadersFrom(data[..n], c, phoff, size, count, i) == HeadersFrom(data, c, phoff, size, count, i)
    decreases count - i
  {
    hide HeaderAt;
    if i == count {
    } else {
      HeadersStep(data, c, phoff, size, count, i);
      HeadersStep(data[..n], c, phoff, size, count, i);
      HeaderOfPrefix(data, c, n, phoff + i * size);
      TableOfPrefix(data, c, n, phoff, size, count, i + 1);
    }
  }

  lemma FileHeaderOfPrefix(data: seq<byte>, c: Class, n: nat)
    requires HeaderSize(c) <= n <= |data|
    ensures Field(data[..n], PhnumAt(c), 2) == Field(data, PhnumAt(c), 2)
    ensures Field(data[..n], PhoffAt(c), AddressSize(c)) == Field(data, PhoffAt(c), AddressSize(c))
    ensures Field(data[..n], ShoffAt(c), AddressSize(c)) == Field(data, ShoffAt(c), AddressSize(c))
    ensures Field(data[..n], PhentsizeAt(c), 2) == Field(data, PhentsizeAt(c), 2)
    ensures HeaderCount(data[..n], c).Ok? ==> HeaderCount(data[..n], c) == HeaderCount(data, c)
  {
    hide Field;
    FieldOfPrefix(data, n, PhnumAt(c), 2);
    FieldOfPrefix(data, n, PhoffAt(c), AddressSize(c));
    FieldOfPrefix(data, n, ShoffAt(c), AddressSize(c));
    FieldOfPrefix(data, n, PhentsizeAt(c), 2);
    var info := Field(data, ShoffAt(c), AddressSize(c)) + InfoAt(c);
    if info + 4 <= n {
      FieldOfPrefix(data, n, info, 4);
    }
  }

  lemma HeadersOfPrefix(data: seq<byte>, c: Class, n: nat)
    requires n <= |data| && Headers(data[..n], c).Ok?
    ensures Headers(data[..n], c) == Headers(data, c)
  {
    hide Field, HeadersFrom, HeaderCount;
    FileHeaderOfPrefix(data, c, n);
    if Field(data, PhnumAt(c), 2) != 0 {
      TableOfPrefix(data, c, n, Field(data, PhoffAt(c), AddressSize(c)), Field(data, PhentsizeAt(c), 2),
                    HeaderCount(data, c).value, 0);
    }
  }

  lemma {:induction false} SegmentsOfPrefix(data: seq<byte>, n: nat, headers: seq<ProgramHeader>)
    requires n <= |data| && NoteSegments(data[..n], headers).Ok?
    ensures NoteSegments(data[..n], headers) == NoteSegments(data, headers)
    decreases |headers|
  {
    if headers == [] {
    } else {
      SegmentsOfPrefix(data, n, headers[1..]);
      var h := headers[0];
      if h.ptype == PT_NOTE {
        assert data[..n][h.offset..h.offset + h.size] == data[h.offset..h.offset + h.size];
      }
    }
  }

  /** A file that lost its end either fails to be read or gives what the whole file gives; only a file cut down to
      fewer than 16 bytes is taken for a file of another kind. */
  lemma TruncationIsNoticed(data: seq<byte>, n: nat)
    requires n <= |data|
    ensures n >= 16 ==> ModuleInfo(data[..n]).Err? || ModuleInfo(data[..n]) == ModuleInfo(data)
    ensures n < 16 ==> ModuleInfo(data[..n]) == Ok([])
  {
    hide Headers, NoteSegments, Verdict, ImageRecords;
    if n >= 16 {
      assert data[..n][..4] == data[..4];
      assert Identify(data[..n]) == Identify(data);
      if Identify(data).Some? && ImageSegments(data[..n], Identify(data).value).Ok? {
        var c := Identify(data).value;
        HeadersOfPrefix(data, c, n);
        SegmentsOfPrefix(data, n, Headers(data, c).value);
      }
    }
  }

  // ---------- Well-formed images, and exactness ----------

  /** An entry of the program header table. */
  function EntryAt(data: seq<byte>, c: Class, phoff: nat, size: nat, count: nat, i: nat): ProgramHeader
    requires size >= PhdrSize(c) && phoff + count * size <= |data| && i < count
  {
    EntryInside(i, count, size);
    HeaderAt(data, c, phoff + i * size)
  }

  /** The segment that a program header describes; the contents are of interest for notes only. */
  function SegmentOf(data: seq<byte>, h: ProgramHeader): Segment {
    Segment(h.ptype, h.alignment,
            if h.ptype == PT_NOTE && h.offset + h.size <= |data| then data[h.offset..h.offset + h.size] else [])
  }

  function TableSegments(data: seq<byte>, c: Class, phoff: nat, size: nat, count: nat): (segments: seq<Segment>)
    requires size >= PhdrSize(c) && phoff + count * size <= |data|
    ensures |segments| == count
    ensures forall i :: 0 <= i < count ==> segments[i] == SegmentOf(data, EntryAt(data, c, phoff, size, count, i))
  {
    seq(count, i requires 0 <= i < count => SegmentOf(data, EntryAt(data, c, phoff, size, count, i)))
  }

  function TableOffsets(data: seq<byte>, c: Class, phoff: nat, size: nat, count: nat): (offsets: seq<nat>)
    requires size >= PhdrSize(c) && phoff + count * size <= |data|
    ensures |offsets| == count
    ensures forall i :: 0 <= i < count ==> offsets[i] == EntryAt(data, c, phoff, size, count, i).offset
  {
    seq(count, i requires 0 <= i < count => EntryAt(data, c, phoff, size, count, i).offset)
  }

  /** Where no note segment is cut off, each of them lies in the file. */
  lemma {:induction false} NotesInside(data: seq<byte>, c: Class, phoff: nat, size: nat, count: nat, i: nat, k: nat)
    requires size >= PhdrSize(c) && phoff + count * size <= |data| && i <= k < count
    requires NoteSegments(data, HeadersFrom(data, c, phoff, size, count, i)).Ok?
    ensures var h := EntryAt(data, c, phoff, size, count, k); h.ptype == PT_NOTE ==> h.offset + h.size <= |data|
    decreases k - i
  {
    hide HeaderAt;
    HeadersStep(data, c, phoff, size, count, i);
    var rest := HeadersFrom(data, c, phoff, size, count, i + 1);
    assert ([HeaderAt(data, c, phoff + i * size)] + rest)[1..] == rest;
    if i == k {
    } else {
      NotesInside(data, c, phoff, size, count, i + 1, k);
    }
  }

  lemma TableLaid(data: seq<byte>, p: Places, count: nat)
    requires HeaderLaid(data, p, count)
    requires NoteSegments(data, HeadersFrom(data, p.c, p.phoff, p.phentsize, count, 0)).Ok?
    requires p.offsets == TableOffsets(data, p.c, p.phoff, p.phentsize, count)
    ensures Laid(data, p, TableSegments(data, p.c, p.phoff, p.phentsize, count))
  {
    hide HeaderAt, Field, NoteSegments, HeadersFrom;
    var segments := TableSegments(data, p.c, p.phoff, p.phentsize, count);
    forall i | 0 <= i < count
      ensures EntryFits(p, count, |data|, i)
      ensures SegmentLaid(data, p.c, p.phoff + i * p.phentsize, p.offsets[i], segments[i])
    {
      NotesInside(data, p.c, p.phoff, p.phentsize, count, 0, i);
    }
  }

  /** The file is an image of some segments. */
  ghost predicate WellFormed(data: seq<byte>) {
    exists p: Places, segments: seq<Segment> :: Laid(data, p, segments)
  }

  /** The file is an image of segments whose notes hold these records. */
  ghost predicate Holds(data: seq<byte>, records: seq<seq<byte>>) {
    exists p: Places, segments: seq<Segment> ::
      Laid(data, p, segments) && ImageRecords(NoteContents(segments)) == records
  }

  /** An ELF file without a program header table. */
  predicate WithoutTable(data: seq<byte>) {
    Identify(data).Some? && var c := Identify(data).value; |data| >= HeaderSize(c) && Field(data, PhnumAt(c), 2) == 0
  }

  lemma PhnumFits(data: seq<byte>, offset: nat)
    requires offset + 2 <= |data|
    ensures Field(data, offset, 2) <= PN_XNUM
  {
    FieldWidths();
    PackUnpack(data[offset..offset + 2]);
  }

  /** Where the reader finds all tables and note segments, the file is an image of some segments. */
  lemma ReadIsLaid(data: seq<byte>, c: Class)
    requires Identify(data) == Some(c) && !WithoutTable(data) && ImageSegments(data, c).Ok?
    ensures WellFormed(data)
  {
    hide Field, NoteSegments, HeadersFrom, Laid;
    var phoff, size := Field(data, PhoffAt(c), AddressSize(c)), Field(data, PhentsizeAt(c), 2);
    var count := HeaderCount(data, c).value;
    var p := Places(c, phoff, Field(data, ShoffAt(c), AddressSize(c)), size, Field(data, PhnumAt(c), 2) == PN_XNUM,
                    TableOffsets(data, c, phoff, size, count));
    PhnumFits(data, PhnumAt(c));
    assert HeaderLaid(data, p, count);
    TableLaid(data, p, count);
  }

  lemma OnlyTruncated(data: seq<byte>, headers: seq<ProgramHeader>)
    ensures NoteSegments(data, headers).Err? ==> NoteSegments(data, headers) == Err(TruncatedSegment)
    decreases |headers|
  {
    if headers == [] {
    } else {
      OnlyTruncated(data, headers[1..]);
    }
  }

  lemma NoManyRecords(data: seq<byte>, c: Class)
    ensures ImageSegments(data, c) != Err(ManyRecords)
  {
    hide HeadersFrom, Field;
    if Headers(data, c).Ok? {
      OnlyTruncated(data, Headers(data, c).value);
    }
  }

  /** The records of an image are determined by its bytes, and decide what is read. */
  lemma HeldRecords(data: seq<byte>, records: seq<seq<byte>>)
    requires Holds(data, records)
    ensures ModuleInfo(data) == Verdict(records) && WellFormed(data)
  {
    hide Laid, NoteContents, ImageRecords, ModuleInfo;
    var p: Places, segments: seq<Segment> :| Laid(data, p, segments) && ImageRecords(NoteContents(segments)) == records;
    LaidOutImage(data, p, segments);
  }

  /** Every file: it is read if and only if it is no ELF file for this reader, has no program headers, or is an image
      of some segments. */
  lemma ReadExactly(data: seq<byte>)
    ensures Identify(data).None? || WithoutTable(data) ==> ModuleInfo(data) == Ok([])
    ensures Identify(data).Some? && !WithoutTable(data) ==>
              if WellFormed(data) then exists records :: Holds(data, records) && ModuleInfo(data) == Verdict(records)
              else ModuleInfo(data).Err? && ModuleInfo(data) != Err(ManyRecords)
  {
    hide Laid, Field, NoteSegments, HeadersFrom, ImageRecords, NoteContents;
    if Identify(data).Some? {
      var c := Identify(data).value;
      NoManyRecords(data, c);
      if WithoutTable(data) {
        NoHeaders(data);
      } else if WellFormed(data) {
        var p: Places, segments: seq<Segment> :| Laid(data, p, segments);
        var records := ImageRecords(NoteContents(segments));
        assert Holds(data, records);
        HeldRecords(data, records);
      } else if ImageSegments(data, c).Ok? {
        ReadIsLaid(data, c);
      }
    }
  }

  lemma LaidIsElf(data: seq<byte>)
    requires WellFormed(data)
    ensures Identify(data).Some?
  {
    hide SegmentsLaid;
    var p: Places, segments: seq<Segment> :| Laid(data, p, segments);
  }

  /** A record is returned exactly if the file is an image whose notes hold that record and no other; more than one is
      an error, even if they are empty or the same; every other error means that the file is no image. */
  lemma ExactlyOneRecord(data: seq<byte>, record: seq<byte>)
    ensures record != [] ==> (ModuleInfo(data) == Ok(record) <==> Holds(data, [record]))
    ensures ModuleInfo(data) == Err(ManyRecords) <==> exists records :: Holds(data, records) && |records| > 1
    ensures ModuleInfo(data).Err? && ModuleInfo(data) != Err(ManyRecords) <==>
            Identify(data).Some? && !WithoutTable(data) && !WellFormed(data)
  {
    hide Holds, WellFormed, WithoutTable, Identify, ModuleInfo;
    ReadExactly(data);
    if Holds(data, [record]) {
      HeldRecords(data, [record]);
    }
    forall records | Holds(data, records) && |records| > 1 ensures ModuleInfo(data) == Err(ManyRecords) {
      HeldRecords(data, records);
    }
    if WellFormed(data) {
      LaidIsElf(data);
      if record != [] && ModuleInfo(data) == Ok(record) {
        var records :| Holds(data, records) && ModuleInfo(data) == Verdict(records);
        assert records == [record];
      }
    }
  }
}
