/** The notes of one PT_NOTE segment: their layout, and the loop that reads them.

    A segment is a chain of notes followed by a rest in which no further note fits.  Encode lays such a chain out,
    Decode takes it apart, and the two are inverse to each other in both directions.
*/
module ElfNotes {
  import opened Bytes

  const NOTE_NAME: seq<byte> := [0x51, 0x6f, 0x72, 0x65, 0]
  const NOTE_TYPE := 0x494D4151
  const WORD := 0x1_0000_0000

  /** A note with the padding that follows its name and its description. */
  datatype Note = Note(name: seq<byte>, ntype: nat, desc: seq<byte>, namePad: seq<byte>, descPad: seq<byte>)

  predicate Alignment(a: int) {
    a == 4 || a == 8
  }

  function NamePadding(n: Note, a: nat): int
    requires Alignment(a)
  {
    Align(12 + |n.name|, a) - (12 + |n.name|)
  }

  function DescPadding(n: Note, a: nat): int
    requires Alignment(a)
  {
    Align(|n.desc|, a) - |n.desc|
  }

  /** The sizes fit their words, and the padding after the name is complete. */
  predicate ValidNote(n: Note, a: nat)
    requires Alignment(a)
  {
    |n.name| < WORD && |n.desc| < WORD && n.ntype < WORD && |n.namePad| == NamePadding(n, a)
  }

  /** The padding after the description, before the bytes that follow the note: it is complete unless none follow. */
  predicate ValidEnd(n: Note, followed: bool, a: nat)
    requires Alignment(a)
  {
    |n.descPad| <= DescPadding(n, a) && (followed ==> |n.descPad| == DescPadding(n, a))
  }

  predicate ValidChain(notes: seq<Note>, rest: seq<byte>, a: nat)
    requires Alignment(a)
  {
    notes == [] ||
    (ValidNote(notes[0], a) && ValidEnd(notes[0], notes[1..] != [] || rest != [], a) && ValidChain(notes[1..], rest, a))
  }

  /** The three words before the name: its size, the size of the description, and the type. */
  function NoteHeader(nameSize: nat, descSize: nat, ntype: nat): (h: seq<byte>)
    ensures |h| == 12
  {
    Pack(nameSize, 4) + Pack(descSize, 4) + Pack(ntype, 4)
  }

  function EncodeNote(n: Note): seq<byte> {
    NoteHeader(|n.name|, |n.desc|, n.ntype) + (n.name + n.namePad + n.desc + n.descPad)
  }

  function Encode(notes: seq<Note>): seq<byte> {
    if notes == [] then [] else EncodeNote(notes[0]) + Encode(notes[1..])
  }

  /** The descriptions of the module metadata notes, in order. */
  function Records(notes: seq<Note>): seq<seq<byte>> {
    if notes == [] then []
    else (if notes[0].ntype == NOTE_TYPE && notes[0].name == NOTE_NAME then [notes[0].desc] else [])
         + Records(notes[1..])
  }

  // Where the parts of the note at the start of s lie

  function NameEnd(s: seq<byte>): nat
    requires |s| >= 12
  {
    12 + Field(s, 0, 4)
  }

  function DescStart(s: seq<byte>, a: nat): nat
    requires Alignment(a) && |s| >= 12
  {
    Align(NameEnd(s), a)
  }

  function DescEnd(s: seq<byte>, a: nat): nat
    requires Alignment(a) && |s| >= 12
  {
    DescStart(s, a) + Field(s, 4, 4)
  }

  predicate StartsWithNote(s: seq<byte>, a: nat)
    requires Alignment(a)
  {
    |s| >= 12 && DescEnd(s, a) <= |s|
  }

  function NoteEnd(s: seq<byte>, a: nat): nat
    requires Alignment(a) && StartsWithNote(s, a)
  {
    var end := Align(DescEnd(s, a), a);
    if end < |s| then end else |s|
  }

  lemma NoteParts(s: seq<byte>, a: nat)
    requires Alignment(a) && StartsWithNote(s, a)
    ensures 12 <= NameEnd(s) <= DescStart(s, a) <= DescEnd(s, a) <= NoteEnd(s, a) <= |s|
  {
    AlignMeaning(NameEnd(s), a);
    AlignMeaning(DescEnd(s, a), a);
  }

  function FirstNote(s: seq<byte>, a: nat): Note
    requires Alignment(a) && StartsWithNote(s, a)
  {
    NoteParts(s, a);
    Note(s[12..NameEnd(s)], Field(s, 8, 4), s[DescStart(s, a)..DescEnd(s, a)],
         s[NameEnd(s)..DescStart(s, a)], s[DescEnd(s, a)..NoteEnd(s, a)])
  }

  /** The notes of a segment and the rest after the last of them. */
  function Decode(s: seq<byte>, a: nat): (seq<Note>, seq<byte>)
    requires Alignment(a)
    decreases |s|
  {
    if !StartsWithNote(s, a) then ([], s)
    else
      NoteParts(s, a);
      var (notes, rest) := Decode(s[NoteEnd(s, a)..], a);
      ([FirstNote(s, a)] + notes, rest)
  }

  /** The module metadata records that the notes of a segment hold. */
  function SegmentRecords(segment: seq<byte>, a: nat): seq<seq<byte>>
    requires Alignment(a)
  {
    Records(Decode(segment, a).0)
  }

  // ---------- Encode after Decode: nothing of a segment is lost or made up ----------

  lemma HeaderOfBytes(s: seq<byte>)
    requires |s| >= 12
    ensures Field(s, 0, 4) < WORD && Field(s, 4, 4) < WORD && Field(s, 8, 4) < WORD
    ensures NoteHeader(Field(s, 0, 4), Field(s, 4, 4), Field(s, 8, 4)) == s[..12]
  {
    FieldWidths();
    PackUnpack(s[0..4]);
    PackUnpack(s[4..8]);
    PackUnpack(s[8..12]);
    assert s[..12] == s[0..4] + s[4..8] + s[8..12];
  }

  lemma BytesOfHeader(nameSize: nat, descSize: nat, ntype: nat, tail: seq<byte>)
    requires nameSize < WORD && descSize < WORD && ntype < WORD
    ensures var s := NoteHeader(nameSize, descSize, ntype) + tail;
            Field(s, 0, 4) == nameSize && Field(s, 4, 4) == descSize && Field(s, 8, 4) == ntype
  {
    FieldWidths();
    UnpackPack(nameSize, 4);
    UnpackPack(descSize, 4);
    UnpackPack(ntype, 4);
    var s := NoteHeader(nameSize, descSize, ntype) + tail;
    assert s[0..4] == Pack(nameSize, 4);
    assert s[4..8] == Pack(descSize, 4);
    assert s[8..12] == Pack(ntype, 4);
  }

  /** Five cuts of a sequence, put together again. */
  lemma Cuts(s: seq<byte>, b: nat, c: nat, d: nat, e: nat)
    requires 12 <= b <= c <= d <= e <= |s|
    ensures s[..12] + (s[12..b] + s[b..c] + s[c..d] + s[d..e]) == s[..e]
  {
    assert s[12..b] + s[b..c] == s[12..c];
    assert s[12..c] + s[c..d] == s[12..d];
    assert s[12..d] + s[d..e] == s[12..e];
  }

  lemma FirstNoteEncoded(s: seq<byte>, a: nat)
    requires Alignment(a) && StartsWithNote(s, a)
    ensures NoteEnd(s, a) <= |s| && EncodeNote(FirstNote(s, a)) == s[..NoteEnd(s, a)]
  {
    NoteParts(s, a);
    HeaderOfBytes(s);
    Cuts(s, NameEnd(s), DescStart(s, a), DescEnd(s, a), NoteEnd(s, a));
  }

  lemma FirstNoteValid(s: seq<byte>, a: nat)
    requires Alignment(a) && StartsWithNote(s, a)
    ensures ValidNote(FirstNote(s, a), a) && ValidEnd(FirstNote(s, a), NoteEnd(s, a) < |s|, a)
  {
    hide Align, Field;
    NoteParts(s, a);
    HeaderOfBytes(s);
    AlignMeaning(NameEnd(s), a);
    AlignShift(DescStart(s, a), Field(s, 4, 4), a);
  }

  lemma DecodeStep(s: seq<byte>, a: nat)
    requires Alignment(a) && StartsWithNote(s, a)
    ensures 12 <= NoteEnd(s, a) <= |s|
    ensures var (notes, rest) := Decode(s[NoteEnd(s, a)..], a);
            Decode(s, a) == ([FirstNote(s, a)] + notes, rest)
  {
    NoteParts(s, a);
  }

  lemma ChainCons(n: Note, notes: seq<Note>, rest: seq<byte>, a: nat)
    requires Alignment(a) && ValidChain(notes, rest, a)
    requires ValidNote(n, a) && ValidEnd(n, notes != [] || rest != [], a)
    ensures ValidChain([n] + notes, rest, a)
    ensures Encode([n] + notes) + rest == EncodeNote(n) + (Encode(notes) + rest)
  {
    assert ([n] + notes)[1..] == notes;
  }

  lemma EncodeDecodeStep(s: seq<byte>, tail: seq<byte>, notes: seq<Note>, rest: seq<byte>, a: nat)
    requires Alignment(a) && StartsWithNote(s, a) && NoteEnd(s, a) <= |s| && tail == s[NoteEnd(s, a)..]
    requires Encode(notes) + rest == tail && ValidChain(notes, rest, a)
    requires tail == [] ==> notes == [] && rest == []
    ensures Encode([FirstNote(s, a)] + notes) + rest == s && ValidChain([FirstNote(s, a)] + notes, rest, a)
  {
    hide FirstNote, StartsWithNote, NoteEnd, EncodeNote, ValidNote, ValidChain, Encode, DescPadding, Align;
    FirstNoteEncoded(s, a);
    FirstNoteValid(s, a);
    ChainCons(FirstNote(s, a), notes, rest, a);
  }

  /** Every segment is the encoding of the notes read from it followed by a rest that starts no note. */
  lemma {:induction false} EncodeDecode(s: seq<byte>, a: nat)
    requires Alignment(a)
    ensures Encode(Decode(s, a).0) + Decode(s, a).1 == s
    ensures ValidChain(Decode(s, a).0, Decode(s, a).1, a) && !StartsWithNote(Decode(s, a).1, a)
    decreases |s|
  {
    if StartsWithNote(s, a) {
      DecodeStep(s, a);
      var tail := s[NoteEnd(s, a)..];
      EncodeDecode(tail, a);
      assert tail == [] ==> Decode(tail, a) == ([], []);
      EncodeDecodeStep(s, tail, Decode(tail, a).0, Decode(tail, a).1, a);
    } else {
      assert Encode([]) + s == s;
    }
  }

  // ---------- Decode after Encode: every chain of notes is read back ----------

  lemma PartsOfEncoding(n: Note, tail: seq<byte>)
    ensures var s := EncodeNote(n) + tail; var b := 12 + |n.name|; var c := b + |n.namePad|;
            var d := c + |n.desc|; var e := d + |n.descPad|;
            |EncodeNote(n)| == e && s[12..b] == n.name && s[b..c] == n.namePad && s[c..d] == n.desc &&
            s[d..e] == n.descPad && s[e..] == tail
  {
  }

  /** The offsets that the reader computes from a note's header are those at which the note was laid out. */
  lemma OffsetsOfEncoding(n: Note, s: seq<byte>, a: nat)
    requires Alignment(a) && ValidNote(n, a) && |s| >= 12
    requires Field(s, 0, 4) == |n.name| && Field(s, 4, 4) == |n.desc|
    ensures NameEnd(s) == 12 + |n.name|
    ensures DescStart(s, a) == NameEnd(s) + |n.namePad|
    ensures DescEnd(s, a) == DescStart(s, a) + |n.desc|
    ensures Align(DescEnd(s, a), a) == DescEnd(s, a) + DescPadding(n, a) && DescPadding(n, a) >= 0
  {
    AlignMeaning(12 + |n.name|, a);
    AlignShift(DescStart(s, a), |n.desc|, a);
    AlignMeaning(|n.desc|, a);
  }

  /** The header of an encoded note is read back. */
  lemma HeaderDecoded(n: Note, tail: seq<byte>, a: nat)
    requires Alignment(a) && ValidNote(n, a)
    ensures var s := EncodeNote(n) + tail;
            |s| >= 12 && Field(s, 0, 4) == |n.name| && Field(s, 4, 4) == |n.desc| && Field(s, 8, 4) == n.ntype
  {
    hide Field;
    var body := n.name + n.namePad + n.desc + n.descPad;
    assert EncodeNote(n) + tail == NoteHeader(|n.name|, |n.desc|, n.ntype) + (body + tail);
    BytesOfHeader(|n.name|, |n.desc|, n.ntype, body + tail);
  }

  lemma NoteEndDecoded(n: Note, tail: seq<byte>, a: nat)
    requires Alignment(a) && ValidNote(n, a) && ValidEnd(n, tail != [], a)
    ensures var s := EncodeNote(n) + tail;
            StartsWithNote(s, a) && NoteEnd(s, a) == |EncodeNote(n)| &&
            NameEnd(s) == 12 + |n.name| && DescStart(s, a) == NameEnd(s) + |n.namePad| &&
            DescEnd(s, a) == DescStart(s, a) + |n.desc|
  {
    hide Field, Align, EncodeNote;
    var s := EncodeNote(n) + tail;
    HeaderDecoded(n, tail, a);
    PartsOfEncoding(n, tail);
    OffsetsOfEncoding(n, s, a);
  }

  lemma FirstNoteDecoded(n: Note, tail: seq<byte>, a: nat)
    requires Alignment(a) && ValidNote(n, a)
    requires ValidEnd(n, tail != [], a)
    ensures var s := EncodeNote(n) + tail;
            StartsWithNote(s, a) && NoteEnd(s, a) == |EncodeNote(n)| && FirstNote(s, a) == n
            && s[NoteEnd(s, a)..] == tail
  {
    hide Field, Align, EncodeNote, StartsWithNote, NoteEnd, NameEnd, DescStart, DescEnd, ValidNote, ValidEnd;
    HeaderDecoded(n, tail, a);
    NoteEndDecoded(n, tail, a);
    PartsOfEncoding(n, tail);
  }

  /** Every chain of notes is read back from its encoding, whether or not the last padding is complete. */
  lemma {:induction false} DecodeEncode(notes: seq<Note>, rest: seq<byte>, a: nat)
    requires Alignment(a) && ValidChain(notes, rest, a) && !StartsWithNote(rest, a)
    ensures Decode(Encode(notes) + rest, a) == (notes, rest)
    decreases |notes|
  {
    if notes == [] {
      assert Encode(notes) + rest == rest;
    } else {
      var first, others := notes[0], notes[1..];
      assert notes == [first] + others;
      ChainCons(first, others, rest, a);
      var tail := Encode(others) + rest;
      assert others == [] && rest == [] ==> tail == [];
      FirstNoteDecoded(first, tail, a);
      DecodeEncode(others, rest, a);
      DecodeStep(EncodeNote(first) + tail, a);
    }
  }

  /** The note that qcc emits for a record: the name and the description are padded with zeros to 4 bytes. */
  function QccNote(record: seq<byte>): Note {
    AlignMeaning(|record|, 4);
    Note(NOTE_NAME, NOTE_TYPE, record, [0, 0, 0], seq(Align(|record|, 4) - |record|, i => 0))
  }

  lemma NamePaddings()
    ensures Align(17, 4) == 20 && Align(17, 8) == 24
  {
    hide ClearBits;
    RoundDown(20);
    RoundDown(24);
  }

  lemma QccNoteValid(record: seq<byte>)
    requires |record| < WORD
    ensures ValidNote(QccNote(record), 4) && ValidEnd(QccNote(record), true, 4)
  {
    hide Align;
    AlignMeaning(17, 4);
    AlignMeaning(|record|, 4);
    NamePaddings();
  }

  lemma RecordsStep(s: seq<byte>, a: nat)
    requires Alignment(a) && StartsWithNote(s, a)
    ensures NoteEnd(s, a) <= |s|
    ensures SegmentRecords(s, a) == Records([FirstNote(s, a)]) + SegmentRecords(s[NoteEnd(s, a)..], a)
  {
    NoteParts(s, a);
    var notes := Decode(s, a).0;
    assert [FirstNote(s, a)][1..] == [];
    assert notes[1..] == Decode(s[NoteEnd(s, a)..], a).0;
  }

  lemma NoRecords(s: seq<byte>, a: nat)
    requires Alignment(a) && !StartsWithNote(s, a)
    ensures SegmentRecords(s, a) == []
  {
  }

  lemma QccNoteRead4(record: seq<byte>)
    requires |record| < WORD
    ensures SegmentRecords(EncodeNote(QccNote(record)), 4) == [record]
  {
    hide Align;
    var note := QccNote(record);
    QccNoteValid(record);
    FirstNoteDecoded(note, [], 4);
    assert EncodeNote(note) + [] == EncodeNote(note);
    RecordsStep(EncodeNote(note), 4);
    assert [note][1..] == [];
  }

  /** In a segment aligned to 8 bytes the reader looks for the description 4 bytes too late, and finds no note. */
  lemma QccNoteRead8(record: seq<byte>)
    requires |record| < WORD
    ensures SegmentRecords(EncodeNote(QccNote(record)), 8) == []
  {
    hide Align, Field, EncodeNote;
    var note := QccNote(record);
    QccNoteValid(record);
    HeaderDecoded(note, [], 4);
    assert EncodeNote(note) + [] == EncodeNote(note);
    PartsOfEncoding(note, []);
    AlignMeaning(|record|, 4);
    NamePaddings();
    NoRecords(EncodeNote(note), 8);
  }

  /** The note that qcc emits, in a segment of its own, is read as its record exactly if the segment is not aligned to 8
      bytes. */
  lemma QccNoteRead(record: seq<byte>, a: nat)
    requires Alignment(a) && |record| < WORD
    ensures SegmentRecords(EncodeNote(QccNote(record)), a) == if a == 8 then [] else [record]
  {
    hide SegmentRecords, EncodeNote, QccNote;
    if a == 8 {
      QccNoteRead8(record);
    } else {
      QccNoteRead4(record);
    }
  }

  // ---------- The loop ----------

  /** The record in the first note of s, where s is what segment holds from position on. */
  lemma FirstRecord(segment: seq<byte>, position: nat, s: seq<byte>, a: nat)
    requires Alignment(a) && position <= |segment| && s == segment[position..] && StartsWithNote(s, a)
    ensures 12 <= NameEnd(s) <= DescStart(s, a) <= DescEnd(s, a) <= |s|
    ensures Records([FirstNote(s, a)]) ==
            if Field(s, 8, 4) == NOTE_TYPE && segment[position + 12..position + NameEnd(s)] == NOTE_NAME
            then [segment[position + DescStart(s, a)..position + DescEnd(s, a)]] else []
  {
    hide Align, Field;
    NoteParts(s, a);
    assert [FirstNote(s, a)][1..] == [];
    assert s[12..NameEnd(s)] == segment[position + 12..position + NameEnd(s)];
    assert s[DescStart(s, a)..DescEnd(s, a)] == segment[position + DescStart(s, a)..position + DescEnd(s, a)];
  }

  /** The positions that the loop computes from the start of the segment, for the note at an aligned position. */
  lemma NoteAt(segment: seq<byte>, position: nat, a: nat)
    requires Alignment(a) && Multiple(position, a) && position + 12 <= |segment|
    ensures var s := segment[position..]; var desc := Align(position + 12 + Field(segment, position, 4), a);
            Field(segment, position, 4) == Field(s, 0, 4) && Field(segment, position + 4, 4) == Field(s, 4, 4) &&
            Field(segment, position + 8, 4) == Field(s, 8, 4) && desc == position + DescStart(s, a)
  {
    var s := segment[position..];
    assert s[0..4] == segment[position..position + 4];
    assert s[4..8] == segment[position + 4..position + 8];
    assert s[8..12] == segment[position + 8..position + 12];
    AlignShift(position, 12 + Field(s, 0, 4), a);
  }

  lemma NextPosition(segment: seq<byte>, position: nat, a: nat)
    requires Alignment(a) && Multiple(position, a) && position + 12 <= |segment|
    requires StartsWithNote(segment[position..], a)
    ensures var s := segment[position..]; var end := Align(position + DescEnd(s, a), a);
            var next := if end < |segment| then end else |segment|;
            next == position + NoteEnd(s, a) && position + 12 <= next <= |segment| && segment[next..] == s[NoteEnd(s, a)..]
            && (Multiple(next, a) || next == |segment|)
  {
    var s := segment[position..];
    NoteParts(s, a);
    AlignShift(position, DescEnd(s, a), a);
    AlignMeaning(position + DescEnd(s, a), a);
  }

  /** What one turn of the loop finds: no further note fits, or a note that may hold a record. */
  lemma Turn(segment: seq<byte>, position: nat, a: nat, desc: nat, end: nat, next: nat)
    requires Alignment(a) && Multiple(position, a) && position + 12 <= |segment|
    requires desc == Align(position + 12 + Field(segment, position, 4), a)
    requires end == desc + Field(segment, position + 4, 4)
    requires next == if Align(end, a) < |segment| then Align(end, a) else |segment|
    ensures end > |segment| ==> SegmentRecords(segment[position..], a) == []
    ensures end <= |segment| ==>
              var name := position + 12; var nameEnd := name + Field(segment, position, 4);
              nameEnd <= desc <= end && position + 12 <= next <= |segment| && (Multiple(next, a) || next == |segment|) &&
              SegmentRecords(segment[position..], a) ==
              (if Field(segment, position + 8, 4) == NOTE_TYPE && segment[name..nameEnd] == NOTE_NAME
               then [segment[desc..end]] else []) + SegmentRecords(segment[next..], a)
  {
    hide Align, Field, SegmentRecords, FirstNote, NoteEnd, Records, DescStart;
    var s := segment[position..];
    NoteAt(segment, position, a);
    if end > |segment| {
      NoRecords(s, a);
    } else {
      RecordsStep(s, a);
      FirstRecord(segment, position, s, a);
      NextPosition(segment, position, a);
    }
  }

  /** The loop over the notes of a segment: it adds the records of the segment to those found so far. */
  method ReadNotes(segment: seq<byte>, alignment: nat, found: seq<seq<byte>>) returns (records: seq<seq<byte>>)
    requires Alignment(alignment)
    ensures records == found + SegmentRecords(segment, alignment)
  {
    hide SegmentRecords, Align, Field;
    records := found;
    var position := 0;
    assert segment[0..] == segment;
    while |segment| - position >= 12
      invariant 0 <= position <= |segment|
      invariant Multiple(position, alignment) || position == |segment|
      invariant records + SegmentRecords(segment[position..], alignment) == found + SegmentRecords(segment, alignment)
      decreases |segment| - position
    {
      var nameSize := Field(segment, position, 4);
      var descSize := Field(segment, position + 4, 4);
      var noteType := Field(segment, position + 8, 4);
      var name := position + 12;
      var desc := Align(name + nameSize, alignment);
      var end := Align(desc + descSize, alignment);
      var next := if end < |segment| then end else |segment|;
      Turn(segment, position, alignment, desc, desc + descSize, next);
      if desc + descSize > |segment| {
        break;
      }
      if noteType == NOTE_TYPE && segment[name..name + nameSize] == NOTE_NAME {
        records := records + [segment[desc..desc + descSize]];
      }
      position := next;
    }
    if |segment| - position < 12 {
      NoRecords(segment[position..], alignment);
    }
  }
}
