/**
 * Finding the GNU build id in an ELF image (rdc_tool/runtime_identity.py, _elf_build_id): program
 * headers, note segments (System V gABI, "Note Section"), first GNU note of type 3 with a descriptor.
 */
module ElfNotes {
  import opened Wrappers
  import opened Bytes

  /** `StructError` is the out-of-range read that the source does not turn into its own message. */
  datatype ElfError =
    | NotElf | HeadersTruncated | NoteTruncated | ValueTruncated | NoBuildId | StructError

  const PT_NOTE := 4
  const GNU: seq<byte> := [0x47, 0x4e, 0x55]

  /** `rstrip(b"\0")`. */
  function Stripped(bs: seq<byte>): seq<byte> {
    if bs != [] && bs[|bs| - 1] == 0 then Stripped(bs[..|bs| - 1]) else bs
  }

  /** `(n + 3) & ~3`. */
  function Aligned(n: nat): (r: nat)
    ensures n <= r < n + 4 && r % 4 == 0
  {
    (n + 3) / 4 * 4
  }

  predicate SupportedIdent(data: seq<byte>) {
    && 52 <= |data|
    && data[..4] == [0x7f, 0x45, 0x4c, 0x46]
    && data[4] in {1, 2}
    && data[5] in {1, 2}
  }

  function Field(data: seq<byte>, at: nat, width: nat, little: bool): Result<nat, ElfError> {
    match Unpack(data, at, width, little)
    case None => Failure(StructError)
    case Some(n) => Success(n)
  }

  // ----- Meaning

  datatype Layout = Layout(offset: nat, size: nat, count: nat)

  function ReadLayout(data: seq<byte>, wide: bool, little: bool): Result<Layout, ElfError> {
    var offset :- Field(data, if wide then 32 else 28, if wide then 8 else 4, little);
    var size :- Field(data, if wide then 54 else 42, 2, little);
    var count :- Field(data, if wide then 56 else 44, 2, little);
    Success(Layout(offset, size, count))
  }

  function Minimum(wide: bool): nat {
    if wide then 56 else 32
  }

  /** A program header: a note segment, or anything else. */
  datatype Header = Skipped | NoteAt(start: nat, length: nat)

  function ReadHeader(data: seq<byte>, wide: bool, little: bool, at: nat): Result<Header, ElfError> {
    var kind :- Field(data, at, 4, little);
    if kind != PT_NOTE then Success(Skipped)
    else
      var start :- Field(data, at + if wide then 8 else 4, if wide then 8 else 4, little);
      var length :- Field(data, at + if wide then 32 else 16, if wide then 8 else 4, little);
      Success(NoteAt(start, length))
  }

  datatype NoteHead = NoteHead(names: nat, values: nat, kind: nat)

  function ReadNoteHead(data: seq<byte>, little: bool, start: nat): Result<NoteHead, ElfError> {
    var names :- Field(data, start, 4, little);
    var values :- Field(data, start + 4, 4, little);
    var kind :- Field(data, start + 8, 4, little);
    Success(NoteHead(names, values, kind))
  }

  function BuildId(data: seq<byte>): Result<seq<byte>, ElfError> {
    if !SupportedIdent(data) then Failure(NotElf)
    else
      var wide, little := data[4] == 2, data[5] == 1;
      match ReadLayout(data, wide, little)
      case Failure(e) => Failure(e)
      case Success(l) =>
        if l.size < Minimum(wide) || |data| < l.offset + l.size * l.count then Failure(HeadersTruncated)
        else ScanHeaders(data, wide, little, l.offset, l.size, l.count)
  }

  /** The `left` headers from `at` on. */
  function ScanHeaders(data: seq<byte>, wide: bool, little: bool, at: nat, size: nat, left: nat)
    : Result<seq<byte>, ElfError>
    decreases left
  {
    if left == 0 then Failure(NoBuildId)
    else
      match ReadHeader(data, wide, little, at)
      case Failure(e) => Failure(e)
      case Success(Skipped) => ScanHeaders(data, wide, little, at + size, size, left - 1)
      case Success(NoteAt(start, length)) =>
        if |data| < start + length then Failure(NoteTruncated)
        else
          match ScanNotes(data, little, start, start + length)
          case Failure(e) => Failure(e)
          case Success(Some(id)) => Success(id)
          case Success(None) => ScanHeaders(data, wide, little, at + size, size, left - 1)
  }

  /** One note: whether it is a build id, where its descriptor lies, and where the next note begins. */
  datatype NoteView = NoteView(matches: bool, valueAt: nat, values: nat, nextAt: nat)

  function ReadNote(data: seq<byte>, little: bool, start: nat, end: nat): (r: Result<NoteView, ElfError>)
    requires start + 12 <= end <= |data|
    ensures r.Success? ==>
      start + 12 <= r.value.nextAt <= end && r.value.valueAt + r.value.values <= r.value.nextAt
  {
    match ReadNoteHead(data, little, start)
    case Failure(e) => Failure(e)
    case Success(head) =>
      var nameAt := start + 12;
      var valueAt := nameAt + Aligned(head.names);
      var nextAt := valueAt + Aligned(head.values);
      if end < nextAt then Failure(ValueTruncated)
      else
        var matches := head.kind == 3 && Stripped(data[nameAt..nameAt + head.names]) == GNU && head.values != 0;
        Success(NoteView(matches, valueAt, head.values, nextAt))
  }

  /** Each step advances at least the twelve bytes of a note header. */
  function ScanNotes(data: seq<byte>, little: bool, start: nat, end: nat)
    : Result<Option<seq<byte>>, ElfError>
    requires end <= |data|
    decreases if start <= end then end - start else 0
  {
    if end < start + 12 then Success(None)
    else
      match ReadNote(data, little, start, end)
      case Failure(e) => Failure(e)
      case Success(note) =>
        if note.matches then Success(Some(data[note.valueAt..note.valueAt + note.values]))
        else ScanNotes(data, little, note.nextAt, end)
  }

  // ----- The source's loops

  method FindInNotes(data: seq<byte>, little: bool, from: nat, end: nat)
    returns (r: Result<Option<seq<byte>>, ElfError>)
    requires end <= |data|
    ensures r == ScanNotes(data, little, from, end)
  {
    var start := from;
    while start + 12 <= end
      invariant ScanNotes(data, little, from, end) == ScanNotes(data, little, start, end)
      decreases end - start
    {
      var note := ReadNote(data, little, start, end);
      if note.Failure? {
        return Failure(note.error);
      }
      if note.value.matches {
        return Success(Some(data[note.value.valueAt..note.value.valueAt + note.value.values]));
      }
      start := note.value.nextAt;
    }
    return Success(None);
  }

  method ElfBuildId(data: seq<byte>) returns (r: Result<seq<byte>, ElfError>)
    ensures r == BuildId(data)
  {
    if !SupportedIdent(data) {
      return Failure(NotElf);
    }
    var wide, little := data[4] == 2, data[5] == 1;
    var layout := ReadLayout(data, wide, little);
    if layout.Failure? {
      return Failure(layout.error);
    }
    var Layout(offset, size, count) := layout.value;
    if size < Minimum(wide) || offset + size * count > |data| {
      return Failure(HeadersTruncated);
    }
    r := ScanTable(data, wide, little, offset, size, count);
  }

  method ScanTable(data: seq<byte>, wide: bool, little: bool, offset: nat, size: nat, count: nat)
    returns (r: Result<seq<byte>, ElfError>)
    ensures r == ScanHeaders(data, wide, little, offset, size, count)
  {
    for index := 0 to count
      invariant ScanHeaders(data, wide, little, offset, size, count)
             == ScanHeaders(data, wide, little, offset + size * index, size, count - index)
    {
      var at := offset + size * index;
      assert at + size == offset + size * (index + 1);
      var header := ReadHeader(data, wide, little, at);
      if header.Failure? {
        return Failure(header.error);
      }
      if header.value.NoteAt? {
        var start := header.value.start;
        var end := start + header.value.length;
        if end > |data| {
          return Failure(NoteTruncated);
        }
        var found := FindInNotes(data, little, start, end);
        if found.Failure? {
          return Failure(found.error);
        }
        if found.value.Some? {
          return Success(found.value.value);
        }
      }
    }
    return Failure(NoBuildId);
  }

  // ----- Reads stay in range

  lemma {:induction false} NotesReadInside(data: seq<byte>, little: bool, start: nat, end: nat)
    requires end <= |data|
    ensures ScanNotes(data, little, start, end) != Failure(StructError)
    decreases if start <= end then end - start else 0
  {
    if start + 12 <= end {
      var note := ReadNote(data, little, start, end);
      if note.Success? {
        NotesReadInside(data, little, note.value.nextAt, end);
      }
    }
  }

  lemma HeaderReadsInside(data: seq<byte>, wide: bool, little: bool, at: nat)
    requires at + Minimum(wide) <= |data|
    ensures ReadHeader(data, wide, little, at).Success?
  {
  }

  lemma {:induction false} HeadersReadInside(
    data: seq<byte>, wide: bool, little: bool, at: nat, size: nat, left: nat)
    requires at + size * left <= |data| && Minimum(wide) <= size
    ensures ScanHeaders(data, wide, little, at, size, left) != Failure(StructError)
    decreases left
  {
    if 0 < left {
      OneMore(size, left);
      HeadersReadInside(data, wide, little, at + size, size, left - 1);
      FirstHeaderReadsInside(data, wide, little, at, size, left);
    }
  }

  lemma FirstHeaderReadsInside(data: seq<byte>, wide: bool, little: bool, at: nat, size: nat, left: nat)
    requires 0 < left && at + Minimum(wide) <= |data|
    requires ScanHeaders(data, wide, little, at + size, size, left - 1) != Failure(StructError)
    ensures ScanHeaders(data, wide, little, at, size, left) != Failure(StructError)
  {
    HeaderReadsInside(data, wide, little, at);
    var header := ReadHeader(data, wide, little, at).value;
    if header.NoteAt? && header.start + header.length <= |data| {
      NotesReadInside(data, little, header.start, header.start + header.length);
    }
  }

  lemma OneMore(size: nat, left: nat)
    requires 0 < left
    ensures size * left == size + size * (left - 1)
  {
  }

  lemma LayoutReadsIff(data: seq<byte>, wide: bool, little: bool)
    requires 52 <= |data|
    ensures ReadLayout(data, wide, little).Success? <==> !wide || 58 <= |data|
    ensures ReadLayout(data, wide, little).Failure? ==> ReadLayout(data, wide, little).error == StructError
  {
  }

  /** The one unguarded read: a 64-bit image that passes the 52-byte check but ends inside its header. */
  lemma StructErrorIff(data: seq<byte>)
    ensures BuildId(data) == Failure(StructError) <==> SupportedIdent(data) && data[4] == 2 && |data| < 58
  {
    if SupportedIdent(data) {
      var wide, little := data[4] == 2, data[5] == 1;
      LayoutReadsIff(data, wide, little);
      if ReadLayout(data, wide, little).Success? {
        var l := ReadLayout(data, wide, little).value;
        if Minimum(wide) <= l.size && l.offset + l.size * l.count <= |data| {
          HeadersReadInside(data, wide, little, l.offset, l.size, l.count);
        }
      }
    }
  }

  // ----- Encoding notes

  datatype Note = Note(name: seq<byte>, desc: seq<byte>, kind: nat)

  predicate Encodable(n: Note) {
    |n.name| < Limit(4) && |n.desc| < Limit(4) && n.kind < Limit(4)
  }

  function Padded(bs: seq<byte>): (r: seq<byte>)
    ensures |r| == Aligned(|bs|) && bs <= r
  {
    bs + Zeros(Aligned(|bs|) - |bs|)
  }

  function EncodeNote(n: Note, little: bool): seq<byte> {
    Pack(|n.name|, 4, little) + Pack(|n.desc|, 4, little) + Pack(n.kind, 4, little) + Padded(n.name) + Padded(n.desc)
  }

  function EncodeNotes(notes: seq<Note>, little: bool): seq<byte> {
    if notes == [] then [] else EncodeNote(notes[0], little) + EncodeNotes(notes[1..], little)
  }

  predicate IsBuildId(n: Note) {
    n.kind == 3 && IsGnu(n.name) && n.desc != []
  }

  /** "GNU" and then only zero bytes. */
  predicate IsGnu(name: seq<byte>) {
    && 3 <= |name| && name[0] as char == 'G' && name[1] as char == 'N' && name[2] as char == 'U'
    && forall i :: 3 <= i < |name| ==> name[i] == 0
  }

  lemma {:induction false} StrippedIsGnuIff(name: seq<byte>)
    ensures Stripped(name) == GNU <==> IsGnu(name)
  {
    if name != [] && name[|name| - 1] == 0 {
      var rest := name[..|name| - 1];
      StrippedIsGnuIff(rest);
      assert forall i :: 0 <= i < |rest| ==> rest[i] == name[i];
      assert forall i :: 3 <= i < |name| ==> i < |rest| || name[i] == 0;
    } else if name != [] {
      assert IsGnu(name) ==> |name| == 3;
      assert IsGnu(name) ==> name == [0x47, 0x4e, 0x55];
    }
  }

  function FirstBuildId(notes: seq<Note>): Option<seq<byte>> {
    if notes == [] then None
    else if IsBuildId(notes[0]) then Some(notes[0].desc)
    else FirstBuildId(notes[1..])
  }

  /** A segment that holds `notes` and then fewer bytes than another note header would need. */
  predicate HoldsNotes(data: seq<byte>, little: bool, start: nat, end: nat, notes: seq<Note>) {
    && start <= end <= |data|
    && (forall i :: 0 <= i < |notes| ==> Encodable(notes[i]))
    && EncodeNotes(notes, little) <= data[start..end]
    && end - start - |EncodeNotes(notes, little)| < 12
  }

  /** The note `n` lies at `start`, its descriptor and the next note in their aligned places. */
  predicate LiesAt(data: seq<byte>, little: bool, start: nat, n: Note, nextAt: nat) {
    var valueAt := start + 12 + Aligned(|n.name|);
    && nextAt == valueAt + Aligned(|n.desc|)
    && nextAt <= |data|
    && ReadNoteHead(data, little, start) == Success(NoteHead(|n.name|, |n.desc|, n.kind))
    && data[start + 12..start + 12 + |n.name|] == n.name
    && data[valueAt..valueAt + |n.desc|] == n.desc
  }

  lemma NoteIsRead(data: seq<byte>, little: bool, start: nat, end: nat, n: Note, nextAt: nat)
    requires LiesAt(data, little, start, n, nextAt) && nextAt <= end <= |data|
    ensures start + 12 <= nextAt
    ensures ReadNote(data, little, start, end).Success?
    ensures var note := ReadNote(data, little, start, end).value;
            && note.matches == IsBuildId(n)
            && note.nextAt == nextAt
            && data[note.valueAt..note.valueAt + note.values] == n.desc
  {
    StrippedIsGnuIff(n.name);
  }

  /** `e` consists of the five parts of the encoding of `n`. */
  predicate HasParts(e: seq<byte>, n: Note, little: bool) {
    var at := 12 + Aligned(|n.name|);
    && |e| == at + Aligned(|n.desc|)
    && e[0..4] == Pack(|n.name|, 4, little)
    && e[4..8] == Pack(|n.desc|, 4, little)
    && e[8..12] == Pack(n.kind, 4, little)
    && e[12..12 + |n.name|] == n.name
    && e[at..at + |n.desc|] == n.desc
  }

  lemma EncodingHasParts(n: Note, little: bool)
    ensures HasParts(EncodeNote(n, little), n, little)
  {
  }

  lemma PartsLie(data: seq<byte>, little: bool, start: nat, n: Note, e: seq<byte>)
    requires Encodable(n) && HasParts(e, n, little)
    requires start + |e| <= |data| && data[start..start + |e|] == e
    ensures LiesAt(data, little, start, n, start + |e|)
  {
    HeadLies(data, little, start, n, e);
    PartLies(data, start, e, 12, n.name);
    PartLies(data, start, e, 12 + Aligned(|n.name|), n.desc);
  }

  lemma PartLies(data: seq<byte>, start: nat, e: seq<byte>, from: nat, part: seq<byte>)
    requires start + |e| <= |data| && data[start..start + |e|] == e
    requires from + |part| <= |e| && e[from..from + |part|] == part
    ensures data[start + from..start + from + |part|] == part
  {
    SliceOf(data, start, e, from, from + |part|);
  }

  lemma HeadLies(data: seq<byte>, little: bool, start: nat, n: Note, e: seq<byte>)
    requires Encodable(n) && HasParts(e, n, little)
    requires start + |e| <= |data| && data[start..start + |e|] == e
    ensures ReadNoteHead(data, little, start) == Success(NoteHead(|n.name|, |n.desc|, n.kind))
  {
    SliceOf(data, start, e, 0, 4);
    SliceOf(data, start, e, 4, 8);
    SliceOf(data, start, e, 8, 12);
    UnpackAt(data, start, |n.name|, 4, little);
    UnpackAt(data, start + 4, |n.desc|, 4, little);
    UnpackAt(data, start + 8, n.kind, 4, little);
  }

  lemma EncodedNoteLies(data: seq<byte>, little: bool, start: nat, n: Note)
    requires Encodable(n) && start + |EncodeNote(n, little)| <= |data|
    requires data[start..start + |EncodeNote(n, little)|] == EncodeNote(n, little)
    ensures LiesAt(data, little, start, n, start + |EncodeNote(n, little)|)
  {
    EncodingHasParts(n, little);
    PartsLie(data, little, start, n, EncodeNote(n, little));
  }

  lemma PrefixSplit(data: seq<byte>, start: nat, end: nat, first: seq<byte>, rest: seq<byte>)
    requires start <= end <= |data| && first + rest <= data[start..end]
    ensures start + |first| <= end
    ensures data[start..start + |first|] == first
    ensures rest <= data[start + |first|..end]
  {
    var region := data[start..end];
    assert region[..|first + rest|] == first + rest;
    assert data[start..start + |first|] == region[..|first + rest|][..|first|];
    assert data[start + |first|..end][..|rest|] == region[..|first + rest|][|first|..];
  }

  lemma {:induction false} NotesUndoEncoding(data: seq<byte>, little: bool, start: nat, end: nat, notes: seq<Note>)
    requires HoldsNotes(data, little, start, end, notes)
    ensures ScanNotes(data, little, start, end) == Success(FirstBuildId(notes))
    decreases |notes|
  {
    if notes != [] {
      var next := start + |EncodeNote(notes[0], little)|;
      FirstNoteLies(data, little, start, end, notes);
      ScanStep(data, little, start, end, notes[0], next);
      if !IsBuildId(notes[0]) {
        NotesUndoEncoding(data, little, next, end, notes[1..]);
      }
    }
  }

  lemma FirstNoteLies(data: seq<byte>, little: bool, start: nat, end: nat, notes: seq<Note>)
    requires HoldsNotes(data, little, start, end, notes) && notes != []
    ensures var next := start + |EncodeNote(notes[0], little)|;
            && LiesAt(data, little, start, notes[0], next)
            && HoldsNotes(data, little, next, end, notes[1..])
  {
    PrefixSplit(data, start, end, EncodeNote(notes[0], little), EncodeNotes(notes[1..], little));
    EncodedNoteLies(data, little, start, notes[0]);
  }

  lemma ScanStep(data: seq<byte>, little: bool, start: nat, end: nat, n: Note, nextAt: nat)
    requires LiesAt(data, little, start, n, nextAt) && nextAt <= end <= |data|
    ensures ScanNotes(data, little, start, end) ==
      if IsBuildId(n) then Success(Some(n.desc)) else ScanNotes(data, little, nextAt, end)
  {
    NoteIsRead(data, little, start, end, n, nextAt);
  }

  // ----- Whole images

  /** A program header, as far as the search looks at it. */
  datatype Segment = NoteSegment(start: nat, length: nat, notes: seq<Note>) | OtherSegment(kind: nat)

  /** `n`, packed into `width` bytes, lies at `at`. */
  predicate Packed(data: seq<byte>, at: nat, n: nat, width: nat, little: bool) {
    n < Limit(width) && at + width <= |data| && data[at..at + width] == Pack(n, width, little)
  }

  function Word(wide: bool): nat {
    if wide then 8 else 4
  }

  /** A program header for notes at this place. */
  predicate PointsTo(data: seq<byte>, wide: bool, little: bool, at: nat, start: nat, length: nat) {
    && Packed(data, at, 4, 4, little)
    && Packed(data, at + if wide then 8 else 4, start, Word(wide), little)
    && Packed(data, at + if wide then 32 else 16, length, Word(wide), little)
  }

  /** The bytes of one program header for this segment, and of the notes it points to. */
  predicate Lies(data: seq<byte>, wide: bool, little: bool, at: nat, s: Segment) {
    match s
    case OtherSegment(kind) => kind != 4 && Packed(data, at, kind, 4, little)
    case NoteSegment(start, length, notes) =>
      && PointsTo(data, wide, little, at, start, length)
      && HoldsNotes(data, little, start, start + length, notes)
  }

  /** The bytes of the file header that locate the table. */
  predicate LayoutLies(data: seq<byte>, wide: bool, little: bool, l: Layout) {
    && Packed(data, if wide then 32 else 28, l.offset, Word(wide), little)
    && Packed(data, if wide then 54 else 42, l.size, 2, little)
    && Packed(data, if wide then 56 else 44, l.count, 2, little)
  }

  lemma LayoutIsRead(data: seq<byte>, wide: bool, little: bool, l: Layout)
    requires LayoutLies(data, wide, little, l)
    ensures ReadLayout(data, wide, little) == Success(l)
  {
    UnpackAt(data, if wide then 32 else 28, l.offset, Word(wide), little);
    UnpackAt(data, if wide then 54 else 42, l.size, 2, little);
    UnpackAt(data, if wide then 56 else 44, l.count, 2, little);
  }

  lemma HeaderIsRead(data: seq<byte>, wide: bool, little: bool, at: nat, s: Segment)
    requires Lies(data, wide, little, at, s)
    ensures ReadHeader(data, wide, little, at)
         == Success(if s.NoteSegment? then NoteAt(s.start, s.length) else Skipped)
  {
    match s
    case OtherSegment(kind) => UnpackAt(data, at, kind, 4, little);
    case NoteSegment(start, length, _) => PointerIsRead(data, wide, little, at, start, length);
  }

  lemma PointerIsRead(data: seq<byte>, wide: bool, little: bool, at: nat, start: nat, length: nat)
    requires PointsTo(data, wide, little, at, start, length)
    ensures ReadHeader(data, wide, little, at) == Success(NoteAt(start, length))
  {
    UnpackAt(data, at, 4, 4, little);
    UnpackAt(data, at + if wide then 8 else 4, start, Word(wide), little);
    UnpackAt(data, at + if wide then 32 else 16, length, Word(wide), little);
  }

  /** The header table from `at` on is that of these segments. */
  predicate TableLies(data: seq<byte>, wide: bool, little: bool, at: nat, size: nat, segments: seq<Segment>)
    decreases segments
  {
    segments != [] ==>
      && Lies(data, wide, little, at, segments[0])
      && TableLies(data, wide, little, at + size, size, segments[1..])
  }

  /** At least 52 bytes, the four magic ones, class 1 or 2 and byte order 1 or 2. */
  predicate ElfHeader(data: seq<byte>) {
    && 52 <= |data|
    && data[0] == 0x7f && data[1] as char == 'E' && data[2] as char == 'L' && data[3] as char == 'F'
    && (data[4] == 1 || data[4] == 2)
    && (data[5] == 1 || data[5] == 2)
  }

  /** The image holds this table of segments, wherever its parts lie. */
  predicate Represents(data: seq<byte>, l: Layout, segments: seq<Segment>) {
    && ElfHeader(data)
    && var wide, little := data[4] == 2, data[5] == 1;
    && LayoutLies(data, wide, little, l)
    && l.count == |segments|
    && (if wide then 56 else 32) <= l.size
    && l.offset + l.size * l.count <= |data|
    && TableLies(data, wide, little, l.offset, l.size, segments)
  }

  /** All notes, in header-then-note order. */
  function AllNotes(segments: seq<Segment>): seq<Note> {
    if segments == [] then []
    else NotesOf(segments[0]) + AllNotes(segments[1..])
  }

  function NotesOf(s: Segment): seq<Note> {
    if s.NoteSegment? then s.notes else []
  }

  lemma {:induction false} FirstOfConcat(a: seq<Note>, b: seq<Note>)
    ensures FirstBuildId(a + b) == if FirstBuildId(a).Some? then FirstBuildId(a) else FirstBuildId(b)
  {
    if a == [] {
      assert a + b == b;
    } else {
      FirstOfConcat(a[1..], b);
      assert (a + b)[1..] == a[1..] + b;
    }
  }

  function Verdict(id: Option<seq<byte>>): Result<seq<byte>, ElfError> {
    match id
    case None => Failure(NoBuildId)
    case Some(bytes) => Success(bytes)
  }

  /** What the search sees of a header: no notes, or notes that it scans to their first build id. */
  predicate Seen(data: seq<byte>, wide: bool, little: bool, at: nat, s: Segment) {
    match s
    case OtherSegment(_) => ReadHeader(data, wide, little, at) == Success(Skipped)
    case NoteSegment(start, length, notes) =>
      && ReadHeader(data, wide, little, at) == Success(NoteAt(start, length))
      && start + length <= |data|
      && ScanNotes(data, little, start, start + length) == Success(FirstBuildId(notes))
  }

  lemma SegmentIsSeen(data: seq<byte>, wide: bool, little: bool, at: nat, s: Segment)
    requires Lies(data, wide, little, at, s)
    ensures Seen(data, wide, little, at, s)
  {
    HeaderIsRead(data, wide, little, at, s);
    if s.NoteSegment? {
      NotesUndoEncoding(data, little, s.start, s.start + s.length, s.notes);
    }
  }

  lemma HeaderStep(data: seq<byte>, wide: bool, little: bool, at: nat, size: nat, s: Segment, left: nat)
    requires Seen(data, wide, little, at, s)
    ensures ScanHeaders(data, wide, little, at, size, left + 1) ==
      match FirstBuildId(NotesOf(s))
      case Some(id) => Success(id)
      case None => ScanHeaders(data, wide, little, at + size, size, left)
  {
  }

  function Place(at: nat, size: nat, index: nat): nat {
    at + size * index
  }

  lemma NextPlace(at: nat, size: nat, index: nat)
    ensures Place(at, size, 0) == at
    ensures Place(at + size, size, index) == Place(at, size, index + 1)
  {
    assert size * (index + 1) == size + size * index;
  }

  /** The first build id of these segments, or what the headers after them come to. */
  lemma {:induction false} HeadersUndoEncoding(
    data: seq<byte>, wide: bool, little: bool, at: nat, size: nat, segments: seq<Segment>, left: nat)
    requires TableLies(data, wide, little, at, size, segments)
    ensures ScanHeaders(data, wide, little, at, size, |segments| + left) ==
      match FirstBuildId(AllNotes(segments))
      case Some(id) => Success(id)
      case None => ScanHeaders(data, wide, little, Place(at, size, |segments|), size, left)
    decreases |segments|
  {
    if segments != [] {
      var rest := |segments| - 1;
      SegmentIsSeen(data, wide, little, at, segments[0]);
      HeaderStep(data, wide, little, at, size, segments[0], rest + left);
      HeadersUndoEncoding(data, wide, little, at + size, size, segments[1..], left);
      FirstOfConcat(NotesOf(segments[0]), AllNotes(segments[1..]));
      assert |segments[1..]| == rest && rest + left + 1 == |segments| + left;
      NextPlace(at, size, rest);
    } else {
      NextPlace(at, size, 0);
    }
  }

  /** The search returns the first build id in header-then-note order, for either class and byte order. */
  lemma BuildIdUndoesEncoding(data: seq<byte>, l: Layout, segments: seq<Segment>)
    requires Represents(data, l, segments)
    ensures BuildId(data) == Verdict(FirstBuildId(AllNotes(segments)))
  {
    LayoutIsRead(data, data[4] == 2, data[5] == 1, l);
    HeadersUndoEncoding(data, data[4] == 2, data[5] == 1, l.offset, l.size, segments, 0);
  }

  // ----- What is refused, and with which error

  /** The checks on the file header, in their order. */
  lemma HeaderErrorsIff(data: seq<byte>, l: Layout)
    ensures BuildId(data) == Failure(NotElf) <==> !ElfHeader(data)
    ensures ElfHeader(data) && LayoutLies(data, data[4] == 2, data[5] == 1, l) ==>
      (BuildId(data) == Failure(HeadersTruncated) <==>
        l.size < (if data[4] == 2 then 56 else 32) || |data| < l.offset + l.size * l.count)
  {
    assert 4 <= |data| && data[..4] == [0x7f, 0x45, 0x4c, 0x46] ==>
        data[0] == data[..4][0] && data[1] == data[..4][1] && data[2] == data[..4][2] && data[3] == data[..4][3];
    assert ElfHeader(data) ==> data[..4] == [0x7f, 0x45, 0x4c, 0x46];
    if SupportedIdent(data) {
      var wide, little := data[4] == 2, data[5] == 1;
      var read := ReadLayout(data, wide, little);
      if read.Success? {
        HeadersErr(data, wide, little, read.value.offset, read.value.size, read.value.count);
      }
      if LayoutLies(data, wide, little, l) {
        LayoutIsRead(data, wide, little, l);
      }
    }
  }

  /** The scan of the table has errors of its own. */
  lemma {:induction false} HeadersErr(data: seq<byte>, wide: bool, little: bool, at: nat, size: nat, left: nat)
    ensures ScanHeaders(data, wide, little, at, size, left).Failure? ==>
      ScanHeaders(data, wide, little, at, size, left).error !in {NotElf, HeadersTruncated}
    decreases left
  {
    if 0 < left {
      var header := ReadHeader(data, wide, little, at);
      HeadersErr(data, wide, little, at + size, size, left - 1);
      if header.Success? && header.value.NoteAt? && header.value.start + header.value.length <= |data| {
        NotesErr(data, little, header.value.start, header.value.start + header.value.length);
      }
    }
  }

  lemma {:induction false} NotesErr(data: seq<byte>, little: bool, start: nat, end: nat)
    requires end <= |data|
    ensures ScanNotes(data, little, start, end).Failure? ==>
      ScanNotes(data, little, start, end).error in {ValueTruncated, StructError}
    decreases if start <= end then end - start else 0
  {
    if start + 12 <= end {
      var note := ReadNote(data, little, start, end);
      if note.Success? {
        NotesErr(data, little, note.value.nextAt, end);
      }
    }
  }

  /** Here a note reaches beyond the segment. */
  predicate BreaksAt(data: seq<byte>, little: bool, last: nat, end: nat, names: nat, values: nat) {
    && last + 12 <= end <= |data| && end < last + 12 + Aligned(names) + Aligned(values)
    && Packed(data, last, names, 4, little) && Packed(data, last + 4, values, 4, little)
  }

  lemma BreakIsTold(data: seq<byte>, little: bool, last: nat, end: nat, names: nat, values: nat)
    requires BreaksAt(data, little, last, end, names, values)
    ensures ScanNotes(data, little, last, end) == Failure(ValueTruncated)
  {
    UnpackAt(data, last, names, 4, little);
    UnpackAt(data, last + 4, values, 4, little);
  }

  /** Notes that are no build ids lead to what comes after them, at `last`. */
  predicate LeadsTo(data: seq<byte>, little: bool, start: nat, end: nat, notes: seq<Note>, last: nat) {
    && start <= end <= |data| && EncodeNotes(notes, little) <= data[start..end]
    && last == start + |EncodeNotes(notes, little)|
    && forall i :: 0 <= i < |notes| ==> Encodable(notes[i]) && !IsBuildId(notes[i])
  }

  lemma {:induction false} OtherNotesArePassed(data: seq<byte>, little: bool, start: nat, end: nat, notes: seq<Note>,
                                               last: nat)
    requires LeadsTo(data, little, start, end, notes, last)
    ensures ScanNotes(data, little, start, end) == ScanNotes(data, little, last, end)
    decreases |notes|
  {
    if notes == [] {
      assert last == start;
    } else {
      OtherNoteIsPassed(data, little, start, end, notes, last);
      OtherNotesArePassed(data, little, start + |EncodeNote(notes[0], little)|, end, notes[1..], last);
    }
  }

  lemma OtherNoteIsPassed(data: seq<byte>, little: bool, start: nat, end: nat, notes: seq<Note>, last: nat)
    requires LeadsTo(data, little, start, end, notes, last) && notes != []
    ensures var next := start + |EncodeNote(notes[0], little)|;
            && LeadsTo(data, little, next, end, notes[1..], last)
            && ScanNotes(data, little, start, end) == ScanNotes(data, little, next, end)
  {
    PrefixSplit(data, start, end, EncodeNote(notes[0], little), EncodeNotes(notes[1..], little));
    EncodedNoteLies(data, little, start, notes[0]);
    ScanStep(data, little, start, end, notes[0], start + |EncodeNote(notes[0], little)|);
  }

  /** A segment without an end in the file, or whose notes break off. */
  predicate SegmentFails(data: seq<byte>, wide: bool, little: bool, at: nat, start: nat, length: nat, e: ElfError) {
    && PointsTo(data, wide, little, at, start, length)
    && if start + length <= |data| then ScanNotes(data, little, start, start + length) == Failure(e)
       else e == NoteTruncated
  }

  lemma SegmentFailsHere(data: seq<byte>, wide: bool, little: bool, at: nat, size: nat, left: nat, start: nat,
                         length: nat, e: ElfError)
    requires 0 < left && SegmentFails(data, wide, little, at, start, length, e)
    ensures ScanHeaders(data, wide, little, at, size, left) == Failure(e)
  {
    PointerIsRead(data, wide, little, at, start, length);
  }
}
