/**
 * Signer certificates of an APK (rdc_tool/runtime_identity.py, _length_prefixed and
 * _apk_signer_certificates): the signing block of the APK Signature Scheme v2/v3, located from the ZIP
 * end record (section 4.3.16 of PKWARE APPNOTE).
 */
module ApkSigners {
  import opened Wrappers
  import opened Bytes

  datatype ApkError =
    | NoEndRecord | NoSigningBlock | BlockSizeMismatch
    | EntryTruncated | EntrySizeInvalid
    | LengthTruncated | ValueTruncated | EmptyCertificate | NoCertificates

  const END_RECORD: seq<byte> := [0x50, 0x4b, 0x05, 0x06]
  const MAGIC: seq<byte> := [
    0x41, 0x50, 0x4b, 0x20, 0x53, 0x69, 0x67, 0x20, 0x42, 0x6c, 0x6f, 0x63, 0x6b, 0x20, 0x34, 0x32]

  predicate IsSignatureId(kind: nat) {
    kind == 0x7109871a || kind == 0xf05368c0 || kind == 0x1b93ad61
  }

  // ----- Length-prefixed values

  function LengthPrefixed(data: seq<byte>, at: nat): (r: Result<(seq<byte>, nat), ApkError>)
    ensures r.Success? ==> at + 4 <= r.value.1 <= |data| && r.value.0 == data[at + 4..r.value.1]
    ensures r.Success? ==> r.value.1 == at + 4 + Number(data, at, 4, true)
    ensures r == Failure(LengthTruncated) <==> |data| < at + 4
    ensures r == Failure(ValueTruncated) <==> at + 4 <= |data| < at + 4 + Number(data, at, 4, true)
  {
    if |data| < at + 4 then Failure(LengthTruncated)
    else
      var end := at + 4 + Number(data, at, 4, true);
      if |data| < end then Failure(ValueTruncated) else Success((data[at + 4..end], end))
  }

  // ----- Meaning: certificates of one scheme block, then of all entries

  /** The first certificate of one signer. */
  function FirstCertificate(signer: seq<byte>): Result<seq<byte>, ApkError> {
    var signed :- LengthPrefixed(signer, 0);
    var digests :- LengthPrefixed(signed.0, 0);
    var certificates :- LengthPrefixed(signed.0, digests.1);
    var certificate :- LengthPrefixed(certificates.0, 0);
    if certificate.0 == [] then Failure(EmptyCertificate) else Success(certificate.0)
  }

  /** Results add up; a failure stays a failure. */
  function Joined(found: set<nat>, r: Result<set<nat>, ApkError>): Result<set<nat>, ApkError> {
    match r
    case Failure(e) => Failure(e)
    case Success(more) => Success(found + more)
  }

  lemma JoinedTwice(a: set<nat>, b: set<nat>, r: Result<set<nat>, ApkError>)
    ensures Joined(a, Joined(b, r)) == Joined(a + b, r)
  {
    assert r.Success? ==> a + (b + r.value) == (a + b) + r.value;
  }

  lemma JoinedNothing(r: Result<set<nat>, ApkError>)
    ensures Joined({}, r) == r
  {
    assert r.Success? ==> {} + r.value == r.value;
  }

  function SignersFrom(signers: seq<byte>, at: nat, digest: seq<byte> -> nat): Result<set<nat>, ApkError>
    decreases if at <= |signers| then |signers| - at else 0
  {
    if |signers| <= at then Success({})
    else
      match LengthPrefixed(signers, at)
      case Failure(e) => Failure(e)
      case Success((signer, next)) =>
        match FirstCertificate(signer)
        case Failure(e) => Failure(e)
        case Success(certificate) =>
          Joined({digest(certificate)}, SignersFrom(signers, next, digest))
  }

  function EntryCertificates(kind: nat, value: seq<byte>, digest: seq<byte> -> nat): Result<set<nat>, ApkError> {
    if !IsSignatureId(kind) then Success({})
    else
      match LengthPrefixed(value, 0)
      case Failure(e) => Failure(e)
      case Success((signers, _)) => SignersFrom(signers, 0, digest)
  }

  /** One entry of the block: its id, its value and where the next one begins. */
  datatype EntryView = EntryView(kind: nat, value: seq<byte>, next: nat)

  /** All reads lie between `at` and `limit`. */
  function ReadEntry(data: seq<byte>, at: nat, limit: nat): (r: Result<EntryView, ApkError>)
    requires at < limit <= |data|
    ensures r.Success? ==> at + 12 <= r.value.next <= limit && r.value.value == data[at + 12..r.value.next]
    ensures r == Failure(EntryTruncated) <==> limit < at + 8
    ensures r.Failure? && at + 8 <= limit ==>
      r.error == EntrySizeInvalid && (Number(data, at, 8, true) < 4 || limit < at + 8 + Number(data, at, 8, true))
  {
    if limit < at + 8 then Failure(EntryTruncated)
    else
      var length := Number(data, at, 8, true);
      var end := at + 8 + length;
      if length < 4 || limit < end then Failure(EntrySizeInvalid)
      else Success(EntryView(Number(data, at + 8, 4, true), data[at + 12..end], end))
  }

  /** What an entry with this id and value contributes. */
  type EntryReader = (nat, seq<byte>) -> Result<set<nat>, ApkError>

  function ReaderOf(digest: seq<byte> -> nat): EntryReader {
    (kind, value) => EntryCertificates(kind, value, digest)
  }

  function WalkEntries(data: seq<byte>, at: nat, limit: nat, reader: EntryReader): Result<set<nat>, ApkError>
    requires limit <= |data|
    decreases if at <= limit then limit - at else 0
  {
    if limit <= at then Success({})
    else
      match ReadEntry(data, at, limit)
      case Failure(e) => Failure(e)
      case Success(entry) =>
        match reader(entry.kind, entry.value)
        case Failure(e) => Failure(e)
        case Success(here) => Joined(here, WalkEntries(data, entry.next, limit, reader))
  }

  predicate Occurs(data: seq<byte>, pattern: seq<byte>, at: nat) {
    at + |pattern| <= |data| && data[at..at + |pattern|] == pattern
  }

  /** `rfind(pattern, from)`: the last occurrence that begins at `from` or later. */
  function LastIndex(data: seq<byte>, pattern: seq<byte>, from: nat): (r: Option<nat>)
    ensures r.Some? ==> from <= r.value && Occurs(data, pattern, r.value)
    ensures forall i :: (if r.Some? then r.value + 1 else from) <= i <= |data| ==> !Occurs(data, pattern, i)
    decreases if from <= |data| then |data| - from else 0
  {
    if |data| < from + |pattern| then None
    else
      var later := if from < |data| then LastIndex(data, pattern, from + 1) else None;
      if later.Some? then later
      else if Occurs(data, pattern, from) then Some(from)
      else None
  }

  /** Where the entries of the signing block lie. */
  datatype Block = Block(start: nat, limit: nat)

  function LocateBlock(data: seq<byte>): (r: Result<Block, ApkError>)
    ensures r.Success? ==> r.value.limit <= |data|
  {
    var window := if |data| < 65557 then 0 else |data| - 65557;
    match LastIndex(data, END_RECORD, window)
    case None => Failure(NoEndRecord)
    case Some(record) =>
      if |data| < record + 22 then Failure(NoEndRecord)
      else
        var central := Number(data, record + 16, 4, true);
        if central < 24 || |data| < central || data[central - 16..central] != MAGIC then Failure(NoSigningBlock)
        else
          var size := Number(data, central - 24, 8, true);
          if central < size + 8 || Number(data, central - size - 8, 8, true) != size then
            Failure(BlockSizeMismatch)
          else Success(Block(central - size, central - 24))
  }

  predicate Ascending(s: seq<nat>) {
    forall i, j :: 0 <= i < j < |s| ==> s[i] < s[j]
  }

  predicate IsLeast(m: nat, s: set<nat>) {
    m in s && forall x :: x in s ==> m <= x
  }

  function Least(s: set<nat>): (m: nat)
    requires s != {}
    ensures IsLeast(m, s)
  {
    LeastExists(s);
    var m :| m in s && IsLeast(m, s);
    m
  }

  lemma LeastExists(s: set<nat>)
    requires s != {}
    ensures exists m :: m in s && IsLeast(m, s)
  {
    var m := LeastOf(s);
  }

  lemma LeastOf(s: set<nat>) returns (m: nat)
    requires s != {}
    ensures IsLeast(m, s)
  {
    m :| m in s;
    var rest := s - {m};
    assert forall x :: x in s ==> x == m || x in rest;
    if rest != {} {
      var n := LeastOf(rest);
      if n < m {
        m := n;
      }
    }
  }

  /** `sorted(set)`. */
  function SortedList(s: set<nat>): (r: seq<nat>)
    ensures Ascending(r) && forall x :: x in r <==> x in s
  {
    if s == {} then []
    else
      var m := Least(s);
      [m] + SortedList(s - {m})
  }

  /** `digest` stands for SHA-256; its hex strings have one length, so they sort as these numbers do. */
  function Certificates(data: seq<byte>, digest: seq<byte> -> nat): Result<seq<nat>, ApkError> {
    match LocateBlock(data)
    case Failure(e) => Failure(e)
    case Success(block) =>
      match WalkEntries(data, block.start, block.limit, ReaderOf(digest))
      case Failure(e) => Failure(e)
      case Success(found) => if found == {} then Failure(NoCertificates) else Success(SortedList(found))
  }

  // ----- The source's loops

  method CollectSigners(signers: seq<byte>, certificates: set<nat>, digest: seq<byte> -> nat)
    returns (r: Result<set<nat>, ApkError>)
    ensures r == Joined(certificates, SignersFrom(signers, 0, digest))
  {
    var found := certificates;
    var at := 0;
    while at < |signers|
      invariant at <= |signers|
      invariant Joined(certificates, SignersFrom(signers, 0, digest)) == Joined(found, SignersFrom(signers, at, digest))
      decreases |signers| - at
    {
      var signer := LengthPrefixed(signers, at);
      if signer.Failure? {
        return Failure(signer.error);
      }
      var certificate := FirstCertificate(signer.value.0);
      if certificate.Failure? {
        return Failure(certificate.error);
      }
      JoinedTwice(found, {digest(certificate.value)}, SignersFrom(signers, signer.value.1, digest));
      found := found + {digest(certificate.value)};
      at := signer.value.1;
    }
    assert found + {} == found;
    return Success(found);
  }

  method ApkSignerCertificates(data: seq<byte>, digest: seq<byte> -> nat) returns (r: Result<seq<nat>, ApkError>)
    ensures r == Certificates(data, digest)
  {
    var block := LocateBlock(data);
    if block.Failure? {
      return Failure(block.error);
    }
    var found := CollectEntries(data, block.value, digest);
    if found.Failure? {
      return Failure(found.error);
    }
    if found.value == {} {
      return Failure(NoCertificates);
    }
    return Success(SortedList(found.value));
  }

  method CollectEntries(data: seq<byte>, block: Block, digest: seq<byte> -> nat)
    returns (r: Result<set<nat>, ApkError>)
    requires block.limit <= |data|
    ensures r == WalkEntries(data, block.start, block.limit, ReaderOf(digest))
  {
    var found: set<nat> := {};
    var at := block.start;
    ghost var reader := ReaderOf(digest);
    JoinedNothing(WalkEntries(data, at, block.limit, reader));
    while at < block.limit
      invariant WalkEntries(data, block.start, block.limit, reader)
             == Joined(found, WalkEntries(data, at, block.limit, reader))
      decreases block.limit - at
    {
      var entry := ReadEntry(data, at, block.limit);
      if entry.Failure? {
        return Failure(entry.error);
      }
      var grown := CollectEntry(entry.value.kind, entry.value.value, found, digest);
      assert reader(entry.value.kind, entry.value.value)
          == EntryCertificates(entry.value.kind, entry.value.value, digest);
      if grown.Failure? {
        return Failure(grown.error);
      }
      JoinedTwice(found, reader(entry.value.kind, entry.value.value).value,
                  WalkEntries(data, entry.value.next, block.limit, reader));
      found := grown.value;
      at := entry.value.next;
    }
    assert found + {} == found;
    return Success(found);
  }

  method CollectEntry(kind: nat, value: seq<byte>, certificates: set<nat>, digest: seq<byte> -> nat)
    returns (r: Result<set<nat>, ApkError>)
    ensures r == Joined(certificates, EntryCertificates(kind, value, digest))
  {
    if !IsSignatureId(kind) {
      assert certificates + {} == certificates;
      return Success(certificates);
    }
    var signers := LengthPrefixed(value, 0);
    if signers.Failure? {
      return Failure(signers.error);
    }
    r := CollectSigners(signers.value.0, certificates, digest);
  }

  // ----- Tiling: accepted entries cover the whole span, byte by byte

  /** An entry of the signing block as it is written. */
  datatype Entry = Entry(kind: nat, value: seq<byte>)

  predicate FitsEntry(e: Entry) {
    e.kind < Limit(4) && 4 + |e.value| < Limit(8)
  }

  function EncodeEntry(e: Entry): (r: seq<byte>)
    ensures |r| == 12 + |e.value|
  {
    Pack(4 + |e.value|, 8, true) + Pack(e.kind, 4, true) + e.value
  }

  function EncodeEntries(es: seq<Entry>): seq<byte> {
    if es == [] then [] else EncodeEntry(es[0]) + EncodeEntries(es[1..])
  }

  lemma ThreePieces(data: seq<byte>, from: nat, second: nat, third: nat, to: nat)
    requires from <= second <= third <= to <= |data|
    ensures data[from..to] == data[from..second] + data[second..third] + data[third..to]
  {
  }

  lemma EntryTiles(data: seq<byte>, at: nat, limit: nat)
    requires at < limit <= |data| && ReadEntry(data, at, limit).Success?
    ensures var e := ReadEntry(data, at, limit).value;
            data[at..e.next] == EncodeEntry(Entry(e.kind, e.value)) && FitsEntry(Entry(e.kind, e.value))
  {
    var e := ReadEntry(data, at, limit).value;
    NumberIsTight(data, at, 8, true);
    NumberIsTight(data, at + 8, 4, true);
    NumberFits(data, at, 8, true);
    NumberFits(data, at + 8, 4, true);
    ThreePieces(data, at, at + 8, at + 12, e.next);
  }

  /**
   * Whatever block is accepted, its entries tile exactly the span between the two size fields. A size below
   * 24 makes the two fields meet or overlap; such a block begins past its end and has no entries.
   */
  lemma {:induction false} AcceptedEntriesTile(data: seq<byte>, at: nat, limit: nat, reader: EntryReader)
    returns (es: seq<Entry>)
    requires limit <= |data| && WalkEntries(data, at, limit, reader).Success?
    ensures if at <= limit then data[at..limit] == EncodeEntries(es) else es == []
    ensures forall e :: e in es ==> FitsEntry(e)
    decreases if at <= limit then limit - at else 0
  {
    es := [];
    if at < limit {
      var e := ReadEntry(data, at, limit).value;
      EntryTiles(data, at, limit);
      var rest := AcceptedEntriesTile(data, e.next, limit, reader);
      es := [Entry(e.kind, e.value)] + rest;
      assert data[at..limit] == data[at..e.next] + data[e.next..limit];
    }
  }

  // ----- Encoding a block

  /** One signer: its signed data (digests, certificates, attributes) and what follows it. */
  datatype Signer = Signer(digests: seq<byte>, certificates: seq<seq<byte>>, attributes: seq<byte>, rest: seq<byte>)

  datatype Item = Signatures(kind: nat, signers: seq<Signer>, rest: seq<byte>) | Unrelated(kind: nat, value: seq<byte>)

  function Prefixed(bs: seq<byte>): (r: seq<byte>)
    ensures |r| == 4 + |bs|
  {
    Pack(|bs|, 4, true) + bs
  }

  function EncodeAll(values: seq<seq<byte>>): seq<byte> {
    if values == [] then [] else Prefixed(values[0]) + EncodeAll(values[1..])
  }

  function EncodeSigned(s: Signer): seq<byte> {
    Prefixed(s.digests) + (Prefixed(EncodeAll(s.certificates)) + s.attributes)
  }

  function EncodeSigner(s: Signer): seq<byte> {
    Prefixed(EncodeSigned(s)) + s.rest
  }

  function EncodeSigners(signers: seq<Signer>): seq<byte> {
    if signers == [] then [] else Prefixed(EncodeSigner(signers[0])) + EncodeSigners(signers[1..])
  }

  /** Every length fits its four bytes, and the first certificate is there and not empty. */
  predicate GoodSigner(s: Signer) {
    FaultOf(s).None? && FitsSigner(s)
  }

  predicate FitsSigner(s: Signer) {
    |EncodeSigner(s)| < Limit(4)
  }

  function FaultOf(s: Signer): Option<ApkError> {
    if s.certificates == [] then Some(LengthTruncated)
    else if s.certificates[0] == [] then Some(EmptyCertificate)
    else None
  }

  predicate GoodItem(item: Item) {
    match item
    case Unrelated(kind, value) => kind !in {0x7109871a, 0xf05368c0, 0x1b93ad61} && FitsEntry(Entry(kind, value))
    case Signatures(kind, signers, rest) =>
      && kind in {0x7109871a, 0xf05368c0, 0x1b93ad61}
      && FitsEntry(EntryOf(item))
      && |EncodeSigners(signers)| < Limit(4)
      && forall i :: 0 <= i < |signers| ==> GoodSigner(signers[i])
  }

  function EntryOf(item: Item): Entry {
    match item
    case Unrelated(kind, value) => Entry(kind, value)
    case Signatures(kind, signers, rest) => Entry(kind, Prefixed(EncodeSigners(signers)) + rest)
  }

  function EntriesOf(items: seq<Item>): seq<Entry> {
    if items == [] then [] else [EntryOf(items[0])] + EntriesOf(items[1..])
  }

  function FirstOf(s: Signer): seq<byte> {
    if s.certificates == [] then [] else s.certificates[0]
  }

  /** The digests of the first certificates of these signers. */
  function SignerDigests(signers: seq<Signer>, digest: seq<byte> -> nat): set<nat> {
    set s | s in signers :: digest(FirstOf(s))
  }

  function ItemDigests(items: seq<Item>, digest: seq<byte> -> nat): set<nat> {
    if items == [] then {}
    else
      (if items[0].Signatures? then SignerDigests(items[0].signers, digest) else {})
      + ItemDigests(items[1..], digest)
  }

  // ----- Reading undoes encoding

  lemma PrefixedAt(data: seq<byte>, at: nat, value: seq<byte>)
    requires |value| < Limit(4) && at + |Prefixed(value)| <= |data|
    requires data[at..at + |Prefixed(value)|] == Prefixed(value)
    ensures LengthPrefixed(data, at) == Success((value, at + |Prefixed(value)|))
  {
    var p := Prefixed(value);
    assert data[at..at + 4] == p[..4] by {
      assert data[at..at + |p|][..4] == data[at..at + 4];
    }
    UnpackAt(data, at, |value|, 4, true);
    assert data[at + 4..at + |p|] == p[4..] by {
      assert data[at..at + |p|][4..] == data[at + 4..at + |p|];
    }
  }

  /** A prefixed value between two others. */
  lemma PrefixedBetween(before: seq<byte>, value: seq<byte>, after: seq<byte>)
    requires |value| < Limit(4)
    ensures LengthPrefixed(before + (Prefixed(value) + after), |before|)
         == Success((value, |before| + |Prefixed(value)|))
  {
    var data := before + (Prefixed(value) + after);
    assert data[|before|..|before| + |Prefixed(value)|] == Prefixed(value);
    PrefixedAt(data, |before|, value);
  }

  lemma PrefixedFirst(value: seq<byte>, after: seq<byte>)
    requires |value| < Limit(4)
    ensures LengthPrefixed(Prefixed(value) + after, 0) == Success((value, |Prefixed(value)|))
  {
    PrefixedBetween([], value, after);
    assert [] + (Prefixed(value) + after) == Prefixed(value) + after;
  }

  lemma SignerSizes(s: Signer)
    requires FitsSigner(s)
    ensures |EncodeSigned(s)| < Limit(4) && |s.digests| < Limit(4) && |EncodeAll(s.certificates)| < Limit(4)
    ensures s.certificates != [] ==>
      && |s.certificates[0]| < Limit(4)
      && EncodeAll(s.certificates) == Prefixed(s.certificates[0]) + EncodeAll(s.certificates[1..])
  {
  }

  lemma SignerUndoesEncoding(s: Signer)
    requires FitsSigner(s)
    ensures FirstCertificate(EncodeSigner(s)) ==
      if FaultOf(s).Some? then Failure(FaultOf(s).value) else Success(FirstOf(s))
  {
    SignerSizes(s);
    PrefixedFirst(EncodeSigned(s), s.rest);
    PrefixedFirst(s.digests, Prefixed(EncodeAll(s.certificates)) + s.attributes);
    PrefixedBetween(Prefixed(s.digests), EncodeAll(s.certificates), s.attributes);
    if s.certificates != [] {
      PrefixedFirst(s.certificates[0], EncodeAll(s.certificates[1..]));
    }
  }

  /** Two parts side by side. */
  lemma SliceSplit(data: seq<byte>, at: nat, limit: nat, first: seq<byte>, rest: seq<byte>)
    requires at <= limit <= |data| && data[at..limit] == first + rest
    ensures at + |first| <= limit
    ensures data[at..at + |first|] == first && data[at + |first|..limit] == rest
  {
    var slice := data[at..limit];
    assert slice[..|first|] == first && slice[|first|..] == rest;
    assert data[at..at + |first|] == slice[..|first|];
    assert data[at + |first|..limit] == slice[|first|..];
  }

  /** The first signer without a usable certificate. */
  predicate FirstFault(signers: seq<Signer>, i: nat) {
    && i < |signers| && FaultOf(signers[i]).Some?
    && forall j :: 0 <= j < i ==> FaultOf(signers[j]).None?
  }

  /** These signers, one after the other, from here to the end. */
  predicate HoldsSigners(data: seq<byte>, at: nat, signers: seq<Signer>) {
    && at <= |data| && data[at..|data|] == EncodeSigners(signers)
    && forall i :: 0 <= i < |signers| ==> FitsSigner(signers[i])
  }

  lemma {:induction false} SignersUndoEncoding(data: seq<byte>, at: nat, signers: seq<Signer>, digest: seq<byte> -> nat)
    requires HoldsSigners(data, at, signers)
    requires forall i :: 0 <= i < |signers| ==> FaultOf(signers[i]).None?
    ensures SignersFrom(data, at, digest) == Success(SignerDigests(signers, digest))
    decreases signers
  {
    if signers != [] {
      var next := NextSigner(data, at, signers, digest);
      SignersUndoEncoding(data, next, signers[1..], digest);
      DigestsGrow(signers, digest);
    } else {
      assert at == |data| && SignerDigests(signers, digest) == {};
    }
  }

  /** The first signer without a usable certificate decides, whatever comes before and after it. */
  lemma {:induction false} FaultySignerIsTold(data: seq<byte>, at: nat, signers: seq<Signer>, i: nat,
                                              digest: seq<byte> -> nat)
    requires HoldsSigners(data, at, signers) && FirstFault(signers, i)
    ensures SignersFrom(data, at, digest) == Failure(FaultOf(signers[i]).value)
    decreases i
  {
    var next := NextSigner(data, at, signers, digest);
    if 0 < i {
      FaultMovesUp(signers, i);
      FaultySignerIsTold(data, next, signers[1..], i - 1, digest);
    }
  }

  lemma FaultMovesUp(signers: seq<Signer>, i: nat)
    requires FirstFault(signers, i) && 0 < i
    ensures FirstFault(signers[1..], i - 1) && signers[1..][i - 1] == signers[i]
  {
  }

  lemma NextSigner(data: seq<byte>, at: nat, signers: seq<Signer>, digest: seq<byte> -> nat) returns (next: nat)
    requires HoldsSigners(data, at, signers) && signers != []
    ensures HoldsSigners(data, next, signers[1..])
    ensures SignersFrom(data, at, digest) ==
      match FaultOf(signers[0])
      case Some(error) => Failure(error)
      case None => Joined({digest(FirstOf(signers[0]))}, SignersFrom(data, next, digest))
  {
    var signer := EncodeSigner(signers[0]);
    next := at + |Prefixed(signer)|;
    NextPrefixed(data, at, signer, EncodeSigners(signers[1..]));
    SignerUndoesEncoding(signers[0]);
    SignerStep(data, at, signer, next, digest);
  }

  lemma NextPrefixed(data: seq<byte>, at: nat, value: seq<byte>, rest: seq<byte>)
    requires at <= |data| && data[at..|data|] == Prefixed(value) + rest && |value| < Limit(4)
    ensures var next := at + |Prefixed(value)|;
      && next <= |data| && data[next..|data|] == rest
      && LengthPrefixed(data, at) == Success((value, next))
  {
    SliceSplit(data, at, |data|, Prefixed(value), rest);
    PrefixedAt(data, at, value);
  }

  lemma SignerStep(signers: seq<byte>, at: nat, signer: seq<byte>, next: nat, digest: seq<byte> -> nat)
    requires LengthPrefixed(signers, at) == Success((signer, next))
    ensures SignersFrom(signers, at, digest) ==
      match FirstCertificate(signer)
      case Failure(error) => Failure(error)
      case Success(certificate) => Joined({digest(certificate)}, SignersFrom(signers, next, digest))
  {
  }

  lemma DigestsGrow(signers: seq<Signer>, digest: seq<byte> -> nat)
    requires signers != []
    ensures SignerDigests(signers, digest) == {digest(FirstOf(signers[0]))} + SignerDigests(signers[1..], digest)
  {
    assert signers == [signers[0]] + signers[1..];
  }

  lemma ItemUndoesEncoding(item: Item, digest: seq<byte> -> nat)
    requires GoodItem(item)
    ensures EntryCertificates(EntryOf(item).kind, EntryOf(item).value, digest)
         == Success(if item.Signatures? then SignerDigests(item.signers, digest) else {})
  {
    if item.Signatures? {
      PrefixedFirst(EncodeSigners(item.signers), item.rest);
      var signers := EncodeSigners(item.signers);
      assert signers[0..|signers|] == signers;
      assert forall i :: 0 <= i < |item.signers| ==> GoodSigner(item.signers[i]);
      SignersUndoEncoding(signers, 0, item.signers, digest);
    }
  }

  lemma EntryParts(e: Entry)
    ensures var p := EncodeEntry(e);
            p[0..8] == Pack(4 + |e.value|, 8, true) && p[8..12] == Pack(e.kind, 4, true) && p[12..|p|] == e.value
  {
    var size, kind := Pack(4 + |e.value|, 8, true), Pack(e.kind, 4, true);
    assert EncodeEntry(e) == size + (kind + e.value);
  }

  lemma EntryIsRead(data: seq<byte>, at: nat, limit: nat, e: Entry)
    requires FitsEntry(e) && at + |EncodeEntry(e)| <= limit <= |data|
    requires data[at..at + |EncodeEntry(e)|] == EncodeEntry(e)
    ensures ReadEntry(data, at, limit) == Success(EntryView(e.kind, e.value, at + |EncodeEntry(e)|))
  {
    var p := EncodeEntry(e);
    EntryParts(e);
    SliceOf(data, at, p, 0, 8);
    SliceOf(data, at, p, 8, 12);
    SliceOf(data, at, p, 12, |p|);
    UnpackAt(data, at, 4 + |e.value|, 8, true);
    UnpackAt(data, at + 8, e.kind, 4, true);
  }

  /** What entries contribute together. */
  function Combined(es: seq<Entry>, reader: EntryReader): Result<set<nat>, ApkError> {
    if es == [] then Success({})
    else
      match reader(es[0].kind, es[0].value)
      case Failure(e) => Failure(e)
      case Success(here) => Joined(here, Combined(es[1..], reader))
  }

  lemma {:induction false} EntriesUndoEncoding(
    data: seq<byte>, at: nat, limit: nat, es: seq<Entry>, reader: EntryReader)
    requires at <= limit <= |data| && data[at..limit] == EncodeEntries(es)
    requires forall i :: 0 <= i < |es| ==> FitsEntry(es[i])
    ensures WalkEntries(data, at, limit, reader) == Combined(es, reader)
    decreases es
  {
    if es != [] {
      SliceSplit(data, at, limit, EncodeEntry(es[0]), EncodeEntries(es[1..]));
      EntryIsRead(data, at, limit, es[0]);
      var next := at + |EncodeEntry(es[0])|;
      EntriesUndoEncoding(data, next, limit, es[1..], reader);
      WalkStep(data, at, limit, es[0], next, reader);
      assert Combined(es, reader) == WalkEntries(data, at, limit, reader);
    }
  }

  lemma WalkStep(data: seq<byte>, at: nat, limit: nat, e: Entry, next: nat, reader: EntryReader)
    requires at < limit <= |data| && ReadEntry(data, at, limit) == Success(EntryView(e.kind, e.value, next))
    ensures WalkEntries(data, at, limit, reader) ==
      match reader(e.kind, e.value)
      case Failure(error) => Failure(error)
      case Success(here) => Joined(here, WalkEntries(data, next, limit, reader))
  {
  }

  lemma {:induction false} ItemsCombine(items: seq<Item>, digest: seq<byte> -> nat)
    requires forall i :: 0 <= i < |items| ==> GoodItem(items[i])
    ensures Combined(EntriesOf(items), ReaderOf(digest)) == Success(ItemDigests(items, digest))
    ensures |EntriesOf(items)| == |items|
    ensures forall i :: 0 <= i < |items| ==> FitsEntry(EntriesOf(items)[i])
    decreases items
  {
    if items != [] {
      ItemsCombine(items[1..], digest);
      ItemUndoesEncoding(items[0], digest);
      assert EntriesOf(items)[1..] == EntriesOf(items[1..]);
      CombineStep(EntriesOf(items), ReaderOf(digest),
                  if items[0].Signatures? then SignerDigests(items[0].signers, digest) else {});
    }
  }

  lemma CombineStep(es: seq<Entry>, reader: EntryReader, here: set<nat>)
    requires es != [] && reader(es[0].kind, es[0].value) == Success(here)
    ensures Combined(es, reader) == Joined(here, Combined(es[1..], reader))
  {
  }

  // ----- Whole files

  /** The signing block: size, entries, size again, magic. */
  function EncodeBlock(items: seq<Item>): (r: seq<byte>)
    ensures |r| == |EncodeEntries(EntriesOf(items))| + 32
  {
    var entries := EncodeEntries(EntriesOf(items));
    Pack(|entries| + 24, 8, true) + entries + Pack(|entries| + 24, 8, true) + Ascii("APK Sig Block 42")
  }

  /** The ZIP end record, pointing at the central directory; `fields` are its other twelve bytes. */
  function EncodeEnd(fields: seq<byte>, central: nat, comment: seq<byte>): (r: seq<byte>)
    requires |fields| == 12
    ensures |r| == 22 + |comment|
  {
    [0x50, 0x4b, 0x05, 0x06] + fields + Pack(central, 4, true) + Pack(|comment|, 2, true) + comment
  }

  function EncodeApk(contents: seq<byte>, items: seq<Item>, directory: seq<byte>, fields: seq<byte>, comment: seq<byte>)
    : seq<byte>
    requires |fields| == 12
  {
    contents + EncodeBlock(items) + directory + EncodeEnd(fields, |contents| + |EncodeBlock(items)|, comment)
  }

  predicate GoodBlock(items: seq<Item>) {
    && |EncodeEntries(EntriesOf(items))| + 24 < Limit(8)
    && forall i :: 0 <= i < |items| ==> GoodItem(items[i])
  }

  /** The block's parts lie where the reader looks for them. */
  lemma BlockParts(data: seq<byte>, from: nat, items: seq<Item>)
    requires from + |EncodeBlock(items)| <= |data|
    requires data[from..from + |EncodeBlock(items)|] == EncodeBlock(items)
    ensures var entries := EncodeEntries(EntriesOf(items));
            var size := |entries| + 24;
            var central := from + |EncodeBlock(items)|;
            && central == from + size + 8
            && data[from..from + 8] == Pack(size, 8, true)
            && data[from + 8..central - 24] == entries
            && data[central - 24..central - 16] == Pack(size, 8, true)
            && data[central - 16..central] == MAGIC
  {
    var entries := EncodeEntries(EntriesOf(items));
    var size := Pack(|entries| + 24, 8, true);
    var central := from + |EncodeBlock(items)|;
    MagicIs();
    SliceSplit(data, from, central, size + entries + size, MAGIC);
    SliceSplit(data, from, central - 16, size + entries, size);
    SliceSplit(data, from, central - 24, size, entries);
  }

  lemma EndParts(data: seq<byte>, record: nat, fields: seq<byte>, central: nat, comment: seq<byte>)
    requires |fields| == 12 && record <= |data| && data[record..] == EncodeEnd(fields, central, comment)
    ensures record + 22 <= |data| && data[record + 16..record + 20] == Pack(central, 4, true)
  {
    var end := EncodeEnd(fields, central, comment);
    assert |data| == record + |end|;
    EndPlace(fields, central, comment);
    SliceOf(data, record, end, 16, 20);
  }

  lemma EndPlace(fields: seq<byte>, central: nat, comment: seq<byte>)
    requires |fields| == 12
    ensures EncodeEnd(fields, central, comment)[16..20] == Pack(central, 4, true)
  {
  }

  lemma FourParts(a: seq<byte>, b: seq<byte>, c: seq<byte>, d: seq<byte>)
    ensures (a + b + c + d)[|a|..|a| + |b|] == b
    ensures (a + b + c + d)[|a| + |b| + |c|..] == d
  {
  }

  lemma ApkParts(contents: seq<byte>, items: seq<Item>, directory: seq<byte>, fields: seq<byte>, comment: seq<byte>)
    requires |fields| == 12
    ensures var data := EncodeApk(contents, items, directory, fields, comment);
            var central := |contents| + |EncodeBlock(items)|;
            && central + |directory| <= |data|
            && data[|contents|..central] == EncodeBlock(items)
            && data[central + |directory|..] == EncodeEnd(fields, central, comment)
  {
    var block := EncodeBlock(items);
    FourParts(contents, block, directory, EncodeEnd(fields, |contents| + |block|, comment));
  }

  /** Among the last 65,557 bytes, the end record's signature stands here and nowhere later. */
  predicate EndIsLast(data: seq<byte>, record: nat) {
    && |data| <= record + 65557
    && EndMark(data, record)
    && forall i :: record < i <= |data| ==> !EndMark(data, i)
  }

  /** "PK" and the bytes 5 and 6. */
  predicate EndMark(data: seq<byte>, at: nat) {
    && at + 4 <= |data|
    && data[at] as char == 'P' && data[at + 1] as char == 'K' && data[at + 2] == 5 && data[at + 3] == 6
  }

  lemma OccursIff(data: seq<byte>, at: nat)
    ensures Occurs(data, END_RECORD, at) <==> EndMark(data, at)
  {
    if at + 4 <= |data| {
      var part := data[at..at + 4];
      assert part[0] == data[at] && part[1] == data[at + 1] && part[2] == data[at + 2] && part[3] == data[at + 3];
      assert EndMark(data, at) ==> part == END_RECORD;
    }
  }

  predicate IsLast(data: seq<byte>, pattern: seq<byte>, at: nat) {
    && Occurs(data, pattern, at)
    && forall i :: at < i <= |data| ==> !Occurs(data, pattern, i)
  }

  lemma LastIs(data: seq<byte>, pattern: seq<byte>, from: nat, at: nat)
    ensures from <= at && IsLast(data, pattern, at) <==> LastIndex(data, pattern, from) == Some(at)
  {
    var found := LastIndex(data, pattern, from);
    assert Occurs(data, pattern, at) ==> at <= |data|;
  }

  predicate EndIsFound(data: seq<byte>, record: nat) {
    LastIndex(data, END_RECORD, if |data| < 65557 then 0 else |data| - 65557) == Some(record)
  }

  lemma LastIsFound(data: seq<byte>, record: nat)
    ensures EndIsLast(data, record) <==> EndIsFound(data, record)
  {
    forall i: nat ensures Occurs(data, END_RECORD, i) <==> EndMark(data, i) {
      OccursIff(data, i);
    }
    LastIs(data, END_RECORD, if |data| < 65557 then 0 else |data| - 65557, record);
  }

  /** Each way in which a file can lack its signing block, and where the block is otherwise. */
  lemma LocateMeans(data: seq<byte>, record: nat)
    requires EndIsFound(data, record) && record + 22 <= |data|
    ensures var (r, central) := (LocateBlock(data), Number(data, record + 16, 4, true));
      && (r == Failure(NoSigningBlock) <==>
            central < 24 || |data| < central || data[central - 16..central] != Ascii("APK Sig Block 42"))
      && (r != Failure(NoSigningBlock) ==>
            var size := Number(data, central - 24, 8, true);
            r == if central < size + 8 || Number(data, central - size - 8, 8, true) != size
                 then Failure(BlockSizeMismatch)
                 else Success(Block(central - size, central - 24)))
  {
    MagicIs();
  }

  lemma EndIsMissingIff(data: seq<byte>)
    ensures LocateBlock(data) == Failure(NoEndRecord)
       <==> forall record: nat :: EndIsLast(data, record) ==> |data| < record + 22
  {
    var found := LastIndex(data, END_RECORD, if |data| < 65557 then 0 else |data| - 65557);
    if found.Some? {
      assert EndIsFound(data, found.value);
    }
    forall record: nat ensures EndIsLast(data, record) <==> EndIsFound(data, record) {
      LastIsFound(data, record);
    }
  }

  lemma MagicIs()
    ensures MAGIC == Ascii("APK Sig Block 42")
  {
  }

  lemma BlockIsLocated(data: seq<byte>, record: nat, from: nat, size: nat, central: nat)
    requires EndIsFound(data, record) && record + 22 <= |data|
    requires Number(data, record + 16, 4, true) == central
    requires 24 <= size && central == from + size + 8 && central <= |data|
    requires data[central - 16..central] == MAGIC
    requires Number(data, central - 24, 8, true) == size
    requires Number(data, from, 8, true) == size
    ensures LocateBlock(data) == Success(Block(from + 8, central - 24))
  {
  }

  /**
   * Reading undoes encoding: the result is the ascending, duplicate-free list of first-certificate digests
   * of all v2, v3 and v3.1 signers. The end record must be the last place where its signature occurs.
   */
  lemma CertificatesUndoEncoding(contents: seq<byte>, items: seq<Item>, directory: seq<byte>, fields: seq<byte>,
                                 comment: seq<byte>, digest: seq<byte> -> nat)
    requires |fields| == 12 && GoodBlock(items)
    requires |contents| + |EncodeBlock(items)| < Limit(4)
    requires EndIsLast(EncodeApk(contents, items, directory, fields, comment),
                       |contents| + |EncodeBlock(items)| + |directory|)
    ensures Certificates(EncodeApk(contents, items, directory, fields, comment), digest) ==
      var found := ItemDigests(items, digest);
      if found == {} then Failure(NoCertificates) else Success(SortedList(found))
  {
    var data := EncodeApk(contents, items, directory, fields, comment);
    var block := Block(|contents| + 8, |contents| + |EncodeBlock(items)| - 24);
    LastIsFound(data, |contents| + |EncodeBlock(items)| + |directory|);
    EncodedBlockIsLocated(contents, items, directory, fields, comment);
    ItemsCombine(items, digest);
    EntriesUndoEncoding(data, block.start, block.limit, EntriesOf(items), ReaderOf(digest));
    CertificatesOfBlock(data, block, ItemDigests(items, digest), digest);
  }

  lemma EncodedBlockIsLocated(contents: seq<byte>, items: seq<Item>, directory: seq<byte>, fields: seq<byte>,
                              comment: seq<byte>)
    requires |fields| == 12 && GoodBlock(items)
    requires |contents| + |EncodeBlock(items)| < Limit(4)
    requires EndIsFound(EncodeApk(contents, items, directory, fields, comment),
                       |contents| + |EncodeBlock(items)| + |directory|)
    ensures var data := EncodeApk(contents, items, directory, fields, comment);
            var block := Block(|contents| + 8, |contents| + |EncodeBlock(items)| - 24);
            && LocateBlock(data) == Success(block)
            && block.start <= block.limit <= |data|
            && data[block.start..block.limit] == EncodeEntries(EntriesOf(items))
  {
    var record := |contents| + |EncodeBlock(items)| + |directory|;
    ApkParts(contents, items, directory, fields, comment);
    PlacedParts(EncodeApk(contents, items, directory, fields, comment), |contents|, items, record, fields, comment);
  }

  lemma PlacedParts(data: seq<byte>, from: nat, items: seq<Item>, record: nat, fields: seq<byte>, comment: seq<byte>)
    requires |fields| == 12 && GoodBlock(items)
    requires from + |EncodeBlock(items)| <= record <= |data| && from + |EncodeBlock(items)| < Limit(4)
    requires data[from..from + |EncodeBlock(items)|] == EncodeBlock(items)
    requires data[record..] == EncodeEnd(fields, from + |EncodeBlock(items)|, comment)
    requires EndIsFound(data, record)
    ensures var block := Block(from + 8, from + |EncodeBlock(items)| - 24);
            && LocateBlock(data) == Success(block)
            && block.start <= block.limit <= |data|
            && data[block.start..block.limit] == EncodeEntries(EntriesOf(items))
  {
    BlockParts(data, from, items);
    PlacedBlockIsLocated(data, from, items, record, fields, comment);
  }

  lemma PlacedBlockIsLocated(data: seq<byte>, from: nat, items: seq<Item>, record: nat, fields: seq<byte>,
                             comment: seq<byte>)
    requires |fields| == 12 && GoodBlock(items)
    requires from + |EncodeBlock(items)| <= record <= |data| && from + |EncodeBlock(items)| < Limit(4)
    requires data[from..from + |EncodeBlock(items)|] == EncodeBlock(items)
    requires data[record..] == EncodeEnd(fields, from + |EncodeBlock(items)|, comment)
    requires EndIsFound(data, record)
    ensures LocateBlock(data) == Success(Block(from + 8, from + |EncodeBlock(items)| - 24))
  {
    var central := from + |EncodeBlock(items)|;
    var size := |EncodeEntries(EntriesOf(items))| + 24;
    assert record + 22 <= |data| && data[record + 16..record + 20] == Pack(central, 4, true) by {
      EndParts(data, record, fields, central, comment);
    }
    assert central == from + size + 8
        && data[from..from + 8] == Pack(size, 8, true)
        && data[central - 24..central - 16] == Pack(size, 8, true)
        && data[central - 16..central] == MAGIC by {
      BlockParts(data, from, items);
    }
    PartsLocate(data, record, from, size, central);
  }

  /** The reader finds the block from its two size fields, its magic and the end record. */
  lemma PartsLocate(data: seq<byte>, record: nat, from: nat, size: nat, central: nat)
    requires EndIsFound(data, record) && record + 22 <= |data|
    requires data[record + 16..record + 20] == Pack(central, 4, true) && central < Limit(4)
    requires 24 <= size < Limit(8) && central == from + size + 8 && central <= |data|
    requires data[from..from + 8] == Pack(size, 8, true)
    requires data[central - 24..central - 16] == Pack(size, 8, true)
    requires data[central - 16..central] == MAGIC
    ensures LocateBlock(data) == Success(Block(from + 8, central - 24))
  {
    UnpackAt(data, record + 16, central, 4, true);
    UnpackAt(data, central - 24, size, 8, true);
    UnpackAt(data, from, size, 8, true);
    BlockIsLocated(data, record, from, size, central);
  }

  lemma CertificatesOfBlock(data: seq<byte>, block: Block, found: set<nat>, digest: seq<byte> -> nat)
    requires LocateBlock(data) == Success(block)
    requires WalkEntries(data, block.start, block.limit, ReaderOf(digest)) == Success(found)
    ensures Certificates(data, digest) == if found == {} then Failure(NoCertificates) else Success(SortedList(found))
  {
  }
}
