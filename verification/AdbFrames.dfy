/**
 * Reading the ADB server's forward list from its OKAY/length/payload frame
 * (rdc_tool/remote_bootstrap.py, _list_adb_forwards_for_cleanup), however the stream is segmented.
 */
module AdbFrames {
  import opened Wrappers
  import opened PythonText
  import opened Bytes

  datatype FrameError =
    | Lost                     // an I/O error or the deadline, at any point
    | Ended                    // the stream ended before its complete frame
    | BadStatus | BadLength | BadText | Unterminated | Malformed
    | Rejected(reason: string)

  const OKAY := Ascii("OKAY")
  const FAIL := Ascii("FAIL")

  // ----- Four hexadecimal digits

  predicate IsHex(b: byte) {
    0x30 <= b <= 0x39 || 0x41 <= b <= 0x46 || 0x61 <= b <= 0x66
  }

  function HexValue(b: byte): (n: nat)
    requires IsHex(b)
    ensures n < 16
  {
    if b <= 0x39 then b - 0x30 else if b <= 0x46 then b - 0x41 + 10 else b - 0x61 + 10
  }

  function LengthOf(header: seq<byte>): nat
    requires |header| == 4 && forall i :: 0 <= i < 4 ==> IsHex(header[i])
  {
    ((HexValue(header[0]) * 16 + HexValue(header[1])) * 16 + HexValue(header[2])) * 16 + HexValue(header[3])
  }

  // ----- Meaning of a complete byte stream

  /** The payload that `stream` starts with. */
  function PayloadOf(stream: seq<byte>): Result<seq<byte>, FrameError> {
    if |stream| < 4 then Failure(Ended)
    else if exists i :: 0 <= i < 4 && !IsHex(stream[i]) then Failure(BadLength)
    else
      var length := LengthOf(stream[..4]);
      if |stream| - 4 < length then Failure(Ended) else Success(stream[4..4 + length])
  }

  function ParseRows(text: string): Result<seq<seq<string>>, FrameError> {
    if text != "" && text[|text| - 1] != '\n' then Failure(Unterminated)
    else
      var rows := RowsOf(SplitLines(text));
      if exists i :: 0 <= i < |rows| && |rows[i]| != 3 then Failure(Malformed) else Success(rows)
  }

  function RowsOf(lines: seq<string>): (rows: seq<seq<string>>)
    ensures |rows| == |lines|
  {
    if lines == [] then [] else [Words(lines[0])] + RowsOf(lines[1..])
  }

  /** `utf8` stands for strict UTF-8 decoding. */
  function DecodeReply(stream: seq<byte>, utf8: seq<byte> -> Option<string>): Result<seq<seq<string>>, FrameError> {
    if |stream| < 4 then Failure(Ended)
    else if stream[..4] == FAIL then
      match PayloadOf(stream[4..])
      case Failure(e) => Failure(e)
      case Success(payload) =>
        Failure(if utf8(payload).Some? then Rejected(utf8(payload).value) else BadText)
    else if stream[..4] != OKAY then Failure(BadStatus)
    else
      match PayloadOf(stream[4..])
      case Failure(e) => Failure(e)
      case Success(payload) =>
        if utf8(payload).Some? then ParseRows(utf8(payload).value) else Failure(BadText)
  }

  // ----- What the protocol says a reply means

  predicate Digit(b: byte, v: nat) {
    || (v < 10 && b == '0' as int + v)
    || (10 <= v < 16 && (b == 'a' as int + v - 10 || b == 'A' as int + v - 10))
  }

  /** Four hexadecimal digits that write `n`. */
  predicate Writes(header: seq<byte>, n: nat) {
    && |header| == 4 && n < 65536
    && Digit(header[0], n / 4096) && Digit(header[1], n / 256 % 16)
    && Digit(header[2], n / 16 % 16) && Digit(header[3], n % 16)
  }

  predicate Opens(stream: seq<byte>, status: string) {
    && |stream| >= 4 && |status| == 4
    && forall i :: 0 <= i < 4 ==> stream[i] as char == status[i]
  }

  /** The complete frame of `payload` comes first, whatever follows it. */
  predicate Carries(stream: seq<byte>, status: string, payload: seq<byte>) {
    && Opens(stream, status)
    && |stream| >= 8 + |payload|
    && Writes(stream[4..8], |payload|)
    && stream[8..8 + |payload|] == payload
  }

  /** The stream is one of these and still lacks something. */
  ghost predicate CutShort(stream: seq<byte>) {
    || |stream| < 4
    || ((Opens(stream, "OKAY") || Opens(stream, "FAIL"))
        && (|stream| < 8 || exists n: nat :: |stream| < 8 + n && Writes(stream[4..8], n)))
  }

  /** A listing is a row of three fields for each line, and every line ends. */
  predicate Lists(text: string, r: Result<seq<seq<string>>, FrameError>) {
    if text != "" && text[|text| - 1] != '\n' then r == Failure(Unterminated)
    else
      var lines := SplitLines(text);
      if exists i :: 0 <= i < |lines| && |Words(lines[i])| != 3 then r == Failure(Malformed)
      else r.Success? && |r.value| == |lines| && forall i :: 0 <= i < |lines| ==> r.value[i] == Words(lines[i])
  }

  /** What any stream of bytes amounts to. */
  ghost predicate Means(stream: seq<byte>, utf8: seq<byte> -> Option<string>, r: Result<seq<seq<string>>, FrameError>)
  {
    && (forall payload :: Carries(stream, "OKAY", payload) ==>
          if utf8(payload).Some? then Lists(utf8(payload).value, r) else r == Failure(BadText))
    && (forall payload :: Carries(stream, "FAIL", payload) ==>
          r == Failure(if utf8(payload).Some? then Rejected(utf8(payload).value) else BadText))
    && (r == Failure(BadStatus) <==> |stream| >= 4 && !Opens(stream, "OKAY") && !Opens(stream, "FAIL"))
    && (r == Failure(BadLength) <==>
          && (Opens(stream, "OKAY") || Opens(stream, "FAIL"))
          && |stream| >= 8 && forall n :: !Writes(stream[4..8], n))
    && (r == Failure(Ended) <==> CutShort(stream))
    && r != Failure(Lost)
    && (r.Success? ==> Opens(stream, "OKAY") && forall i :: 0 <= i < |r.value| ==> |r.value[i]| == 3)
  }

  lemma HexShowsDigit(b: byte)
    ensures IsHex(b) ==> Digit(b, HexValue(b))
    ensures forall v: nat :: Digit(b, v) ==> IsHex(b) && v == HexValue(b)
  {
  }

  lemma FourDigits(n: nat, a: nat, b: nat, c: nat, d: nat)
    requires a < 16 && b < 16 && c < 16 && d < 16
    ensures n == ((a * 16 + b) * 16 + c) * 16 + d <==>
      n < 65536 && n / 4096 == a && n / 256 % 16 == b && n / 16 % 16 == c && n % 16 == d
  {
    assert n / 256 == n / 16 / 16 && n / 4096 == n / 256 / 16;
  }

  lemma LengthIsWritten(header: seq<byte>)
    requires |header| == 4
    ensures (forall i :: 0 <= i < 4 ==> IsHex(header[i])) ==> Writes(header, LengthOf(header))
    ensures forall n: nat :: Writes(header, n) ==>
      (forall i :: 0 <= i < 4 ==> IsHex(header[i])) && n == LengthOf(header)
  {
    HexShowsDigit(header[0]);
    HexShowsDigit(header[1]);
    HexShowsDigit(header[2]);
    HexShowsDigit(header[3]);
    if forall i :: 0 <= i < 4 ==> IsHex(header[i]) {
      FourDigits(LengthOf(header), HexValue(header[0]), HexValue(header[1]), HexValue(header[2]), HexValue(header[3]));
    }
    forall n: nat | Writes(header, n) ensures (forall i :: 0 <= i < 4 ==> IsHex(header[i])) && n == LengthOf(header) {
      WrittenIsLength(header, n);
    }
  }

  lemma WrittenIsLength(header: seq<byte>, n: nat)
    requires Writes(header, n)
    ensures (forall i :: 0 <= i < 4 ==> IsHex(header[i])) && n == LengthOf(header)
  {
    HexShowsDigit(header[0]);
    HexShowsDigit(header[1]);
    HexShowsDigit(header[2]);
    HexShowsDigit(header[3]);
    FourDigits(n, n / 4096, n / 256 % 16, n / 16 % 16, n % 16);
  }

  lemma OpensIff(stream: seq<byte>)
    requires |stream| >= 4
    ensures stream[..4] == OKAY <==> Opens(stream, "OKAY")
    ensures stream[..4] == FAIL <==> Opens(stream, "FAIL")
    ensures !(Opens(stream, "OKAY") && Opens(stream, "FAIL"))
  {
    assert forall i :: 0 <= i < 4 ==> stream[..4][i] == stream[i];
    assert Opens(stream, "OKAY") ==> stream[0] as char == 'O';
    assert Opens(stream, "FAIL") ==> stream[0] as char == 'F';
    assert Opens(stream, "OKAY") ==> stream[..4] == OKAY;
    assert Opens(stream, "FAIL") ==> stream[..4] == FAIL;
  }

  lemma PayloadMeans(stream: seq<byte>, status: string)
    requires Opens(stream, status)
    ensures var r := PayloadOf(stream[4..]);
      && (forall payload :: Carries(stream, status, payload) ==> r == Success(payload))
      && (r.Success? ==> Carries(stream, status, r.value))
      && (r == Failure(BadLength) <==> |stream| >= 8 && forall n :: !Writes(stream[4..8], n))
      && (r == Failure(Ended) <==> |stream| < 8 || exists n: nat :: |stream| < 8 + n && Writes(stream[4..8], n))
      && (r.Failure? ==> r.error in {BadLength, Ended})
  {
    var rest := stream[4..];
    if |stream| >= 8 {
      var header := stream[4..8];
      assert rest[..4] == header && forall i :: 0 <= i < 4 ==> rest[i] == header[i];
      LengthIsWritten(header);
      if forall i :: 0 <= i < 4 ==> IsHex(header[i]) {
        var n := LengthOf(header);
        assert Writes(header, n);
        if |stream| >= 8 + n {
          assert rest[4..4 + n] == stream[8..8 + n];
        }
      } else {
        assert PayloadOf(rest) == Failure(BadLength);
      }
    }
  }

  lemma ParseLists(text: string)
    ensures Lists(text, ParseRows(text))
    ensures ParseRows(text).Success? ==>
      forall i :: 0 <= i < |ParseRows(text).value| ==> |ParseRows(text).value[i]| == 3
    ensures ParseRows(text).Failure? ==> ParseRows(text).error in {Unterminated, Malformed}
  {
    var lines := SplitLines(text);
    RowsAreWords(lines);
  }

  lemma {:induction false} RowsAreWords(lines: seq<string>)
    ensures forall i :: 0 <= i < |lines| ==> RowsOf(lines)[i] == Words(lines[i])
  {
    if lines != [] {
      RowsAreWords(lines[1..]);
    }
  }

  /** Every stream is read as the protocol says, with its own error for each way to be wrong. */
  lemma DecodeMeans(stream: seq<byte>, utf8: seq<byte> -> Option<string>)
    ensures Means(stream, utf8, DecodeReply(stream, utf8))
  {
    if |stream| >= 4 {
      OpensIff(stream);
      var status := if Opens(stream, "OKAY") then "OKAY" else "FAIL";
      if Opens(stream, status) {
        PayloadMeans(stream, status);
        var r := PayloadOf(stream[4..]);
        if r.Success? && utf8(r.value).Some? {
          ParseLists(utf8(r.value).value);
        }
      }
    }
  }

  // ----- The socket and the source's reading loops

  class Connection {
    var incoming: seq<byte>
    ghost var dropped: bool       // an I/O error, or the deadline

    constructor (stream: seq<byte>)
      ensures incoming == stream && !dropped
    {
      incoming, dropped := stream, false;
    }

    /** recv: any non-empty part of what is still to come, nothing at the end, or a failure. */
    method Recv(limit: nat) returns (r: Result<seq<byte>, FrameError>)
      requires 0 < limit
      modifies this
      ensures r.Success? ==>
        && |r.value| <= limit
        && old(incoming) == r.value + incoming
        && (r.value == [] ==> incoming == [])
        && dropped == old(dropped)
      ensures r.Failure? ==> r.error == Lost && dropped
    {
      var lost: bool := *;
      if lost {
        dropped := true;
        return Failure(Lost);
      }
      var most := if limit <= |incoming| then limit else |incoming|;
      var n: nat := *;
      n := if most == 0 then 0 else 1 + n % most;
      var part := incoming[..n];
      incoming := incoming[n..];
      return Success(part);
    }

    /** Whether the deadline of the whole query has passed. */
    method Late() returns (late: bool)
      modifies this`dropped
      ensures dropped == (old(dropped) || late)
    {
      late := *;
      dropped := dropped || late;
    }

    method ReadExact(length: nat) returns (r: Result<seq<byte>, FrameError>)
      requires !dropped
      modifies this
      ensures r == Failure(Lost) <==> dropped
      ensures r.Success? ==> |r.value| == length && old(incoming) == r.value + incoming
      ensures r.Failure? ==> r.error == Lost || (r.error == Ended && |old(incoming)| < length)
    {
      var data: seq<byte> := [];
      while |data| < length
        invariant |data| <= length
        invariant old(incoming) == data + incoming && !dropped
      {
        var part := Recv(length - |data|);
        if part.Failure? {
          return Failure(Lost);
        }
        if part.value == [] {
          return Failure(Ended);
        }
        data := data + part.value;
      }
      var late := Late();
      if late {
        return Failure(Lost);
      }
      return Success(data);
    }

    method ReadPayload() returns (r: Result<seq<byte>, FrameError>)
      requires !dropped
      modifies this
      ensures r == if dropped then Failure(Lost) else PayloadOf(old(incoming))
    {
      var header := ReadExact(4);
      if header.Failure? {
        return Failure(header.error);
      }
      assert old(incoming)[..4] == header.value;
      assert forall i :: 0 <= i < 4 ==> old(incoming)[i] == header.value[i];
      if exists i :: 0 <= i < 4 && !IsHex(header.value[i]) {
        return Failure(BadLength);
      }
      var length := LengthOf(header.value);
      r := ReadExact(length);
      if r.Success? {
        assert old(incoming)[4..] == r.value + incoming;
        assert r.value == old(incoming)[4..4 + length];
      }
    }

    /**
     * The result depends on the bytes only, never on how the stream was cut into parts, unless the connection
     * was dropped.
     */
    method ListForwards(utf8: seq<byte> -> Option<string>) returns (r: Result<seq<seq<string>>, FrameError>)
      requires !dropped
      modifies this
      ensures r == if dropped then Failure(Lost) else DecodeReply(old(incoming), utf8)
      ensures !dropped ==> Means(old(incoming), utf8, r)
    {
      DecodeMeans(incoming, utf8);
      var status := ReadExact(4);
      if status.Failure? {
        return Failure(status.error);
      }
      assert old(incoming)[..4] == status.value && old(incoming)[4..] == incoming;
      if status.value == FAIL {
        var reason := ReadPayload();
        if reason.Failure? {
          return Failure(reason.error);
        }
        var text := utf8(reason.value);
        return Failure(if text.Some? then Rejected(text.value) else BadText);
      }
      if status.value != OKAY {
        return Failure(BadStatus);
      }
      var payload := ReadPayload();
      if payload.Failure? {
        return Failure(payload.error);
      }
      var text := utf8(payload.value);
      if text.None? {
        return Failure(BadText);
      }
      return ParseRows(text.value);
    }
  }

  // ----- The server's side: encoding a listing

  /** A row of the table: three fields without white space. */
  predicate GoodRow(row: seq<string>) {
    |row| == 3 && IsWord(row[0]) && IsWord(row[1]) && IsWord(row[2])
  }

  function LineOf(row: seq<string>): string
    requires GoodRow(row)
  {
    row[0] + (" " + (row[1] + (" " + row[2])))
  }

  function TextOf(rows: seq<seq<string>>): string
    requires forall i :: 0 <= i < |rows| ==> GoodRow(rows[i])
  {
    if rows == [] then "" else LineOf(rows[0]) + ("\n" + TextOf(rows[1..]))
  }

  function HexDigit(n: nat): (b: byte)
    requires n < 16
    ensures IsHex(b) && HexValue(b) == n
  {
    if n < 10 then 0x30 + n else 0x61 + n - 10
  }

  function HexOf(n: nat): (header: seq<byte>)
    requires n < 0x10000
    ensures |header| == 4 && forall i :: 0 <= i < 4 ==> IsHex(header[i])
  {
    [HexDigit(n / 4096), HexDigit(n / 256 % 16), HexDigit(n / 16 % 16), HexDigit(n % 16)]
  }

  function Frame(payload: seq<byte>): seq<byte>
    requires |payload| < 0x10000
  {
    OKAY + HexOf(|payload|) + payload
  }

  lemma HexRoundTrip(n: nat)
    requires n < 0x10000
    ensures LengthOf(HexOf(n)) == n
  {
    assert n / 256 == 16 * (n / 4096) + n / 256 % 16;
    assert n / 16 == 16 * (n / 256) + n / 16 % 16;
  }

  lemma LineRoundTrip(row: seq<string>)
    requires GoodRow(row)
    ensures Words(LineOf(row)) == row
    ensures forall i :: 0 <= i < |LineOf(row)| ==> !IsLineBreak(LineOf(row)[i])
  {
    FirstWord(row[0], " " + (row[1] + (" " + row[2])));
    assert (" " + (row[1] + (" " + row[2])))[1..] == row[1] + (" " + row[2]);
    FirstWord(row[1], " " + row[2]);
    assert (" " + row[2])[1..] == row[2];
    FirstWord(row[2], "");
    assert row[2] + "" == row[2];
    assert forall c :: IsLineBreak(c) ==> IsSpace(c) && c != ' ';
  }

  lemma {:induction false} RowsRoundTrip(rows: seq<seq<string>>)
    requires forall i :: 0 <= i < |rows| ==> GoodRow(rows[i])
    ensures RowsOf(SplitLines(TextOf(rows))) == rows
    ensures TextOf(rows) != "" ==> TextOf(rows)[|TextOf(rows)| - 1] == '\n'
  {
    if rows != [] {
      var line := LineOf(rows[0]);
      LineRoundTrip(rows[0]);
      RowsRoundTrip(rows[1..]);
      FirstLine(line, "\n", TextOf(rows[1..]));
      assert ([line] + SplitLines(TextOf(rows[1..])))[1..] == SplitLines(TextOf(rows[1..]));
    }
  }

  lemma PayloadRoundTrip(payload: seq<byte>, extra: seq<byte>)
    requires |payload| < 0x10000
    ensures PayloadOf(HexOf(|payload|) + payload + extra) == Success(payload)
  {
    var stream := HexOf(|payload|) + payload + extra;
    HexRoundTrip(|payload|);
    assert stream[..4] == HexOf(|payload|);
    assert forall i :: 0 <= i < 4 ==> stream[i] == HexOf(|payload|)[i];
    assert stream[4..4 + |payload|] == payload;
  }

  /** Decoding undoes encoding, for every table of well-formed rows and whatever follows the frame. */
  lemma DecodeUndoesEncode(rows: seq<seq<string>>, payload: seq<byte>, extra: seq<byte>,
                           utf8: seq<byte> -> Option<string>)
    requires forall i :: 0 <= i < |rows| ==> GoodRow(rows[i])
    requires |payload| < 0x10000 && utf8(payload) == Some(TextOf(rows))
    ensures DecodeReply(Frame(payload) + extra, utf8) == Success(rows)
  {
    FrameIsRead(payload, extra, utf8);
    RowsParse(rows);
  }

  lemma FrameIsRead(payload: seq<byte>, extra: seq<byte>, utf8: seq<byte> -> Option<string>)
    requires |payload| < 0x10000
    ensures DecodeReply(Frame(payload) + extra, utf8) ==
      if utf8(payload).Some? then ParseRows(utf8(payload).value) else Failure(BadText)
  {
    var stream := Frame(payload) + extra;
    assert stream[..4] == OKAY;
    assert OKAY[0] != FAIL[0];
    assert stream[4..] == HexOf(|payload|) + payload + extra;
    PayloadRoundTrip(payload, extra);
  }

  lemma RowsParse(rows: seq<seq<string>>)
    requires forall i :: 0 <= i < |rows| ==> GoodRow(rows[i])
    ensures ParseRows(TextOf(rows)) == Success(rows)
  {
    RowsRoundTrip(rows);
  }

  lemma HexFollows(payload: seq<byte>)
    requires |payload| < 0x10000
    ensures Frame(payload)[4..8] == HexOf(|payload|)
  {
    assert Frame(payload) == OKAY + (HexOf(|payload|) + payload);
  }

  /** No strict prefix of a frame ever yields rows: it always reads as ended. */
  lemma StrictPrefixHasEnded(payload: seq<byte>, n: nat, utf8: seq<byte> -> Option<string>)
    requires |payload| < 0x10000 && n < |Frame(payload)|
    ensures DecodeReply(Frame(payload)[..n], utf8) == Failure(Ended)
  {
    var stream := Frame(payload)[..n];
    if 4 <= n {
      assert stream[..4] == OKAY;
      assert OKAY[0] != FAIL[0];
      var rest := stream[4..];
      if 4 <= |rest| {
        HexRoundTrip(|payload|);
        HexFollows(payload);
        assert rest[..4] == Frame(payload)[4..8];
        assert forall i :: 0 <= i < 4 ==> rest[i] == HexOf(|payload|)[i];
      }
    }
  }
}
