/** Fixed-width unsigned integers in byte strings, as `struct` packs and unpacks them. */
module Bytes {
  import opened Wrappers

  type byte = n: int | 0 <= n < 256

  /** The first number that does not fit into `width` bytes. */
  function Limit(width: nat): (p: nat)
    ensures 0 < p
  {
    if width == 0 then 1 else 256 * Limit(width - 1)
  }

  function Number(data: seq<byte>, at: nat, width: nat, little: bool): nat
    requires at + width <= |data|
    decreases width, |data|
  {
    if width == 0 then 0
    else if little then data[at] + 256 * Number(data, at + 1, width - 1, little)
    else data[at + width - 1] + 256 * Number(data, at, width - 1, little)
  }

  /** `struct.unpack_from`; None stands for its out-of-range error. */
  function Unpack(data: seq<byte>, at: nat, width: nat, little: bool): Option<nat> {
    if |data| < at + width then None else Some(Number(data, at, width, little))
  }

  function Pack(n: nat, width: nat, little: bool): (bs: seq<byte>)
    ensures |bs| == width
    decreases width, n
  {
    if width == 0 then []
    else if little then [n % 256] + Pack(n / 256, width - 1, little)
    else Pack(n / 256, width - 1, little) + [n % 256]
  }

  /** Reading back a packed number from wherever it stands. */
  lemma {:induction false} UnpackAt(data: seq<byte>, at: nat, n: nat, width: nat, little: bool)
    requires n < Limit(width) && at + width <= |data|
    requires data[at..at + width] == Pack(n, width, little)
    ensures Unpack(data, at, width, little) == Some(n)
    decreases width
  {
    if width > 0 {
      var whole := Pack(n, width, little);
      assert Limit(width) == 256 * Limit(width - 1);
      assert forall i :: at <= i < at + width ==> data[i] == whole[i - at];
      if little {
        assert data[at + 1..at + width] == whole[1..];
        UnpackAt(data, at + 1, n / 256, width - 1, little);
      } else {
        assert data[at..at + width - 1] == whole[..width - 1];
        UnpackAt(data, at, n / 256, width - 1, little);
      }
    }
  }

  /** The weight of each byte, low bytes first or last. */
  lemma {:induction false} NumberWeighs(data: seq<byte>, at: nat)
    requires at + 4 <= |data|
    ensures Number(data, at, 2, true) == data[at] as int + 256 * data[at + 1] as int
    ensures Number(data, at, 2, false) == 256 * data[at] as int + data[at + 1] as int
    ensures Number(data, at, 4, true) == Number(data, at, 2, true) + 65536 * Number(data, at + 2, 2, true)
    ensures Number(data, at, 4, false) == 65536 * Number(data, at, 2, false) + Number(data, at + 2, 2, false)
  {
    WeighsTwo(data, at);
    WeighsTwo(data, at + 2);
    assert Number(data, at, 4, true) == data[at] as int + 256 * Number(data, at + 1, 3, true);
    assert Number(data, at + 1, 3, true) == data[at + 1] as int + 256 * Number(data, at + 2, 2, true);
    assert Number(data, at, 4, false) == data[at + 3] as int + 256 * Number(data, at, 3, false);
    assert Number(data, at, 3, false) == data[at + 2] as int + 256 * Number(data, at, 2, false);
  }

  lemma {:induction false} WeighsTwo(data: seq<byte>, at: nat)
    requires at + 2 <= |data|
    ensures Number(data, at, 2, true) == data[at] as int + 256 * data[at + 1] as int
    ensures Number(data, at, 2, false) == 256 * data[at] as int + data[at + 1] as int
  {
    assert Number(data, at + 1, 1, true) == data[at + 1] as int + 256 * Number(data, at + 2, 0, true);
    assert Number(data, at, 1, false) == data[at] as int + 256 * Number(data, at, 0, false);
  }

  /** A part of a part. */
  lemma SliceOf(data: seq<byte>, at: nat, part: seq<byte>, from: nat, to: nat)
    requires at + |part| <= |data| && data[at..at + |part|] == part && from <= to <= |part|
    ensures data[at + from..at + to] == part[from..to]
  {
    assert forall i :: from <= i < to ==> part[i] == data[at..at + |part|][i] == data[at + i];
  }

  lemma {:induction false} NumberFits(data: seq<byte>, at: nat, width: nat, little: bool)
    requires at + width <= |data|
    ensures Number(data, at, width, little) < Limit(width)
    decreases width
  {
    if width > 0 {
      NumberFits(data, if little then at + 1 else at, width - 1, little);
    }
  }

  /** The bytes at any place are the packing of the number they read as. */
  lemma {:induction false} NumberIsTight(data: seq<byte>, at: nat, width: nat, little: bool)
    requires at + width <= |data|
    ensures Pack(Number(data, at, width, little), width, little) == data[at..at + width]
    decreases width
  {
    if width > 0 {
      var n := Number(data, at, width, little);
      if little {
        NumberIsTight(data, at + 1, width - 1, little);
        SplitNumber(data[at], Number(data, at + 1, width - 1, little));
        assert Pack(n, width, little) == [data[at]] + data[at + 1..at + width];
      } else {
        NumberIsTight(data, at, width - 1, little);
        SplitNumber(data[at + width - 1], Number(data, at, width - 1, little));
        assert Pack(n, width, little) == data[at..at + width - 1] + [data[at + width - 1]];
      }
    }
  }

  lemma SplitNumber(digit: byte, rest: nat)
    ensures (digit + 256 * rest) % 256 == digit && (digit + 256 * rest) / 256 == rest
  {
  }

  function Zeros(n: nat): (bs: seq<byte>)
    ensures |bs| == n && forall i :: 0 <= i < n ==> bs[i] == 0
  {
    seq(n, _ => 0)
  }

  /** The bytes of an ASCII text. */
  function Ascii(s: string): (r: seq<byte>)
    requires forall i :: 0 <= i < |s| ==> s[i] as int < 128
    ensures |r| == |s| && forall i :: 0 <= i < |s| ==> r[i] == s[i] as int
  {
    seq(|s|, i requires 0 <= i < |s| => s[i] as int)
  }
}
