/**
 The terminal relay's WebSocket side (RFC 6455): the frames it writes to ttyd, and the loop
 that reads ttyd's frames, puts fragmented messages together and answers pings.
 */
module WebSocket {
  type Octets = seq<bv8>

  import opened Options

  const MAX_FRAME: nat := 256 * 1024

  // ---- Big-endian lengths (struct.pack '!H' and '!Q') -----------------------

  function Power256(width: nat): (p: nat)
    ensures p > 0
  {
    if width == 0 then 1 else 256 * Power256(width - 1)
  }

  function BigEndian(n: nat, width: nat): (s: Octets)
    ensures |s| == width
  {
    if width == 0 then [] else BigEndian(n / 256, width - 1) + [(n % 256) as bv8]
  }

  function FromBigEndian(s: Octets): nat {
    if s == [] then 0 else 256 * FromBigEndian(s[..|s| - 1]) + s[|s| - 1] as int
  }

  lemma OctetValue(n: nat)
    requires n < 256
    ensures (n as bv8) as int == n
  {
    assert n % 256 == n;
  }

  lemma {:induction false} BigEndianInverts(n: nat, width: nat)
    requires n < Power256(width)
    ensures FromBigEndian(BigEndian(n, width)) == n
  {
    if width > 0 {
      var high, low := BigEndian(n / 256, width - 1), n % 256;
      assert n / 256 < Power256(width - 1);
      BigEndianInverts(n / 256, width - 1);
      OctetValue(low);
      LastOctet(high, low as bv8);
    }
  }

  lemma LastOctet(high: Octets, low: bv8)
    ensures FromBigEndian(high + [low]) == 256 * FromBigEndian(high) + low as int
  {
    assert (high + [low])[..|high|] == high;
  }

  lemma Lengths()
    ensures Power256(2) == 65536 && Power256(8) == 0x1_0000_0000_0000_0000
  {
    assert Power256(4) == 0x1_0000_0000;
  }

  // ---- Frame headers, section 5.2 -------------------------------------------

  datatype Header = Header(first: bv8, masked: bool, length: nat)

  /** The first bytes of a frame: flags and opcode, mask bit, length in one of three forms. */
  function ReadHeader(s: Octets): Option<(Header, Octets)> {
    if |s| < 2 then None
    else
      var short, masked := (s[1] & 0x7f) as int, s[1] & 0x80 != 0;
      var more := if short == 126 then 2 else if short == 127 then 8 else 0;
      if |s| < 2 + more then None
      else Some((Header(s[0], masked, if more == 0 then short else FromBigEndian(s[2..2 + more])), s[2 + more..]))
  }

  datatype LengthForm = Short | Medium | Long

  predicate Fits(form: LengthForm, n: nat) {
    match form
    case Short => n < 126
    case Medium => n < 65536
    case Long => n < 0x1_0000_0000_0000_0000
  }

  function LengthBytes(form: LengthForm, n: nat, maskBit: bv8): Octets
    requires Fits(form, n)
  {
    match form
    case Short => [maskBit | (n as bv8)]
    case Medium => [maskBit | 126] + BigEndian(n, 2)
    case Long => [maskBit | 127] + BigEndian(n, 8)
  }

  lemma ShortHeader(first: bv8, n: nat, maskBit: bv8, rest: Octets)
    requires Fits(Short, n) && (maskBit == 0 || maskBit == 0x80)
    ensures ReadHeader([first] + LengthBytes(Short, n, maskBit) + rest)
            == Some((Header(first, maskBit == 0x80, n), rest))
  {
    var s, low := [first] + LengthBytes(Short, n, maskBit) + rest, n as bv8;
    OctetValue(n);
    assert s[0] == first && s[1] == maskBit | low && s[2..] == rest;
    LowBits(maskBit, low);
  }

  lemma ExtendedHeader(first: bv8, mark: bv8, length: Octets, maskBit: bv8, rest: Octets)
    requires maskBit == 0 || maskBit == 0x80
    requires (mark == 126 && |length| == 2) || (mark == 127 && |length| == 8)
    ensures ReadHeader([first] + ([maskBit | mark] + length) + rest)
            == Some((Header(first, maskBit == 0x80, FromBigEndian(length)), rest))
  {
    var s := [first] + ([maskBit | mark] + length) + rest;
    LowBits(maskBit, mark);
    assert s[0] == first && s[1] == maskBit | mark;
    assert s[2..2 + |length|] == length && s[2 + |length|..] == rest;
  }

  lemma HeaderInverts(first: bv8, form: LengthForm, n: nat, maskBit: bv8, rest: Octets)
    requires Fits(form, n) && (maskBit == 0 || maskBit == 0x80)
    ensures ReadHeader([first] + LengthBytes(form, n, maskBit) + rest)
            == Some((Header(first, maskBit == 0x80, n), rest))
  {
    Lengths();
    match form {
      case Short =>
        ShortHeader(first, n, maskBit, rest);
      case Medium =>
        BigEndianInverts(n, 2);
        ExtendedHeader(first, 126, BigEndian(n, 2), maskBit, rest);
      case Long =>
        BigEndianInverts(n, 8);
        ExtendedHeader(first, 127, BigEndian(n, 8), maskBit, rest);
    }
  }

  lemma LowBits(maskBit: bv8, low: bv8)
    requires (maskBit == 0 || maskBit == 0x80) && low < 128
    ensures (maskBit | low) & 0x7f == low
    ensures (maskBit | low) & 0x80 == maskBit
  {
  }

  // ---- What the relay writes -------------------------------------------------

  function Masked(data: Octets, mask: Octets): (r: Octets)
    requires |mask| == 4
    ensures |r| == |data|
  {
    seq(|data|, i requires 0 <= i < |data| => data[i] ^ mask[i % 4])
  }

  lemma MaskedTwice(data: Octets, mask: Octets)
    requires |mask| == 4
    ensures Masked(Masked(data, mask), mask) == data
  {
    forall i | 0 <= i < |data| ensures Masked(Masked(data, mask), mask)[i] == data[i] {
      XorTwice(data[i], mask[i % 4]);
    }
  }

  lemma XorTwice(x: bv8, y: bv8)
    ensures (x ^ y) ^ y == x
  {
  }

  /** `_send`: one final, masked frame, with the shortest length form. */
  function SendFrame(opcode: bv8, data: Octets, mask: Octets): Octets
    requires |mask| == 4 && |data| < 0x1_0000_0000_0000_0000
  {
    var n := |data|;
    var header :=
      if n < 126 then [0x80 | opcode, 0x80 | (n as bv8)]
      else if n < 65536 then [0x80 | opcode, 254] + BigEndian(n, 2)
      else [0x80 | opcode, 255] + BigEndian(n, 8);
    header + mask + Masked(data, mask)
  }

  datatype ClientFrame = ClientFrame(final: bool, reserved: bv8, opcode: bv8, data: Octets)

  /** Unmasking as a receiver does it, octet by octet with the key turning round (section 5.3). */
  function Unmask(data: Octets, key: Octets): Octets
    requires |key| == 4
  {
    if data == [] then [] else [data[0] ^ key[0]] + Unmask(data[1..], key[1..] + [key[0]])
  }

  lemma {:induction false} UnmaskMasked(data: Octets, mask: Octets)
    requires |mask| == 4
    ensures Unmask(Masked(data, mask), mask) == data
    decreases |data|
  {
    if data != [] {
      var turned := mask[1..] + [mask[0]];
      XorTwice(data[0], mask[0]);
      forall i: nat | i < |data| - 1 ensures mask[(i + 1) % 4] == turned[i % 4] {
        TurnedKey(i);
      }
      assert Masked(data, mask)[1..] == Masked(data[1..], turned);
      UnmaskMasked(data[1..], turned);
    }
  }

  lemma TurnedKey(i: nat)
    ensures (i + 1) % 4 == if i % 4 == 3 then 0 else i % 4 + 1
  {
  }

  /** How section 5.2 and 5.3 tell a server to read a frame; None: incomplete or not masked. */
  function DecodeClientFrame(s: Octets): Option<(ClientFrame, Octets)> {
    match ReadHeader(s)
    case None => None
    case Some((h, rest)) =>
      if !h.masked || |rest| < 4 + h.length then None
      else Some((ClientFrame(h.first & 0x80 != 0, h.first & 0x70, h.first & 0x0f,
                             Unmask(rest[4..4 + h.length], rest[..4])), rest[4 + h.length..]))
  }

  lemma SendFrameShape(opcode: bv8, data: Octets, mask: Octets)
    requires |mask| == 4 && |data| < 0x1_0000_0000_0000_0000
    ensures var n := |data|;
            var form := if n < 126 then Short else if n < 65536 then Medium else Long;
            SendFrame(opcode, data, mask) == [0x80 | opcode] + LengthBytes(form, n, 0x80) + (mask + Masked(data, mask))
  {
    var marks: bv8 := 0x80;
    assert marks | 126 == 254 && marks | 127 == 255;
  }

  lemma FirstOctet(opcode: bv8)
    requires opcode < 16
    ensures var first := 0x80 | opcode; first & 0x80 != 0 && first & 0x70 == 0 && first & 0x0f == opcode
  {
  }

  /** Every frame the relay writes decodes to its opcode and data, whatever mask it drew. */
  lemma SentFrameDecodes(opcode: bv8, data: Octets, mask: Octets, rest: Octets)
    requires |mask| == 4 && opcode < 16 && |data| < 0x1_0000_0000_0000_0000
    ensures DecodeClientFrame(SendFrame(opcode, data, mask) + rest)
            == Some((ClientFrame(true, 0, opcode, data), rest))
  {
    hide SendFrame, ReadHeader, LengthBytes, Masked, Unmask;
    var n, first := |data|, 0x80 | opcode;
    var form := if n < 126 then Short else if n < 65536 then Medium else Long;
    var header, tail := [first] + LengthBytes(form, n, 0x80), mask + Masked(data, mask) + rest;
    SendFrameShape(opcode, data, mask);
    assert SendFrame(opcode, data, mask) + rest == header + tail;
    HeaderInverts(first, form, n, 0x80, tail);
    assert tail[..4] == mask && tail[4..4 + n] == Masked(data, mask) && tail[4 + n..] == rest;
    UnmaskMasked(data, mask);
    FirstOctet(opcode);
  }
}
