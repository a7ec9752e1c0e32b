/** Masked client frames over a byte stream: the two frame functions of the WSS check script.
    A socket is the bytes that are still to arrive plus the bytes written so far; how the
    stream is cut into reads is left open, so every contract holds for all cuts. */
module WebSocket {
  import opened Wrappers

  type byte = bv8

  datatype Mask = Mask(k0: byte, k1: byte, k2: byte, k3: byte) {
    function Key(i: nat): byte {
      if i % 4 == 0 then k0 else if i % 4 == 1 then k1 else if i % 4 == 2 then k2 else k3
    }

    function Bytes(): seq<byte> {
      [k0, k1, k2, k3]
    }
  }

  /** What stops a call: the peer closed the stream, the peer sent a close frame, or Python refuses
      a value that does not fit its field (a pong longer than 255 bytes, a length of 2^64 or more). */
  datatype Error = Closed | CloseFrame | OutOfRange

  datatype Result<+T> = Ok(value: T) | Err(error: Error)

  datatype Frame = Frame(opcode: byte, mask: Option<Mask>, payload: seq<byte>)

  const TEXT: byte := 0x1
  const CLOSE: byte := 0x8
  const PING: byte := 0x9

  const TWO_64: nat := 0x1_0000_0000_0000_0000

  // ---------- masking ----------

  function MaskBytes(m: Mask, data: seq<byte>): (r: seq<byte>)
    ensures |r| == |data|
    ensures forall i :: 0 <= i < |data| ==> r[i] == data[i] ^ m.Key(i)
  {
    seq(|data|, i requires 0 <= i < |data| => data[i] ^ m.Key(i))
  }

  /** Masking twice with the same key gives the data back (RFC 6455, section 5.3). */
  lemma Unmask(m: Mask, data: seq<byte>)
    ensures MaskBytes(m, MaskBytes(m, data)) == data
  {
  }

  // ---------- big-endian lengths ----------

  function Pow256(k: nat): (p: nat)
    ensures p >= 1
  {
    if k == 0 then 1 else 256 * Pow256(k - 1)
  }

  /** `n.to_bytes(k, "big")` for a number that fits. */
  function ToBytes(n: nat, k: nat): (r: seq<byte>)
    requires n < Pow256(k)
    ensures |r| == k
  {
    if k == 0 then [] else ToBytes(n / 256, k - 1) + [(n % 256) as byte]
  }

  lemma ByteValue(n: nat)
    requires n < 256
    ensures (n as byte) as nat == n
  {
    var wide := n as bv16;
    assert wide < 256;
  }

  function FromBytes(s: seq<byte>): nat {
    if s == [] then 0 else 256 * FromBytes(s[..|s| - 1]) + s[|s| - 1] as nat
  }

  lemma FromBytesLast(head: seq<byte>, last: byte)
    ensures FromBytes(head + [last]) == 256 * FromBytes(head) + last as nat
  {
    assert (head + [last])[..|head|] == head;
  }

  lemma {:induction false} FromToBytes(n: nat, k: nat)
    requires n < Pow256(k)
    ensures FromBytes(ToBytes(n, k)) == n
  {
    if k > 0 {
      var head, last := ToBytes(n / 256, k - 1), (n % 256) as byte;
      FromToBytes(n / 256, k - 1);
      ByteValue(n % 256);
      FromBytesLast(head, last);
    }
  }

  lemma {:induction false} FromBytesBound(s: seq<byte>)
    ensures FromBytes(s) < Pow256(|s|)
  {
    if s != [] {
      FromBytesBound(s[..|s| - 1]);
    }
  }

  lemma Powers()
    ensures Pow256(2) == 65536
    ensures Pow256(8) == TWO_64
  {
    assert Pow256(1) == 256;
    assert Pow256(4) == 0x1_0000_0000 by {
      assert Pow256(3) == 0x100_0000;
    }
    assert Pow256(6) == 0x1_0000_0000_0000 by {
      assert Pow256(5) == 0x100_0000_0000;
    }
    assert Pow256(7) == 0x100_0000_0000_0000;
  }

  // ---------- the wire format ----------

  /** The length byte and its extension, with the mask bit `top` set or not. */
  function LengthField(top: byte, n: nat): (r: seq<byte>)
    requires n < TWO_64
  {
    Powers();
    if n < 126 then [top | (n as byte)]
    else if n < 65536 then [top | 126] + ToBytes(n, 2)
    else [top | 127] + ToBytes(n, 8)
  }

  /** The part of a frame after its header. */
  function BodyBytes(f: Frame): seq<byte> {
    match f.mask
    case None => f.payload
    case Some(m) => m.Bytes() + MaskBytes(m, f.payload)
  }

  /** A final (unfragmented) frame as it travels. */
  function Encode(f: Frame): (r: seq<byte>)
    requires |f.payload| < TWO_64
  {
    [0x80 | f.opcode] + LengthField(if f.mask.Some? then 0x80 else 0, |f.payload|) + BodyBytes(f)
  }

  datatype Head = Head(opcode: byte, masked: bool, len: nat)

  /** The two header bytes and the extended length; None when the stream ends inside them. */
  function ParseHead(s: seq<byte>): (r: Option<(Head, seq<byte>)>)
    ensures r.Some? ==> |r.value.1| + 2 <= |s|
  {
    if |s| < 2 then None else
    var op, masked, l := s[0] & 0x0F, s[1] & 0x80 != 0, s[1] & 0x7F;
    if l == 126 then
      if |s| < 4 then None else Some((Head(op, masked, FromBytes(s[2..4])), s[4..]))
    else if l == 127 then
      if |s| < 10 then None else Some((Head(op, masked, FromBytes(s[2..10])), s[10..]))
    else Some((Head(op, masked, l as nat), s[2..]))
  }

  function ParseMask(s: seq<byte>, masked: bool): (r: Option<(Option<Mask>, seq<byte>)>)
    ensures r.Some? ==> |r.value.1| <= |s|
  {
    if !masked then Some((None, s))
    else if |s| < 4 then None
    else Some((Some(Mask(s[0], s[1], s[2], s[3])), s[4..]))
  }

  /** What follows the header: the key if there is one, then the payload, which is unmasked. */
  function ParseBody(h: Head, s: seq<byte>): (r: Option<(Frame, seq<byte>)>)
    ensures r.Some? ==> |r.value.1| <= |s|
  {
    match ParseMask(s, h.masked)
    case None => None
    case Some((m, s1)) =>
      if |s1| < h.len then None else
      var raw := s1[..h.len];
      Some((Frame(h.opcode, m, if m.Some? then MaskBytes(m.value, raw) else raw), s1[h.len..]))
  }

  /** One whole frame off the front of the stream. */
  function Parse(s: seq<byte>): (r: Option<(Frame, seq<byte>)>)
    ensures r.Some? ==> |r.value.1| < |s|
  {
    match ParseHead(s)
    case None => None
    case Some((h, s1)) => ParseBody(h, s1)
  }

  lemma HeadBits(op: byte, top: byte, l: byte)
    requires op < 0x10 && (top == 0 || top == 0x80) && l < 0x80
    ensures (0x80 | op) & 0x0F == op
    ensures (top | l) & 0x7F == l
    ensures ((top | l) & 0x80 != 0) == (top == 0x80)
  {
  }

  lemma SmallByte(n: nat)
    requires n < 128
    ensures (n as byte) < 0x80 && (n as byte) as nat == n
    ensures n < 126 ==> n as byte != 126 && n as byte != 127
  {
  }

  lemma ParseHeadShort(b1: byte, b2: byte, rest: seq<byte>)
    requires b2 & 0x7F != 126 && b2 & 0x7F != 127
    ensures ParseHead([b1, b2] + rest) == Some((Head(b1 & 0x0F, b2 & 0x80 != 0, (b2 & 0x7F) as nat), rest))
  {
    var s := [b1, b2] + rest;
    assert s[0] == b1 && s[1] == b2 && s[2..] == rest;
  }

  lemma ParseHeadLong(b1: byte, b2: byte, ext: seq<byte>, rest: seq<byte>)
    requires (b2 & 0x7F == 126 && |ext| == 2) || (b2 & 0x7F == 127 && |ext| == 8)
    ensures ParseHead([b1, b2] + ext + rest) == Some((Head(b1 & 0x0F, b2 & 0x80 != 0, FromBytes(ext)), rest))
  {
    hide FromBytes;
    var s := [b1, b2] + ext + rest;
    assert s[0] == b1 && s[1] == b2;
    assert s[2..2 + |ext|] == ext && s[2 + |ext|..] == rest;
  }

  lemma ParseHeadOfFrame(op: byte, top: byte, n: nat, rest: seq<byte>)
    requires op < 0x10 && (top == 0 || top == 0x80) && n < TWO_64
    ensures ParseHead([0x80 | op] + LengthField(top, n) + rest) == Some((Head(op, top == 0x80, n), rest))
  {
    Powers();
    hide ParseHead, ToBytes, FromBytes, Pow256;
    if n < 126 {
      SmallByte(n);
      HeadBits(op, top, n as byte);
      ParseHeadShort(0x80 | op, top | (n as byte), rest);
      assert [0x80 | op] + LengthField(top, n) + rest == [0x80 | op, top | (n as byte)] + rest;
    } else if n < 65536 {
      HeadBits(op, top, 126);
      FromToBytes(n, 2);
      ParseHeadLong(0x80 | op, top | 126, ToBytes(n, 2), rest);
      assert [0x80 | op] + LengthField(top, n) + rest == [0x80 | op, top | 126] + ToBytes(n, 2) + rest;
    } else {
      HeadBits(op, top, 127);
      FromToBytes(n, 8);
      ParseHeadLong(0x80 | op, top | 127, ToBytes(n, 8), rest);
      assert [0x80 | op] + LengthField(top, n) + rest == [0x80 | op, top | 127] + ToBytes(n, 8) + rest;
    }
  }

  lemma ParseBodyOfFrame(f: Frame, rest: seq<byte>)
    ensures ParseBody(Head(f.opcode, f.mask.Some?, |f.payload|), BodyBytes(f) + rest) == Some((f, rest))
  {
    var n := |f.payload|;
    match f.mask
    case None =>
      var s := f.payload + rest;
      assert s[..n] == f.payload && s[n..] == rest;
    case Some(m) =>
      var data := MaskBytes(m, f.payload);
      var s := m.Bytes() + data + rest;
      assert s[4..] == data + rest;
      assert (data + rest)[..n] == data && (data + rest)[n..] == rest;
      Unmask(m, f.payload);
  }

  /** Round trip: parsing a frame followed by anything gives the frame and leaves exactly the rest. */
  lemma {:induction false} ParseEncode(f: Frame, rest: seq<byte>)
    requires f.opcode < 0x10 && |f.payload| < TWO_64
    ensures Parse(Encode(f) + rest) == Some((f, rest))
  {
    hide ParseHead, ParseBody, LengthField, BodyBytes;
    var top: byte := if f.mask.Some? then 0x80 else 0;
    var header := [0x80 | f.opcode] + LengthField(top, |f.payload|);
    ParseHeadOfFrame(f.opcode, top, |f.payload|, BodyBytes(f) + rest);
    ParseBodyOfFrame(f, rest);
    assert Encode(f) + rest == header + (BodyBytes(f) + rest);
  }

  lemma ParseHeadLocal(s: seq<byte>, more: seq<byte>)
    requires ParseHead(s).Some?
    ensures ParseHead(s + more) == Some((ParseHead(s).value.0, ParseHead(s).value.1 + more))
  {
    var t := s + more;
    assert t[0] == s[0] && t[1] == s[1];
    var l := s[1] & 0x7F;
    if l == 126 {
      assert t[2..4] == s[2..4] && t[4..] == s[4..] + more;
    } else if l == 127 {
      assert t[2..10] == s[2..10] && t[10..] == s[10..] + more;
    } else {
      assert t[2..] == s[2..] + more;
    }
  }

  lemma ParseBodyLocal(h: Head, s: seq<byte>, more: seq<byte>)
    requires ParseBody(h, s).Some?
    ensures ParseBody(h, s + more) == Some((ParseBody(h, s).value.0, ParseBody(h, s).value.1 + more))
  {
    hide MaskBytes;
    var s1 := ParseMask(s, h.masked).value.1;
    if h.masked {
      assert (s + more)[4..] == s1 + more;
    }
    assert (s1 + more)[..h.len] == s1[..h.len];
    assert (s1 + more)[h.len..] == s1[h.len..] + more;
  }

  /** A frame that was parsed does not depend on the bytes after it. */
  lemma ParseLocal(s: seq<byte>, more: seq<byte>)
    requires Parse(s).Some?
    ensures Parse(s + more) == Some((Parse(s).value.0, Parse(s).value.1 + more))
  {
    ParseHeadLocal(s, more);
    ParseBodyLocal(ParseHead(s).value.0, ParseHead(s).value.1, more);
  }

  /** A frame cut off at any byte is not a frame: nothing of it is ever delivered. */
  lemma ParseCutFrame(f: Frame, k: nat)
    requires f.opcode < 0x10 && |f.payload| < TWO_64 && k < |Encode(f)|
    ensures Parse(Encode(f)[..k]) == None
  {
    var s := Encode(f);
    ParseEncode(f, []);
    assert s[..k] + s[k..] == s + [];
    if Parse(s[..k]).Some? {
      ParseLocal(s[..k], s[k..]);
    }
  }

  /** The minimal length form of RFC 6455, section 5.2: no header that announces n bytes is shorter. */
  lemma MinimalLength(top: byte, n: nat, s: seq<byte>)
    requires n < TWO_64 && ParseHead(s).Some? && ParseHead(s).value.0.len == n
    ensures 1 + |LengthField(top, n)| <= |s| - |ParseHead(s).value.1|
  {
    Powers();
    var l := s[1] & 0x7F;
    if l == 126 {
      FromBytesBound(s[2..4]);
    } else if l != 127 {
      var b := s[1];
      assert (b & 0x7F) < 0x80;
      assert l as nat < 126 by { assert l < 126; }
    }
  }

  // ---------- frames byte by byte ----------

  /** The bytes before the key and the payload: two, and two or eight more for a longer length. */
  function HeaderSize(w: seq<byte>): nat
    requires |w| >= 2
  {
    if w[1] & 0x7F == 126 then 4 else if w[1] & 0x7F == 127 then 10 else 2
  }

  function Value(b: byte): nat {
    b as nat
  }

  /** The length that a header announces, most significant byte first. */
  function Announced(w: seq<byte>): nat
    requires |w| >= 2 && |w| >= HeaderSize(w)
  {
    if w[1] & 0x7F == 126 then 0x100 * Value(w[2]) + Value(w[3])
    else if w[1] & 0x7F == 127 then
      0x100_0000_0000_0000 * Value(w[2]) + 0x1_0000_0000_0000 * Value(w[3]) + 0x100_0000_0000 * Value(w[4])
      + 0x1_0000_0000 * Value(w[5]) + 0x100_0000 * Value(w[6]) + 0x1_0000 * Value(w[7]) + 0x100 * Value(w[8])
      + Value(w[9])
    else Value(w[1] & 0x7F)
  }

  predicate HasMask(w: seq<byte>)
    requires |w| >= 2
  {
    w[1] & 0x80 != 0
  }

  /** Behind h bytes of header: with a mask, payload byte i stands under byte i % 4 of the key. */
  ghost predicate BodyCarries(w: seq<byte>, h: nat, masked: bool, p: seq<byte>) {
    if masked then |w| == h + 4 + |p| && forall i :: 0 <= i < |p| ==> p[i] == w[h + 4 + i] ^ w[h + i % 4]
    else h <= |w| && w == w[..h] + p
  }

  /** The bytes w are one whole frame with the payload p (RFC 6455, sections 5.2 and 5.3). */
  ghost predicate Carries(w: seq<byte>, p: seq<byte>) {
    && |w| >= 2 && |w| >= HeaderSize(w) && Announced(w) == |p|
    && BodyCarries(w, HeaderSize(w), HasMask(w), p)
  }

  lemma FromBytesPrefix(s: seq<byte>, k: nat)
    requires 0 < k <= |s|
    ensures FromBytes(s[..k]) == 0x100 * FromBytes(s[..k - 1]) + Value(s[k - 1])
  {
    assert s[..k][..k - 1] == s[..k - 1];
  }

  lemma TwoBytes(s: seq<byte>)
    requires |s| == 2
    ensures FromBytes(s) == 0x100 * Value(s[0]) + Value(s[1])
  {
    assert FromBytes(s[..0]) == 0 && s[..2] == s;
    hide FromBytes, Value;
    FromBytesPrefix(s, 1);
    FromBytesPrefix(s, 2);
  }

  lemma EightBytes(s: seq<byte>)
    requires |s| == 8
    ensures FromBytes(s) ==
              0x100_0000_0000_0000 * Value(s[0]) + 0x1_0000_0000_0000 * Value(s[1]) + 0x100_0000_0000 * Value(s[2])
              + 0x1_0000_0000 * Value(s[3]) + 0x100_0000 * Value(s[4]) + 0x1_0000 * Value(s[5])
              + 0x100 * Value(s[6]) + Value(s[7])
  {
    hide FromBytes, Value;
    FromNothing(s);
    NextFour(s, 0);
    NextFour(s, 4);
    assert s[..8] == s;
  }

  lemma FromNothing(s: seq<byte>)
    ensures FromBytes(s[..0]) == 0
  {
  }

  lemma NextFour(s: seq<byte>, k: nat)
    requires k + 4 <= |s|
    ensures FromBytes(s[..k + 4]) ==
              0x1_0000_0000 * FromBytes(s[..k]) + 0x100_0000 * Value(s[k]) + 0x1_0000 * Value(s[k + 1])
              + 0x100 * Value(s[k + 2]) + Value(s[k + 3])
  {
    hide FromBytes, Value;
    FromBytesPrefix(s, k + 1);
    FromBytesPrefix(s, k + 2);
    FromBytesPrefix(s, k + 3);
    FromBytesPrefix(s, k + 4);
  }

  /** The header that is parsed is the one that stands there. */
  lemma HeadOnWire(s: seq<byte>)
    ensures ParseHead(s).Some? <==> |s| >= 2 && |s| >= HeaderSize(s)
    ensures ParseHead(s).Some? ==>
              ParseHead(s) == Some((Head(s[0] & 0x0F, HasMask(s), Announced(s)), s[HeaderSize(s)..]))
  {
    if |s| >= 2 && |s| >= HeaderSize(s) {
      if s[1] & 0x7F == 126 {
        TwoBytes(s[2..4]);
      } else if s[1] & 0x7F == 127 {
        EightBytes(s[2..10]);
      }
    }
  }

  lemma KeyByte(m: Mask, i: nat)
    ensures m.Key(i) == m.Bytes()[i % 4]
  {
  }

  lemma MaskedByte(m: Mask, key: seq<byte>, data: seq<byte>, i: nat)
    requires m.Bytes() == key && i < |data|
    ensures MaskBytes(m, data)[i] == data[i] ^ key[i % 4]
  {
    KeyByte(m, i);
  }

  lemma BodyOnWire(h: Head, pre: seq<byte>, s: seq<byte>)
    requires ParseBody(h, s).Some?
    ensures var (f, rest) := ParseBody(h, s).value;
            && f.opcode == h.opcode && |f.payload| == h.len
            && BodyCarries(pre + s[..|s| - |rest|], |pre|, h.masked, f.payload)
  {
    hide MaskBytes, Mask.Bytes;
    var (f, rest) := ParseBody(h, s).value;
    var w := pre + s[..|s| - |rest|];
    if h.masked {
      var raw := s[4..][..h.len];
      var m := Mask(s[0], s[1], s[2], s[3]);
      forall i | 0 <= i < |f.payload|
        ensures f.payload[i] == w[|pre| + 4 + i] ^ w[|pre| + i % 4]
      {
        MaskKey(s);
        MaskedByte(m, s[..4], raw, i);
        assert w[|pre| + 4 + i] == raw[i] && w[|pre| + i % 4] == s[i % 4];
      }
    } else {
      assert w[..|pre|] == pre;
    }
  }

  lemma MaskKey(s: seq<byte>)
    requires |s| >= 4
    ensures Mask(s[0], s[1], s[2], s[3]).Bytes() == s[..4]
  {
  }

  /** What is parsed is the frame that the consumed bytes spell. */
  lemma ParsedOnWire(s: seq<byte>)
    requires Parse(s).Some?
    ensures var (f, rest) := Parse(s).value;
            var w := s[..|s| - |rest|];
            s == w + rest && Carries(w, f.payload) && f.opcode == w[0] & 0x0F
  {
    hide ParseHead, ParseBody, BodyCarries, Announced, HeaderSize, HasMask;
    HeadOnWire(s);
    var (h, s1) := ParseHead(s).value;
    var rest := Parse(s).value.1;
    var pre := s[..HeaderSize(s)];
    BodyOnWire(h, pre, s1);
    BodyRest(h, s1);
    var w := s[..|s| - |rest|];
    assert w == pre + s1[..|s1| - |rest|];
    SameHeader(s, w);
  }

  lemma BodyRest(h: Head, s: seq<byte>)
    requires ParseBody(h, s).Some?
    ensures var rest := ParseBody(h, s).value.1; |rest| <= |s| && rest == s[|s| - |rest|..]
  {
    hide MaskBytes;
  }

  lemma SameHeader(s: seq<byte>, w: seq<byte>)
    requires w <= s && |w| >= 2 && |w| >= HeaderSize(s)
    ensures HeaderSize(w) == HeaderSize(s) && Announced(w) == Announced(s) && HasMask(w) == HasMask(s)
  {
    hide Value;
  }

  lemma BodyIsParsed(h: Head, w: seq<byte>, n: nat, p: seq<byte>, rest: seq<byte>)
    requires n <= |w| && BodyCarries(w, n, h.masked, p) && h.len == |p|
    ensures ParseBody(h, w[n..] + rest).Some?
    ensures var (f, after) := ParseBody(h, w[n..] + rest).value; f.payload == p && f.opcode == h.opcode && after == rest
  {
    hide MaskBytes, Mask.Bytes;
    var s := w[n..] + rest;
    if h.masked {
      var m := Mask(s[0], s[1], s[2], s[3]);
      MaskKey(s);
      var raw := w[n + 4..];
      assert s[4..][..|p|] == raw && s[4..][|p|..] == rest;
      forall i | 0 <= i < |p|
        ensures MaskBytes(m, raw)[i] == p[i]
      {
        MaskedByte(m, s[..4], raw, i);
        assert s[i % 4] == w[n + i % 4] && raw[i] == w[n + 4 + i];
      }
      assert MaskBytes(m, raw) == p;
    } else {
      assert s[..|p|] == p && s[|p|..] == rest;
    }
  }

  /** Bytes that spell a frame are parsed as that frame. */
  lemma WireIsParsed(w: seq<byte>, p: seq<byte>, rest: seq<byte>)
    requires Carries(w, p)
    ensures Parse(w + rest).Some?
    ensures var (f, after) := Parse(w + rest).value; f.payload == p && f.opcode == w[0] & 0x0F && after == rest
  {
    var s, n := w + rest, HeaderSize(w);
    hide ParseHead, ParseBody, BodyCarries, Announced, HasMask;
    HeadOnWire(s);
    SameHeader(s, w);
    assert s[n..] == w[n..] + rest;
    BodyIsParsed(ParseHead(s).value.0, w, n, p, rest);
  }

  /** Behind h bytes stand a key and then the data, every byte under its key byte. */
  ghost predicate MaskedFrom(w: seq<byte>, h: nat, data: seq<byte>) {
    |w| == h + 4 + |data| && forall i :: 0 <= i < |data| ==> w[h + 4 + i] == data[i] ^ w[h + i % 4]
  }

  lemma MaskedTail(pre: seq<byte>, m: Mask, data: seq<byte>)
    ensures MaskedFrom(pre + m.Bytes() + MaskBytes(m, data), |pre|, data)
  {
    hide MaskBytes, Mask.Bytes;
    FourBytes(m);
    var w := pre + m.Bytes() + MaskBytes(m, data);
    forall i | 0 <= i < |data|
      ensures w[|pre| + 4 + i] == data[i] ^ w[|pre| + i % 4]
    {
      MaskedByte(m, m.Bytes(), data, i);
      assert w[|pre| + i % 4] == m.Bytes()[i % 4] && w[|pre| + 4 + i] == MaskBytes(m, data)[i];
    }
  }

  lemma EncodedOnWire(f: Frame)
    requires f.opcode < 0x10 && |f.payload| < TWO_64
    ensures Carries(Encode(f), f.payload)
  {
    hide Parse, Carries, Encode;
    var w := Encode(f);
    ParseEncode(f, []);
    assert w + [] == w && w[..|w|] == w;
    ParsedOnWire(w);
  }

  /** A sent text frame on the wire: 0x81, the length in the shortest form with the mask bit, a key, and
      every byte under its key byte. */
  lemma TextOnWire(m: Mask, data: seq<byte>)
    requires |data| < TWO_64
    ensures var w := Encode(Frame(TEXT, Some(m), data));
            var h := if |data| < 126 then 2 else if |data| < 65536 then 4 else 10;
            |w| > 2 && w[0] == 0x81 && w[1] & 0x80 != 0 && Carries(w, data) && MaskedFrom(w, h, data)
  {
    hide MaskBytes, LengthField, Mask.Bytes, Carries, MaskedFrom;
    FourBytes(m);
    EncodedOnWire(Frame(TEXT, Some(m), data));
    TextHead(|data|);
    var pre := [0x80 | TEXT] + LengthField(0x80, |data|);
    MaskedTail(pre, m, data);
    assert Encode(Frame(TEXT, Some(m), data)) == pre + m.Bytes() + MaskBytes(m, data);
    assert pre[1] == LengthField(0x80, |data|)[0];
  }

  lemma FourBytes(m: Mask)
    ensures |m.Bytes()| == 4
  {
  }

  lemma TextHead(n: nat)
    requires n < TWO_64
    ensures 0x80 | TEXT == 0x81
    ensures |LengthField(0x80, n)| == if n < 126 then 1 else if n < 65536 then 3 else 9
    ensures LengthField(0x80, n)[0] & 0x80 != 0
  {
    Powers();
    hide Pow256;
    if n < 126 {
      var b := n as byte;
      assert (0x80 | b) & 0x80 != 0;
    }
  }

  // ---------- receiving ----------

  const PONG: byte := 0xA

  /** The pong as the script writes it: one length byte, whatever the length is. */
  function PongBytes(m: Mask, p: seq<byte>): (r: seq<byte>)
    requires |p| <= 255
  {
    [0x80 | PONG, 0x80 | (|p| as byte)] + m.Bytes() + MaskBytes(m, p)
  }

  lemma LongLength(n: nat)
    requires 126 <= n <= 255
    ensures var b := 0x80 | (n as byte);
            b & 0x80 != 0 && (b & 0x7F == 126 || b & 0x7F == 127 || (b & 0x7F) as nat != n)
  {
    var b := n as byte;
    assert (0x80 | b) & 0x7F < 0x80;
    assert b < 0x80 ==> (0x80 | b) & 0x7F == b;
    if n < 128 {
      SmallByte(n);
    } else {
      assert ((0x80 | b) & 0x7F) as nat < 128;
    }
  }

  lemma ShortPong(m: Mask, p: seq<byte>)
    requires |p| <= 125
    ensures PongBytes(m, p) == Encode(Frame(PONG, Some(m), p)) + []
  {
    hide MaskBytes;
  }

  lemma LongPong(m: Mask, p: seq<byte>)
    requires 126 <= |p| <= 255
    ensures Parse(PongBytes(m, p)) != Some((Frame(PONG, Some(m), p), []))
  {
    hide MaskBytes, FromBytes;
    LongLength(|p|);
    var s := PongBytes(m, p);
    assert |s| == 6 + |p| && s[1] == 0x80 | (|p| as byte);
    if Parse(s).Some? && Parse(s).value.1 == [] {
      assert |Parse(s).value.0.payload| != |p|;
    }
  }

  /** The written pong is a pong frame with the same payload exactly when the ping kept to the
      125 bytes that RFC 6455, section 5.5, allows a control frame. */
  lemma PongIsFrame(m: Mask, p: seq<byte>)
    requires |p| <= 255
    ensures Parse(PongBytes(m, p)) == Some((Frame(PONG, Some(m), p), [])) <==> |p| <= 125
  {
    hide Parse, PongBytes, Encode;
    if |p| <= 125 {
      ShortPong(m, p);
      ParseEncode(Frame(PONG, Some(m), p), []);
    } else {
      LongPong(m, p);
    }
  }

  /** The whole effect of one receive on the stream: what it returns, the bytes it leaves and the
      payloads of the pings it answers. */
  datatype Outcome = Outcome(result: Result<seq<byte>>, rest: seq<byte>, pings: seq<seq<byte>>)

  function Receive(s: seq<byte>): (o: Outcome)
    decreases |s|
  {
    match Parse(s)
    case None => Outcome(Err(Closed), [], [])
    case Some((f, rest)) =>
      if f.opcode == PING then
        if |f.payload| > 255 then Outcome(Err(OutOfRange), rest, [])
        else
          var o := Receive(rest);
          o.(pings := [f.payload] + o.pings)
      else if f.opcode == CLOSE then Outcome(Err(CloseFrame), rest, [])
      else Outcome(Ok(f.payload), rest, [])
  }

  lemma ReceiveStep(s: seq<byte>)
    ensures Receive(s) == match Parse(s)
                          case None => Outcome(Err(Closed), [], [])
                          case Some((f, rest)) =>
                            if f.opcode == PING && |f.payload| > 255 then Outcome(Err(OutOfRange), rest, [])
                            else if f.opcode == PING then Receive(rest).(pings := [f.payload] + Receive(rest).pings)
                            else if f.opcode == CLOSE then Outcome(Err(CloseFrame), rest, [])
                            else Outcome(Ok(f.payload), rest, [])
  {
    hide Parse;
  }

  function EncodeAll(fs: seq<Frame>): seq<byte>
    requires forall f <- fs :: |f.payload| < TWO_64
  {
    if fs == [] then [] else Encode(fs[0]) + EncodeAll(fs[1..])
  }

  function Payloads(fs: seq<Frame>): seq<seq<byte>> {
    seq(|fs|, i requires 0 <= i < |fs| => fs[i].payload)
  }

  ghost predicate ArePings(fs: seq<Frame>) {
    forall f <- fs :: f.opcode == PING && |f.payload| <= 125
  }

  /** Pings in front of anything are all answered, in order, and then the rest is received. */
  lemma {:induction false} ReceivePings(ps: seq<Frame>, s: seq<byte>)
    requires ArePings(ps)
    ensures Receive(EncodeAll(ps) + s) == Receive(s).(pings := Payloads(ps) + Receive(s).pings)
  {
    hide Parse, Encode;
    if ps == [] {
      assert EncodeAll(ps) + s == s;
      assert Payloads(ps) + Receive(s).pings == Receive(s).pings;
    } else {
      var tail := EncodeAll(ps[1..]) + s;
      assert EncodeAll(ps) + s == Encode(ps[0]) + tail;
      ParseEncode(ps[0], tail);
      ReceivePings(ps[1..], s);
      assert Payloads(ps) == [ps[0].payload] + Payloads(ps[1..]);
    }
  }

  ghost predicate IsData(f: Frame) {
    f.opcode < 0x10 && f.opcode != PING && f.opcode != CLOSE && |f.payload| < TWO_64
  }

  /** A sent frame is received exactly: its payload, no byte more or less, one pong per ping before it. */
  lemma ReceiveFrame(ps: seq<Frame>, f: Frame, rest: seq<byte>)
    requires ArePings(ps) && IsData(f)
    ensures Receive(EncodeAll(ps) + Encode(f) + rest) == Outcome(Ok(f.payload), rest, Payloads(ps))
  {
    assert EncodeAll(ps) + Encode(f) + rest == EncodeAll(ps) + (Encode(f) + rest);
    ReceivePings(ps, Encode(f) + rest);
    ParseEncode(f, rest);
    assert Payloads(ps) + [] == Payloads(ps);
  }

  /** When the peer closes in the middle of a frame, the complete pings are answered and nothing is returned. */
  lemma ReceiveCut(ps: seq<Frame>, f: Frame, k: nat)
    requires ArePings(ps) && f.opcode < 0x10 && |f.payload| < TWO_64 && k < |Encode(f)|
    ensures Receive(EncodeAll(ps) + Encode(f)[..k]) == Outcome(Err(Closed), [], Payloads(ps))
  {
    ReceivePings(ps, Encode(f)[..k]);
    ParseCutFrame(f, k);
    assert Payloads(ps) + [] == Payloads(ps);
  }

  /** One message and the pings that arrive before it. */
  datatype Turn = Turn(pings: seq<Frame>, text: Frame)

  ghost predicate AreTurns(ts: seq<Turn>) {
    forall t <- ts :: ArePings(t.pings) && IsData(t.text)
  }

  ghost function Stream(ts: seq<Turn>): seq<byte>
    requires AreTurns(ts)
  {
    if ts == [] then [] else EncodeAll(ts[0].pings) + Encode(ts[0].text) + Stream(ts[1..])
  }

  function ReceiveMany(s: seq<byte>, n: nat): seq<Outcome>
    decreases n
  {
    if n == 0 then [] else [Receive(s)] + ReceiveMany(Receive(s).rest, n - 1)
  }

  /** A whole conversation: n receives return the n messages in order, whatever pings are mixed in. */
  lemma {:induction false} ReceiveStream(ts: seq<Turn>, rest: seq<byte>)
    requires AreTurns(ts)
    ensures var os := ReceiveMany(Stream(ts) + rest, |ts|);
            && |os| == |ts|
            && (forall i :: 0 <= i < |ts| ==>
                  os[i].result == Ok(ts[i].text.payload) && os[i].pings == Payloads(ts[i].pings))
            && (ts != [] ==> os[|ts| - 1].rest == rest)
  {
    hide Receive, Encode, EncodeAll;
    if ts != [] {
      var tail := Stream(ts[1..]) + rest;
      assert Stream(ts) + rest == EncodeAll(ts[0].pings) + Encode(ts[0].text) + tail;
      ReceiveFrame(ts[0].pings, ts[0].text, tail);
      ReceiveStream(ts[1..], rest);
      var os, more := ReceiveMany(Stream(ts) + rest, |ts|), ReceiveMany(tail, |ts| - 1);
      assert os == [Outcome(Ok(ts[0].text.payload), tail, Payloads(ts[0].pings))] + more;
      forall i | 0 <= i < |ts|
        ensures os[i].result == Ok(ts[i].text.payload) && os[i].pings == Payloads(ts[i].pings)
      {
        if i > 0 {
          assert os[i] == more[i - 1] && ts[i] == ts[1..][i - 1];
        }
      }
      if |ts| == 1 {
        assert tail == rest;
      }
    }
  }

  // ---------- receiving, byte by byte ----------

  function Flat(parts: seq<seq<byte>>): seq<byte> {
    if parts == [] then [] else parts[0] + Flat(parts[1..])
  }

  lemma {:induction false} FlatLast(parts: seq<seq<byte>>, x: seq<byte>)
    ensures Flat(parts + [x]) == Flat(parts) + x
  {
    if parts == [] {
      assert parts + [x] == [x] && [x][1..] == [];
    } else {
      assert (parts + [x])[1..] == parts[1..] + [x];
      FlatLast(parts[1..], x);
    }
  }

  predicate Opcode(w: seq<byte>, op: byte) {
    w != [] && w[0] & 0x0F == op
  }

  /** The frames are pings with these payloads, in order. */
  ghost predicate PingFrames(frames: seq<seq<byte>>, pings: seq<seq<byte>>) {
    |frames| == |pings|
    && forall i :: 0 <= i < |pings| ==> Carries(frames[i], pings[i]) && Opcode(frames[i], 0x9) && |pings[i]| <= 255
  }

  /** The bytes w end a receive: a frame that is neither a ping nor a close gives its payload, a close frame
      or a ping above 255 bytes an error; or the stream ends before they are a frame. */
  ghost predicate Ends(w: seq<byte>, rest: seq<byte>, r: Result<seq<byte>>) {
    match r
    case Ok(p) => Carries(w, p) && !Opcode(w, 0x8) && !Opcode(w, 0x9)
    case Err(CloseFrame) => Opcode(w, 0x8) && exists p :: Carries(w, p)
    case Err(OutOfRange) => Opcode(w, 0x9) && exists p :: Carries(w, p) && |p| > 255
    case Err(Closed) => rest == [] && forall k, p :: 0 <= k <= |w| ==> !Carries(w[..k], p)
  }

  /** The stream s is split into pings, the bytes that end the receive, and what is left. */
  ghost predicate Split(s: seq<byte>, frames: seq<seq<byte>>, w: seq<byte>, o: Outcome) {
    s == Flat(frames) + w + o.rest && PingFrames(frames, o.pings) && Ends(w, o.rest, o.result)
  }

  /** What a receive takes off a stream, told by the bytes alone. */
  ghost predicate Takes(s: seq<byte>, o: Outcome) {
    exists frames, w :: Split(s, frames, w, o)
  }

  lemma NoFrame(s: seq<byte>, k: nat, p: seq<byte>)
    requires Parse(s) == None && k <= |s|
    ensures !Carries(s[..k], p)
  {
    hide Parse, Carries;
    assert s[..k] + s[k..] == s;
    if Carries(s[..k], p) {
      WireIsParsed(s[..k], p, s[k..]);
    }
  }

  lemma SplitNext(w: seq<byte>, p: seq<byte>, s: seq<byte>, o: Outcome)
    requires Takes(s, o) && Carries(w, p) && Opcode(w, 0x9) && |p| <= 255
    ensures Takes(w + s, o.(pings := [p] + o.pings))
  {
    hide Carries, Opcode, Ends;
    var frames, last :| Split(s, frames, last, o);
    var all := [w] + frames;
    assert all[1..] == frames;
    assert w + s == Flat(all) + last + o.rest;
    assert Split(w + s, all, last, o.(pings := [p] + o.pings));
  }

  lemma SplitEnds(w: seq<byte>, o: Outcome)
    requires Ends(w, o.rest, o.result) && o.pings == []
    ensures Takes(w + o.rest, o)
  {
    hide Ends;
    assert Flat([]) + w + o.rest == w + o.rest;
    assert Split(w + o.rest, [], w, o);
  }

  /** The outcome of a receive is the one that the bytes of the stream call for. */
  lemma {:induction false} ReceiveTakes(s: seq<byte>)
    ensures Takes(s, Receive(s))
    decreases |s|
  {
    hide Parse, Receive, Carries, Takes;
    ReceiveStep(s);
    if Parse(s) == None {
      forall k, p | 0 <= k <= |s|
        ensures !Carries(s[..k], p)
      {
        NoFrame(s, k, p);
      }
      assert s + [] == s;
      SplitEnds(s, Outcome(Err(Closed), [], []));
    } else {
      ParsedOnWire(s);
      var (f, rest) := Parse(s).value;
      var w := s[..|s| - |rest|];
      if f.opcode == PING && |f.payload| <= 255 {
        ReceiveTakes(rest);
        SplitNext(w, f.payload, rest, Receive(rest));
      } else {
        SplitEnds(w, Receive(s));
      }
    }
  }

  /** A pong on the wire: 0x8A, the length with the mask bit, a key, and every byte under its key byte. */
  ghost predicate PongFor(x: seq<byte>, p: seq<byte>) {
    |p| <= 255 && |x| > 2 && x[0] == 0x8A && x[1] == 0x80 | (|p| as byte) && MaskedFrom(x, 2, p)
  }

  lemma PongOnWire(m: Mask, p: seq<byte>)
    requires |p| <= 255
    ensures PongFor(PongBytes(m, p), p)
  {
    hide MaskBytes, Mask.Bytes, MaskedFrom;
    FourBytes(m);
    var pre := [0x80 | PONG, 0x80 | (|p| as byte)];
    MaskedTail(pre, m, p);
    assert PongBytes(m, p)[0] == 0x8A;
  }

  ghost predicate PongsFor(pongs: seq<seq<byte>>, pings: seq<seq<byte>>) {
    |pongs| == |pings| && forall i :: 0 <= i < |pings| ==> PongFor(pongs[i], pings[i])
  }

  lemma NoPongs()
    ensures PongsFor([], []) && Flat([]) == []
  {
  }

  lemma NextPong(pongs: seq<seq<byte>>, pings: seq<seq<byte>>, m: Mask, p: seq<byte>)
    requires PongsFor(pongs, pings) && |p| <= 255
    ensures PongsFor(pongs + [PongBytes(m, p)], pings + [p])
    ensures Flat(pongs + [PongBytes(m, p)]) == Flat(pongs) + PongBytes(m, p)
  {
    hide PongBytes, PongFor, Flat;
    PongOnWire(m, p);
    FlatLast(pongs, PongBytes(m, p));
  }

  // ---------- the socket and the two functions of the script ----------

  /** `os.urandom(4)`: any key at all. */
  method Urandom4() returns (m: Mask) {
    m := *;
  }

  method TextHeader(n: nat) returns (hdr: seq<byte>)
    requires n < TWO_64
    ensures hdr == [0x80 | TEXT] + LengthField(0x80, n)
  {
    Powers();
    hdr := [0x81];
    if n < 126 {
      hdr := hdr + [0x80 | (n as byte)];
    } else if n < 65536 {
      hdr := hdr + [0x80 | 126];
      hdr := hdr + ToBytes(n, 2);
    } else {
      hdr := hdr + [0x80 | 127];
      hdr := hdr + ToBytes(n, 8);
    }
  }

  class Socket {
    var incoming: seq<byte>  // what the peer still delivers before it closes
    var sent: seq<byte>

    constructor (incoming: seq<byte>)
      ensures this.incoming == incoming && sent == []
    {
      this.incoming, sent := incoming, [];
    }

    /** At most `max` bytes, at least one unless the peer has closed. Where the cut falls is not decided here. */
    method Recv(max: nat) returns (chunk: seq<byte>)
      requires max > 0
      modifies this`incoming
      ensures old(incoming) == chunk + incoming
      ensures |chunk| <= max
      ensures chunk == [] <==> old(incoming) == []
    {
      if incoming == [] {
        return [];
      }
      var k :| 1 <= k <= max && k <= |incoming|;
      chunk := incoming[..k];
      incoming := incoming[k..];
    }

    method SendAll(data: seq<byte>)
      modifies this`sent
      ensures sent == old(sent) + data
    {
      sent := sent + data;
    }

    /** Exactly n bytes, however the stream is cut, or Closed with the stream used up. */
    method ReadN(n: nat) returns (r: Result<seq<byte>>)
      modifies this`incoming
      ensures r == if |old(incoming)| < n then Err(Closed) else Ok(old(incoming)[..n])
      ensures incoming == if |old(incoming)| < n then [] else old(incoming)[n..]
    {
      var buf := [];
      while |buf| < n
        invariant |buf| <= n
        invariant old(incoming) == buf + incoming
        decreases n - |buf|
      {
        var chunk := Recv(n - |buf|);
        if chunk == [] {
          return Err(Closed);
        }
        buf := buf + chunk;
      }
      return Ok(buf);
    }

    /** One masked final text frame; the length must fit in eight bytes. */
    method SendText(data: seq<byte>) returns (r: Result<()>, ghost m: Mask)
      modifies this`sent
      ensures r == if |data| < TWO_64 then Ok(()) else Err(OutOfRange)
      ensures r.Ok? ==> sent == old(sent) + Encode(Frame(TEXT, Some(m), data))
      ensures r.Err? ==> sent == old(sent)
      ensures r.Ok? ==>
                var w := sent[|old(sent)|..];
                var h := if |data| < 126 then 2 else if |data| < 65536 then 4 else 10;
                |w| > 2 && w[0] == 0x81 && w[1] & 0x80 != 0 && Carries(w, data) && MaskedFrom(w, h, data)
    {
      hide Carries, MaskedFrom, MaskBytes, LengthField, Mask.Bytes;
      var mask := Urandom4();
      m := mask;
      if |data| >= TWO_64 {
        return Err(OutOfRange), m;
      }
      var hdr := TextHeader(|data|);
      hdr := hdr + mask.Bytes();
      SendAll(hdr + MaskBytes(mask, data));
      r := Ok(());
      ghost var f := Frame(TEXT, Some(mask), data);
      assert Encode(f) == [0x80 | TEXT] + LengthField(0x80, |data|) + (mask.Bytes() + MaskBytes(mask, data));
      TextOnWire(mask, data);
      assert sent[|old(sent)|..] == Encode(f);
    }

    /** The header of the next frame. */
    method RecvHead() returns (r: Result<Head>)
      modifies this`incoming
      ensures r.Ok? ==> ParseHead(old(incoming)) == Some((r.value, incoming))
      ensures r.Err? ==> r == Err(Closed) && ParseHead(old(incoming)) == None && incoming == []
    {
      var s := incoming;
      var two := ReadN(2);
      if two.Err? {
        return Err(Closed);
      }
      var b1, b2 := two.value[0], two.value[1];
      var op, masked, ln := b1 & 0x0F, b2 & 0x80 != 0, b2 & 0x7F;
      if ln == 126 {
        var ext := ReadN(2);
        if ext.Err? {
          return Err(Closed);
        }
        assert ext.value == s[2..4] && incoming == s[4..];
        return Ok(Head(op, masked, FromBytes(ext.value)));
      } else if ln == 127 {
        var ext := ReadN(8);
        if ext.Err? {
          return Err(Closed);
        }
        assert ext.value == s[2..10] && incoming == s[10..];
        return Ok(Head(op, masked, FromBytes(ext.value)));
      }
      return Ok(Head(op, masked, ln as nat));
    }

    /** The next whole frame, unmasked. */
    method RecvFrame() returns (r: Result<Frame>)
      modifies this`incoming
      ensures r.Ok? ==> Parse(old(incoming)) == Some((r.value, incoming))
      ensures r.Err? ==> r == Err(Closed) && Parse(old(incoming)) == None && incoming == []
    {
      var head := RecvHead();
      if head.Err? {
        return Err(Closed);
      }
      var h := head.value;
      var mask := None;
      if h.masked {
        var key := ReadN(4);
        if key.Err? {
          return Err(Closed);
        }
        mask := Some(Mask(key.value[0], key.value[1], key.value[2], key.value[3]));
      }
      var payload := ReadN(h.len);
      if payload.Err? {
        return Err(Closed);
      }
      return Ok(Frame(h.opcode, mask, if mask.Some? then MaskBytes(mask.value, payload.value) else payload.value));
    }

    /** Waits for a message, answering pings meanwhile; `pongs` are the answers as they went out. */
    method RecvText() returns (r: Result<seq<byte>>, ghost pongs: seq<seq<byte>>)
      modifies this
      ensures r == Receive(old(incoming)).result
      ensures incoming == Receive(old(incoming)).rest
      ensures Takes(old(incoming), Receive(old(incoming)))
      ensures sent == old(sent) + Flat(pongs) && PongsFor(pongs, Receive(old(incoming)).pings)
    {
      hide Parse, PongBytes, Receive, PongsFor, Takes, Flat;
      pongs := [];
      ghost var answered := [];
      ghost var o := Receive(incoming);
      ReceiveTakes(incoming);
      NoPongs();
      assert sent + [] == sent;
      while true
        invariant PongsFor(pongs, answered)
        invariant o.result == Receive(incoming).result && o.rest == Receive(incoming).rest
        invariant o.pings == answered + Receive(incoming).pings
        invariant sent == old(sent) + Flat(pongs)
        decreases |incoming|
      {
        ReceiveStep(incoming);
        assert answered + [] == answered;
        var frame := RecvFrame();
        if frame.Err? {
          return Err(Closed), pongs;
        }
        var payload := frame.value.payload;
        if frame.value.opcode == PING {
          if |payload| > 255 {
            return Err(OutOfRange), pongs;
          }
          var m := Urandom4();
          SendAll(PongBytes(m, payload));
          NextPong(pongs, answered, m, payload);
          pongs, answered := pongs + [PongBytes(m, payload)], answered + [payload];
          continue;
        }
        if frame.value.opcode == CLOSE {
          return Err(CloseFrame), pongs;
        }
        return Ok(payload), pongs;
      }
    }
  }
}
