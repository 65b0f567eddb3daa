/** The SMS-SUBMIT frame sms.c builds, and SMS-SUBMIT as 3GPP TS 23.040 reads it. */
module SmsSubmit {

  import opened Wrappers

  type Octet = x: nat | x < 0x100

  /** A UCS-2 code unit. */
  type Unit = x: nat | x < 0x1_0000

  // ----- Octets and hexadecimal digits -----

  function Low(o: Octet): Octet {
    o % 16
  }

  function High(o: Octet): Octet {
    o / 16
  }

  /** HEX_CHAR_MAP. */
  const HEX_CHAR_MAP: seq<char> := ['0', '1', '2', '3', '4', '5', '6', '7', '8', '9', 'A', 'B', 'C', 'D', 'E', 'F']

  function HexOf(s: seq<Octet>): (r: string)
    ensures |r| == 2 * |s|
  {
    if s == [] then [] else [HEX_CHAR_MAP[High(s[0])], HEX_CHAR_MAP[Low(s[0])]] + HexOf(s[1..])
  }

  /** The value of a hexadecimal digit, or 16. */
  function DigitValue(c: char): (v: nat)
    ensures v <= 16
  {
    if '0' <= c <= '9' then c as nat - '0' as nat
    else if 'A' <= c <= 'F' then c as nat - 'A' as nat + 10
    else 16
  }

  function FromHex(s: string): Option<seq<Octet>> {
    if s == [] then Some([])
    else if |s| == 1 || DigitValue(s[0]) == 16 || DigitValue(s[1]) == 16 then None
    else
      match FromHex(s[2..])
      case None => None
      case Some(rest) => Some([(16 * DigitValue(s[0]) + DigitValue(s[1])) as Octet] + rest)
  }

  lemma HexDigitsInvert(o: Octet)
    ensures DigitValue(HEX_CHAR_MAP[High(o)]) == High(o) && DigitValue(HEX_CHAR_MAP[Low(o)]) == Low(o)
    ensures 16 * High(o) as int + Low(o) == o && High(o) < 16 && Low(o) < 16
  {}

  /** Printing octets as hexadecimal loses nothing. */
  lemma {:induction false} HexRoundTrip(s: seq<Octet>)
    ensures FromHex(HexOf(s)) == Some(s)
  {
    if s != [] {
      HexRoundTrip(s[1..]);
      HexDigitsInvert(s[0]);
      hide DigitValue, High, Low;
      assert HexOf(s)[2..] == HexOf(s[1..]);
      assert [s[0]] + s[1..] == s;
    }
  }

  // ----- Addresses (section 9.1.2.3) -----

  predicate IsNumber(s: string) {
    forall i :: 0 <= i < |s| ==> '0' <= s[i] <= '9'
  }

  /** (c - '0') & 0x0f, which for a negative difference too is its remainder by 16. */
  function Nibble(c: char): (v: Octet)
    ensures v < 16 && ('0' <= c <= '9' ==> v == c as nat - '0' as nat)
  {
    (c as int - '0' as int) % 16
  }

  function PackedSize(n: nat): nat {
    (n + 1) / 2
  }

  /** Two digits an octet, the first in the low half; an odd last one below a filler of 1111. */
  function Packed(phone: string): (s: seq<Octet>)
    ensures |s| == PackedSize(|phone|)
  {
    seq(PackedSize(|phone|), k requires 0 <= k < PackedSize(|phone|) => PackedAt(phone, k))
  }

  function PackedAt(phone: string, k: nat): Octet
    requires 2 * k < |phone|
  {
    Nibble(phone[2 * k]) + 16 * (if 2 * k + 1 < |phone| then Nibble(phone[2 * k + 1]) else 15)
  }

  function SemiOctet(s: seq<Octet>, i: nat): Octet
    requires i < 2 * |s|
  {
    if i % 2 == 0 then Low(s[i / 2]) else High(s[i / 2])
  }

  function DigitChar(v: Octet): char {
    ('0' as nat + v) as char
  }

  /** The first n digits of an address value. */
  function Digits(s: seq<Octet>, n: nat): (r: string)
    requires n <= 2 * |s|
    ensures |r| == n
  {
    seq(n, i requires 0 <= i < n => DigitChar(SemiOctet(s, i)))
  }

  /** How many digits an address value of whole octets has: its last half may be filler. */
  function DigitCount(s: seq<Octet>): (n: nat)
    ensures n <= 2 * |s|
  {
    if s != [] && High(s[|s| - 1]) == 15 then 2 * |s| - 1 else 2 * |s|
  }

  lemma PackedDigits(phone: string, rest: seq<Octet>)
    requires IsNumber(phone)
    ensures Digits(Packed(phone) + rest, |phone|) == phone
  {
    forall i | 0 <= i < |phone|
      ensures DigitChar(SemiOctet(Packed(phone) + rest, i)) == phone[i]
    {
      DigitAt(phone, rest, i);
    }
    hide Packed, SemiOctet;
  }

  lemma DigitAt(phone: string, rest: seq<Octet>, i: nat)
    requires IsNumber(phone) && i < |phone|
    ensures DigitChar(SemiOctet(Packed(phone) + rest, i)) == phone[i]
  {
    var j := i / 2;
    assert (Packed(phone) + rest)[j] == PackedAt(phone, j);
    assert i == 2 * j || i == 2 * j + 1;
  }

  // ----- The frame -----

  const VALUE_SIZE := 7

  /** SMSC_Address_Value and TP_DA_Address_Value: zeros where the number does not reach. */
  function Value(phone: string): (s: seq<Octet>)
    requires |phone| <= 14
    ensures |s| == VALUE_SIZE
  {
    Packed(phone) + seq(VALUE_SIZE - PackedSize(|phone|), _ => 0)
  }

  /** UCS-2 text, high octet first. */
  function Text(content: seq<Unit>): (s: seq<Octet>)
    ensures |s| == 2 * |content|
  {
    seq(2 * |content|, i requires 0 <= i < 2 * |content| =>
      (if i % 2 == 0 then content[i / 2] / 0x100 else content[i / 2] % 0x100) as Octet)
  }

  const LIMIT := 70

  /** The part of a text of this length that goes into one message: its first 70 units, or
      all of it if it has no more. */
  function Clipped(content: seq<Unit>, length: nat): (r: seq<Unit>)
    requires length <= |content|
    ensures r <= content && |r| == if length < 70 then length else 70
  {
    if length > LIMIT then content[..LIMIT] else content[..length]
  }

  function Frame(smsc: string, dest: string, content: seq<Unit>): (s: seq<Octet>)
    requires |smsc| <= 14 && |dest| <= 14 && |content| <= LIMIT
    ensures |s| == 24 + 2 * |content|
  {
    [0x08, 0x91] + Value(smsc)
    + [0x11, 0x00, 0x0D, 0x91] + Value(dest) + [0x00, 0x08, 0xC2, (2 * |content|) as Octet] + Text(content)
  }

  // ----- Reading it back (section 9.2.2.2) -----

  datatype Address = Address(kind: Octet, digits: string)

  /** What an SMS-SUBMIT with the service centre's address before it says. */
  datatype Submit = Submit(
    centre: Address, reference: Octet, dest: Address, protocol: Octet, coding: Octet, validity: Option<Octet>,
    text: seq<Unit>)

  /** TP-MTI, the two lowest bits: 1 is SMS-SUBMIT. */
  function MessageType(first: Octet): Octet {
    first % 4
  }

  /** TP-VPF, bits 4 and 3: 0 is no validity period, 2 the relative one of one octet. */
  function ValidityFormat(first: Octet): Octet {
    first / 8 % 4
  }

  function UnitOf(high: Octet, low: Octet): Unit {
    high as int * 0x100 + low
  }

  function Units(s: seq<Octet>): seq<Unit>
    requires |s| % 2 == 0
  {
    seq(|s| / 2, i requires 0 <= i < |s| / 2 => UnitOf(s[2 * i], s[2 * i + 1]))
  }

  const UCS2 := 0x08

  /** The message, if these octets hold exactly one with a UCS-2 text, without user data
      header or with the validity period in one of the long formats. */
  function Decode(s: seq<Octet>): Option<Submit> {
    if |s| < 2 then None
    else
      var end: int := s[0] as int + 1;
      if end < 2 || |s| < end then None
      else
        var value := s[2..end];
        DecodeTpdu(Address(s[1], Digits(value, DigitCount(value))), s[end..])
  }

  function DecodeTpdu(centre: Address, t: seq<Octet>): Option<Submit> {
    if |t| < 4 || MessageType(t[0]) != 1 || t[0] / 64 % 2 == 1 || ValidityFormat(t[0]) % 2 == 1 then None
    else
      var size := PackedSize(t[2]);
      if |t| < 4 + size then None
      else
        var dest := Address(t[3], Digits(t[4..4 + size], t[2]));
        DecodeText(centre, t[1], dest, ValidityFormat(t[0]) == 2, t[4 + size..])
  }

  function DecodeText(centre: Address, reference: Octet, dest: Address, validity: bool, u: seq<Octet>): Option<Submit> {
    var v := if validity then 1 else 0;
    if |u| < 3 + v || u[1] != UCS2 || u[2 + v] % 2 == 1 || |u| != 3 + v + u[2 + v] as int then None
    else
      Some(Submit(centre, reference, dest, u[0], u[1], if validity then Some(u[2]) else None, Units(u[3 + v..])))
  }

  lemma TextAt(content: seq<Unit>, i: nat)
    requires i < |content|
    ensures Text(content)[2 * i] == content[i] / 0x100 && Text(content)[2 * i + 1] == content[i] % 0x100
  {
    assert 2 * i / 2 == i && (2 * i + 1) / 2 == i;
  }

  lemma TextRoundTrip(content: seq<Unit>)
    ensures Units(Text(content)) == content
  {
    hide Text;
    forall i | 0 <= i < |content|
      ensures Units(Text(content))[i] == content[i]
    {
      TextAt(content, i);
    }
  }

  lemma TextAppend(content: seq<Unit>, c: Unit)
    ensures Text(content + [c]) == Text(content) + [c / 0x100, c % 0x100]
  {
    TextAt(content + [c], |content|);
    var s := Text(content + [c]);
    assert forall i :: 0 <= i < 2 * |content| ==> s[i] == Text(content)[i];
  }

  function Expected(smsc: string, dest: string, content: seq<Unit>): Submit {
    Submit(Address(0x91, smsc), 0x00, Address(0x91, dest), 0x00, UCS2, Some(0xC2), content)
  }

  /** The relative validity period in minutes (section 9.2.3.12.1). */
  function ValidityMinutes(v: Octet): nat {
    if v < 144 then (v as nat + 1) * 5
    else if v < 168 then 720 + (v as nat - 143) * 30
    else if v < 197 then (v as nat - 166) * 1440
    else (v as nat - 192) * 10080
  }

  /** The octet the frame carries stands for 28 days; only 0 stands for five minutes. */
  lemma ValidityIsFourWeeks(v: Octet)
    ensures ValidityMinutes(0xC2) == 28 * 1440
    ensures ValidityMinutes(v) == 5 <==> v == 0
  {}

  lemma CentreDigits(smsc: string)
    requires IsNumber(smsc) && |smsc| <= 14
    ensures Digits(Value(smsc), DigitCount(Value(smsc))) == smsc <==> 13 <= |smsc|
  {
    var v := Value(smsc);
    if |smsc| >= 13 {
      assert v == Packed(smsc) + [];
      PackedDigits(smsc, []);
      assert DigitCount(v) == |smsc|;
    } else {
      assert v[6] == 0;
    }
  }

  lemma DestDigits(dest: string)
    requires IsNumber(dest) && |dest| <= 14
    ensures Digits(Value(dest), 13) == dest <==> |dest| == 13
  {
    if |dest| == 13 {
      PackedDigits(dest, []);
      assert Value(dest) == Packed(dest) + [];
    }
  }

  /** A number of 11 digits is announced as 13, and reads back with the filler and a zero. */
  lemma ElevenDigitsReadAsThirteen(dest: string)
    requires IsNumber(dest) && |dest| == 11
    ensures Digits(Value(dest), 13) == dest + "?0"
  {
    PackedDigits(dest, [0]);
    var v := Packed(dest) + [0];
    assert Value(dest) == v;
    assert Digits(v, 13)[..11] == Digits(v, 11);
    assert SemiOctet(v, 11) == 15 && SemiOctet(v, 12) == 0;
  }

  /** What the frame decodes to, whatever the numbers. */
  lemma FrameDecodes(smsc: string, dest: string, content: seq<Unit>)
    requires |smsc| <= 14 && |dest| <= 14 && |content| <= LIMIT
    ensures Decode(Frame(smsc, dest, content))
         == Some(Expected(Digits(Value(smsc), DigitCount(Value(smsc))), Digits(Value(dest), 13), content))
  {
    hide Value, Text, Units, Digits, DigitCount;
    var s := Frame(smsc, dest, content);
    var u := [0x00, 0x08, 0xC2, (2 * |content|) as Octet] + Text(content);
    var t := [0x11, 0x00, 0x0D, 0x91] + Value(dest) + u;
    assert s == [0x08, 0x91] + Value(smsc) + t;
    assert s[2..9] == Value(smsc) && s[9..] == t;
    assert t[4..11] == Value(dest) && t[11..] == u;
    assert u[4..] == Text(content);
    TextRoundTrip(content);
  }

  /** Read as an SMS-SUBMIT, the printed frame gives back both numbers and the text, if and
      only if the numbers have the 13 digits the fixed lengths announce; the service centre's
      may have 14. */
  lemma PduRoundTrip(smsc: string, dest: string, content: seq<Unit>)
    requires IsNumber(smsc) && IsNumber(dest) && |smsc| <= 14 && |dest| <= 14 && |content| <= LIMIT
    ensures FromHex(HexOf(Frame(smsc, dest, content))).Some?
    ensures Decode(FromHex(HexOf(Frame(smsc, dest, content))).value) == Some(Expected(smsc, dest, content))
       <==> 13 <= |smsc| && |dest| == 13
  {
    HexRoundTrip(Frame(smsc, dest, content));
    FrameDecodes(smsc, dest, content);
    CentreDigits(smsc);
    DestDigits(dest);
  }

  /** AT+CMGS (3GPP TS 27.005 section 4.3) wants the octets after the service centre's
      address, whose first octet counts the rest of that address. */
  function CmgsLength(frame: seq<Octet>): int
    requires frame != []
  {
    |frame| - (1 + frame[0] as int)
  }

  /** That many octets at the end of the frame are the message without the centre's address:
      alone they decode to all of it, and the octets before them to the address. */
  lemma CmgsCountsTheMessage(smsc: string, dest: string, content: seq<Unit>, centre: Address)
    requires |smsc| <= 14 && |dest| <= 14 && |content| <= LIMIT
    ensures var s := Frame(smsc, dest, content);
            var n := CmgsLength(s);
            && n == 15 + 2 * |content|
            && s[..|s| - n] == [0x08, 0x91] + Value(smsc)
            && DecodeTpdu(centre, s[|s| - n..])
               == Some(Expected("", Digits(Value(dest), 13), content).(centre := centre))
  {
    hide Value, Text, Units, Digits;
    var s := Frame(smsc, dest, content);
    var u := [0x00, 0x08, 0xC2, (2 * |content|) as Octet] + Text(content);
    var t := [0x11, 0x00, 0x0D, 0x91] + Value(dest) + u;
    assert s == [0x08, 0x91] + Value(smsc) + t;
    assert s[9..] == t && s[..9] == [0x08, 0x91] + Value(smsc);
    assert t[4..11] == Value(dest) && t[11..] == u;
    assert u[4..] == Text(content);
    TextRoundTrip(content);
  }
}

/** The builder, as loops over the frame and the string buffer. */
module SmsBuilder {

  import opened SmsSubmit

  /** sizeof(SMS_SEND_PDU_FRAME): the frame has room for 420 octets of text. */
  const FRAME_SIZE := 444

  function Pair(a: char, b: char): Octet {
    Nibble(a) + 16 * Nibble(b)
  }

  function Pairs(buf: string): (s: seq<Octet>)
    ensures |s| == |buf| / 2
  {
    seq(|buf| / 2, j requires 0 <= j < |buf| / 2 => Pair(buf[2 * j], buf[2 * j + 1]))
  }

  /** The loop of sms_pdu_phone_address_init over pairs of digits. */
  method PackPairs(octet: array<Octet>, at: nat, buf: string)
    requires |buf| % 2 == 0 && at + |buf| / 2 <= octet.Length
    modifies octet
    ensures octet[..at] == old(octet[..at]) && octet[at + |buf| / 2..] == old(octet[at + |buf| / 2..])
    ensures octet[at..at + |buf| / 2] == Pairs(buf)
  {
    hide Nibble;
    var temp := |buf| / 2;
    var k := 0;
    while k < temp
      invariant k <= temp
      invariant octet[..at] == old(octet[..at])
      invariant octet[at + temp..] == old(octet[at + temp..])
      invariant forall j :: 0 <= j < k ==> octet[at + j] == Pair(buf[2 * j], buf[2 * j + 1])
    {
      octet[at + k] := Nibble(buf[2 * k]);
      octet[at + k] := octet[at + k] + 16 * Nibble(buf[2 * k + 1]);
      k := k + 1;
    }
  }

  /** sms_pdu_phone_address_init; stale is what lies behind the number in the local copy. */
  method PackAddress(octet: array<Octet>, at: nat, phone: string, stale: char)
    requires |phone| < 20 && at + PackedSize(|phone|) <= octet.Length
    modifies octet
    ensures octet[..] == old(octet[..at]) + Packed(phone) + old(octet[at + PackedSize(|phone|)..])
  {
    hide Packed, Pairs;
    var length := |phone|;
    var temp := PackedSize(length);
    if length % 2 == 1 {
      PackPairs(octet, at, phone + [stale]);
      FillerReplaces(phone, stale);
      ghost var pairs, behind := octet[at..at + temp], octet[at + temp..];
      octet[at + temp - 1] := octet[at + temp - 1] % 16 + 0xF0;
      assert octet[at..at + temp] == pairs[temp - 1 := pairs[temp - 1] % 16 + 0xF0];
      assert octet[at + temp..] == behind;
    } else {
      PackPairs(octet, at, phone);
      PairsArePacked(phone);
    }
    assert octet[..] == octet[..at] + octet[at..at + temp] + octet[at + temp..];
  }

  lemma PairsArePacked(phone: string)
    requires |phone| % 2 == 0
    ensures Pairs(phone) == Packed(phone)
  {}

  /** Whatever lies behind an odd number, the filler takes its place. */
  lemma FillerReplaces(phone: string, stale: char)
    requires |phone| % 2 == 1
    ensures var s, n := Pairs(phone + [stale]), PackedSize(|phone|);
            |s| == n && s[n - 1 := s[n - 1] % 16 + 0xF0] == Packed(phone)
  {
    var buf, n := phone + [stale], PackedSize(|phone|);
    assert buf[2 * (n - 1)] == phone[2 * (n - 1)];
    forall j | 0 <= j < n - 1
      ensures Pairs(buf)[j] == Packed(phone)[j]
    {
      assert buf[2 * j] == phone[2 * j] && buf[2 * j + 1] == phone[2 * j + 1];
    }
  }

  /** An address value of seven octets, zero before. */
  method PackValue(octet: array<Octet>, at: nat, phone: string, stale: char)
    requires |phone| <= 14 && at + VALUE_SIZE <= octet.Length
    requires octet[at..at + VALUE_SIZE] == seq(VALUE_SIZE, _ => 0)
    modifies octet
    ensures octet[..] == old(octet[..at]) + Value(phone) + old(octet[at + VALUE_SIZE..])
  {
    ghost var size := PackedSize(|phone|);
    ghost var zeros := seq(VALUE_SIZE - size, _ => 0 as Octet);
    assert octet[at + size..] == octet[at..at + VALUE_SIZE][size..] + octet[at + VALUE_SIZE..];
    assert octet[at..at + VALUE_SIZE][size..] == zeros;
    PackAddress(octet, at, phone, stale);
    assert Value(phone) == Packed(phone) + zeros;
  }

  method InitCentre(frame: array<Octet>, smsc: string, stale: char)
    requires frame.Length == FRAME_SIZE && |smsc| <= 14 && frame[..] == seq(FRAME_SIZE, _ => 0)
    modifies frame
    ensures frame[..9] == [0x08, 0x91] + Value(smsc) && frame[9..] == seq(FRAME_SIZE - 9, _ => 0)
  {
    hide Value;
    frame[0] := 0x08;
    frame[1] := 0x91;
    assert frame[2..] == seq(FRAME_SIZE - 2, _ => 0);
    PackValue(frame, 2, smsc, stale);
    assert frame[..2] == [0x08, 0x91];
  }

  method InitTpdu(frame: array<Octet>, dest: string, udl: Octet, stale: char)
    requires frame.Length == FRAME_SIZE && |dest| <= 14 && frame[9..] == seq(FRAME_SIZE - 9, _ => 0)
    modifies frame
    ensures frame[..9] == old(frame[..9])
    ensures frame[9..24] == [0x11, 0x00, 0x0D, 0x91] + Value(dest) + [0x00, 0x08, 0xC2, udl]
  {
    hide Value;
    frame[9] := 0x11;
    frame[10] := 0x00;
    frame[11] := 0x0D;
    frame[12] := 0x91;
    ghost var first := frame[..13];
    assert frame[13..20] == frame[9..][4..11] == seq(VALUE_SIZE, _ => 0);
    PackValue(frame, 13, dest, stale);
    assert frame[..13] == first && frame[13..20] == Value(dest);
    frame[20] := 0x00;
    frame[21] := 0x08;
    frame[22] := 0xC2;
    frame[23] := udl;
    assert frame[9..24] == first[9..] + frame[13..20] + frame[20..24];
  }

  /** sms_pdu_head_init on a zeroed frame. */
  method InitHead(frame: array<Octet>, smsc: string, dest: string, udl: Octet, stale: char)
    requires frame.Length == FRAME_SIZE && |smsc| <= 14 && |dest| <= 14
    requires frame[..] == seq(FRAME_SIZE, _ => 0)
    modifies frame
    ensures frame[..24]
         == [0x08, 0x91] + Value(smsc) + [0x11, 0x00, 0x0D, 0x91] + Value(dest) + [0x00, 0x08, 0xC2, udl]
  {
    InitCentre(frame, smsc, stale);
    InitTpdu(frame, dest, udl, stale);
    assert frame[..24] == frame[..9] + frame[9..24];
  }

  /** hex_to_string. */
  method HexToString(s: array<char>, hex: array<Octet>, length: nat)
    requires length <= hex.Length && 2 * length <= s.Length
    modifies s
    ensures s[..2 * length] == HexOf(hex[..length])
    ensures s[2 * length..] == old(s[2 * length..])
  {
    var k := 0;
    while k < length
      invariant k <= length
      invariant s[..2 * k] == HexOf(hex[..k])
      invariant s[2 * length..] == old(s[2 * length..])
    {
      ghost var done := s[..2 * k];
      s[2 * k] := HEX_CHAR_MAP[High(hex[k])];
      s[2 * k + 1] := HEX_CHAR_MAP[Low(hex[k])];
      HexOfLast(hex[..k], hex[k]);
      assert hex[..k + 1] == hex[..k] + [hex[k]];
      assert s[..2 * k + 2] == done + [s[2 * k], s[2 * k + 1]];
      k := k + 1;
    }
  }

  lemma {:induction false} HexOfLast(s: seq<Octet>, o: Octet)
    ensures HexOf(s + [o]) == HexOf(s) + [HEX_CHAR_MAP[High(o)], HEX_CHAR_MAP[Low(o)]]
  {
    if s != [] {
      HexOfLast(s[1..], o);
      assert (s + [o])[1..] == s[1..] + [o];
    }
  }

  /** The loop of sms_pdu_ucs_send over the text. */
  method FillText(frame: array<Octet>, content: seq<Unit>)
    requires frame.Length == FRAME_SIZE && |content| <= LIMIT
    modifies frame
    ensures frame[..24] == old(frame[..24]) && frame[24..24 + 2 * |content|] == Text(content)
  {
    hide Text;
    var k := 0;
    while k < |content|
      invariant k <= |content|
      invariant frame[..24] == old(frame[..24])
      invariant frame[24..24 + 2 * k] == Text(content[..k])
    {
      ghost var done := frame[24..24 + 2 * k];
      TextAppend(content[..k], content[k]);
      assert content[..k + 1] == content[..k] + [content[k]];
      frame[24 + 2 * k] := content[k] / 0x100;
      frame[24 + 2 * k + 1] := content[k] % 0x100;
      assert frame[24..24 + 2 * k + 2] == done + [content[k] / 0x100, content[k] % 0x100];
      k := k + 1;
    }
    assert content[..|content|] == content;
  }

  /** The part of sms_pdu_ucs_send that builds the string and the AT+CMGS length. */
  method Build(smsc: string, dest: string, content: seq<Unit>, length: nat, stale: char)
    returns (pdu: array<char>, size: nat, cmgs: nat)
    requires |smsc| <= 14 && |dest| <= 14 && length < 0x100 && length <= |content|
    ensures fresh(pdu) && 2 * size <= pdu.Length
    ensures pdu[..2 * size] == HexOf(Frame(smsc, dest, Clipped(content, length)))
    ensures forall i :: 2 * size <= i < pdu.Length ==> pdu[i] == '\0'
    ensures cmgs == CmgsLength(Frame(smsc, dest, Clipped(content, length)))
  {
    var n := length;
    if n > LIMIT {
      n := LIMIT;
    }
    var frame := new Octet[FRAME_SIZE](_ => 0);
    pdu := new char[512](_ => '\0');
    InitHead(frame, smsc, dest, 2 * n, stale);
    ghost var head := frame[..24];
    size := frame[23] + 9 + 15;
    FillText(frame, content[..n]);
    assert frame[..size] == frame[..24] + frame[24..size];
    assert content[..n] == Clipped(content, length);
    assert frame[..size] == Frame(smsc, dest, content[..n]);
    HexToString(pdu, frame, size);
    cmgs := frame[23] + 15;
  }
}
