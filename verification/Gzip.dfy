/** `decompress_gzip`: skipping the member header of section 2.3 of RFC 1952. */
module Gzip {
  import opened Prelude
  import opened SettlementTypes

  const MAX_DECOMPRESSED_SIZE := 10 * 1024 * 1024
  const TRAILER := 8

  datatype Flag = FHCRC | FEXTRA | FNAME | FCOMMENT

  type Inflate = bytes -> Option<bytes>

  /** Bits 1 to 4 of FLG. */
  predicate HasFlag(flags: u8, flag: Flag) {
    match flag
    case FHCRC => flags / 0x02 % 2 == 1
    case FEXTRA => flags / 0x04 % 2 == 1
    case FNAME => flags / 0x08 % 2 == 1
    case FCOMMENT => flags / 0x10 % 2 == 1
  }

  function Bit(b: bool): nat { if b then 1 else 0 }

  /** Together with FTEXT and the three reserved bits, the four flags are what the byte says. */
  lemma FlagBits(flags: u8)
    ensures flags == flags % 2 + 2 * Bit(HasFlag(flags, FHCRC)) + 4 * Bit(HasFlag(flags, FEXTRA))
                     + 8 * Bit(HasFlag(flags, FNAME)) + 16 * Bit(HasFlag(flags, FCOMMENT)) + 32 * (flags / 32)
  {
    var q1 := flags / 2;
    var q2 := q1 / 2;
    var q3 := q2 / 2;
    var q4 := q3 / 2;
    assert flags / 4 == q2;
    assert flags / 8 == q3;
    assert flags / 16 == q4;
    assert flags / 32 == q4 / 2;
  }

  function LittleEndian16(lo: int, hi: int): int { lo + 0x100 * hi }

  // The specification: members as RFC 1952 lays them out ------------------------------------

  datatype Member = Member(
    flags: u8,
    fixed: bytes,              // MTIME, XFL, OS
    extra: Option<bytes>,
    name: Option<bytes>,
    comment: Option<bytes>,
    headerCrc: Option<bytes>,
    payload: bytes,
    trailer: bytes)            // CRC32, ISIZE

  predicate NonZero(s: bytes) { forall i :: 0 <= i < |s| ==> s[i] != 0 }

  /** The optional fields are those the flags announce, and each fits its encoding. */
  predicate HeaderFits(m: Member) {
    && |m.fixed| == 6
    && m.extra.Some? == HasFlag(m.flags, FEXTRA)
    && m.name.Some? == HasFlag(m.flags, FNAME)
    && m.comment.Some? == HasFlag(m.flags, FCOMMENT)
    && m.headerCrc.Some? == HasFlag(m.flags, FHCRC)
    && (m.extra.Some? ==> |m.extra.value| < 0x1_0000)
    && (m.name.Some? ==> NonZero(m.name.value))
    && (m.comment.Some? ==> NonZero(m.comment.value))
    && (m.headerCrc.Some? ==> |m.headerCrc.value| == 2)
  }

  /** A member up to the reserved bits of FLG, which the source does not look at. */
  predicate Laid(m: Member) { HeaderFits(m) && |m.trailer| == 8 }

  /** A member as section 2.3.1.2 of RFC 1952 wants it: reserved bits zero. */
  predicate WellFormed(m: Member) { Laid(m) && m.flags < 0x20 }

  function ExtraField(extra: Option<bytes>): bytes
    requires extra.Some? ==> |extra.value| < 0x1_0000
  {
    if extra.None? then [] else [|extra.value| % 0x100, |extra.value| / 0x100] + extra.value
  }

  function ZeroTerminated(text: Option<bytes>): bytes { if text.None? then [] else text.value + [0] }

  function HeaderCrc(crc: Option<bytes>): bytes { if crc.None? then [] else crc.value }

  // The member from each of its fields on.

  function FromPayload(m: Member): bytes { m.payload + m.trailer }

  function FromCrc(m: Member): bytes { HeaderCrc(m.headerCrc) + FromPayload(m) }

  function FromComment(m: Member): bytes { ZeroTerminated(m.comment) + FromCrc(m) }

  function FromName(m: Member): bytes { ZeroTerminated(m.name) + FromComment(m) }

  function FromExtra(m: Member): bytes
    requires HeaderFits(m)
  {
    ExtraField(m.extra) + FromName(m)
  }

  function Layout(m: Member): bytes
    requires HeaderFits(m)
  {
    [0x1f, 0x8b, 8, m.flags] + m.fixed + FromExtra(m)
  }

  // The walk --------------------------------------------------------------------------------

  function AfterExtra(gz: bytes): nat
    requires |gz| >= 18
  {
    if HasFlag(gz[3], FEXTRA) then 12 + LittleEndian16(gz[10], gz[11]) else 10
  }

  function AfterZero(gz: bytes, offset: nat): (r: nat)
    ensures r > offset && (r <= |gz| ==> gz[r - 1] == 0)
    ensures forall i :: offset <= i < r - 1 && i < |gz| ==> gz[i] != 0
    decreases |gz| - offset
  {
    if offset < |gz| && gz[offset] != 0 then AfterZero(gz, offset + 1) else offset + 1
  }

  function AfterText(gz: bytes, offset: nat, flag: Flag): nat
    requires |gz| >= 18
  {
    if HasFlag(gz[3], flag) then AfterZero(gz, offset) else offset
  }

  function PayloadStart(gz: bytes): nat
    requires |gz| >= 18
  {
    AfterText(gz, AfterText(gz, AfterExtra(gz), FNAME), FCOMMENT) + if HasFlag(gz[3], FHCRC) then 2 else 0
  }

  /** The slice handed to inflate, or why there is none. */
  function Payload(gz: bytes): Result<bytes, ParseError> {
    if |gz| < 18 || gz[0] != 0x1f || gz[1] != 0x8b then Err(InvalidGzip)
    else if gz[2] != 8 then Err(UnsupportedCompression)
    else
      var start := PayloadStart(gz);
      if start >= |gz| then Err(InvalidGzipData)
      else if start > |gz| - TRAILER then Err(SliceOutOfRange)
      else Ok(gz[start..|gz| - TRAILER])
  }

  function Inflated(inflate: Inflate, payload: bytes): Result<bytes, ParseError> {
    match inflate(payload)
    case None => Err(DecompressionFailed)
    case Some(data) => if |data| > MAX_DECOMPRESSED_SIZE then Err(DecompressedTooLarge) else Ok(data)
  }

  function Decompressed(gz: bytes, inflate: Inflate): Result<bytes, ParseError> {
    match Payload(gz)
    case Err(e) => Err(e)
    case Ok(payload) => Inflated(inflate, payload)
  }

  method DecompressGzip(gz: bytes, inflate: Inflate) returns (r: Result<bytes, ParseError>)
    ensures r == Decompressed(gz, inflate)
  {
    if |gz| < 18 || gz[0] != 0x1f || gz[1] != 0x8b { return Err(InvalidGzip); }
    if gz[2] != 8 { return Err(UnsupportedCompression); }
    var offset := SkipHeader(gz);
    if offset >= |gz| { return Err(InvalidGzipData); }
    var end := |gz| - TRAILER;
    if offset > end { return Err(SliceOutOfRange); }
    match inflate(gz[offset..end])
    case None => return Err(DecompressionFailed);
    case Some(data) =>
      if |data| > MAX_DECOMPRESSED_SIZE { return Err(DecompressedTooLarge); }
      return Ok(data);
  }

  method SkipHeader(gz: bytes) returns (offset: nat)
    requires |gz| >= 18
    ensures offset == PayloadStart(gz)
  {
    var flags := gz[3];
    offset := 10;
    if HasFlag(flags, FEXTRA) {
      // The source's check `offset + 2 > len` cannot fail here: the length is at least 18.
      offset := offset + 2 + LittleEndian16(gz[offset], gz[offset + 1]);
    }
    if HasFlag(flags, FNAME) { offset := SkipText(gz, offset); }
    if HasFlag(flags, FCOMMENT) { offset := SkipText(gz, offset); }
    if HasFlag(flags, FHCRC) { offset := offset + 2; }
  }

  /** The loop that the source runs once for FNAME and once for FCOMMENT. */
  method SkipText(gz: bytes, start: nat) returns (offset: nat)
    ensures offset == AfterZero(gz, start)
  {
    offset := start;
    while offset < |gz| && gz[offset] != 0
      invariant start <= offset && AfterZero(gz, offset) == AfterZero(gz, start)
    {
      offset := offset + 1;
    }
    offset := offset + 1;
  }

  // Walking inverts building ----------------------------------------------------------------

  lemma AfterZeroIs(gz: bytes, offset: nat, r: nat)
    requires offset < r <= |gz| && gz[r - 1] == 0
    requires forall i :: offset <= i < r - 1 ==> gz[i] != 0
    ensures AfterZero(gz, offset) == r
  {}

  /** Cutting off one field, and putting it back. */
  lemma Peel(gz: bytes, offset: nat, field: bytes, rest: bytes)
    requires offset <= |gz| && gz[offset..] == field + rest
    ensures var end := offset + |field|;
      end <= |gz| && gz[offset..end] == field && gz[end..] == rest
  {
    assert gz[offset..][..|field|] == field && gz[offset..][|field|..] == rest;
  }

  lemma Glue(gz: bytes, offset: nat, end: nat, rest: bytes)
    requires offset <= end <= |gz| && gz[end..] == rest
    ensures gz[offset..] == gz[offset..end] + rest
  {}

  lemma ExtraSkipped(m: Member)
    requires HeaderFits(m) && |Layout(m)| >= 18
    ensures var gz := Layout(m);
      && gz[0] == 0x1f && gz[1] == 0x8b && gz[2] == 8 && gz[3] == m.flags
      && AfterExtra(gz) <= |gz| && gz[AfterExtra(gz)..] == FromName(m)
  {
    var gz := Layout(m);
    assert gz[10..] == FromExtra(m);
    Peel(gz, 10, ExtraField(m.extra), FromName(m));
    if m.extra.Some? {
      var field := ExtraField(m.extra);
      assert gz[10] == gz[10..10 + |field|][0] == field[0] && gz[11] == gz[10..10 + |field|][1] == field[1];
    }
  }

  /** One optional text field is skipped whole. */
  lemma TextSkipped(gz: bytes, offset: nat, text: Option<bytes>, flag: Flag, rest: bytes)
    requires |gz| >= 18 && offset <= |gz| && gz[offset..] == ZeroTerminated(text) + rest
    requires text.Some? == HasFlag(gz[3], flag) && (text.Some? ==> NonZero(text.value))
    ensures AfterText(gz, offset, flag) <= |gz| && gz[AfterText(gz, offset, flag)..] == rest
  {
    var field := ZeroTerminated(text);
    Peel(gz, offset, field, rest);
    if text.Some? {
      var end := offset + |field|;
      assert forall i :: offset <= i < end ==> gz[i] == gz[offset..end][i - offset];
      AfterZeroIs(gz, offset, end);
    }
  }

  lemma TextsSkipped(gz: bytes, m: Member)
    requires HeaderFits(m) && |gz| >= 18 && gz[3] == m.flags
    requires AfterExtra(gz) <= |gz| && gz[AfterExtra(gz)..] == FromName(m)
    ensures var o3 := AfterText(gz, AfterText(gz, AfterExtra(gz), FNAME), FCOMMENT);
      o3 <= |gz| && gz[o3..] == FromCrc(m)
  {
    TextSkipped(gz, AfterExtra(gz), m.name, FNAME, FromComment(m));
    TextSkipped(gz, AfterText(gz, AfterExtra(gz), FNAME), m.comment, FCOMMENT, FromCrc(m));
  }

  lemma CrcSkipped(gz: bytes, m: Member)
    requires HeaderFits(m) && |gz| >= 18 && gz[3] == m.flags
    requires var o3 := AfterText(gz, AfterText(gz, AfterExtra(gz), FNAME), FCOMMENT); o3 <= |gz| && gz[o3..] == FromCrc(m)
    ensures PayloadStart(gz) <= |gz| && gz[PayloadStart(gz)..] == FromPayload(m)
  {
    Peel(gz, AfterText(gz, AfterText(gz, AfterExtra(gz), FNAME), FCOMMENT), HeaderCrc(m.headerCrc), FromPayload(m));
  }

  /** The walk stops where the payload begins, whatever follows the header. */
  lemma HeaderWalked(m: Member)
    requires HeaderFits(m) && |Layout(m)| >= 18
    ensures var gz := Layout(m);
      && gz[0] == 0x1f && gz[1] == 0x8b && gz[2] == 8 && gz[3] == m.flags
      && PayloadStart(gz) <= |gz| && gz[PayloadStart(gz)..] == FromPayload(m)
  {
    ExtraSkipped(m);
    TextsSkipped(Layout(m), m);
    CrcSkipped(Layout(m), m);
  }

  /** Every member is walked to exactly its payload. */
  lemma WalkInvertsLayout(m: Member)
    requires Laid(m)
    ensures Payload(Layout(m)) == Ok(m.payload)
  {
    var gz := Layout(m);
    assert |FromExtra(m)| >= |FromName(m)| >= |FromComment(m)| >= |FromCrc(m)| >= |FromPayload(m)| >= TRAILER;
    HeaderWalked(m);
    Peel(gz, PayloadStart(gz), m.payload, m.trailer);
  }

  predicate HasMagic(gz: bytes) { |gz| >= 18 && gz[0] == 0x1f && gz[1] == 0x8b && gz[2] == 8 }

  /** The header that a byte string spells out; all that follows it is taken for payload. */
  function UnpackHeader(gz: bytes): Member
    requires |gz| >= 18 && PayloadStart(gz) <= |gz|
  {
    var o1 := AfterExtra(gz);
    var o2 := AfterText(gz, o1, FNAME);
    var o3 := AfterText(gz, o2, FCOMMENT);
    var o4 := PayloadStart(gz);
    Member(gz[3], gz[4..10], ExtraAt(gz), TextAt(gz, o1, FNAME), TextAt(gz, o2, FCOMMENT),
           if HasFlag(gz[3], FHCRC) then Some(gz[o3..o4]) else None, gz[o4..], [])
  }

  /** The member that a walked byte string spells out. */
  function Unpack(gz: bytes): Member
    requires Payload(gz).Ok?
  {
    UnpackHeader(gz).(payload := gz[PayloadStart(gz)..|gz| - TRAILER], trailer := gz[|gz| - TRAILER..])
  }

  function ExtraAt(gz: bytes): Option<bytes>
    requires |gz| >= 18 && AfterExtra(gz) <= |gz|
  {
    if HasFlag(gz[3], FEXTRA) then Some(gz[12..AfterExtra(gz)]) else None
  }

  function TextAt(gz: bytes, offset: nat, flag: Flag): Option<bytes>
    requires |gz| >= 18 && AfterText(gz, offset, flag) <= |gz|
  {
    if HasFlag(gz[3], flag) then Some(gz[offset..AfterText(gz, offset, flag) - 1]) else None
  }

  lemma ExtraSpelled(gz: bytes)
    requires |gz| >= 18 && AfterExtra(gz) <= |gz|
    ensures var extra := ExtraAt(gz);
      (extra.Some? ==> |extra.value| < 0x1_0000) && ExtraField(extra) == gz[10..AfterExtra(gz)]
  {
    var lo, hi := gz[10], gz[11];
    assert LittleEndian16(lo, hi) % 0x100 == lo && LittleEndian16(lo, hi) / 0x100 == hi;
  }

  lemma TextSpelled(gz: bytes, offset: nat, flag: Flag)
    requires |gz| >= 18 && AfterText(gz, offset, flag) <= |gz|
    ensures var text := TextAt(gz, offset, flag);
      (text.Some? ==> NonZero(text.value)) && ZeroTerminated(text) == gz[offset..AfterText(gz, offset, flag)]
  {
    if HasFlag(gz[3], flag) {
      var end := AfterText(gz, offset, flag);
      assert gz[offset..end] == gz[offset..end - 1] + [gz[end - 1]];
    }
  }

  lemma UnpackedFits(gz: bytes)
    requires |gz| >= 18 && PayloadStart(gz) <= |gz|
    ensures var m := UnpackHeader(gz);
      var o1 := AfterExtra(gz);
      var o2 := AfterText(gz, o1, FNAME);
      && HeaderFits(m)
      && ExtraField(m.extra) == gz[10..o1] && ZeroTerminated(m.name) == gz[o1..o2]
      && ZeroTerminated(m.comment) == gz[o2..AfterText(gz, o2, FCOMMENT)]
  {
    ExtraSpelled(gz);
    TextSpelled(gz, AfterExtra(gz), FNAME);
    TextSpelled(gz, AfterText(gz, AfterExtra(gz), FNAME), FCOMMENT);
  }

  /** A header that ends in the byte string is spelled out by it. */
  lemma HeaderSpelled(gz: bytes)
    requires HasMagic(gz) && PayloadStart(gz) <= |gz|
    ensures HeaderFits(UnpackHeader(gz)) && Layout(UnpackHeader(gz)) == gz
  {
    var m := UnpackHeader(gz);
    var o1 := AfterExtra(gz);
    var o2 := AfterText(gz, o1, FNAME);
    var o3 := AfterText(gz, o2, FCOMMENT);
    UnpackedFits(gz);
    assert FromPayload(m) == gz[PayloadStart(gz)..];
    Glue(gz, o3, PayloadStart(gz), FromPayload(m));
    Glue(gz, o2, o3, FromCrc(m));
    Glue(gz, o1, o2, FromComment(m));
    Glue(gz, 10, o1, FromName(m));
    Prefixed(gz, FromExtra(m));
  }

  lemma Prefixed(gz: bytes, rest: bytes)
    requires HasMagic(gz) && gz[10..] == rest
    ensures [0x1f, 0x8b, 8, gz[3]] + gz[4..10] + rest == gz
  {}

  /** Only where payload and trailer divide, a layout does not show. */
  lemma LayoutOfRest(m: Member, m': Member)
    requires HeaderFits(m) && m' == m.(payload := m'.payload, trailer := m'.trailer) && FromPayload(m) == FromPayload(m')
    ensures HeaderFits(m') && Layout(m) == Layout(m')
  {
    assert FromCrc(m) == FromCrc(m');
    assert FromComment(m) == FromComment(m');
    assert FromName(m) == FromName(m');
  }

  /** Nothing else gets past the walk: what it accepts is a member, reserved bits aside. */
  lemma WalkAcceptsOnlyMembers(gz: bytes)
    requires Payload(gz).Ok?
    ensures Laid(Unpack(gz)) && Layout(Unpack(gz)) == gz
    ensures WellFormed(Unpack(gz)) <==> gz[3] < 0x20
  {
    HeaderSpelled(gz);
    PayloadCut(gz);
    LayoutOfRest(UnpackHeader(gz), Unpack(gz));
  }

  lemma PayloadCut(gz: bytes)
    requires Payload(gz).Ok?
    ensures FromPayload(UnpackHeader(gz)) == FromPayload(Unpack(gz))
  {
    Glue(gz, PayloadStart(gz), |gz| - TRAILER, gz[|gz| - TRAILER..]);
    assert FromPayload(UnpackHeader(gz)) == gz[PayloadStart(gz)..];
  }

  /** Exactly when a payload is handed to inflate: when the bytes are a member, reserved bits aside. */
  lemma WalkExact(gz: bytes, payload: bytes)
    ensures Payload(gz) == Ok(payload) <==> exists m :: Laid(m) && Layout(m) == gz && m.payload == payload
  {
    if Payload(gz) == Ok(payload) {
      WalkAcceptsOnlyMembers(gz);
      assert Unpack(gz).payload == payload;
    }
    forall m | Laid(m) && Layout(m) == gz
      ensures Payload(gz) == Ok(m.payload)
    {
      WalkInvertsLayout(m);
    }
  }

  lemma FlagsByte(m: Member)
    requires HeaderFits(m)
    ensures |Layout(m)| > 3 && Layout(m)[3] == m.flags
  {}

  /** A payload of RFC 1952 exactly if the walk accepts and no reserved bit is set, which the source does not ask. */
  lemma ConformsIff(gz: bytes, payload: bytes)
    ensures Payload(gz) == Ok(payload) && gz[3] < 0x20
       <==> exists m :: WellFormed(m) && Layout(m) == gz && m.payload == payload
  {
    WalkExact(gz, payload);
    if Payload(gz) == Ok(payload) { WalkAcceptsOnlyMembers(gz); }
    forall m | Laid(m) && Layout(m) == gz
      ensures gz[3] == m.flags
    {
      FlagsByte(m);
    }
  }

  /** The bounds test compares with the whole length, not with the start of the trailer: a header that
      ends inside the trailer passes the test, and the slice that follows is out of range. */
  lemma BoundsTestMissesTrailer()
    ensures Payload([0x1f, 0x8b, 8, 0x04, 0, 0, 0, 0, 0, 0, 3, 0] + [0, 0, 0, 0, 0, 0]) == Err(SliceOutOfRange)
  {
    var gz := [0x1f, 0x8b, 8, 0x04, 0, 0, 0, 0, 0, 0, 3, 0] + [0, 0, 0, 0, 0, 0];
    assert |gz| == 18 && gz[3] == 0x04 && gz[10] == 3 && gz[11] == 0;
    assert PayloadStart(gz) == 15;
  }

  /** A header and then fewer bytes than a trailer has, but at least one. */
  ghost predicate CutInTrailer(gz: bytes, m: Member) {
    HeaderFits(m) && m.trailer == [] && Layout(m) == gz && 1 <= |m.payload| < TRAILER
  }

  /** The slice is out of range exactly if the header ends one to seven bytes before the end. */
  lemma SliceOutOfRangeIff(gz: bytes)
    ensures Payload(gz) == Err(SliceOutOfRange) <==> |gz| >= 18 && exists m :: CutInTrailer(gz, m)
  {
    if Payload(gz) == Err(SliceOutOfRange) {
      HeaderSpelled(gz);
      assert CutInTrailer(gz, UnpackHeader(gz));
    }
    if |gz| >= 18 {
      forall m | CutInTrailer(gz, m)
        ensures Payload(gz) == Err(SliceOutOfRange)
      {
        HeaderWalked(m);
        assert |gz[PayloadStart(gz)..]| == |m.payload|;
      }
    }
  }
}
