/**
 * The NTP wire format of section 6 and section 7.3 of RFC 5905, as the
 * plugin lays it out: the u32.32 timestamp kept big-endian in memory, and
 * the 48-byte packet whose first byte packs the leap indicator, the version
 * number and the mode.
 */
module Ntp {
  import opened ByteOrder

  /** Big-endian images of the 64-bit and 32-bit fields. */
  type Bytes8 = s: seq<byte> | |s| == 8 witness [0, 0, 0, 0, 0, 0, 0, 0]
  type Bytes4 = s: seq<byte> | |s| == 4 witness [0, 0, 0, 0]

  const ZeroBytes8: Bytes8 := [0, 0, 0, 0, 0, 0, 0, 0]
  const ZeroBytes4: Bytes4 := [0, 0, 0, 0]

  /** 2^32: one unit of the seconds part, and the length of one NTP era in seconds. */
  const TwoTo32: nat := 0x1_0000_0000

  /** 2^64: the number of values of the stored 64-bit word. */
  const TwoTo64: nat := 0x1_0000_0000_0000_0000

  lemma Pow256Of8()
    ensures Pow256(8) == TwoTo64
  {
  }

  // ---------------------------------------------------------------------------
  // Timestamps

  /**
   * A u32.32 fixed-point count of seconds since 1900-01-01 00:00:00 UTC.
   * `stored` is the value's big-endian image; zero means "not set".
   * There is no way in from a raw integer except `Store` and `FromSeconds`.
   */
  datatype Timestamp = Timestamp(stored: Bytes8) {

    /** The host-order value of the stored word (`load()`). */
    function Load(): (v: nat)
      ensures v < TwoTo64
    {
      Pow256Of8();
      FromBigEndian(stored)
    }

    /** `operator bool`: a timestamp is set when its stored word is not zero. */
    predicate IsSet() {
      stored != ZeroBytes8
    }

    /** Conversion to seconds: the stored value shifted right by 32 bits. */
    function ToSeconds(): (s: real)
      ensures 0.0 <= s < TwoTo32 as real
    {
      Load() as real / TwoTo32 as real
    }

    /** `operator <=>`: timestamps are ordered by their host-order value. */
    function Compare(other: Timestamp): (c: Ordering)
      ensures c == Less <==> Load() < other.Load()
      ensures c == Greater <==> Load() > other.Load()
    {
      if Load() < other.Load() then Less
      else if Load() == other.Load() then Equal
      else Greater
    }
  }

  datatype Ordering = Less | Equal | Greater

  /** A default-constructed timestamp. */
  const DefaultTimestamp: Timestamp := Timestamp(ZeroBytes8)

  /** `store(v)`: the timestamp whose host-order value is v. */
  function Store(v: nat): (t: Timestamp)
    requires v < TwoTo64
    ensures t.Load() == v
  {
    Pow256Of8();
    DecodeEncode(v, 8);
    Timestamp(ToBigEndian(v, 8))
  }

  /**
   * `timestamp(dbl_seconds s)`: stores s shifted left by 32 bits, truncated.
   * The conversion to a 64-bit unsigned integer is only defined for
   * 0 <= s < 2^32 (the first NTP era).
   */
  function FromSeconds(s: real): (t: Timestamp)
    requires 0.0 <= s < TwoTo32 as real
    ensures 0.0 <= s - t.ToSeconds() < 1.0 / TwoTo32 as real
  {
    var shifted := (s * TwoTo32 as real).Floor;
    assert 0 <= shifted < TwoTo64 by {
      assert s * TwoTo32 as real < TwoTo32 as real * TwoTo32 as real;
    }
    Store(shifted)
  }

  /** `store` after `load` gives the same timestamp: `load` is a bijection. */
  lemma StoreLoad(t: Timestamp)
    ensures Store(t.Load()) == t
  {
    Pow256Of8();
    EncodeDecode(t.stored);
  }

  /** `==` compares the stored words; it agrees with the order of `<=>`. */
  lemma EqualityIsOrderEquality(t: Timestamp, u: Timestamp)
    ensures t == u <==> t.Compare(u) == Equal
  {
    FromBigEndianInjective(t.stored, u.stored);
  }

  /** A timestamp is set exactly when its host-order value is not zero. */
  lemma IsSetIffNonZero(t: Timestamp)
    ensures t.IsSet() <==> t.Load() != 0
  {
    ZeroImage(t.stored);
  }

  /** The default timestamp is zero and therefore not set. */
  lemma DefaultIsUnset()
    ensures DefaultTimestamp.Load() == 0 && !DefaultTimestamp.IsSet()
  {
    ZeroImage(ZeroBytes8);
  }

  /** Converting a timestamp to seconds and back gives the same timestamp. */
  lemma SecondsRoundTrip(t: Timestamp)
    ensures FromSeconds(t.ToSeconds()) == t
  {
    var v := t.Load();
    assert t.ToSeconds() * TwoTo32 as real == v as real;
    StoreLoad(t);
  }

  // ---------------------------------------------------------------------------
  // The leap/version/mode byte

  /** `leap_flag`: the leap indicator, already shifted into bits 7-6. */
  const NoWarning: byte := 0x00
  const OneMoreSecond: byte := 0x40
  const OneLessSecond: byte := 0x80
  const LeapUnknown: byte := 0xC0

  predicate IsLeapFlag(x: byte) {
    x == NoWarning || x == OneMoreSecond || x == OneLessSecond || x == LeapUnknown
  }

  /** `mode_flag`: the association mode, in bits 2-0. */
  const Reserved: byte := 0
  const Active: byte := 1
  const Passive: byte := 2
  const Client: byte := 3
  const Server: byte := 4
  const Broadcast: byte := 5
  const Control: byte := 6
  const ReservedPrivate: byte := 7

  /** `leap(x)`: x replaces bits 7-6, the version and mode bits stay. */
  function WithLeap(lvm: byte, x: byte): (r: byte)
    ensures IsLeapFlag(x) ==> LeapOf(r) == x
    ensures IsLeapFlag(x) ==> VersionOf(r) == VersionOf(lvm) && ModeOf(r) == ModeOf(lvm)
  {
    x | (lvm & 0x3F)
  }

  /**
   * `leap()` as the source writes it: the two leap bits shifted down to
   * 0..3, although every `leap_flag` constant is kept shifted into bits 7-6.
   */
  function LeapAsWritten(lvm: byte): (r: byte)
    ensures r < 4
  {
    (lvm & 0xC0) >> 6
  }

  /** `leap()` as intended: the leap bits in the `leap_flag` encoding. */
  function LeapOf(lvm: byte): (r: byte)
    ensures IsLeapFlag(r)
  {
    lvm & 0xC0
  }

  /** `version(v)`: the low three bits of v replace bits 5-3. */
  function WithVersion(lvm: byte, v: bv32): (r: byte)
    ensures VersionOf(r) == (v % 8) as nat
    ensures LeapOf(r) == LeapOf(lvm) && ModeOf(r) == ModeOf(lvm)
  {
    (((v << 3) & 0x38) as byte) | (lvm & 0xC7)
  }

  /** `version()`: bits 5-3. */
  function VersionOf(lvm: byte): (r: nat)
    ensures r < 8
  {
    ((lvm & 0x38) >> 3) as nat
  }

  /**
   * `mode(m)`: m is or-ed into the byte after bits 2-0 are cleared, so a
   * value above 7 would also set leap or version bits.
   */
  function WithMode(lvm: byte, m: byte): (r: byte)
    ensures m < 8 ==> ModeOf(r) == m
    ensures m < 8 ==> LeapOf(r) == LeapOf(lvm) && VersionOf(r) == VersionOf(lvm)
  {
    m | (lvm & 0xF8)
  }

  /** `mode()`: bits 2-0. */
  function ModeOf(lvm: byte): (r: byte)
    ensures r < 8
  {
    lvm & 0x07
  }

  /** The three fields of the byte determine it. */
  lemma LvmDeterminedByFields(a: byte, b: byte)
    ensures a == b <==> LeapOf(a) == LeapOf(b) && VersionOf(a) == VersionOf(b) && ModeOf(a) == ModeOf(b)
  {
  }

  /**
   * The getter as written does not invert the setter: it yields x >> 6,
   * which is x itself only for `no_warning`.
   */
  lemma LeapAsWrittenMismatch(lvm: byte, x: byte)
    requires IsLeapFlag(x)
    ensures LeapAsWritten(WithLeap(lvm, x)) == x >> 6
    ensures LeapAsWritten(WithLeap(lvm, x)) == x <==> x == NoWarning
  {
  }

  /** `to_string(mode_flag)`: the name of each mode, "error" for any other value. */
  function ModeName(m: byte): (s: string)
    ensures s == "error" <==> m >= 8
  {
    match m
    case 0 => "reserved"
    case 1 => "active"
    case 2 => "passive"
    case 3 => "client"
    case 4 => "server"
    case 5 => "broadcast"
    case 6 => "control"
    case 7 => "reserved_private"
    case _ => "error"
  }

  /** Distinct modes have distinct names. */
  lemma ModeNamesDistinct(m1: byte, m2: byte)
    requires m1 < 8 && m2 < 8 && m1 != m2
    ensures ModeName(m1) != ModeName(m2)
  {
  }

  // ---------------------------------------------------------------------------
  // The 48-byte packet

  const PacketSize: nat := 48

  /** Byte offsets of the fields in the packet's wire image. */
  const OriginOffset: nat := 24
  const ReceiveOffset: nat := 32
  const TransmitOffset: nat := 40

  /** The timestamp stored at `offset` in a packet image. */
  function TimestampAt(img: seq<byte>, offset: nat): (t: Timestamp)
    requires offset + 8 <= |img|
    ensures t.stored == img[offset..offset + 8]
  {
    Timestamp(img[offset..offset + 8])
  }

  /** The 48-byte wire image of a packet whose fields hold the given values. */
  function Layout(lvm: byte, stratum: byte, pollExp: byte, precisionExp: byte,
                  rootDelay: Bytes4, rootDispersion: Bytes4, referenceId: Bytes4,
                  referenceTime: Timestamp, originTime: Timestamp,
                  receiveTime: Timestamp, transmitTime: Timestamp): (b: seq<byte>)
    ensures |b| == PacketSize
    ensures b[0] == lvm
    ensures TimestampAt(b, OriginOffset) == originTime
    ensures TimestampAt(b, ReceiveOffset) == receiveTime
    ensures TimestampAt(b, TransmitOffset) == transmitTime
  {
    var b := [lvm, stratum, pollExp, precisionExp] + rootDelay + rootDispersion + referenceId
      + referenceTime.stored + originTime.stored + receiveTime.stored + transmitTime.stored;
    assert b[OriginOffset..OriginOffset + 8] == originTime.stored;
    assert b[ReceiveOffset..ReceiveOffset + 8] == receiveTime.stored;
    assert b[TransmitOffset..TransmitOffset + 8] == transmitTime.stored;
    b
  }

  /** Every 48-byte image is the layout of the fields read back from it. */
  lemma LayoutOfImage(img: seq<byte>)
    requires |img| == PacketSize
    ensures Layout(img[0], img[1], img[2], img[3], img[4..8], img[8..12], img[12..16],
                   TimestampAt(img, 16), TimestampAt(img, OriginOffset),
                   TimestampAt(img, ReceiveOffset), TimestampAt(img, TransmitOffset)) == img
  {
    assert img == [img[0], img[1], img[2], img[3]] + img[4..8] + img[8..12] + img[12..16]
                  + img[16..24] + img[24..32] + img[32..40] + img[40..48];
  }

  /**
   * The NTP packet of section 7.3 of RFC 5905. Every field is kept in its
   * big-endian wire form; the signed exponents are kept as their
   * two's-complement byte, and the u16.16 root delay and dispersion as
   * their four-byte image, since nothing here reads them.
   */
  class Packet {
    var lvm: byte            // leap, version and mode
    var stratum: byte
    var pollExp: byte
    var precisionExp: byte
    var rootDelay: Bytes4
    var rootDispersion: Bytes4
    var referenceId: Bytes4
    var referenceTime: Timestamp
    var originTime: Timestamp
    var receiveTime: Timestamp
    var transmitTime: Timestamp

    /** The packet's memory image, which is also what goes on the wire. */
    function Image(): (b: seq<byte>)
      reads this
    {
      Layout(lvm, stratum, pollExp, precisionExp, rootDelay, rootDispersion, referenceId,
             referenceTime, originTime, receiveTime, transmitTime)
    }

    /** Every field, including the four timestamps, starts at zero. */
    constructor ()
      ensures lvm == 0 && stratum == 0 && pollExp == 0 && precisionExp == 0
      ensures rootDelay == ZeroBytes4 && rootDispersion == ZeroBytes4 && referenceId == ZeroBytes4
      ensures referenceTime == DefaultTimestamp && originTime == DefaultTimestamp
      ensures receiveTime == DefaultTimestamp && transmitTime == DefaultTimestamp
      ensures Image() == seq(PacketSize, _ => 0)
    {
      lvm, stratum, pollExp, precisionExp := 0, 0, 0, 0;
      rootDelay, rootDispersion, referenceId := ZeroBytes4, ZeroBytes4, ZeroBytes4;
      referenceTime, originTime := DefaultTimestamp, DefaultTimestamp;
      receiveTime, transmitTime := DefaultTimestamp, DefaultTimestamp;
      new;
      assert Image() == seq(PacketSize, _ => 0);
    }

    /** Overwrites the whole packet with 48 received bytes. */
    method ReadImage(img: seq<byte>)
      requires |img| == PacketSize
      modifies this
      ensures Image() == img
    {
      LayoutOfImage(img);
      lvm, stratum, pollExp, precisionExp := img[0], img[1], img[2], img[3];
      rootDelay, rootDispersion, referenceId := img[4..8], img[8..12], img[12..16];
      referenceTime, originTime := TimestampAt(img, 16), TimestampAt(img, OriginOffset);
      receiveTime, transmitTime := TimestampAt(img, ReceiveOffset), TimestampAt(img, TransmitOffset);
    }

    /** `leap(x)`: only the leap/version/mode byte changes. */
    method SetLeap(x: byte)
      modifies this`lvm
      ensures lvm == WithLeap(old(lvm), x)
      ensures IsLeapFlag(x) ==> LeapFlag() == x && Version() == old(Version()) && Mode() == old(Mode())
      ensures IsLeapFlag(x) ==> Leap() == x >> 6
    {
      lvm := WithLeap(lvm, x);
    }

    /** `leap()` as the source writes it: the two leap bits shifted down to 0..3. */
    function Leap(): (r: byte)
      reads this
      ensures r < 4
    {
      LeapAsWritten(lvm)
    }

    /** The corrected `leap()`, which returns a `leap_flag` value. */
    function LeapFlag(): (r: byte)
      reads this
      ensures IsLeapFlag(r)
    {
      LeapOf(lvm)
    }

    /** `version(v)`: only the leap/version/mode byte changes. */
    method SetVersion(v: bv32)
      modifies this`lvm
      ensures lvm == WithVersion(old(lvm), v)
      ensures Version() == (v % 8) as nat && LeapFlag() == old(LeapFlag()) && Mode() == old(Mode())
    {
      lvm := WithVersion(lvm, v);
    }

    /** `version()`. */
    function Version(): (r: nat)
      reads this
      ensures r < 8
    {
      VersionOf(lvm)
    }

    /** `mode(m)`: only the leap/version/mode byte changes. */
    method SetMode(m: byte)
      modifies this`lvm
      ensures lvm == WithMode(old(lvm), m)
      ensures m < 8 ==> Mode() == m && LeapFlag() == old(LeapFlag()) && Version() == old(Version())
    {
      lvm := WithMode(lvm, m);
    }

    /** `mode()`. */
    function Mode(): (r: byte)
      reads this
      ensures r < 8
    {
      ModeOf(lvm)
    }
  }
}
