/**
 * The SNTP client exchange of NetworkTime.NtpClient: the 48-byte request,
 * the byte-order swap, the validation and decoding of the server's Transmit
 * Timestamp (section 6 of RFC 5905: 32 bits of seconds since 1900-01-01 and
 * 32 bits of fraction), the half-round-trip correction and the non-throwing
 * wrapper. Name resolution, the UDP socket and the clock are parameters:
 * the outcome of the name lookup, a function from endpoint and datagram to
 * the outcome of the transfer, and the two clock readings inside it.
 */
module NetworkTime {
  import opened Wrappers
  import opened DotNet

  // ---------------------------------------------------------------------
  // Constants of the client
  // ---------------------------------------------------------------------

  const DefaultNtpServer: string := "pool.ntp.org"
  const NtpPort: int := 123
  const NtpDataLength: nat := 48
  /** Receive timeout in milliseconds; it only configures the socket. */
  const Timeout: int := 3000

  /** `IPEndPoint.MinPort` and `IPEndPoint.MaxPort`. */
  const MinPort: int := 0
  const MaxPort: int := 0xffff

  /** Offsets of the Transmit Timestamp's two halves in an NTP packet. */
  const TransmitSecondsOffset: nat := 40
  const TransmitFractionOffset: nat := 44

  // ---------------------------------------------------------------------
  // Wire format of the request
  // ---------------------------------------------------------------------

  /** The header's first byte: LI in bits 7-6, VN in bits 5-3, Mode in bits 2-0 (section 7.3 of RFC 5905). */
  function LeapIndicator(b: bv8): bv8 { b >> 6 }

  function VersionNumber(b: bv8): bv8 { (b >> 3) & 7 }

  function Mode(b: bv8): bv8 { b & 7 }

  /** Packs the three fields of the first header byte; the field readers recover them. */
  function PackHeader(li: bv8, vn: bv8, mode: bv8): (b: bv8)
    requires li < 4 && vn < 8 && mode < 8
    ensures LeapIndicator(b) == li && VersionNumber(b) == vn && Mode(b) == mode
  {
    (li << 6) | (vn << 3) | mode
  }

  /** The first request byte as the client writes it: `0b00_011_011`. */
  const RequestFirstByte: bv8 := 0x1B

  /**
   * The request datagram: 48 bytes, zero except the first, which carries
   * "no leap warning", version 3 and mode 3 (client).
   */
  function RequestPacket(): (p: seq<bv8>)
    ensures |p| == NtpDataLength
    ensures p[0] == PackHeader(0, 3, 3)
    ensures LeapIndicator(p[0]) == 0 && VersionNumber(p[0]) == 3 && Mode(p[0]) == 3
    ensures forall i :: 1 <= i < |p| ==> p[i] == 0
  {
    seq(NtpDataLength, i => if i == 0 then RequestFirstByte else 0)
  }

  /** Allocates the zero-filled request buffer and sets its first byte. */
  method BuildRequest() returns (ntpData: array<bv8>)
    ensures fresh(ntpData)
    ensures ntpData.Length == NtpDataLength
    ensures ntpData[0] == RequestFirstByte
    ensures forall i :: 1 <= i < ntpData.Length ==> ntpData[i] == 0
    ensures ntpData[..] == RequestPacket()
  {
    ntpData := new bv8[NtpDataLength](_ => 0);
    ntpData[0] := RequestFirstByte;
  }

  // ---------------------------------------------------------------------
  // Byte order
  // ---------------------------------------------------------------------

  /** Reverses the four low-order bytes of `x`; `(uint)` keeps the low 32 bits of the `ulong` sum. */
  function SwapEndianness(x: bv64): bv32
  {
    ((((x & 0x0000_00ff) << 24) + ((x & 0x0000_ff00) << 8)
      + ((x & 0x00ff_0000) >> 8) + ((x & 0xff00_0000) >> 24)) & 0xffff_ffff) as bv32
  }

  /** The cast to `uint` never drops a bit: the `ulong` sum already fits in 32 bits. */
  lemma SwapEndiannessCastIsExact(x: bv64)
    ensures SwapEndianness(x) as bv64 ==
      ((x & 0x0000_00ff) << 24) + ((x & 0x0000_ff00) << 8)
      + ((x & 0x00ff_0000) >> 8) + ((x & 0xff00_0000) >> 24)
  {
  }

  /** Byte i of the low word of x becomes byte 3 - i of the result. */
  lemma SwapEndiannessReversesBytes(x: bv64)
    ensures ByteOf(SwapEndianness(x) as bv64, 0) == ByteOf(x, 3)
    ensures ByteOf(SwapEndianness(x) as bv64, 1) == ByteOf(x, 2)
    ensures ByteOf(SwapEndianness(x) as bv64, 2) == ByteOf(x, 1)
    ensures ByteOf(SwapEndianness(x) as bv64, 3) == ByteOf(x, 0)
  {
  }

  /** The swap ignores everything above the low 32 bits. */
  lemma SwapEndiannessLow32(x: bv64)
    ensures SwapEndianness(x) == SwapEndianness(x & 0xffff_ffff)
  {
  }

  /** On a 32-bit value the swap is its own inverse. */
  lemma SwapEndiannessInvolution(x: bv64)
    requires x < 0x1_0000_0000
    ensures SwapEndianness(SwapEndianness(x) as bv64) as bv64 == x
  {
  }

  /** The 32-bit big-endian (network order) integer at `offset`. */
  function NetworkOrderUInt32(s: seq<bv8>, offset: nat): (v: nat)
    requires offset + 4 <= |s|
    ensures v < TwoTo32
  {
    (s[offset] as int) * 0x100_0000 + (s[offset + 1] as int) * 0x1_0000
    + (s[offset + 2] as int) * 0x100 + (s[offset + 3] as int)
  }

  /** Four bytes placed in a `uint` by shifts have the positional integer value. */
  lemma BytesValue(b0: bv8, b1: bv8, b2: bv8, b3: bv8)
    ensures (((b0 as bv32) << 24) + ((b1 as bv32) << 16) + ((b2 as bv32) << 8) + (b3 as bv32)) as int
      == (b0 as int) * 0x100_0000 + (b1 as int) * 0x1_0000 + (b2 as int) * 0x100 + (b3 as int)
  {
  }

  /** The field as the client reads it: little-endian via BitConverter, then swapped. */
  function ReadField(s: seq<bv8>, offset: nat): (v: ULong)
    requires offset + 4 <= |s|
  {
    SwapEndianness(ToUInt32(s, offset) as bv64) as int
  }

  /** On a little-endian host, reading and swapping is a big-endian read. */
  lemma ReadFieldIsNetworkOrder(s: seq<bv8>, offset: nat)
    requires offset + 4 <= |s|
    ensures ReadField(s, offset) == NetworkOrderUInt32(s, offset)
  {
    SwapOfLittleEndian(s, offset);
    BytesValue(s[offset], s[offset + 1], s[offset + 2], s[offset + 3]);
  }

  /** Swapping a little-endian word of four bytes puts the first byte on top. */
  lemma SwapOfLittleEndian(s: seq<bv8>, offset: nat)
    requires offset + 4 <= |s|
    ensures SwapEndianness(ToUInt32(s, offset) as bv64)
         == ((s[offset] as bv32) << 24) + ((s[offset + 1] as bv32) << 16)
          + ((s[offset + 2] as bv32) << 8) + (s[offset + 3] as bv32)
  {
  }

  // ---------------------------------------------------------------------
  // Timestamp arithmetic
  // ---------------------------------------------------------------------

  /**
   * Whole seconds scaled to milliseconds, plus the 32-bit binary fraction
   * scaled to milliseconds and rounded down; every step wraps as `ulong` does.
   */
  function Milliseconds(intPart: ULong, fractPart: ULong): ULong
  {
    ULongAdd(ULongMul(intPart, 1000), ULongMul(fractPart, 1000) / TwoTo32)
  }

  /**
   * For 32-bit seconds and fraction nothing wraps: the count is whole seconds
   * in milliseconds plus the fraction rounded down to a millisecond, which
   * adds at most 999, and it fits in a `long`.
   */
  lemma MillisecondsExact(intPart: ULong, fractPart: ULong)
    requires intPart < TwoTo32 && fractPart < TwoTo32
    ensures Milliseconds(intPart, fractPart) == intPart * 1000 + fractPart * 1000 / TwoTo32
    ensures intPart * 1000 <= Milliseconds(intPart, fractPart) <= intPart * 1000 + 999
    ensures Milliseconds(intPart, fractPart) <= LongMax
  {
  }

  /** A later NTP timestamp, in (seconds, fraction) order, never gives fewer milliseconds. */
  lemma MillisecondsMonotone(s0: ULong, f0: ULong, s1: ULong, f1: ULong)
    requires s0 < TwoTo32 && f0 < TwoTo32 && s1 < TwoTo32 && f1 < TwoTo32
    requires s0 < s1 || (s0 == s1 && f0 <= f1)
    ensures Milliseconds(s0, f0) <= Milliseconds(s1, f1)
  {
    MillisecondsExact(s0, f0);
    MillisecondsExact(s1, f1);
    if s0 == s1 {
      assert f0 * 1000 / TwoTo32 <= f1 * 1000 / TwoTo32;
    }
  }

  /** `new DateTime(1900, 1, 1)`, the NTP prime epoch, by its Ticks. */
  const NtpEpoch: DateTime := 599_266_080_000_000_000

  /** The constant is the .NET midnight of 1900-01-01: 693595 days of the Gregorian calendar. */
  lemma NtpEpochIsJanuaryFirst1900()
    ensures DateToTicks(1900, 1, 1) == Some(NtpEpoch)
    ensures NtpEpoch == DaysBeforeYear(1900) * TicksPerDay
  {
    DaysBeforeYearClosedForm(1900);
  }

  // ---------------------------------------------------------------------
  // The exchange result and its errors
  // ---------------------------------------------------------------------

  /** NtpResult: the configured server, the corrected UTC time and the round trip (a TimeSpan). */
  datatype NtpResult = NtpResult(server: string, utcTime: DateTime, roundTripDelay: Long)

  /** Why an exchange produced no result. */
  datatype Error =
    | ResolutionFailed    // the name lookup threw
    | NoAddresses         // the lookup returned no address: `addresses[0]` throws
    | PortOutOfRange      // `new IPEndPoint` refuses a port outside 0..65535
    | TransferFailed      // sending or receiving the datagram threw or timed out
    | ResponseTooShort    // "NTP response is too short."
    | TimeOutOfRange      // a DateTime addition left the range of DateTime

  /** An address returned by the name lookup. */
  datatype IpAddress = IpAddress(bytes: seq<bv8>)

  datatype IpEndPoint = IpEndPoint(address: IpAddress, port: int)

  /** The outcome of `Dns.GetHostAddressesAsync`. */
  datatype Resolution = Resolved(addresses: seq<IpAddress>) | ResolveError

  /** The outcome of one send and receive, with the clock read before sending and after receiving. */
  datatype Transfer =
    | Received(requestTime: DateTime, response: seq<bv8>, responseTime: DateTime)
    | TransferError

  // ---------------------------------------------------------------------
  // Decoding a reply
  // ---------------------------------------------------------------------

  /** The Transmit Timestamp in whole milliseconds, read in network byte order. */
  function TransmitMilliseconds(response: seq<bv8>): int
    requires |response| >= NtpDataLength
  {
    NetworkOrderUInt32(response, TransmitSecondsOffset) * 1000
    + NetworkOrderUInt32(response, TransmitFractionOffset) * 1000 / TwoTo32
  }

  /** The server's time before the correction: the epoch plus that many milliseconds. */
  function TransmitTime(response: seq<bv8>): int
    requires |response| >= NtpDataLength
  {
    NtpEpoch + TransmitMilliseconds(response) * TicksPerMillisecond
  }

  /**
   * Validates a reply and decodes it into a result: the steps of
   * GetFullNetworkTimeAsync from receiving the datagram on.
   */
  function Decode(server: string, requestTime: DateTime, response: seq<bv8>, responseTime: DateTime)
    : (r: Result<NtpResult, Error>)
    ensures r == Failure(ResponseTooShort) <==> |response| < NtpDataLength
    ensures r.Success? ==> r.value.server == server
    ensures r.Success? ==> r.value.roundTripDelay == responseTime - requestTime
  {
    if |response| < NtpDataLength then Failure(ResponseTooShort)
    else
      var intPart := ReadField(response, TransmitSecondsOffset);
      var fractPart := ReadField(response, TransmitFractionOffset);
      var milliseconds := Milliseconds(intPart, fractPart);
      match AddMilliseconds(NtpEpoch, LongFromULong(milliseconds))
      case None => Failure(TimeOutOfRange)
      case Some(serverTimeUtc) =>
        var roundTrip: Long := responseTime - requestTime;
        match AddTicks(serverTimeUtc, Halve(roundTrip))
        case None => Failure(TimeOutOfRange)
        case Some(corrected) => Success(NtpResult(server, corrected, roundTrip))
  }

  /**
   * A reply of at least 48 bytes decodes to the epoch plus the big-endian
   * Transmit Timestamp in milliseconds, plus half the round trip rounded
   * toward zero; the only failure left is a corrected time outside DateTime.
   */
  lemma DecodeIsTransmitTimePlusHalfRoundTrip(
    server: string, requestTime: DateTime, response: seq<bv8>, responseTime: DateTime)
    requires |response| >= NtpDataLength
    ensures var t := TransmitTime(response) + Halve(responseTime - requestTime);
      Decode(server, requestTime, response, responseTime) ==
        if 0 <= t <= MaxTicks then Success(NtpResult(server, t, responseTime - requestTime))
        else Failure(TimeOutOfRange)
  {
    var intPart := ReadField(response, TransmitSecondsOffset);
    var fractPart := ReadField(response, TransmitFractionOffset);
    ReadFieldIsNetworkOrder(response, TransmitSecondsOffset);
    ReadFieldIsNetworkOrder(response, TransmitFractionOffset);
    MillisecondsExact(intPart, fractPart);
  }

  /** The decoded time before correction lies within NTP era 0: [1900-01-01, 1900-01-01 + 2^32 s). */
  lemma TransmitTimeInEraZero(response: seq<bv8>)
    requires |response| >= NtpDataLength
    ensures NtpEpoch <= TransmitTime(response) < NtpEpoch + TwoTo32 * TicksPerSecond
    ensures (TransmitTime(response) - NtpEpoch) / TicksPerSecond
         == NetworkOrderUInt32(response, TransmitSecondsOffset)
  {
  }

  /** Only bytes 40..47 of a long-enough reply matter: other and trailing bytes do not. */
  lemma DecodeReadsOnlyTransmitTimestamp(
    server: string, requestTime: DateTime, a: seq<bv8>, b: seq<bv8>, responseTime: DateTime)
    requires |a| >= NtpDataLength && |b| >= NtpDataLength
    requires a[40..48] == b[40..48]
    ensures Decode(server, requestTime, a, responseTime) == Decode(server, requestTime, b, responseTime)
  {
    forall i | 40 <= i < 48 ensures a[i] == b[i] {
      assert a[i] == a[40..48][i - 40] && b[i] == b[40..48][i - 40];
    }
    ReadFieldIsNetworkOrder(a, TransmitSecondsOffset);
    ReadFieldIsNetworkOrder(b, TransmitSecondsOffset);
    ReadFieldIsNetworkOrder(a, TransmitFractionOffset);
    ReadFieldIsNetworkOrder(b, TransmitFractionOffset);
  }

  /**
   * With a clock that did not run backwards, a long-enough reply always
   * decodes, and the correction c added to the transmit time satisfies
   * 0 <= c <= T1 - T0 with 2c being T1 - T0 or one less.
   */
  lemma DecodeForwardClock(
    server: string, requestTime: DateTime, response: seq<bv8>, responseTime: DateTime)
    requires |response| >= NtpDataLength
    requires requestTime <= responseTime
    ensures var r := Decode(server, requestTime, response, responseTime);
      && r.Success?
      && var c := r.value.utcTime - TransmitTime(response);
      && 0 <= c <= responseTime - requestTime
      && (2 * c == responseTime - requestTime || 2 * c == responseTime - requestTime - 1)
  {
    DecodeIsTransmitTimePlusHalfRoundTrip(server, requestTime, response, responseTime);
    TransmitTimeInEraZero(response);
  }

  /** Equal round trips: a later Transmit Timestamp never yields an earlier corrected time. */
  lemma DecodeMonotone(
    server: string, requestTime: DateTime, a: seq<bv8>, b: seq<bv8>, responseTime: DateTime)
    requires |a| >= NtpDataLength && |b| >= NtpDataLength
    requires var sa, sb := NetworkOrderUInt32(a, 40), NetworkOrderUInt32(b, 40);
      sa < sb || (sa == sb && NetworkOrderUInt32(a, 44) <= NetworkOrderUInt32(b, 44))
    requires Decode(server, requestTime, a, responseTime).Success?
    requires Decode(server, requestTime, b, responseTime).Success?
    ensures Decode(server, requestTime, a, responseTime).value.utcTime
         <= Decode(server, requestTime, b, responseTime).value.utcTime
  {
    DecodeIsTransmitTimePlusHalfRoundTrip(server, requestTime, a, responseTime);
    DecodeIsTransmitTimePlusHalfRoundTrip(server, requestTime, b, responseTime);
    TransmitTimeMonotone(a, b);
  }

  /** The decoded transmit time is monotone in the (seconds, fraction) order of the timestamps. */
  lemma TransmitTimeMonotone(a: seq<bv8>, b: seq<bv8>)
    requires |a| >= NtpDataLength && |b| >= NtpDataLength
    requires var sa, sb := NetworkOrderUInt32(a, 40), NetworkOrderUInt32(b, 40);
      sa < sb || (sa == sb && NetworkOrderUInt32(a, 44) <= NetworkOrderUInt32(b, 44))
    ensures TransmitTime(a) <= TransmitTime(b)
  {
    var sa, fa := NetworkOrderUInt32(a, 40), NetworkOrderUInt32(a, 44);
    var sb, fb := NetworkOrderUInt32(b, 40), NetworkOrderUInt32(b, 44);
    MillisecondsMonotone(sa, fa, sb, fb);
    MillisecondsExact(sa, fa);
    MillisecondsExact(sb, fb);
    assert TransmitMilliseconds(a) <= TransmitMilliseconds(b);
  }

  /** Seconds 3,913,056,000 with a zero fraction and no delay decode to 2024-01-01T00:00:00. */
  lemma DecodeNewYear2024(response: seq<bv8>, t: DateTime)
    requires |response| == NtpDataLength
    requires response[40..48] == [0xE9, 0x3C, 0x7F, 0x00, 0, 0, 0, 0]
    ensures DateToTicks(2024, 1, 1).Some?
    ensures Decode(DefaultNtpServer, t, response, t)
         == Success(NtpResult(DefaultNtpServer, DateToTicks(2024, 1, 1).value, 0))
  {
    assert response[40] == 0xE9 && response[41] == 0x3C && response[42] == 0x7F && response[43] == 0
        && response[44] == 0 && response[45] == 0 && response[46] == 0 && response[47] == 0
    by {
      assert forall i | 40 <= i < 48 :: response[i] == response[40..48][i - 40];
    }
    assert NetworkOrderUInt32(response, 40) == 3_913_056_000;
    assert NetworkOrderUInt32(response, 44) == 0;
    assert TransmitTime(response) == 638_396_640_000_000_000;
    DecodeIsTransmitTimePlusHalfRoundTrip(DefaultNtpServer, t, response, t);
    NewYear2024Ticks();
  }

  /** 2024-01-01T00:00:00 by its Ticks: 738885 days since 0001-01-01. */
  lemma NewYear2024Ticks()
    ensures DateToTicks(2024, 1, 1) == Some(638_396_640_000_000_000)
  {
    DaysBeforeYearClosedForm(2024);
  }

  // ---------------------------------------------------------------------
  // The client
  // ---------------------------------------------------------------------

  /** The network as the client sees it: an endpoint and a datagram in, a transfer outcome out. */
  type Network = (IpEndPoint, seq<bv8>) -> Transfer

  class NtpClient {
    const server: string
    const port: int

    /** The default server and port. */
    constructor ()
      ensures server == DefaultNtpServer && port == NtpPort
    {
      server := DefaultNtpServer;
      port := NtpPort;
    }

    constructor WithServer(ntpServer: string)
      ensures server == ntpServer && port == NtpPort
    {
      server := ntpServer;
      port := NtpPort;
    }

    constructor WithServerAndPort(ntpServer: string, ntpPort: int)
      ensures server == ntpServer && port == ntpPort
    {
      server := ntpServer;
      port := ntpPort;
    }

    /**
     * What one exchange yields: the first failing step's error, or the
     * decoded reply to the request sent to the first resolved address.
     */
    function Exchange(resolution: Resolution, network: Network): (r: Result<NtpResult, Error>)
      ensures r == Failure(ResolutionFailed) <==> resolution.ResolveError?
      ensures r == Failure(NoAddresses) <==> resolution == Resolved([])
      ensures r == Failure(PortOutOfRange) <==>
        resolution.Resolved? && |resolution.addresses| > 0 && !(MinPort <= port <= MaxPort)
      ensures r.Success? ==> r.value.server == server
      ensures resolution.Resolved? && |resolution.addresses| > 0 && MinPort <= port <= MaxPort ==>
        var transfer := network(IpEndPoint(resolution.addresses[0], port), RequestPacket());
        r == if transfer.TransferError? then Failure(TransferFailed)
             else Decode(server, transfer.requestTime, transfer.response, transfer.responseTime)
    {
      match resolution
      case ResolveError => Failure(ResolutionFailed)
      case Resolved(addresses) =>
        if |addresses| == 0 then Failure(NoAddresses)
        else if !(MinPort <= port <= MaxPort) then Failure(PortOutOfRange)
        else
          match network(IpEndPoint(addresses[0], port), RequestPacket())
          case TransferError => Failure(TransferFailed)
          case Received(requestTime, response, responseTime) =>
            Decode(server, requestTime, response, responseTime)
    }

    /** GetFullNetworkTimeAsync: build the request buffer, resolve, send, receive, decode. */
    method GetFullNetworkTime(resolution: Resolution, network: Network)
      returns (r: Result<NtpResult, Error>)
      ensures r == Exchange(resolution, network)
    {
      var ntpData := BuildRequest();
      if resolution.ResolveError? {
        return Failure(ResolutionFailed);
      }
      var addresses := resolution.addresses;
      if |addresses| == 0 {
        return Failure(NoAddresses);
      }
      if !(MinPort <= port <= MaxPort) {
        return Failure(PortOutOfRange);
      }
      var ipEndPoint := IpEndPoint(addresses[0], port);
      var result := network(ipEndPoint, ntpData[..]);
      if result.TransferError? {
        return Failure(TransferFailed);
      }
      r := Decode(server, result.requestTime, result.response, result.responseTime);
    }

    /**
     * TryGetNetworkTime: the local time of a successful exchange and true, or
     * DateTime.MinValue and false on any failure. `localZone` stands for the
     * host's time-zone rules: the UTC offset they assign to a UTC instant.
     */
    method TryGetNetworkTime(resolution: Resolution, network: Network, localZone: DateTime -> Long)
      returns (ok: bool, time: DateTime)
      ensures ok <==> Exchange(resolution, network).Success?
      ensures ok ==> var utc := Exchange(resolution, network).value.utcTime;
        time == ToLocalTime(utc, localZone(utc))
      ensures !ok ==> time == MinValue
    {
      var result := GetFullNetworkTime(resolution, network);
      if result.Success? {
        ok, time := true, ToLocalTime(result.value.utcTime, localZone(result.value.utcTime));
      } else {
        ok, time := false, MinValue;
      }
    }
  }
}
