# NetworkTime: a verified model of a single SNTP client exchange

`NetworkTime.NtpClient` asks one NTP server for the time. It does the following, in order:

1. It builds a 48-byte request: all zero except byte 0, which is `0x1B`. That byte means leap indicator 0, version 3 and mode 3 (client), per section 7.3 of RFC 5905.
2. It resolves the server name, sends the request over UDP and waits for one reply. It reads the clock just before sending and just after receiving.
3. It rejects a reply shorter than 48 bytes.
4. It reads the Transmit Timestamp at bytes 40..47. This is the 64-bit timestamp format of section 6 of RFC 5905: 32 bits of seconds since 1900-01-01, then 32 bits of binary fraction. Each half is read little-endian and then byte-swapped.
5. It converts the timestamp to whole milliseconds and adds them to 1900-01-01.
6. It adds half the measured round trip, using C#'s truncating integer division.
7. It returns the configured server string, the corrected UTC time and the round trip.

A non-throwing wrapper, `TryGetNetworkTime`, turns any failure into `(false, DateTime.MinValue)`.

The project has three modules:

- `Wrappers` (`wrappers.dfy`): `Option` and `Result`. These stand in for .NET exceptions.
- `DotNet` (`dotnet.dfy`): the .NET and C# semantics the client depends on, stated exactly:
  - `ulong` wrap-around, the unchecked `(long)` cast, and `long / 2` truncating toward zero;
  - `BitConverter.ToUInt32` on a little-endian host;
  - `DateTime` as a tick count (100 ns units) with range-checked `AddTicks` and `AddMilliseconds`;
  - `new DateTime(y, m, d)` with the Gregorian day count;
  - `ToLocalTime` for a given UTC offset.
- `NetworkTime` (`ntp_client.dfy`): everything in `NtpClient.cs`:
  - the request buffer (a method filling an `array<bv8>`);
  - `SwapEndianness` over `bv64`, written with the source's own masks and shifts;
  - the decoding of a reply (a function over `seq<bv8>`);
  - the `NtpClient` class, whose `const` fields mirror the `readonly` ones, with its three constructors, the exchange and the non-throwing wrapper.

Name resolution, the socket and the clock are not modelled. They are inputs instead:

- a `Resolution` value: the addresses found, or a lookup error;
- a `Network` function: from endpoint and datagram to a `Transfer`, which is either the received bytes with both clock readings, or a transfer error;
- the host's time-zone rules, as a function from a UTC instant to its UTC offset.

Neither the C# code nor the model requires a non-empty server name or a positive port. Any string is accepted as the server. `new IPEndPoint` accepts every port in 0..65535, port 0 included, and any value outside that range fails with `PortOutOfRange`.

## Model

| member | source | states |
|---|---|---|
| `NetworkTime.PackHeader` | NetworkTime/NtpClient.cs:62 | Packing leap indicator, version and mode into the first header byte is undone by the three field readers, so every in-range field value comes back unchanged |
| `NetworkTime.RequestPacket` | NetworkTime/NtpClient.cs:61-62 | The request is 48 bytes. Byte 0 is the packed header (LI 0, VN 3, Mode 3) and reads back as exactly those fields. Every other byte is 0 |
| `NetworkTime.BuildRequest` | NetworkTime/NtpClient.cs:61-62 | The freshly allocated buffer has length 48, `0x1B` at index 0 and zero everywhere else, i.e. it holds exactly the request datagram |
| `NetworkTime.SwapEndianness` | NetworkTime/NtpClient.cs:51-54 | The source's masks, shifts, `ulong` sum and `(uint)` cast, with no contract of its own. Its properties are the four `SwapEndianness…` lemmas below |
| `NetworkTime.SwapEndiannessReversesBytes` | NetworkTime/NtpClient.cs:51-54 | Byte i (i = 0..3) of the swapped value is byte 3 - i of the input |
| `NetworkTime.SwapEndiannessCastIsExact` | NetworkTime/NtpClient.cs:53 | The `ulong` sum of masked and shifted bytes is already below 2^32, so the `(uint)` cast drops no bit |
| `NetworkTime.SwapEndiannessLow32` | NetworkTime/NtpClient.cs:51-54 | The swap depends only on the low 32 bits of its argument |
| `NetworkTime.SwapEndiannessInvolution` | NetworkTime/NtpClient.cs:51-54 | For x < 2^32, swapping twice gives x back |
| `DotNet.ToUInt32` | NetworkTime/NtpClient.cs:83-84 | `BitConverter.ToUInt32` on a little-endian host, with no contract of its own. Its byte layout is `ToUInt32LittleEndian` |
| `DotNet.ToUInt32LittleEndian` | NetworkTime/NtpClient.cs:83-84 | On a little-endian host, `BitConverter.ToUInt32` places the four bytes at startIndex.. in order as bytes 0..3 of the value |
| `NetworkTime.ReadField` | NetworkTime/NtpClient.cs:83-86 | One timestamp half as the client reads it: `ToUInt32`, then `SwapEndianness`, with no contract of its own. Its value is stated by `ReadFieldIsNetworkOrder` |
| `NetworkTime.ReadFieldIsNetworkOrder` | NetworkTime/NtpClient.cs:83-86 | A little-endian read followed by `SwapEndianness` equals the big-endian integer b0*2^24 + b1*2^16 + b2*2^8 + b3 |
| `DotNet.ULongMul` | NetworkTime/NtpClient.cs:88 | The `ulong` product, wrapping modulo 2^64, with no contract of its own. `MillisecondsExact` shows that it never wraps on the client's operands |
| `DotNet.ULongAdd` | NetworkTime/NtpClient.cs:88 | The `ulong` sum, wrapping modulo 2^64, with no contract of its own. `MillisecondsExact` shows that it never wraps on the client's operands |
| `NetworkTime.Milliseconds` | NetworkTime/NtpClient.cs:88 | The millisecond count in `ulong` arithmetic, with no contract of its own. Its value and bounds are `MillisecondsExact`, and its order is `MillisecondsMonotone` |
| `NetworkTime.MillisecondsExact` | NetworkTime/NtpClient.cs:88 | For 32-bit seconds S and fraction F, the `ulong` expression never wraps. It equals S*1000 + floor(F*1000/2^32), lies within [S*1000, S*1000 + 999] and fits in a `long` |
| `NetworkTime.MillisecondsMonotone` | NetworkTime/NtpClient.cs:88 | The millisecond count is monotone in (S, F) ordered lexicographically |
| `DotNet.LongFromULong` | NetworkTime/NtpClient.cs:89 | The unchecked `(long)` cast keeps the value below 2^63, turns larger values negative, and always preserves the 64-bit pattern |
| `DotNet.AddMilliseconds` | NetworkTime/NtpClient.cs:89 | Adding n milliseconds succeeds exactly when t + n*10000 ticks stays within DateTime's range, and then yields that tick count |
| `DotNet.DateToTicks` | NetworkTime/NtpClient.cs:89 | `new DateTime(y, m, d)` succeeds exactly for years 1..9999, months 1..12 and days within the month. A valid date's ticks are its day count since 0001-01-01 (whole years counted one by one, then the days within its year) times ticks per day |
| `DotNet.DaysBeforeYearClosedForm` | NetworkTime/NtpClient.cs:89 | Summing Gregorian year lengths gives 365(y-1) + (y-1)/4 - (y-1)/100 + (y-1)/400 days before year y, which is the formula `DateTime` uses (proved by induction) |
| `NetworkTime.NtpEpochIsJanuaryFirst1900` | NetworkTime/NtpClient.cs:89 | The epoch constant 599266080000000000 is `new DateTime(1900, 1, 1)`: the 693595 days of years 1..1899, in ticks |
| `DotNet.Halve` | NetworkTime/NtpClient.cs:92 | `ticks / 2` rounds toward zero. For x >= 0 the result c has 0 <= c and 2c in {x, x-1}. For x <= 0 it has c <= 0 and 2c in {x, x+1} |
| `DotNet.AddTicks` | NetworkTime/NtpClient.cs:92 | `DateTime + TimeSpan` succeeds exactly when the sum stays within DateTime's range, and then yields the sum |
| `NetworkTime.Decode` | NetworkTime/NtpClient.cs:76-99 | A reply yields the "too short" error if and only if it has fewer than 48 bytes. Any result carries the configured server and a round trip of exactly T1 - T0 |
| `NetworkTime.DecodeIsTransmitTimePlusHalfRoundTrip` | NetworkTime/NtpClient.cs:83-92 | A reply of 48 or more bytes decodes to epoch + (S*1000 + floor(F*1000/2^32))*10000 + (T1-T0)/2 ticks, with S and F read big-endian at 40 and 44. The only remaining failure is that sum falling outside DateTime's range |
| `NetworkTime.TransmitTimeInEraZero` | NetworkTime/NtpClient.cs:83-89 | Before correction, the decoded time lies in [1900-01-01, 1900-01-01 + 2^32 s), and its whole seconds since the epoch are exactly S |
| `NetworkTime.DecodeReadsOnlyTransmitTimestamp` | NetworkTime/NtpClient.cs:78-86 | Two replies of 48 or more bytes that agree on bytes 40..47 decode identically; all other bytes and any trailing bytes are ignored |
| `NetworkTime.DecodeForwardClock` | NetworkTime/NtpClient.cs:91-92 | When T1 >= T0, a reply of 48 or more bytes always decodes, and the correction c satisfies 0 <= c <= T1-T0 with 2c = T1-T0 or T1-T0-1 |
| `NetworkTime.TransmitTimeMonotone` | NetworkTime/NtpClient.cs:88-89 | The decoded pre-correction time is monotone in the (seconds, fraction) order of the Transmit Timestamp |
| `NetworkTime.DecodeMonotone` | NetworkTime/NtpClient.cs:88-92 | With the same clock readings, a later Transmit Timestamp never gives an earlier corrected server time |
| `NetworkTime.DecodeNewYear2024` | NetworkTime/NtpClient.cs:83-89 | Seconds 3,913,056,000 and fraction 0, with no delay, decode to exactly `new DateTime(2024, 1, 1)` |
| `NetworkTime.NtpClient.constructor` | NetworkTime/NtpClient.cs:24-28 | The default client uses server "pool.ntp.org" and port 123 |
| `NetworkTime.NtpClient.WithServer` | NetworkTime/NtpClient.cs:34-38 | The client keeps the given server and uses port 123 |
| `NetworkTime.NtpClient.WithServerAndPort` | NetworkTime/NtpClient.cs:45-49 | The client keeps the given server and port, whatever they are |
| `NetworkTime.NtpClient.Exchange` | NetworkTime/NtpClient.cs:59-99 | Errors come in the source's order: lookup failure, an empty address list, a port outside 0..65535. Once those checks pass, the exact request datagram goes to the first resolved address. A failed transfer gives `TransferFailed`, and otherwise the result is exactly the decoding of the received reply. A successful result carries the configured server, never the resolved address |
| `NetworkTime.NtpClient.GetFullNetworkTime` | NetworkTime/NtpClient.cs:59-101 | The imperative exchange (allocate and fill the buffer, resolve, build the endpoint, send the buffer's contents, decode) yields exactly `Exchange` |
| `NetworkTime.NtpClient.TryGetNetworkTime` | NetworkTime/NtpClient.cs:123-135 | Returns true if and only if the exchange succeeds, and then the decoded UTC time converted with the offset the time zone assigns to that instant. On any failure it returns false with `DateTime.MinValue` |
| `DotNet.ToLocalTime` | NetworkTime/NtpResult.cs:24 | Converting to local time shifts by the given offset and clamps to DateTime's range |

## Left out

- Name resolution, the UDP socket and its disposal are I/O. Their outcomes are inputs (`Resolution` and `Network`), and every failure among them becomes one error tag.
- A reply that never arrives is not modelled. The source sets `ReceiveTimeout` to 3000 ms, but then awaits `ReceiveAsync`, which that setting does not bound. With no reply, the source waits forever and `TryGetNetworkTime` never returns. `Network` is a total function, so in the model every transfer ends, either with a reply or with `TransferError`.
- The two `DateTime.UtcNow` readings are the `requestTime` and `responseTime` fields of a received `Transfer`.
- `GetNetworkTimeAsync`, `GetNetworkTime` and `GetOffsetFromLocalAsync` are task plumbing over the same exchange. `TryGetNetworkTime` is modelled directly on the exchange followed by the local-time conversion.
- `NtpResult.LocalOffset` reads the live clock and is not modelled. Of `NtpResult`, only the three stored values, as a datatype, and `LocalTime`'s conversion are modelled.
- The time-zone database behind `ToLocalTime` is not modelled. It becomes the `localZone` parameter of `TryGetNetworkTime`.
- `DotNet.AddMilliseconds`: takes a whole millisecond count instead of a `double`. The client's count is below 2^42 and so is exactly representable; rounding of counts at or above 2^53 is not modelled.
- Host endianness detection is not modelled. The source always swaps, so the model assumes a little-endian host, the only kind on which the swap gives the big-endian value.
- .NET exception types are collapsed into the `Error` tags. A `null` server string cannot occur in the model, because Dafny strings are never null.
- NTP era rollover (the seconds field wrapping in February 2036) is handled by neither the source nor the model. `TransmitTimeInEraZero` states the resulting range.
