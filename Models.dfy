/**
 * The packet record shared by the store and the sniffer (internal/models/packet.go):
 * the Packet, PacketFilter and PacketResponse records, the NewPacket constructor with
 * its defaults, and the shape of the identifiers that generatePacketID builds.
 *
 * Instants are integers (nanoseconds on one axis); ZeroTime stands for Go's zero
 * time.Time, the value that IsZero() recognises.
 */
module Models {

  datatype Option<+T> = None | Some(value: T)

  /** The instant Go's time.Time{} denotes; a filter bound equal to it is "not set". */
  const ZeroTime: int := 0

  /** Defaults that NewPacket writes into every fresh record. */
  const DefaultTTL: int := 64
  const DefaultFlags: string := "SYN"

  datatype Packet = Packet(
    id: string,
    sourceIP: string,
    destinationIP: string,
    protocol: string,
    port: int,
    size: int,
    timestamp: int,
    ttl: int,
    flags: string,
    payload: string)

  /** What a query returns: the page of packets, its count, and when it was taken. */
  datatype PacketResponse = PacketResponse(packets: seq<Packet>, total: int, timestamp: int)

  const RecordProtocols: set<string> := {"TCP", "UDP", "ICMP", "HTTP", "HTTPS"}

  /**
   * The validation tags declared on Packet: ID and addresses required, protocol from the
   * closed set, port in 1..65535, size at least 1. (The "ip" format check and the
   * non-zero timestamp are not part of this model.)
   */
  predicate ValidRecord(p: Packet) {
    && p.id != "" && p.sourceIP != "" && p.destinationIP != ""
    && p.protocol in RecordProtocols
    && 1 <= p.port <= 65535
    && p.size >= 1
  }

  /** A query descriptor; empty strings, ZeroTime bounds and Limit 0 mean "absent". */
  datatype PacketFilter = PacketFilter(
    protocol: string,
    sourceIP: string,
    destinationIP: string,
    fromTimestamp: int,
    toTimestamp: int,
    limit: int,
    offset: int)

  /** Go's zero value of PacketFilter. */
  const ZeroFilter: PacketFilter := PacketFilter("", "", "", ZeroTime, ZeroTime, 0, 0)

  /** A reading of the local wall clock, as time.Time.Format sees it. */
  datatype DateTime = DateTime(year: nat, month: nat, day: nat, hour: nat, minute: nat, second: nat)

  /** A calendar reading whose year has at most four digits. */
  predicate ValidDateTime(t: DateTime) {
    t.year <= 9999 && 1 <= t.month <= 12 && 1 <= t.day <= 31 &&
    t.hour < 24 && t.minute < 60 && t.second < 60
  }

  /**
   * The three reads of time.Now() that NewPacket makes: two inside generatePacketID
   * (the formatted date-time and UnixNano) and one for the Timestamp field.
   */
  datatype ClockReadings = ClockReadings(idDateTime: DateTime, idUnixNano: int, timestamp: int)

  // ---------------------------------------------------------------------------
  // Decimal formatting, as fmt and time.Format print non-negative integers.

  predicate IsDigit(c: char) {
    '0' <= c <= '9'
  }

  predicate AllDigits(s: string) {
    forall i :: 0 <= i < |s| ==> IsDigit(s[i])
  }

  function Pow10(k: nat): (r: nat)
    ensures r >= 1
  {
    if k == 0 then 1 else 10 * Pow10(k - 1)
  }

  function DigitChar(d: nat): (c: char)
    requires d < 10
    ensures IsDigit(c) && c as int - '0' as int == d
  {
    ('0' as int + d) as char
  }

  /** The decimal numeral of n, without leading zeros ("0" for zero). */
  function Digits(n: nat): (s: string)
    ensures |s| >= 1 && AllDigits(s)
  {
    if n < 10 then [DigitChar(n)] else Digits(n / 10) + [DigitChar(n % 10)]
  }

  function Zeros(k: nat): (s: string)
    ensures |s| == k && forall i :: 0 <= i < k ==> s[i] == '0'
  {
    if k == 0 then "" else Zeros(k - 1) + "0"
  }

  /** The numeral of n left-padded with '0' to at least `width` characters. */
  function ZeroPad(n: nat, width: nat): (s: string)
    ensures AllDigits(s) && |s| >= width
  {
    var d := Digits(n);
    if |d| >= width then d else Zeros(width - |d|) + d
  }

  /** Go's "%0<width>d": zero-padded, with the sign counted in the width. */
  function FormatZeroPadded(v: int, width: nat): (s: string)
    requires width >= 1
    ensures |s| >= width
    ensures v >= 0 ==> AllDigits(s)
    ensures v < 0 ==> s[0] == '-'
  {
    if v >= 0 then ZeroPad(v, width) else "-" + ZeroPad(-v, width - 1)
  }

  /** Go's `%` on integers: the remainder takes the sign of the dividend. */
  function GoRem(a: int, b: int): (r: int)
    requires b > 0
    ensures -b < r < b
    ensures a >= 0 ==> r == a % b
    ensures a < 0 ==> r <= 0
    ensures a == b * (if a >= 0 then a / b else -((-a) / b)) + r
  {
    if a >= 0 then a % b
    else
      assert -a == b * ((-a) / b) + (-a) % b;
      -((-a) % b)
  }

  /** The value of a string of decimal digits. */
  function DigitsValue(s: string): nat
    requires AllDigits(s)
  {
    if s == [] then 0 else DigitsValue(s[..|s| - 1]) * 10 + (s[|s| - 1] as int - '0' as int)
  }

  lemma {:induction false} DigitsRoundTrip(n: nat)
    ensures DigitsValue(Digits(n)) == n
  {
    if n >= 10 {
      var s := Digits(n);
      assert s[..|s| - 1] == Digits(n / 10);
      DigitsRoundTrip(n / 10);
    }
  }

  lemma {:induction false} DigitsLength(n: nat, k: nat)
    requires k >= 1 && n < Pow10(k)
    ensures |Digits(n)| <= k
  {
    if n >= 10 {
      assert Pow10(1) == 10;
      assert k >= 2;
      assert n / 10 < Pow10(k - 1);
      DigitsLength(n / 10, k - 1);
    }
  }

  lemma {:induction false} ZerosValue(k: nat)
    ensures DigitsValue(Zeros(k)) == 0
  {
    if k > 0 {
      assert Zeros(k)[..k - 1] == Zeros(k - 1);
      ZerosValue(k - 1);
    }
  }

  lemma {:induction false} LeadingZerosValue(k: nat, s: string)
    requires AllDigits(s)
    ensures AllDigits(Zeros(k) + s) && DigitsValue(Zeros(k) + s) == DigitsValue(s)
  {
    var z := Zeros(k);
    if s == [] {
      assert z + s == z;
      ZerosValue(k);
    } else {
      var t := z + s;
      assert t[..|t| - 1] == z + s[..|s| - 1];
      LeadingZerosValue(k, s[..|s| - 1]);
    }
  }

  /** Padding to a width that the numeral fits in yields exactly that width and keeps the value. */
  lemma ZeroPadRoundTrip(n: nat, width: nat)
    requires width >= 1 && n < Pow10(width)
    ensures |ZeroPad(n, width)| == width
    ensures DigitsValue(ZeroPad(n, width)) == n
  {
    var d := Digits(n);
    DigitsLength(n, width);
    DigitsRoundTrip(n);
    if |d| < width {
      LeadingZerosValue(width - |d|, d);
      assert ZeroPad(n, width) == Zeros(width - |d|) + d;
    } else {
      assert ZeroPad(n, width) == d;
    }
  }

  // ---------------------------------------------------------------------------
  // Identifiers.

  /** time.Format with layout "20060102150405": year, month, day, hour, minute, second. */
  function FormatDateTime(t: DateTime): (s: string)
    ensures AllDigits(s)
  {
    ZeroPad(t.year, 4) + ZeroPad(t.month, 2) + ZeroPad(t.day, 2) +
    ZeroPad(t.hour, 2) + ZeroPad(t.minute, 2) + ZeroPad(t.second, 2)
  }

  /** Reads the six fields back out of a 14-digit date-time. */
  function DecodeDateTime(s: string): DateTime
    requires |s| == 14 && AllDigits(s)
  {
    DateTime(DigitsValue(s[0..4]), DigitsValue(s[4..6]), DigitsValue(s[6..8]),
             DigitsValue(s[8..10]), DigitsValue(s[10..12]), DigitsValue(s[12..14]))
  }

  lemma DateTimeRoundTrip(t: DateTime)
    requires ValidDateTime(t)
    ensures |FormatDateTime(t)| == 14
    ensures DecodeDateTime(FormatDateTime(t)) == t
  {
    assert Pow10(2) == 100 && Pow10(4) == 10000;
    ZeroPadRoundTrip(t.year, 4);
    ZeroPadRoundTrip(t.month, 2);
    ZeroPadRoundTrip(t.day, 2);
    ZeroPadRoundTrip(t.hour, 2);
    ZeroPadRoundTrip(t.minute, 2);
    ZeroPadRoundTrip(t.second, 2);
    FieldSlices(ZeroPad(t.year, 4), ZeroPad(t.month, 2), ZeroPad(t.day, 2),
                ZeroPad(t.hour, 2), ZeroPad(t.minute, 2), ZeroPad(t.second, 2));
  }

  /** Where each of six fixed-width fields sits in their concatenation. */
  lemma FieldSlices(y: string, mo: string, d: string, h: string, mi: string, s: string)
    requires |y| == 4 && |mo| == 2 && |d| == 2 && |h| == 2 && |mi| == 2 && |s| == 2
    ensures var t := y + mo + d + h + mi + s;
      && |t| == 14
      && t[0..4] == y && t[4..6] == mo && t[6..8] == d
      && t[8..10] == h && t[10..12] == mi && t[12..14] == s
  {
    var t := y + mo + d + h + mi + s;
    assert t[0..4] == y;
  }

  lemma Pow10Nine()
    ensures Pow10(9) == 1_000_000_000
  {
    calc {
      Pow10(9);
      1000 * Pow10(6);
      1000 * (1000 * Pow10(3));
      1_000_000_000;
    }
  }

  const IDPrefix: string := "packet_"

  /** generatePacketID: "packet_" + date-time + "_" + UnixNano mod 10^9 printed with "%09d". */
  function GeneratePacketID(now: DateTime, unixNano: int): (id: string)
    ensures |id| > |IDPrefix| && id[..|IDPrefix|] == IDPrefix
  {
    var rest := FormatDateTime(now) + "_" + FormatZeroPadded(GoRem(unixNano, 1_000_000_000), 9);
    assert (IDPrefix + rest)[..|IDPrefix|] == IDPrefix;
    IDPrefix + rest
  }

  /**
   * For a calendar reading and a clock after the epoch, the identifier is 31 characters:
   * the prefix, 14 digits that decode to the date-time, '_', and 9 digits that decode to
   * the sub-second nanoseconds.
   */
  lemma PacketIDShape(now: DateTime, unixNano: int)
    requires ValidDateTime(now) && unixNano >= 0
    ensures var id := GeneratePacketID(now, unixNano);
      && |id| == 31
      && id[..7] == "packet_" && id[21] == '_'
      && AllDigits(id[7..21]) && AllDigits(id[22..])
      && DecodeDateTime(id[7..21]) == now
      && DigitsValue(id[22..]) == unixNano % 1_000_000_000
  {
    var id := GeneratePacketID(now, unixNano);
    var ds := FormatDateTime(now);
    var ns := FormatZeroPadded(GoRem(unixNano, 1_000_000_000), 9);
    DateTimeRoundTrip(now);
    Pow10Nine();
    var v := unixNano % 1_000_000_000;
    assert GoRem(unixNano, 1_000_000_000) == v;
    ZeroPadRoundTrip(v, 9);
    assert |ds| == 14 && |ns| == 9;
    IDSlices(IDPrefix, ds, ns);
  }

  /** Where the prefix, the date-time and the sub-second digits sit in an identifier. */
  lemma IDSlices(p: string, ds: string, ns: string)
    requires |p| == 7 && |ds| == 14 && |ns| == 9
    ensures var id := p + (ds + "_" + ns);
      && |id| == 31 && id[..7] == p && id[7..21] == ds && id[21] == '_' && id[22..] == ns
  {
    var id := p + (ds + "_" + ns);
    assert id[7..21] == ds;
  }

  /** Two identifiers built after the epoch coincide only for the same second and sub-second value. */
  lemma PacketIDDeterminesReading(t1: DateTime, n1: int, t2: DateTime, n2: int)
    requires ValidDateTime(t1) && ValidDateTime(t2) && n1 >= 0 && n2 >= 0
    requires GeneratePacketID(t1, n1) == GeneratePacketID(t2, n2)
    ensures t1 == t2 && n1 % 1_000_000_000 == n2 % 1_000_000_000
  {
    PacketIDShape(t1, n1);
    PacketIDShape(t2, n2);
  }

  /** NewPacket: the caller's fields unchanged, a fresh identifier and timestamp, and the defaults. */
  function NewPacket(sourceIP: string, destIP: string, protocol: string, port: int, size: int,
                     clock: ClockReadings): (p: Packet)
    ensures p.sourceIP == sourceIP && p.destinationIP == destIP && p.protocol == protocol
    ensures p.port == port && p.size == size
    ensures p.id == GeneratePacketID(clock.idDateTime, clock.idUnixNano) && p.id != ""
    ensures p.timestamp == clock.timestamp
    ensures p.ttl == DefaultTTL && p.flags == DefaultFlags && p.payload == ""
  {
    Packet(GeneratePacketID(clock.idDateTime, clock.idUnixNano), sourceIP, destIP, protocol,
           port, size, clock.timestamp, DefaultTTL, DefaultFlags, "")
  }
}
