/**
 * The disk-cache key derived from an image URL (`String.formatUrlKey` in
 * ui/adapter/ImageCache.kt): the URL is encoded as UTF-8, the first byte of
 * the resulting stream is read (-1 when the stream is empty), and that Int is
 * written in decimal.
 */
module UrlKey {
  import opened Wrappers

  /** The UTF-8 encoding of one Unicode scalar value: one to four bytes. */
  function EncodeChar(c: char): (bytes: seq<int>)
    ensures 1 <= |bytes| <= 4
    ensures forall i :: 0 <= i < |bytes| ==> 0 <= bytes[i] < 256
  {
    var cp := c as int;
    if cp < 0x80 then [cp]
    else if cp < 0x800 then [0xC0 + cp / 0x40, 0x80 + cp % 0x40]
    else if cp < 0x10000 then [0xE0 + cp / 0x1000, 0x80 + (cp / 0x40) % 0x40, 0x80 + cp % 0x40]
    else [0xF0 + cp / 0x40000, 0x80 + (cp / 0x1000) % 0x40, 0x80 + (cp / 0x40) % 0x40, 0x80 + cp % 0x40]
  }

  /** `toByteArray(Charsets.UTF_8)`: the characters encoded one after another. */
  function Utf8Encode(s: string): (bytes: seq<int>)
    ensures forall i :: 0 <= i < |bytes| ==> 0 <= bytes[i] < 256
    ensures |bytes| == 0 <==> |s| == 0
  {
    if s == [] then [] else EncodeChar(s[0]) + Utf8Encode(s[1..])
  }

  /** `InputStream.read()` on a fresh byte stream: the first byte, or -1 at end of stream. */
  function ReadFirst(bytes: seq<int>): int {
    if bytes == [] then -1 else bytes[0]
  }

  function DigitChar(d: int): char
    requires 0 <= d < 10
  {
    (48 + d) as char
  }

  predicate IsDigitChar(c: char) {
    48 <= c as int < 58
  }

  /** Decimal digits of a natural number, most significant first, no leading zero. */
  function NatToString(n: nat): (s: string)
    ensures 1 <= |s|
    ensures forall i :: 0 <= i < |s| ==> IsDigitChar(s[i])
    ensures n < 10 <==> |s| == 1
    ensures n < 100 ==> |s| <= 2
    ensures n < 1000 ==> |s| <= 3
  {
    if n < 10 then [DigitChar(n)] else NatToString(n / 10) + [DigitChar(n % 10)]
  }

  /** Kotlin's `Int.toString()`. */
  function IntToString(n: int): string {
    if n < 0 then "-" + NatToString(-n) else NatToString(n)
  }

  /** Reads back a string of decimal digits. */
  function ParseNat(s: string): Option<nat>
    decreases |s|
  {
    if s == [] || !IsDigitChar(s[|s| - 1]) then None
    else
      var d := s[|s| - 1] as int - 48;
      if |s| == 1 then Some(d)
      else match ParseNat(s[..|s| - 1])
        case None => None
        case Some(m) => Some(m * 10 + d)
  }

  /** Reads back what IntToString writes: an optional '-' and decimal digits. */
  function ParseInt(s: string): Option<int> {
    if |s| > 0 && s[0] == '-' then
      match ParseNat(s[1..])
      case None => None
      case Some(m) => Some(-(m as int))
    else
      match ParseNat(s)
      case None => None
      case Some(m) => Some(m as int)
  }

  lemma {:induction false} ParseNatToString(n: nat)
    ensures ParseNat(NatToString(n)) == Some(n)
  {
    if n >= 10 {
      var s := NatToString(n);
      assert s[..|s| - 1] == NatToString(n / 10);
      ParseNatToString(n / 10);
    }
  }

  /** Decimal writing round-trips, so it is injective. */
  lemma {:induction false} IntToStringRoundTrip(n: int)
    ensures ParseInt(IntToString(n)) == Some(n)
  {
    var s := IntToString(n);
    if n < 0 {
      ParseNatToString(-n);
      assert s == "-" + NatToString(-n);
      assert s[1..] == NatToString(-n);
    } else {
      ParseNatToString(n);
      assert s == NatToString(n);
      assert IsDigitChar(s[0]);
    }
  }

  /** The first byte of a URL's UTF-8 encoding, or -1 for the empty URL. */
  function FirstByte(url: string): int {
    ReadFirst(Utf8Encode(url))
  }

  /** `formatUrlKey`: `byteInputStream().use { it.read().toString() }`. */
  function FormatUrlKey(url: string): string {
    IntToString(FirstByte(url))
  }

  /** The lead byte of a character's encoding: the character itself below 0x80, else 0xC2..0xF4. */
  lemma LeadByteRange(c: char)
    ensures c as int < 0x80 ==> EncodeChar(c)[0] == c as int
    ensures c as int >= 0x80 ==> 0xC2 <= EncodeChar(c)[0] <= 0xF4
  {
  }

  /** Only the first character of the URL reaches the key. */
  lemma FirstByteIsLeadByte(url: string)
    ensures url == [] ==> FirstByte(url) == -1
    ensures url != [] ==> FirstByte(url) == EncodeChar(url[0])[0]
    ensures -1 <= FirstByte(url) < 256
  {
  }

  /**
   * The key is one of "-1", "0", ..., "255": at most three characters, each a
   * digit or '-', which DiskLruCache accepts as an entry key.
   */
  lemma FormatUrlKeyRange(url: string)
    ensures var key := FormatUrlKey(url);
      && 1 <= |key| <= 3
      && (forall i :: 0 <= i < |key| ==> IsDigitChar(key[i]) || key[i] == '-')
      && ParseInt(key).Some? && -1 <= ParseInt(key).value <= 255
      && (key == "-1" <==> url == [])
  {
    FirstByteIsLeadByte(url);
    IntToStringRoundTrip(FirstByte(url));
    if url != [] {
      assert IntToString(FirstByte(url))[0] != '-';
    }
  }

  /** Two URLs get the same disk key exactly when their UTF-8 encodings start with the same byte. */
  lemma SameKeyIffSameFirstByte(a: string, b: string)
    ensures FormatUrlKey(a) == FormatUrlKey(b) <==> FirstByte(a) == FirstByte(b)
  {
    IntToStringRoundTrip(FirstByte(a));
    IntToStringRoundTrip(FirstByte(b));
  }

  /** In particular every URL that starts with the same character shares one disk key. */
  lemma SameFirstCharSharesKey(a: string, b: string)
    requires a != [] && b != [] && a[0] == b[0]
    ensures FormatUrlKey(a) == FormatUrlKey(b)
  {
    FirstByteIsLeadByte(a);
    FirstByteIsLeadByte(b);
  }

  /** Every "https://..." URL is stored under the key "104", the code of 'h'. */
  lemma HttpsUrlsShareKey104(url: string)
    requires |url| > 0 && url[0] == 'h'
    ensures FormatUrlKey(url) == "104"
  {
    FirstByteIsLeadByte(url);
    assert NatToString(104) == NatToString(10) + ['4'];
  }
}
