/**
 * Values shared by the submission and verification workflows: optional
 * values, bytes, the 32-byte content digest, a selected file, and the
 * "0x"-prefixed lower-case hexadecimal text in which the digest is passed
 * to the ledger and printed on the certificate.
 */
module Common {

  /** A value that may be absent (the source's `null`/`undefined`). */
  datatype Option<+T> = None | Some(value: T)

  type Byte = b: int | 0 <= b < 256
  type Bytes = seq<Byte>

  /** A Keccak-256 content digest: always 32 bytes. */
  type Digest = d: Bytes | |d| == 32 witness seq(32, i => 0)

  /** The icons the status messages start with. */
  const Cross := "\U{274C}"
  const Tick := "\U{2705}"

  /** A file the user picked or dropped: its display name and its bytes. */
  datatype FileRef = FileRef(name: string, content: Bytes)

  /** The lower-case hexadecimal digit for a nibble. */
  function HexDigit(n: int): (c: char)
    requires 0 <= n < 16
    ensures DigitValue(c) == Some(n)
  {
    if n < 10 then ('0' as int + n) as char else ('a' as int + n - 10) as char
  }

  /** The nibble a lower-case hexadecimal digit stands for; None for any other character. */
  function DigitValue(c: char): (r: Option<int>)
    ensures r.Some? ==> 0 <= r.value < 16
  {
    if '0' <= c <= '9' then Some(c as int - '0' as int)
    else if 'a' <= c <= 'f' then Some(c as int - 'a' as int + 10)
    else None
  }

  /** Two hexadecimal digits per byte, high nibble first. */
  function HexBody(d: Bytes): (s: string)
    ensures |s| == 2 * |d|
  {
    if d == [] then [] else [HexDigit(d[0] / 16), HexDigit(d[0] % 16)] + HexBody(d[1..])
  }

  /** The text form of a digest, as ethers' keccak256 returns it. */
  function ToHex(d: Bytes): string
  {
    "0x" + HexBody(d)
  }

  /** Reads back two hexadecimal digits per byte; None on an odd length or a non-digit. */
  function ParseHexBody(s: string): (r: Option<Bytes>)
    ensures r.Some? ==> 2 * |r.value| == |s|
  {
    if s == [] then Some([])
    else if |s| == 1 then None
    else
      match (DigitValue(s[0]), DigitValue(s[1]), ParseHexBody(s[2..]))
      case (Some(hi), Some(lo), Some(rest)) => Some([hi * 16 + lo] + rest)
      case _ => None
  }

  /** Reads back the "0x"-prefixed form. */
  function ParseHex(s: string): Option<Bytes>
  {
    if |s| >= 2 && s[..2] == "0x" then ParseHexBody(s[2..]) else None
  }

  lemma {:induction false} HexBodyRoundTrip(d: Bytes)
    ensures ParseHexBody(HexBody(d)) == Some(d)
  {
    if d != [] {
      var s := HexBody(d);
      assert s[0] == HexDigit(d[0] / 16) && s[1] == HexDigit(d[0] % 16);
      assert s[2..] == HexBody(d[1..]);
      HexBodyRoundTrip(d[1..]);
      assert [d[0] / 16 * 16 + d[0] % 16] + d[1..] == d;
    }
  }

  /** The digest text determines the digest: reading it back gives the digest. */
  lemma HexRoundTrip(d: Bytes)
    ensures ParseHex(ToHex(d)) == Some(d)
  {
    var s := ToHex(d);
    assert s[..2] == "0x" && s[2..] == HexBody(d);
    HexBodyRoundTrip(d);
  }

  /** Distinct digests never print the same. */
  lemma HexInjective(a: Bytes, b: Bytes)
    ensures ToHex(a) == ToHex(b) <==> a == b
  {
    if ToHex(a) == ToHex(b) {
      HexRoundTrip(a);
      HexRoundTrip(b);
    }
  }
}
