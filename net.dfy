/** The parts of Go's `net` package that the driver's MAC derivation relies on:
    an IP address as a byte slice, its IPv4 view (`IP.To4`), and the textual
    form of a hardware address (`HardwareAddr.String`). */
module Net {
  import opened Wrappers

  newtype byte = x: int | 0 <= x < 256

  /** A Go `net.IP`: a 4-byte (IPv4) or 16-byte (IPv6) slice; any other
      length is possible and is not an address. */
  type IP = seq<byte>

  /** The 12-byte prefix of an IPv4-mapped IPv6 address (::ffff:a.b.c.d). */
  const V4InV6Prefix: seq<byte> := [0, 0, 0, 0, 0, 0, 0, 0, 0, 0, 0xff, 0xff]

  /** `IP.To4`: the four octets of an IPv4 address, whether held in 4 bytes or
      as an IPv4-mapped 16-byte address; None for anything else. */
  function To4(ip: IP): (r: Option<seq<byte>>)
    ensures r.Some? <==> |ip| == 4 || (|ip| == 16 && ip[..12] == V4InV6Prefix)
    ensures r.Some? ==> |r.value| == 4 && r.value == ip[|ip| - 4..]
  {
    if |ip| == 4 then Some(ip)
    else if |ip| == 16 && ip[..12] == V4InV6Prefix then Some(ip[12..])
    else None
  }

  /** The lower-case hexadecimal digit for 0 <= n < 16: entry n of the digit
      table "0123456789abcdef". */
  function HexDigit(n: int): (c: char)
    requires 0 <= n < 16
    ensures '0' <= c <= '9' || 'a' <= c <= 'f'
    ensures c == "0123456789abcdef"[n]
  {
    if n < 10 then (48 + n) as char else (87 + n) as char
  }

  /** A byte as two lower-case hexadecimal digits, high nibble first. */
  function HexByte(b: byte): (s: string)
    ensures |s| == 2
  {
    [HexDigit(b as int / 16), HexDigit(b as int % 16)]
  }

  lemma HexByteInjective(a: byte, b: byte)
    requires HexByte(a) == HexByte(b)
    ensures a == b
  {
  }

  /** `HardwareAddr.String`: every byte as two hexadecimal digits, the groups
      separated by colons. */
  function FormatHardwareAddr(a: seq<byte>): (s: string)
    ensures |a| == 0 ==> s == ""
    ensures |a| > 0 ==> |s| == 3 * |a| - 1
    ensures forall k :: 0 <= k < |a| ==> s[3 * k..3 * k + 2] == HexByte(a[k])
    ensures forall k :: 0 <= k < |a| - 1 ==> s[3 * k + 2] == ':'
    decreases |a|
  {
    if |a| <= 1 then (if |a| == 0 then "" else HexByte(a[0]))
    else
      var rest := FormatHardwareAddr(a[1..]);
      var s := HexByte(a[0]) + ":" + rest;
      assert forall j :: 3 <= j < |s| ==> s[j] == rest[j - 3];
      assert forall k :: 1 <= k < |a| ==> s[3 * k..3 * k + 2] == rest[3 * (k - 1)..3 * (k - 1) + 2] by {
        forall k | 1 <= k < |a| ensures s[3 * k..3 * k + 2] == rest[3 * (k - 1)..3 * (k - 1) + 2] {
          assert s[3 * k] == rest[3 * (k - 1)] && s[3 * k + 1] == rest[3 * (k - 1) + 1];
        }
      }
      assert forall k :: 1 <= k < |a| - 1 ==> s[3 * k + 2] == ':' by {
        forall k | 1 <= k < |a| - 1 ensures s[3 * k + 2] == ':' {
          assert s[3 * k + 2] == rest[3 * (k - 1) + 2];
        }
      }
      s
  }

  /** Different byte strings of the same length are rendered differently. */
  lemma FormatHardwareAddrInjective(a: seq<byte>, b: seq<byte>)
    requires |a| == |b|
    requires FormatHardwareAddr(a) == FormatHardwareAddr(b)
    ensures a == b
  {
    forall k | 0 <= k < |a|
      ensures a[k] == b[k]
    {
      var s := FormatHardwareAddr(a);
      assert HexByte(a[k]) == s[3 * k..3 * k + 2] == HexByte(b[k]);
      HexByteInjective(a[k], b[k]);
    }
  }
}
