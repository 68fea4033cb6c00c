/** Shared vocabulary: bytes, the Option/Result carriers, little-endian decoding,
    the ASCII character classes the scanners use, and the `{:X}`-style hex formatting
    the source applies to addresses and bytes. */
module Common {

  /** One byte of scanned memory (`u8`). */
  type byte = b: int | 0 <= b < 256

  /** The pointer width of the target (x86-64, `size_of::<usize>()`). */
  const PointerSize: nat := 8

  datatype Option<T> = None | Some(value: T)

  datatype Result<T, E> = Ok(value: T) | Err(error: E)

  /** `usize::from_le_bytes`: least significant byte first. */
  function LittleEndian(s: seq<byte>): nat
  {
    if s == [] then 0 else s[0] + 256 * LittleEndian(s[1..])
  }

  function Pow256(n: nat): (r: nat)
    ensures r >= 1
  {
    if n == 0 then 1 else 256 * Pow256(n - 1)
  }

  /** A little-endian value fits in as many bytes as it was read from. */
  lemma {:induction false} LittleEndianBound(s: seq<byte>)
    ensures LittleEndian(s) < Pow256(|s|)
  {
    if s != [] {
      LittleEndianBound(s[1..]);
      assert LittleEndian(s) <= 255 + 256 * (Pow256(|s| - 1) - 1);
    }
  }

  /** A value is zero exactly when every byte it was read from is zero. */
  lemma {:induction false} LittleEndianZero(s: seq<byte>)
    ensures LittleEndian(s) == 0 <==> forall k :: 0 <= k < |s| ==> s[k] == 0
  {
    if s != [] {
      LittleEndianZero(s[1..]);
      assert forall k :: 1 <= k < |s| ==> s[k] == s[1..][k - 1];
    }
  }

  /** `u8::is_ascii_graphic`: `!` through `~`. */
  predicate IsAsciiGraphic(b: byte)
  {
    0x21 <= b <= 0x7E
  }

  /** The string extractor's notion of printable: graphic or a space. */
  predicate IsPrintable(b: byte)
  {
    IsAsciiGraphic(b) || b == 0x20
  }

  /** The number of bytes of `s` among its first `n` that are printable. */
  function CountPrintable(s: seq<byte>): (c: nat)
    ensures c <= |s|
  {
    if s == [] then 0 else (if IsPrintable(s[0]) then 1 else 0) + CountPrintable(s[1..])
  }

  /** Bytes of printable ASCII read back as the characters they encode. */
  function AsciiString(s: seq<byte>): (r: string)
    ensures |r| == |s|
    ensures forall k :: 0 <= k < |s| ==> r[k] as int == s[k]
  {
    if s == [] then [] else [s[0] as char] + AsciiString(s[1..])
  }

  /** Moving the next piece `b` of `x = b + c` from the remainder `x` to the
      part `a` already found keeps `found + remainder == whole`. */
  lemma Regroup<T>(a: seq<T>, x: seq<T>, b: seq<T>, c: seq<T>, d: seq<T>, w: seq<T>)
    requires a + x == w && x == b + c && d == a + b
    ensures d + c == w
  {
    assert (a + b) + c == a + (b + c);
  }

  // ---------------------------------------------------------------------------
  // Hexadecimal text

  predicate IsHexDigit(c: char)
  {
    ('0' <= c <= '9') || ('a' <= c <= 'f') || ('A' <= c <= 'F')
  }

  /** The value of one hex digit, either case. */
  function DigitValue(c: char): (v: nat)
    requires IsHexDigit(c)
    ensures v < 16
  {
    if '0' <= c <= '9' then c as int - '0' as int
    else if 'a' <= c <= 'f' then c as int - 'a' as int + 10
    else c as int - 'A' as int + 10
  }

  /** The upper-case digit for a value below 16. */
  function HexDigit(d: nat): (c: char)
    requires d < 16
    ensures IsHexDigit(c) && DigitValue(c) == d
  {
    if d < 10 then ('0' as int + d) as char else ('A' as int + d - 10) as char
  }

  predicate AllHexDigits(s: string)
  {
    forall k :: 0 <= k < |s| ==> IsHexDigit(s[k])
  }

  /** The value of a string of hex digits, most significant first. */
  function HexValue(s: string): nat
    requires AllHexDigits(s)
  {
    if s == [] then 0 else 16 * HexValue(s[..|s| - 1]) + DigitValue(s[|s| - 1])
  }

  /** `format!("{:X}", n)`: upper-case hex without leading zeros. */
  function HexUpper(n: nat): (s: string)
    ensures 1 <= |s| && AllHexDigits(s)
  {
    if n < 16 then [HexDigit(n)] else HexUpper(n / 16) + [HexDigit(n % 16)]
  }

  /** Formatting an address in hex loses nothing: reading it back gives the address. */
  lemma {:induction false} HexUpperRoundTrip(n: nat)
    ensures HexValue(HexUpper(n)) == n
  {
    if n >= 16 {
      HexUpperRoundTrip(n / 16);
      var s := HexUpper(n);
      assert s[..|s| - 1] == HexUpper(n / 16);
    }
  }

  /** Distinct addresses get distinct hex names. */
  lemma HexUpperInjective(a: nat, b: nat)
    requires HexUpper(a) == HexUpper(b)
    ensures a == b
  {
    HexUpperRoundTrip(a);
    HexUpperRoundTrip(b);
  }

  /** Right-aligns `s` in a field of `width` characters filled with `fill`. */
  function PadLeft(s: string, width: nat, fill: char): (r: string)
    ensures |r| == if |s| >= width then |s| else width
    ensures r[|r| - |s|..] == s
    decreases width - |s|
  {
    if |s| >= width then s else PadLeft([fill] + s, width, fill)
  }

  /** Left-aligns `s` in a field of `width` characters filled with spaces (`{:<w}`). */
  function PadRight(s: string, width: nat): (r: string)
    ensures |r| == if |s| >= width then |s| else width
    ensures r[..|s|] == s
    decreases width - |s|
  {
    if |s| >= width then s else PadRight(s + " ", width)
  }

  /** `{:02X}` of one byte: exactly two upper-case digits. */
  function Hex02(b: byte): (s: string)
    ensures |s| == 2 && AllHexDigits(s) && HexValue(s) == b
  {
    var s := [HexDigit(b / 16), HexDigit(b % 16)];
    assert s[..1] == [HexDigit(b / 16)] && s[..1][..0] == [];
    assert HexValue(s[..1]) == b / 16;
    assert HexValue(s) == 16 * (b / 16) + b % 16;
    s
  }

  /** `{:08X}` of an address. */
  function Hex08(n: nat): string
  {
    PadLeft(HexUpper(n), 8, '0')
  }

  /** `Vec::join`: the parts with `sep` between neighbours. */
  function Join(parts: seq<string>, sep: string): string
  {
    if parts == [] then ""
    else if |parts| == 1 then parts[0]
    else parts[0] + sep + Join(parts[1..], sep)
  }

  // ---------------------------------------------------------------------------
  // UTF-8 length (`str::len` counts bytes, not characters)

  function Utf8Width(c: char): (n: nat)
    ensures 1 <= n <= 4
  {
    if c as int < 0x80 then 1 else if c as int < 0x800 then 2 else if c as int < 0x10000 then 3 else 4
  }

  function Utf8Length(s: string): (n: nat)
    ensures n >= |s|
  {
    if s == [] then 0 else Utf8Width(s[0]) + Utf8Length(s[1..])
  }

  /** For pure ASCII text the byte length is the character count. */
  lemma {:induction false} Utf8LengthAscii(s: string)
    requires forall k :: 0 <= k < |s| ==> s[k] as int < 0x80
    ensures Utf8Length(s) == |s|
  {
    if s != [] {
      Utf8LengthAscii(s[1..]);
    }
  }

  /** The byte length of a string exceeds the byte length of its first `k` characters by at least the rest. */
  lemma {:induction false} Utf8LengthSplit(s: string, k: nat)
    requires k <= |s|
    ensures Utf8Length(s) == Utf8Length(s[..k]) + Utf8Length(s[k..])
  {
    if k > 0 {
      Utf8LengthSplit(s[1..], k - 1);
      assert s[1..][..k - 1] == s[..k][1..];
      assert s[1..][k - 1..] == s[k..];
    }
  }
}
