/** The few .NET base types the core relies on: `Guid` (with its textual
    form, which appears in error messages), `DateTime` and the whitespace test
    behind `string.IsNullOrWhiteSpace`. */
module SystemTypes {

  function Pow16(n: nat): (r: nat)
    ensures r > 0
  {
    if n == 0 then 1 else 16 * Pow16(n - 1)
  }

  /** A `Guid` is a 128-bit value: 32 hexadecimal digits. */
  type Guid = g: nat | g < Pow16(32)

  /** `Guid.Empty`, the default value, rejected by FluentValidation's `NotEmpty`. */
  const EmptyGuid: Guid := 0

  /** A `DateTime` is its number of ticks. */
  type DateTime = nat

  function HexDigit(d: nat): (c: char)
    requires d < 16
  {
    if d < 10 then (48 + d) as char else (87 + d) as char
  }

  /** The last `n` hexadecimal digits of `x`, most significant first, lower case. */
  function Hex(x: nat, n: nat): (r: string)
    ensures |r| == n
  {
    if n == 0 then "" else Hex(x / 16, n - 1) + [HexDigit(x % 16)]
  }

  /** Distinct numbers below 16^n have distinct n-digit renderings. */
  lemma {:induction false} HexInjective(x: nat, y: nat, n: nat)
    requires x < Pow16(n) && y < Pow16(n)
    requires Hex(x, n) == Hex(y, n)
    ensures x == y
  {
    if n > 0 {
      var hx, hy := Hex(x, n), Hex(y, n);
      assert hx[n - 1] == HexDigit(x % 16) && hy[n - 1] == HexDigit(y % 16);
      assert x % 16 == y % 16;
      assert hx[..n - 1] == Hex(x / 16, n - 1);
      assert hy[..n - 1] == Hex(y / 16, n - 1);
      HexInjective(x / 16, y / 16, n - 1);
    }
  }

  /** `Guid.ToString()`: the "D" format, 8-4-4-4-12 lower-case hexadecimal digits. */
  function FormatGuid(g: Guid): (r: string)
    ensures |r| == 36
    ensures r[8] == '-' && r[13] == '-' && r[18] == '-' && r[23] == '-'
    ensures r[..8] + r[9..13] + r[14..18] + r[19..23] + r[24..] == Hex(g, 32)
  {
    var h := Hex(g, 32);
    var r := h[..8] + "-" + h[8..12] + "-" + h[12..16] + "-" + h[16..20] + "-" + h[20..];
    assert r[..8] == h[..8] && r[9..13] == h[8..12] && r[14..18] == h[12..16];
    assert r[19..23] == h[16..20] && r[24..] == h[20..];
    assert h == h[..8] + h[8..12] + h[12..16] + h[16..20] + h[20..];
    r
  }

  /** The text of a Guid names that Guid and no other. */
  lemma FormatGuidInjective(a: Guid, b: Guid)
    requires FormatGuid(a) == FormatGuid(b)
    ensures a == b
  {
    HexInjective(a, b, 32);
  }

  /** `char.IsWhiteSpace`: the Unicode space, line and paragraph separators and
      the control characters U+0009 to U+000D and U+0085. */
  predicate IsWhiteSpace(c: char)
  {
    || ('\t' <= c <= '\r')
    || c == ' '
    || c == '\U{0085}'
    || c == '\U{00A0}'
    || c == '\U{1680}'
    || ('\U{2000}' <= c <= '\U{200A}')
    || c == '\U{2028}'
    || c == '\U{2029}'
    || c == '\U{202F}'
    || c == '\U{205F}'
    || c == '\U{3000}'
  }

  /** `string.IsNullOrWhiteSpace` on a non-null string: empty or all whitespace. */
  predicate IsBlank(s: string)
  {
    forall i | 0 <= i < |s| :: IsWhiteSpace(s[i])
  }
}
