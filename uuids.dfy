/** Identifiers of users and tasks (`uuid.UUID`), their text form `str(u)` and the parser `uuid.UUID(s)`. */
module Uuids {
  import opened Wrappers
  import Text

  /** 16 to the power `k`. */
  function Pow16(k: nat): (r: nat)
    ensures r > 0
  {
    if k == 0 then 1 else 16 * Pow16(k - 1)
  }

  /** A UUID is a 128-bit number: 32 hexadecimal digits. */
  type Uuid = n: nat | n < Pow16(32) witness 0

  /** The lower-case hexadecimal digit for `d`. */
  function HexDigit(d: nat): char
    requires d < 16
  {
    if d < 10 then ('0' as int + d) as char else ('a' as int + d - 10) as char
  }

  /** The value of one hexadecimal digit of either case, as `int(c, 16)` reads it. */
  function HexValue(c: char): Option<nat>
  {
    if '0' <= c <= '9' then Some(c as int - '0' as int)
    else if 'a' <= c <= 'f' then Some(c as int - 'a' as int + 10)
    else if 'A' <= c <= 'F' then Some(c as int - 'A' as int + 10)
    else None
  }

  /** `n` written with exactly `width` lower-case hexadecimal digits, most significant first. */
  function ToHex(n: nat, width: nat): (s: string)
    requires n < Pow16(width)
    ensures |s| == width
    ensures forall i :: 0 <= i < |s| ==> '0' <= s[i] <= '9' || 'a' <= s[i] <= 'f'
    ensures forall i :: 0 <= i < |s| ==> HexValue(s[i]).Some? && s[i] != '-' && s[i] != '{' && s[i] != '}'
  {
    if width == 0 then "" else ToHex(n / 16, width - 1) + [HexDigit(n % 16)]
  }

  /** The number a string of hexadecimal digits denotes, or None when some character is not a digit. */
  function FromHex(s: string): (r: Option<nat>)
    ensures r.Some? ==> r.value < Pow16(|s|)
    ensures r.Some? <==> forall i :: 0 <= i < |s| ==> HexValue(s[i]).Some?
  {
    if s == [] then Some(0)
    else
      match FromHex(s[..|s| - 1])
      case None => None
      case Some(high) =>
        match HexValue(s[|s| - 1])
        case None => None
        case Some(low) => Some(16 * high + low)
  }

  /** Reading back the digits of `n` gives `n`. */
  lemma {:induction false} FromHexToHex(n: nat, width: nat)
    requires n < Pow16(width)
    ensures FromHex(ToHex(n, width)) == Some(n)
  {
    if width > 0 {
      var s := ToHex(n, width);
      assert s[..|s| - 1] == ToHex(n / 16, width - 1);
      FromHexToHex(n / 16, width - 1);
    }
  }

  /** `str(u)`: the canonical 8-4-4-4-12 form with lower-case digits. */
  function UuidToString(u: Uuid): (s: string)
    ensures |s| == 36
    ensures s[8] == '-' && s[13] == '-' && s[18] == '-' && s[23] == '-'
  {
    var h := ToHex(u, 32);
    h[..8] + "-" + h[8..12] + "-" + h[12..16] + "-" + h[16..20] + "-" + h[20..]
  }

  /** `uuid.UUID(s)`: surrounding braces are stripped, every hyphen is removed, and what remains must be
      exactly 32 hexadecimal digits; any other string is rejected (the source's `ValueError`). */
  function ParseUuid(s: string): (r: Option<Uuid>)
    ensures r.Some? ==> |RemoveHyphens(s)| == 32
  {
    var hex := RemoveHyphens(s);
    if |hex| != 32 then None
    else
      match FromHex(hex)
      case None => None
      case Some(n) => Some(n)
  }

  /** `s.strip('{}').replace('-', '')`. */
  function RemoveHyphens(s: string): string
  {
    Text.RemoveAll(Text.Strip(s, {'{', '}'}), '-')
  }

  /** Appending a hyphen and the next group of hyphen-free digits to a string whose hyphens removed give
      the first `i` digits gives, with hyphens removed, the first `j` digits. */
  lemma DropSeparator(x: string, h: string, i: nat, j: nat)
    requires i <= j <= |h| && '-' !in h
    requires Text.RemoveAll(x, '-') == h[..i]
    ensures Text.RemoveAll(x + "-" + h[i..j], '-') == h[..j]
  {
    var y := h[i..j];
    DropHyphen(x);
    Text.RemoveAllAppend(x + "-", y, '-');
    Text.RemoveAllAbsent(y, '-');
    assert h[..i] + y == h[..j];
  }

  /** A trailing hyphen disappears when hyphens are removed. */
  lemma DropHyphen(x: string)
    ensures Text.RemoveAll(x + "-", '-') == Text.RemoveAll(x, '-')
  {
    var dash: string := "-";
    assert dash[1..] == [];
    assert Text.RemoveAll(dash, '-') == [];
    Text.RemoveAllAppend(x, dash, '-');
    assert Text.RemoveAll(x, '-') + [] == Text.RemoveAll(x, '-');
  }

  /** Removing the hyphens of the 8-4-4-4-12 layout of 32 digits gives back the 32 digits. */
  lemma DropLayoutHyphens(h: string)
    requires |h| == 32 && '-' !in h
    ensures Text.RemoveAll(h[..8] + "-" + h[8..12] + "-" + h[12..16] + "-" + h[16..20] + "-" + h[20..], '-') == h
  {
    var s1 := h[..8];
    Text.RemoveAllAbsent(s1, '-');
    var s2 := s1 + "-" + h[8..12];
    DropSeparator(s1, h, 8, 12);
    var s3 := s2 + "-" + h[12..16];
    DropSeparator(s2, h, 12, 16);
    var s4 := s3 + "-" + h[16..20];
    DropSeparator(s3, h, 16, 20);
    DropSeparator(s4, h, 20, 32);
    assert h[20..32] == h[20..] && h[..32] == h;
  }

  /** The text form of a UUID parses back to the same UUID: `UUID(str(u)) == u`. */
  lemma ParseUuidToString(u: Uuid)
    ensures ParseUuid(UuidToString(u)) == Some(u)
  {
    var h := ToHex(u, 32);
    var s := UuidToString(u);
    assert s[0] == h[0] && s[35] == h[31];
    Text.StripNoop(s, {'{', '}'});
    DropLayoutHyphens(h);
    assert RemoveHyphens(s) == h;
    FromHexToHex(u, 32);
  }

  /** Distinct UUIDs have distinct text forms. */
  lemma UuidToStringInjective(a: Uuid, b: Uuid)
    requires UuidToString(a) == UuidToString(b)
    ensures a == b
  {
    ParseUuidToString(a);
    ParseUuidToString(b);
  }
}
