/**
 * Whitespace and `String.prototype.trim` as the contact form's validator uses them.
 * JavaScript's `trim()` and the regular-expression class `\s` both stand for the
 * same set of code points: WhiteSpace (ECMA-262, section 12.2) together with
 * LineTerminator (ECMA-262, section 12.3).
 */
module Text {

  /** WhiteSpace: TAB, VT, FF, ZWNBSP and every code point of Unicode category Zs;
      LineTerminator: LF, CR, LINE SEPARATOR and PARAGRAPH SEPARATOR. */
  predicate IsWs(c: char) {
    var n := c as int;
    || n == 0x09 || n == 0x0B || n == 0x0C || n == 0xFEFF
    || n == 0x20 || n == 0xA0 || n == 0x1680 || 0x2000 <= n <= 0x200A
    || n == 0x202F || n == 0x205F || n == 0x3000
    || n == 0x0A || n == 0x0D || n == 0x2028 || n == 0x2029
  }

  /** Every character of `s` is whitespace (vacuously so for the empty string). */
  predicate AllWs(s: string) {
    forall k :: 0 <= k < |s| ==> IsWs(s[k])
  }

  /** The number of whitespace characters at the start of `s`. */
  function LeadingWs(s: string): (n: nat)
    ensures n <= |s| && AllWs(s[..n])
    ensures n < |s| ==> !IsWs(s[n])
  {
    if s != [] && IsWs(s[0]) then
      var n := 1 + LeadingWs(s[1..]);
      assert s[..n] == [s[0]] + s[1..][..n - 1];
      n
    else 0
  }

  /** Where the whitespace at the end of `s` begins. */
  function TrailingWsStart(s: string): (m: nat)
    ensures m <= |s| && AllWs(s[m..])
    ensures 0 < m ==> !IsWs(s[m - 1])
  {
    if s != [] && IsWs(s[|s| - 1]) then
      var m := TrailingWsStart(s[..|s| - 1]);
      assert s[m..] == s[..|s| - 1][m..] + [s[|s| - 1]];
      m
    else |s|
  }

  /** `s.trim()`: whitespace removed at both ends. The result is empty exactly
      when `s` holds nothing but whitespace, which is when `!s.trim()` is true in
      JavaScript; otherwise it starts and ends with a non-whitespace character,
      it is one contiguous run of `s`, and all that was dropped on either side is
      whitespace. */
  function Trim(s: string): (r: string)
    ensures r == [] <==> AllWs(s)
    ensures r != [] ==> !IsWs(r[0]) && !IsWs(r[|r| - 1])
    ensures var i := LeadingWs(s);
      && i + |r| <= |s| && r == s[i..i + |r|]
      && AllWs(s[..i]) && AllWs(s[i + |r|..])
  {
    var i := LeadingWs(s);
    var j := TrailingWsStart(s);
    if j <= i then
      assert i == |s|;
      assert s[..i] == s;
      []
    else
      s[i..j]
  }
}
