/** The string functions of Go that the event code uses, on strings of bytes below 256.
    White space is the ASCII set of unicode.IsSpace. */
module Text {
  import opened Wrappers

  function Get(m: map<string, string>, k: string): (v: string)
    ensures if k in m then v == m[k] else v == ""
  {
    if k in m then m[k] else ""
  }

  function FirstNonEmpty(a: string, b: string): string {
    if a != "" then a else b
  }

  // ---------- searching and trimming ----------

  /** The first position of c, or the length when there is none. */
  function IndexOf(s: string, c: char): (i: nat)
    ensures i <= |s|
    ensures forall j :: 0 <= j < i ==> s[j] != c
    ensures i < |s| ==> s[i] == c
  {
    if s == "" || s[0] == c then 0 else 1 + IndexOf(s[1..], c)
  }

  lemma IndexOfIs(s: string, c: char, i: nat)
    requires i <= |s| && (i < |s| ==> s[i] == c) && forall j :: 0 <= j < i ==> s[j] != c
    ensures IndexOf(s, c) == i
  {
  }

  predicate IsSpace(c: char) {
    c == ' ' || '\t' <= c <= '\r'
  }

  predicate HasPrefix(s: string, p: string) {
    p <= s
  }

  function TrimPrefix(s: string, p: string): string {
    if HasPrefix(s, p) then s[|p|..] else s
  }

  function TrimLeft(s: string): string {
    if s != "" && IsSpace(s[0]) then TrimLeft(s[1..]) else s
  }

  function TrimRight(s: string, cut: char -> bool): (r: string)
    ensures r <= s
  {
    if s != "" && cut(s[|s| - 1]) then TrimRight(s[..|s| - 1], cut) else s
  }

  function TrimSpace(s: string): string {
    TrimRight(TrimLeft(s), IsSpace)
  }

  /** Nothing to trim at either end. */
  predicate Tight(s: string) {
    s != "" ==> !IsSpace(s[0]) && !IsSpace(s[|s| - 1])
  }

  lemma TrimTight(s: string)
    requires Tight(s)
    ensures TrimSpace(s) == s
    ensures TrimSpace(" " + s) == s
  {
    assert (" " + s)[1..] == s;
  }

  predicate White(c: char) {
    c in [' ', '\t', '\n', 0x0B as char, 0x0C as char, '\r']
  }

  /** What is trimmed: the longest run of these six characters at either end. */
  lemma TrimSpaceIs(s: string)
    ensures exists i, j :: 0 <= i <= j <= |s| && TrimmedAt(s, i, j) && TrimSpace(s) == s[i..j]
  {
    var i := LeftIs(s);
    var t := s[i..];
    var j := RightIs(t);
    assert s[i..i + j] == t[..j];
    assert forall k :: i + j <= k < |s| ==> s[k] == t[k - i];
    assert TrimmedAt(s, i, i + j);
  }

  /** Nothing but white space stands outside the positions i to j - 1, and none at their ends. */
  ghost predicate TrimmedAt(s: string, i: int, j: int)
    requires 0 <= i <= j <= |s|
  {
    && (forall k :: 0 <= k < i || j <= k < |s| ==> White(s[k]))
    && (i < j ==> !White(s[i]) && !White(s[j - 1]))
  }

  lemma {:induction false} LeftIs(s: string) returns (i: nat)
    ensures i <= |s| && TrimLeft(s) == s[i..]
    ensures (forall k :: 0 <= k < i ==> White(s[k])) && (i < |s| ==> !White(s[i]))
  {
    if s != "" && IsSpace(s[0]) {
      i := LeftIs(s[1..]);
      i := i + 1;
    } else {
      i := 0;
    }
  }

  lemma {:induction false} RightIs(s: string) returns (j: nat)
    ensures j <= |s| && TrimRight(s, IsSpace) == s[..j]
    ensures (forall k :: j <= k < |s| ==> White(s[k])) && (j > 0 ==> !White(s[j - 1]))
  {
    if s != "" && IsSpace(s[|s| - 1]) {
      j := RightIs(s[..|s| - 1]);
    } else {
      j := |s|;
    }
  }

  // ---------- decimal numbers ----------

  const MAX_INT: int := 0x7FFF_FFFF_FFFF_FFFF
  const MIN_INT: int := -MAX_INT - 1

  predicate IsDigit(c: char) {
    '0' <= c <= '9'
  }

  predicate AllDigits(s: string) {
    forall i :: 0 <= i < |s| ==> IsDigit(s[i])
  }

  function DigitsValue(s: string): nat
    requires AllDigits(s)
  {
    if s == "" then 0 else 10 * DigitsValue(s[..|s| - 1]) + (s[|s| - 1] as int - '0' as int)
  }

  function Clamp(n: int): int {
    if n > MAX_INT then MAX_INT else if n < MIN_INT then MIN_INT else n
  }

  /** A sign and digits; nothing for any other text. */
  function Decimal(s: string): Option<int> {
    var digits := if s != "" && (s[0] == '-' || s[0] == '+') then s[1..] else s;
    if digits == "" || !AllDigits(digits) then None
    else if s[0] == '-' then Some(0 - DigitsValue(digits))
    else Some(DigitsValue(digits))
  }

  /** strconv.Atoi: nothing for what is not a number or does not fit. */
  function AtoiStrict(s: string): Option<int> {
    var n := Decimal(s);
    if n.Some? && MIN_INT <= n.value <= MAX_INT then n else None
  }

  /** strconv.Atoi with its error thrown away: 0 for what is not a number, the nearest int for what
      does not fit. */
  function Atoi(s: string): (n: int)
    ensures MIN_INT <= n <= MAX_INT
  {
    match Decimal(s) case None => 0 case Some(n) => Clamp(n)
  }

  function NatText(n: nat): (s: string)
    ensures s != "" && AllDigits(s)
  {
    var last := ['0' + (n % 10) as char];
    if n < 10 then last else NatText(n / 10) + last
  }

  function Itoa(n: int): (s: string)
    ensures s != ""
  {
    if n < 0 then "-" + NatText(-n) else NatText(n)
  }

  lemma {:induction false} DigitsOfNat(n: nat)
    ensures DigitsValue(NatText(n)) == n
  {
    if n >= 10 {
      DigitsOfNat(n / 10);
      assert NatText(n)[..|NatText(n)| - 1] == NatText(n / 10);
    }
  }

  /** Atoi undoes Itoa on every Go int. */
  lemma AtoiItoa(n: int)
    requires MIN_INT <= n <= MAX_INT
    ensures Atoi(Itoa(n)) == n && AtoiStrict(Itoa(n)) == Some(n)
  {
    if n < 0 {
      DigitsOfNat(-n);
      assert Itoa(n)[1..] == NatText(-n);
    } else {
      DigitsOfNat(n);
      assert IsDigit(NatText(n)[0]);
    }
  }

  /** What does not fit is clamped where the error is thrown away, and refused where it is not. */
  lemma AtoiTooBig(n: nat)
    requires n > 9223372036854775807
    ensures Atoi(NatText(n)) == 9223372036854775807 && AtoiStrict(NatText(n)) == None
    ensures n > 9223372036854775808 ==>
              Atoi("-" + NatText(n)) == -9223372036854775808 && AtoiStrict("-" + NatText(n)) == None
  {
    DigitsOfNat(n);
    assert IsDigit(NatText(n)[0]);
    assert ("-" + NatText(n))[1..] == NatText(n);
  }

  /** Text with anything but digits behind a sign is no number. */
  lemma NotDecimal(s: string)
    requires s in ["", "-", "+"] || exists i :: 0 < i < |s| && !('0' <= s[i] <= '9')
    ensures Atoi(s) == 0 && AtoiStrict(s) == None
  {
    if i :| 0 < i < |s| && !('0' <= s[i] <= '9') {
      assert s[1..][i - 1] == s[i];
    }
  }

  // ---------- percent encoding (RFC 3986, section 2.1) ----------

  predicate IsHex(c: char) {
    IsDigit(c) || 'A' <= c <= 'F' || 'a' <= c <= 'f'
  }

  function HexValue(c: char): (v: nat)
    requires IsHex(c)
    ensures v < 16
  {
    if IsDigit(c) then c as int - '0' as int
    else if 'A' <= c <= 'F' then c as int - 'A' as int + 10
    else c as int - 'a' as int + 10
  }

  function HexDigit(v: nat): (c: char)
    requires v < 16
    ensures IsHex(c) && HexValue(c) == v
  {
    if v < 10 then '0' + v as char else 'A' + (v - 10) as char
  }

  /** url.PathUnescape: None for a percent sign that two hexadecimal digits do not follow. */
  function PathUnescape(s: string): Option<string> {
    if s == "" then Some("")
    else if s[0] != '%' then
      match PathUnescape(s[1..])
      case None => None
      case Some(t) => Some([s[0]] + t)
    else if |s| < 3 || !IsHex(s[1]) || !IsHex(s[2]) then None
    else
      match PathUnescape(s[3..])
      case None => None
      case Some(t) => Some([(16 * HexValue(s[1]) + HexValue(s[2])) as char] + t)
  }

  const UPPER := "0123456789ABCDEF"
  const LOWER := "0123456789abcdef"

  /** A percent sign and two hexadecimal digits, in either case, are the byte they spell; where they are
      not two such digits, nothing is decoded. */
  lemma UnescapeHex(v: nat, w: nat, rest: string)
    requires v < 16 && w < 16 && PathUnescape(rest).Some?
    ensures forall a, b :: a in {UPPER[v], LOWER[v]} && b in {UPPER[w], LOWER[w]} ==>
              PathUnescape(['%', a, b] + rest) == Some([(16 * v + w) as char] + PathUnescape(rest).value)
  {
    HexIs(v);
    HexIs(w);
    forall a, b | a in {UPPER[v], LOWER[v]} && b in {UPPER[w], LOWER[w]}
      ensures PathUnescape(['%', a, b] + rest) == Some([(16 * v + w) as char] + PathUnescape(rest).value)
    {
      var s := ['%', a, b] + rest;
      assert s[0] == '%' && s[1] == a && s[2] == b && s[3..] == rest;
    }
  }

  lemma HexIs(v: nat)
    requires v < 16
    ensures IsHex(UPPER[v]) && HexValue(UPPER[v]) == v && IsHex(LOWER[v]) && HexValue(LOWER[v]) == v
  {
  }

  lemma HexIn(c: char)
    ensures IsHex(c) ==> c in UPPER || c in LOWER
  {
    if '0' <= c <= '9' {
      assert c == UPPER[c as int - '0' as int];
    } else if 'A' <= c <= 'F' {
      assert c == UPPER[c as int - 'A' as int + 10];
    } else if 'a' <= c <= 'f' {
      assert c == LOWER[c as int - 'a' as int + 10];
    }
  }

  lemma NotHex(c: char, rest: string)
    requires c !in UPPER && c !in LOWER
    ensures PathUnescape("%" + [c] + rest) == None && PathUnescape(['%', '0', c] + rest) == None
    ensures PathUnescape("%") == None && PathUnescape("%0") == None
  {
    HexIn(c);
    assert ("%" + [c] + rest)[1] == c;
    assert (['%', '0', c] + rest)[2] == c;
  }

  predicate IsBytes(s: string) {
    forall i :: 0 <= i < |s| ==> s[i] as int < 256
  }

  predicate Unreserved(c: char) {
    IsDigit(c) || 'A' <= c <= 'Z' || 'a' <= c <= 'z' || c in "-._~"
  }

  function Escape(c: char): string
    requires c as int < 256
  {
    if Unreserved(c) then [c] else ['%', HexDigit(c as int / 16), HexDigit(c as int % 16)]
  }

  function PercentEncode(s: string): (r: string)
    requires IsBytes(s)
    ensures forall i :: 0 <= i < |r| ==> Unreserved(r[i]) || r[i] == '%'
  {
    if s == "" then "" else Escape(s[0]) + PercentEncode(s[1..])
  }

  lemma {:induction false} UnescapeEncode(s: string)
    requires IsBytes(s)
    ensures PathUnescape(PercentEncode(s)) == Some(s)
  {
    if s != "" {
      UnescapeEncode(s[1..]);
      var r, tail := PercentEncode(s), PercentEncode(s[1..]);
      if Unreserved(s[0]) {
        assert r[1..] == tail;
      } else {
        assert r[3..] == tail && r[1] == HexDigit(s[0] as int / 16) && r[2] == HexDigit(s[0] as int % 16);
        assert r[0] == '%';
        assert (16 * HexValue(r[1]) + HexValue(r[2])) as char == s[0];
      }
      assert [s[0]] + s[1..] == s;
    }
  }
}
