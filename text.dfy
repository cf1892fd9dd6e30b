/**
  String helpers the component relies on, written out with JavaScript's semantics:
  ASCII `toLowerCase`, `includes`, `split` on one character, `Number.prototype.toString`
  for integers and `parseInt` without a radix.
*/
module Text {
  import opened Common

  // ---------------------------------------------------------------------------
  // Case folding and substring search

  function LowerChar(c: char): char {
    if 'A' <= c <= 'Z' then (c as int + 32) as char else c
  }

  /** `toLowerCase`, restricted to the ASCII letters. */
  function Lower(s: string): (r: string)
    ensures |r| == |s|
  {
    seq(|s|, i requires 0 <= i < |s| => LowerChar(s[i]))
  }

  predicate IsPrefix(p: string, s: string) {
    |p| <= |s| && s[..|p|] == p
  }

  /** `hay.includes(needle)`. */
  predicate Contains(hay: string, needle: string)
    decreases |hay|
  {
    IsPrefix(needle, hay) || (hay != [] && Contains(hay[1..], needle))
  }

  /** `needle` occurs in `hay` starting at offset `i`. */
  predicate OccursAt(hay: string, needle: string, i: int) {
    0 <= i <= |hay| - |needle| && hay[i..i + |needle|] == needle
  }

  /** `Contains` holds exactly when `needle` occurs at some offset of `hay`. */
  lemma {:induction false} ContainsIff(hay: string, needle: string)
    ensures Contains(hay, needle) <==> exists i :: OccursAt(hay, needle, i)
    decreases |hay|
  {
    if IsPrefix(needle, hay) {
      assert OccursAt(hay, needle, 0);
    } else if hay == [] {
      assert forall i :: !OccursAt(hay, needle, i);
    } else {
      ContainsIff(hay[1..], needle);
      if i :| OccursAt(hay, needle, i) {
        assert i != 0;
        assert hay[1..][i - 1..i - 1 + |needle|] == hay[i..i + |needle|];
        assert OccursAt(hay[1..], needle, i - 1);
      }
      if j :| OccursAt(hay[1..], needle, j) {
        assert hay[1..][j..j + |needle|] == hay[j + 1..j + 1 + |needle|];
        assert OccursAt(hay, needle, j + 1);
      }
    }
  }

  lemma EmptyIsContained(hay: string)
    ensures Contains(hay, "")
  {
    assert IsPrefix("", hay);
  }

  // ---------------------------------------------------------------------------
  // `split` on a single character and its inverse `join`

  /** `s.split(c)`: the pieces between occurrences of `c`, never an empty list. */
  function Split(s: string, c: char): (parts: seq<string>)
    ensures |parts| >= 1
    ensures forall i :: 0 <= i < |parts| ==> c !in parts[i]
  {
    if s == [] then [""]
    else
      var rest := Split(s[1..], c);
      if s[0] == c then [""] + rest
      else [[s[0]] + rest[0]] + rest[1..]
  }

  /** `parts.join(c)`. */
  function Join(parts: seq<string>, c: char): string
    requires |parts| >= 1
  {
    if |parts| == 1 then parts[0] else parts[0] + [c] + Join(parts[1..], c)
  }

  /** Joining the pieces gives back the original text. */
  lemma {:induction false} JoinSplit(s: string, c: char)
    ensures Join(Split(s, c), c) == s
  {
    if s != [] {
      var rest := Split(s[1..], c);
      JoinSplit(s[1..], c);
      if s[0] == c {
        assert Split(s, c)[1..] == rest;
      } else {
        var parts := Split(s, c);
        if |rest| == 1 {
          assert parts == [[s[0]] + rest[0]];
        } else {
          assert parts[1..] == rest[1..];
          assert Join(parts, c) == [s[0]] + rest[0] + [c] + Join(rest[1..], c);
          assert Join(rest, c) == rest[0] + [c] + Join(rest[1..], c);
        }
      }
    }
  }

  /** Splitting a join of separator-free pieces gives back the pieces. */
  lemma {:induction false} SplitJoin(parts: seq<string>, c: char)
    requires |parts| >= 1
    requires forall i :: 0 <= i < |parts| ==> c !in parts[i]
    ensures Split(Join(parts, c), c) == parts
    decreases |parts|, |parts[0]|
  {
    if |parts[0]| > 0 {
      var p0 := parts[0];
      var tail := [p0[1..]] + parts[1..];
      assert c !in tail[0];
      assert forall i :: 1 <= i < |tail| ==> tail[i] == parts[i];
      SplitJoin(tail, c);
      var s := Join(parts, c);
      if |parts| == 1 {
        assert s[1..] == Join(tail, c);
      } else {
        assert tail[1..] == parts[1..];
        assert s == [p0[0]] + (p0[1..] + [c] + Join(parts[1..], c));
        assert s[1..] == Join(tail, c);
      }
      assert s[0] == p0[0] && s[0] != c;
      assert [s[0]] + p0[1..] == p0;
      assert Split(s, c) == [[s[0]] + tail[0]] + tail[1..];
      assert tail[1..] == parts[1..];
    } else if |parts| > 1 {
      SplitJoin(parts[1..], c);
      var s := Join(parts, c);
      assert s == [c] + Join(parts[1..], c);
      assert s[1..] == Join(parts[1..], c);
    }
  }

  lemma {:induction false} JoinLast(parts: seq<string>, c: char)
    requires |parts| >= 2
    ensures Join(parts, c) == Join(parts[..|parts| - 1], c) + [c] + parts[|parts| - 1]
    decreases |parts|
  {
    var n := |parts|;
    if n > 2 {
      var tail := parts[1..];
      JoinLast(tail, c);
      var init := parts[..n - 1];
      assert init[1..] == tail[..n - 2];
      assert Join(init, c) == parts[0] + [c] + Join(tail[..n - 2], c);
      assert Join(parts, c) == parts[0] + [c] + (Join(tail[..n - 2], c) + [c] + parts[n - 1]);
    } else {
      assert parts[..1] == [parts[0]];
      assert parts[1..] == [parts[1]];
    }
  }

  lemma JoinFirst(parts: seq<string>, c: char)
    requires |parts| >= 2
    ensures Join(parts, c) == parts[0] + [c] + Join(parts[1..], c)
  {
  }

  /** The last piece of a split is the text after the last separator. */
  lemma LastPiece(s: string, c: char)
    ensures var parts := Split(s, c); var r := parts[|parts| - 1];
      c !in r && |r| <= |s| && s[|s| - |r|..] == r && (|r| < |s| ==> s[|s| - |r| - 1] == c)
  {
    var parts := Split(s, c);
    JoinSplit(s, c);
    if |parts| >= 2 {
      JoinLast(parts, c);
    }
  }

  /** The first piece of a split is the text before the first separator. */
  lemma FirstPiece(s: string, c: char)
    ensures var r := Split(s, c)[0];
      c !in r && IsPrefix(r, s) && (|r| < |s| ==> s[|r|] == c)
  {
    var parts := Split(s, c);
    JoinSplit(s, c);
    if |parts| >= 2 {
      JoinFirst(parts, c);
    }
  }

  // ---------------------------------------------------------------------------
  // Integers as decimal text and back

  predicate IsDigit(c: char) {
    '0' <= c <= '9'
  }

  function DigitChar(d: nat): (c: char)
    requires d < 10
    ensures IsDigit(c)
  {
    (('0' as int) + d) as char
  }

  function DigitValue(c: char): nat
    requires IsDigit(c)
  {
    c as int - '0' as int
  }

  /** Value of a string of decimal digits. */
  function DecimalValue(s: string): nat
    requires forall i :: 0 <= i < |s| ==> IsDigit(s[i])
  {
    if s == [] then 0 else DecimalValue(s[..|s| - 1]) * 10 + DigitValue(s[|s| - 1])
  }

  /**
    Decimal digits of a natural number, most significant first: the canonical form, which
    denotes the number and starts with '0' only when it is "0" itself.
  */
  function NatToString(n: nat): (s: string)
    ensures |s| >= 1
    ensures forall i :: 0 <= i < |s| ==> IsDigit(s[i])
    ensures DecimalValue(s) == n
    ensures s[0] == '0' ==> s == "0"
  {
    if n < 10 then [DigitChar(n)]
    else
      var front := NatToString(n / 10);
      var s := front + [DigitChar(n % 10)];
      assert s[..|s| - 1] == front;
      s
  }

  /** `n.toString()` for an integral number. */
  function IntToString(n: int): string {
    if n < 0 then "-" + NatToString(-n) else NatToString(n)
  }

  predicate IsHexDigit(c: char) {
    IsDigit(c) || 'a' <= c <= 'f' || 'A' <= c <= 'F'
  }

  function HexDigitValue(c: char): nat
    requires IsHexDigit(c)
  {
    if IsDigit(c) then DigitValue(c)
    else if 'a' <= c <= 'f' then c as int - 'a' as int + 10
    else c as int - 'A' as int + 10
  }

  /** Value of a string of hexadecimal digits. */
  function HexValue(s: string): nat
    requires forall i :: 0 <= i < |s| ==> IsHexDigit(s[i])
  {
    if s == [] then 0 else HexValue(s[..|s| - 1]) * 16 + HexDigitValue(s[|s| - 1])
  }

  /** The longest prefix of decimal digits. */
  function DecimalPrefix(s: string): (r: string)
    ensures IsPrefix(r, s)
    ensures forall i :: 0 <= i < |r| ==> IsDigit(r[i])
    ensures |r| < |s| ==> !IsDigit(s[|r|])
  {
    if s != [] && IsDigit(s[0]) then [s[0]] + DecimalPrefix(s[1..]) else []
  }

  /** The longest prefix of hexadecimal digits. */
  function HexPrefix(s: string): (r: string)
    ensures IsPrefix(r, s)
    ensures forall i :: 0 <= i < |r| ==> IsHexDigit(r[i])
    ensures |r| < |s| ==> !IsHexDigit(s[|r|])
  {
    if s != [] && IsHexDigit(s[0]) then [s[0]] + HexPrefix(s[1..]) else []
  }

  /**
    The white-space characters `parseInt` skips, as far as this model recognises them: the
    ASCII ones, U+00A0, U+FEFF and the line and paragraph separators U+2028 and U+2029.
    The other Unicode space separators (U+1680, U+2000 to U+200A, U+202F, U+205F, U+3000)
    are not included.
  */
  predicate IsWhiteSpace(c: char) {
    c == ' ' || c == '\t' || c == '\n' || c == '\r' || c == '\U{B}' || c == '\U{C}'
    || c == '\U{A0}' || c == '\U{FEFF}' || c == '\U{2028}' || c == '\U{2029}'
  }

  /** `s` without its leading white space: the dropped prefix is all white space and the rest does not start with any. */
  function TrimStart(s: string): (r: string)
    ensures |r| <= |s| && s[|s| - |r|..] == r
    ensures forall i :: 0 <= i < |s| - |r| ==> IsWhiteSpace(s[i])
    ensures r != [] ==> !IsWhiteSpace(r[0])
  {
    if s != [] && IsWhiteSpace(s[0]) then
      var r := TrimStart(s[1..]);
      assert forall i :: 1 <= i < |s| - |r| ==> s[i] == s[1..][i - 1];
      r
    else s
  }

  predicate HasSign(t: string) {
    t != [] && (t[0] == '-' || t[0] == '+')
  }

  predicate HasHexPrefix(u: string) {
    |u| >= 2 && u[0] == '0' && (u[1] == 'x' || u[1] == 'X')
  }

  /** The digits after the sign: hexadecimal after `0x`/`0X`, decimal otherwise; `None` when there are none. */
  function ParseUnsigned(u: string): Option<nat> {
    if HasHexPrefix(u) then
      var digits := HexPrefix(u[2..]);
      if digits == [] then None else Some(HexValue(digits))
    else
      var digits := DecimalPrefix(u);
      if digits == [] then None else Some(DecimalValue(digits))
  }

  /**
    `parseInt(s)` with no radix: skip leading white space, read an optional sign, read
    a `0x`/`0X` prefix as radix 16, then the longest run of digits; no digits is `NaN`.
  */
  function ParseInt(s: string): Option<int> {
    var t := TrimStart(s);
    var u := if HasSign(t) then t[1..] else t;
    match ParseUnsigned(u)
    case None => None
    case Some(v) =>
      var n: int := v;
      Some(if HasSign(t) && t[0] == '-' then -n else n)
  }

  lemma {:induction false} DecimalPrefixOfDigits(s: string)
    requires forall i :: 0 <= i < |s| ==> IsDigit(s[i])
    ensures DecimalPrefix(s) == s
  {
    if s != [] {
      DecimalPrefixOfDigits(s[1..]);
    }
  }

  lemma {:induction false} ParseUnsignedDigits(u: string)
    requires |u| >= 1 && forall i :: 0 <= i < |u| ==> IsDigit(u[i])
    ensures ParseUnsigned(u) == Some(DecimalValue(u))
  {
    DecimalPrefixOfDigits(u);
    assert !HasHexPrefix(u) by {
      if |u| >= 2 { assert IsDigit(u[1]); }
    }
  }

  lemma {:induction false} TrimStartNoSpace(u: string)
    requires u != [] && !IsWhiteSpace(u[0])
    ensures TrimStart(u) == u
  {
  }

  lemma {:induction false} ParseDigits(u: string)
    requires |u| >= 1 && forall i :: 0 <= i < |u| ==> IsDigit(u[i])
    ensures ParseInt(u) == Some(DecimalValue(u))
  {
    ParseUnsignedDigits(u);
    assert IsDigit(u[0]);
    TrimStartNoSpace(u);
  }

  lemma {:induction false} ParseNegativeDigits(u: string)
    requires |u| >= 1 && forall i :: 0 <= i < |u| ==> IsDigit(u[i])
    ensures ParseInt("-" + u) == Some(-(DecimalValue(u) as int))
  {
    ParseUnsignedDigits(u);
    var v := "-" + u;
    TrimStartNoSpace(v);
    assert HasSign(v) && v[1..] == u;
  }

  /** `parseInt(n.toString())` gives back `n`: editing a record and saving it unchanged keeps its numbers. */
  lemma {:induction false} ParseIntOfIntToString(n: int)
    ensures ParseInt(IntToString(n)) == Some(n)
  {
    var m: nat := if n < 0 then -n else n;
    ParseDigits(NatToString(m));
    ParseNegativeDigits(NatToString(m));
  }

  lemma IntToStringInjective(m: int, n: int)
    ensures IntToString(m) == IntToString(n) <==> m == n
  {
    if IntToString(m) == IntToString(n) {
      ParseIntOfIntToString(m);
      ParseIntOfIntToString(n);
    }
  }
}
