/**
 * The few Python `str` operations the client relies on: `strip`, `split` on one
 * character, `join`, `in` (substring), `isalpha`, `lower`, and the `str(int)` /
 * `int(str)` conversions used when the room id is written to the session file.
 */
module PyStr {
  import opened Wrappers

  /** Characters for which Python's `str.isspace()` is true. */
  predicate IsSpace(c: char) {
    var n := c as int;
    (9 <= n <= 13) || (0x1C <= n <= 0x20) || n == 0x85 || n == 0xA0 || n == 0x1680
    || (0x2000 <= n <= 0x200A) || n == 0x2028 || n == 0x2029 || n == 0x202F
    || n == 0x205F || n == 0x3000
  }

  /** Letters: ASCII letters and the CJK unified ideographs the category names use. */
  predicate IsAlpha(c: char) {
    ('A' <= c <= 'Z') || ('a' <= c <= 'z') || ('一' <= c <= '鿿')
  }

  /** Python's `s.isalpha()`: non-empty and made of letters only. */
  predicate IsAlphaWord(s: string) {
    |s| > 0 && forall i :: 0 <= i < |s| ==> IsAlpha(s[i])
  }

  /** Lower-casing of one character (ASCII case mapping). */
  function LowerChar(c: char): (r: char)
    ensures !('A' <= r <= 'Z')
    ensures IsAlpha(c) <==> IsAlpha(r)
    ensures !('A' <= c <= 'Z') ==> r == c
  {
    if 'A' <= c <= 'Z' then (c as int + 32) as char else c
  }

  /** Python's `s.lower()`. */
  function Lower(s: string): (r: string)
    ensures |r| == |s|
    ensures forall i :: 0 <= i < |s| ==> r[i] == LowerChar(s[i])
  {
    if s == [] then [] else [LowerChar(s[0])] + Lower(s[1..])
  }

  function LStrip(s: string): (r: string)
    ensures |r| <= |s| && r == s[|s| - |r|..]
    ensures forall i :: 0 <= i < |s| - |r| ==> IsSpace(s[i])
    ensures r == [] || !IsSpace(r[0])
  {
    if s != [] && IsSpace(s[0]) then
      var rest := LStrip(s[1..]);
      assert forall i :: 1 <= i < |s| ==> s[i] == s[1..][i - 1];
      rest
    else s
  }

  function RStrip(s: string): (r: string)
    ensures |r| <= |s| && r == s[..|r|]
    ensures forall i :: |r| <= i < |s| ==> IsSpace(s[i])
    ensures r == [] || !IsSpace(r[|r| - 1])
  {
    if s != [] && IsSpace(s[|s| - 1]) then
      var rest := RStrip(s[..|s| - 1]);
      assert forall i :: 0 <= i < |s| - 1 ==> s[i] == s[..|s| - 1][i];
      rest
    else s
  }

  /** Python's `s.strip()`. */
  function Strip(s: string): (r: string)
    ensures r == [] || (!IsSpace(r[0]) && !IsSpace(r[|r| - 1]))
  {
    RStrip(LStrip(s))
  }

  /**
   * What `strip()` removes: the result is a slice of `s`, and everything cut off
   * on either side is white space.
   */
  lemma StripIsSlice(s: string)
    ensures exists i, j ::
              && 0 <= i <= j <= |s| && Strip(s) == s[i..j]
              && (forall k :: 0 <= k < i ==> IsSpace(s[k]))
              && (forall k :: j <= k < |s| ==> IsSpace(s[k]))
  {
    var i, j := StripBounds(s);
  }

  /** The two cut points of `strip()`. */
  lemma StripBounds(s: string) returns (i: int, j: int)
    ensures 0 <= i <= j <= |s| && Strip(s) == s[i..j]
    ensures forall k :: 0 <= k < i ==> IsSpace(s[k])
    ensures forall k :: j <= k < |s| ==> IsSpace(s[k])
  {
    var l := LStrip(s);
    i := |s| - |l|;
    var r := RStrip(l);
    j := i + |r|;
    SliceOfSuffix(s, i, |r|);
    forall k | j <= k < |s| ensures IsSpace(s[k]) {
      assert s[k] == l[k - i];
    }
  }

  /** The first `n` characters of the suffix from `i` are the slice from `i` to `i + n`. */
  lemma SliceOfSuffix(s: string, i: nat, n: nat)
    requires i + n <= |s|
    ensures s[i..][..n] == s[i..i + n]
  {
  }

  /** A string whose two ends are not white space is its own `strip()`. */
  lemma StripUnchanged(s: string)
    requires s == [] || (!IsSpace(s[0]) && !IsSpace(s[|s| - 1]))
    ensures Strip(s) == s
  {
  }

  /** `" " + s` strips back to `s` when `s` has no white space at either end. */
  lemma {:induction false} StripLeadingBlank(s: string)
    requires s != [] && !IsSpace(s[0]) && !IsSpace(s[|s| - 1])
    ensures Strip([' '] + s) == s
  {
    var t := [' '] + s;
    assert IsSpace(t[0]);
    assert t[1..] == s;
    assert LStrip(t) == LStrip(s);
    assert LStrip(s) == s;
    assert RStrip(s) == s;
  }

  /** Python's `sep.join(parts)`. */
  function Join(sep: string, parts: seq<string>): (r: string)
    ensures |parts| == 1 ==> r == parts[0]
    ensures |parts| >= 1 ==> parts[0] <= r
  {
    if |parts| == 0 then []
    else if |parts| == 1 then parts[0]
    else parts[0] + sep + Join(sep, parts[1..])
  }

  /** Python's `s.split(sep)` for a one-character separator. */
  function Split(s: string, sep: char): (r: seq<string>)
    ensures |r| >= 1
  {
    if s == [] then [[]]
    else
      var rest := Split(s[1..], sep);
      if s[0] == sep then [[]] + rest
      else [[s[0]] + rest[0]] + rest[1..]
  }

  /**
   * What `split` promises: no piece holds the separator, and joining the
   * pieces with the separator gives the string back.
   */
  lemma SplitPieces(s: string, sep: char)
    ensures forall i :: 0 <= i < |Split(s, sep)| ==> sep !in Split(s, sep)[i]
    ensures Join([sep], Split(s, sep)) == s
  {
    SplitPiecesFree(s, sep);
    JoinOfSplit(s, sep);
  }

  /** No piece of `s.split(sep)` holds the separator. */
  lemma {:induction false} SplitPiecesFree(s: string, sep: char)
    ensures forall i :: 0 <= i < |Split(s, sep)| ==> sep !in Split(s, sep)[i]
  {
    if s != [] {
      var rest := Split(s[1..], sep);
      SplitPiecesFree(s[1..], sep);
      var r := Split(s, sep);
      if s[0] == sep {
        assert r == [[]] + rest;
        assert forall i :: 1 <= i < |r| ==> r[i] == rest[i - 1];
      } else {
        assert r == [[s[0]] + rest[0]] + rest[1..];
        assert forall i :: 1 <= i < |r| ==> r[i] == rest[i];
      }
    }
  }

  /** Joining the pieces of `s.split(sep)` with the separator gives `s` back. */
  lemma {:induction false} JoinOfSplit(s: string, sep: char)
    ensures Join([sep], Split(s, sep)) == s
  {
    if s != [] {
      var rest := Split(s[1..], sep);
      JoinOfSplit(s[1..], sep);
      var r := Split(s, sep);
      assert [s[0]] + s[1..] == s;
      if s[0] == sep {
        assert r == [[]] + rest && r[1..] == rest;
      } else if |rest| == 1 {
        assert r == [[s[0]] + rest[0]];
      } else {
        assert r[0] == [s[0]] + rest[0] && r[1..] == rest[1..];
        assert Join([sep], rest) == rest[0] + [sep] + Join([sep], rest[1..]);
      }
    }
  }

  /** A string without the separator splits into itself alone. */
  lemma {:induction false} SplitNoSep(s: string, sep: char)
    requires sep !in s
    ensures Split(s, sep) == [s]
  {
    if s != [] {
      assert [s[0]] + s[1..] == s;
      SplitNoSep(s[1..], sep);
    }
  }

  /** Splitting `a + sep + b` yields the pieces of `a` followed by the pieces of `b`. */
  lemma {:induction false} SplitConcat(a: string, sep: char, b: string)
    ensures Split(a + [sep] + b, sep) == Split(a, sep) + Split(b, sep)
  {
    var s := a + [sep] + b;
    if a == [] {
      assert s[1..] == b;
    } else {
      assert s[0] == a[0] && s[1..] == a[1..] + [sep] + b;
      SplitConcat(a[1..], sep, b);
      if a[0] != sep {
        assert s == [a[0]] + s[1..];
        assert a == [a[0]] + a[1..];
        SplitCons(a[0], s[1..], sep);
        SplitCons(a[0], a[1..], sep);
        GlueFirst([a[0]], Split(a[1..], sep), Split(b, sep));
      }
    }
  }

  /** Gluing a prefix onto the first piece commutes with appending further pieces. */
  lemma GlueFirst(x: string, ra: seq<string>, rb: seq<string>)
    requires ra != []
    ensures [x + (ra + rb)[0]] + (ra + rb)[1..] == ([x + ra[0]] + ra[1..]) + rb
  {
    assert (ra + rb)[1..] == ra[1..] + rb;
  }

  /** Splitting `c + s`, for `c` not the separator, glues `c` onto the first piece of `s`. */
  lemma SplitCons(c: char, s: string, sep: char)
    requires c != sep
    ensures Split([c] + s, sep) == [[c] + Split(s, sep)[0]] + Split(s, sep)[1..]
  {
    assert ([c] + s)[1..] == s;
  }

  /** Python's `sub in s`. */
  function Contains(s: string, sub: string): (r: bool)
    ensures r <==> exists i :: 0 <= i <= |s| - |sub| && sub <= s[i..]
  {
    if sub <= s then (assert sub <= s[0..]; true)
    else if s == [] then false
    else
      var rest := Contains(s[1..], sub);
      assert forall i :: 1 <= i <= |s| ==> s[i..] == s[1..][i - 1..];
      rest
  }

  /** Every string contains itself. */
  lemma ContainsSelf(s: string)
    ensures Contains(s, s)
  {
  }

  function DigitChar(d: nat): (c: char)
    requires d < 10
  {
    "0123456789"[d]
  }

  predicate IsDigit(c: char) {
    '0' <= c <= '9'
  }

  function DigitValue(c: char): (d: nat)
    requires IsDigit(c)
    ensures d < 10
  {
    (c as int) - ('0' as int)
  }

  /** Decimal digits of a natural number, most significant first, without leading zeros. */
  function NatToStr(n: nat): (r: string)
    ensures |r| >= 1 && forall i :: 0 <= i < |r| ==> IsDigit(r[i])
  {
    if n < 10 then [DigitChar(n)] else NatToStr(n / 10) + [DigitChar(n % 10)]
  }

  /** Python's `str(n)` for an `int`. */
  function IntToStr(n: int): (r: string)
    ensures r != [] && !IsSpace(r[0]) && IsDigit(r[|r| - 1])
  {
    if n < 0 then "-" + NatToStr(-n) else NatToStr(n)
  }

  /** The value of a non-empty run of decimal digits. */
  function DigitsValue(s: string): nat
    requires |s| >= 1 && forall i :: 0 <= i < |s| ==> IsDigit(s[i])
  {
    if |s| == 1 then DigitValue(s[0])
    else DigitsValue(s[..|s| - 1]) * 10 + DigitValue(s[|s| - 1])
  }

  predicate AllDigits(s: string) {
    |s| >= 1 && forall i :: 0 <= i < |s| ==> IsDigit(s[i])
  }

  /**
   * Python's `int(s)` on the forms this client produces: optional surrounding
   * white space, an optional sign and ASCII decimal digits. `None` is the
   * `ValueError` Python raises for anything else.
   */
  function ParseInt(s: string): Option<int> {
    var t := Strip(s);
    if t != [] && t[0] == '-' then
      match Unsigned(t[1..])
      case Some(v) => Some(-v)
      case None => None
    else if t != [] && t[0] == '+' then Unsigned(t[1..])
    else Unsigned(t)
  }

  /** The value of a run of ASCII digits, `None` for anything else. */
  function Unsigned(t: string): Option<int> {
    if AllDigits(t) then Some(DigitsValue(t)) else None
  }

  lemma {:induction false} DigitsOfNat(n: nat)
    ensures DigitsValue(NatToStr(n)) == n
  {
    if n >= 10 {
      DigitsOfNat(n / 10);
      var s := NatToStr(n);
      assert s[..|s| - 1] == NatToStr(n / 10);
    }
  }

  /** A run of digits parses to its value. */
  lemma ParseDigits(d: string)
    requires AllDigits(d)
    ensures ParseInt(d) == Some(DigitsValue(d))
  {
    assert IsDigit(d[0]) && IsDigit(d[|d| - 1]);
    StripUnchanged(d);
    assert Strip(d) == d;
  }

  /** A minus sign followed by a run of digits parses to the negated value. */
  lemma ParseNegativeDigits(d: string)
    requires AllDigits(d)
    ensures ParseInt("-" + d) == Some(-(DigitsValue(d) as int))
  {
    var s := "-" + d;
    SignedEnds(d);
    StripUnchanged(s);
    NegativeCase(s, d);
  }

  lemma SignedEnds(d: string)
    requires AllDigits(d)
    ensures var s := "-" + d; s[0] == '-' && !IsSpace(s[|s| - 1]) && s[1..] == d
  {
    var s := "-" + d;
    var last := d[|d| - 1];
    assert IsDigit(last);
    assert s[|s| - 1] == last;
  }

  lemma NegativeCase(t: string, d: string)
    requires Strip(t) == t && t != [] && t[0] == '-' && t[1..] == d && AllDigits(d)
    ensures ParseInt(t) == Some(-(DigitsValue(d) as int))
  {
    assert Unsigned(t[1..]) == Some(DigitsValue(d) as int);
  }

  /** `int(str(n)) == n`: the room id survives its trip through the session file. */
  lemma IntRoundTrip(n: int)
    ensures ParseInt(IntToStr(n)) == Some(n)
  {
    var d := NatToStr(if n < 0 then -n else n);
    assert AllDigits(d);
    DigitsOfNat(if n < 0 then -n else n);
    if n < 0 {
      assert IntToStr(n) == "-" + d;
      ParseNegativeDigits(d);
    } else {
      assert IntToStr(n) == d;
      ParseDigits(d);
    }
  }
}
