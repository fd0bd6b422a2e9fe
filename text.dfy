/**
 * The two pieces of Python string behaviour the table parser relies on:
 * `str.strip()` with no argument, and `int()` applied to a cell string.
 */
module Text {

  datatype Option<T> = None | Some(value: T)

  /** The characters Python's `str.isspace()` accepts; `strip()` with no argument trims exactly these. */
  predicate IsSpace(c: char) {
    var n := c as int;
    n == 0x20 || 0x09 <= n <= 0x0D || 0x1C <= n <= 0x1F || n == 0x85 || n == 0xA0 ||
    n == 0x1680 || 0x2000 <= n <= 0x200A || n == 0x2028 || n == 0x2029 ||
    n == 0x202F || n == 0x205F || n == 0x3000
  }

  predicate IsDigit(c: char) {
    '0' <= c <= '9'
  }

  predicate AllDigits(d: string) {
    forall k :: 0 <= k < |d| ==> IsDigit(d[k])
  }

  /** Number of whitespace characters at the front of `s`. */
  function LeadingSpaces(s: string): (n: nat)
    ensures n <= |s|
    ensures forall k :: 0 <= k < n ==> IsSpace(s[k])
    ensures n < |s| ==> !IsSpace(s[n])
  {
    if s != [] && IsSpace(s[0]) then 1 + LeadingSpaces(s[1..]) else 0
  }

  /** Number of whitespace characters at the back of `s`. */
  function TrailingSpaces(s: string): (n: nat)
    ensures n <= |s|
    ensures forall k :: |s| - n <= k < |s| ==> IsSpace(s[k])
    ensures n < |s| ==> !IsSpace(s[|s| - 1 - n])
  {
    if s != [] && IsSpace(s[|s| - 1]) then 1 + TrailingSpaces(s[..|s| - 1]) else 0
  }

  /**
   * Python's `s.strip()`: the longest run of `s` that neither starts nor
   * ends with whitespace once the whitespace on both sides is cut off.
   */
  function Strip(s: string): (r: string)
    ensures r == [] || (!IsSpace(r[0]) && !IsSpace(r[|r| - 1]))
    ensures var i := LeadingSpaces(s);
      i + |r| <= |s| && r == s[i..i + |r|] &&
      (forall k :: 0 <= k < i ==> IsSpace(s[k])) &&
      (forall k :: i + |r| <= k < |s| ==> IsSpace(s[k]))
  {
    var lead := LeadingSpaces(s);
    if lead == |s| then []
    else
      var trail := TrailingSpaces(s);
      assert !IsSpace(s[lead]);
      assert trail < |s| - lead;
      s[lead..|s| - trail]
  }

  /** A string with no whitespace at either end is its own strip. */
  lemma StripTrimmed(s: string)
    requires s == [] || (!IsSpace(s[0]) && !IsSpace(s[|s| - 1]))
    ensures Strip(s) == s
  {
  }

  /** Two strings without whitespace at their ends join into one without it. */
  lemma ConcatUnpadded(a: string, b: string)
    requires a == [] || (!IsSpace(a[0]) && !IsSpace(a[|a| - 1]))
    requires b == [] || (!IsSpace(b[0]) && !IsSpace(b[|b| - 1]))
    ensures var t := a + b; t == [] || (!IsSpace(t[0]) && !IsSpace(t[|t| - 1]))
  {
    var t := a + b;
    if a == [] {
      assert t == b;
    } else if b == [] {
      assert t == a;
    } else {
      assert t[0] == a[0] && t[|t| - 1] == b[|b| - 1];
    }
  }

  /** The numeric value of a run of ASCII decimal digits. */
  function DigitsValue(d: string): nat
    requires AllDigits(d)
  {
    if d == [] then 0 else 10 * DigitsValue(d[..|d| - 1]) + (d[|d| - 1] as int - '0' as int)
  }

  /**
   * The whitespace `int()` skips around a literal: the ASCII blanks space,
   * tab, line feed, vertical tab, form feed and carriage return, and every
   * non-ASCII character `str.isspace()` accepts (`int()` maps those to a
   * space first). The ASCII separators U+001C to U+001F are whitespace to
   * `strip()` but not to `int()`.
   */
  predicate IsIntSpace(c: char) {
    c == ' ' || '\t' <= c <= '\r' || (c as int >= 0x80 && IsSpace(c))
  }

  /** `s` with the whitespace `int()` skips removed from both ends. */
  function IntTrim(s: string): (t: string)
    ensures |t| <= |s|
    ensures t == [] || (!IsIntSpace(t[0]) && !IsIntSpace(t[|t| - 1]))
    decreases |s|
  {
    if s == [] then []
    else if IsIntSpace(s[0]) then IntTrim(s[1..])
    else if IsIntSpace(s[|s| - 1]) then IntTrim(s[..|s| - 1])
    else s
  }

  /** A string with none of that whitespace at either end is left as it is. */
  lemma IntTrimmed(s: string)
    requires s == [] || (!IsIntSpace(s[0]) && !IsIntSpace(s[|s| - 1]))
    ensures IntTrim(s) == s
  {
  }

  predicate AllIntSpace(s: string) {
    forall k :: 0 <= k < |s| ==> IsIntSpace(s[k])
  }

  /**
   * What `int()` skips is whitespace only: `IntTrim(s)` is the middle of `s`
   * between a prefix and a suffix made of that whitespace.
   */
  lemma {:induction false} IntTrimSlice(s: string)
    ensures exists p, q :: s == p + IntTrim(s) + q && AllIntSpace(p) && AllIntSpace(q)
    decreases |s|
  {
    if s == [] {
      IntTrimWitness(s, IntTrim(s), [], []);
    } else if IsIntSpace(s[0]) {
      var r := s[1..];
      IntTrimSlice(r);
      var p, q :| r == p + IntTrim(r) + q && AllIntSpace(p) && AllIntSpace(q);
      assert IntTrim(s) == IntTrim(r);
      SkipFront(s[0], r, p, IntTrim(r), q);
      assert s == [s[0]] + r;
      IntTrimWitness(s, IntTrim(s), [s[0]] + p, q);
    } else if IsIntSpace(s[|s| - 1]) {
      var r := s[..|s| - 1];
      IntTrimSlice(r);
      var p, q :| r == p + IntTrim(r) + q && AllIntSpace(p) && AllIntSpace(q);
      assert IntTrim(s) == IntTrim(r);
      SkipBack(s[|s| - 1], r, p, IntTrim(r), q);
      assert s == r + [s[|s| - 1]];
      IntTrimWitness(s, IntTrim(s), p, q + [s[|s| - 1]]);
    } else {
      assert IntTrim(s) == s;
      IntTrimWitness(s, s, [], []);
    }
  }

  /** Concrete prefix and suffix witness the slice form. */
  lemma IntTrimWitness(s: string, t: string, p: string, q: string)
    requires s == p + t + q && AllIntSpace(p) && AllIntSpace(q)
    ensures exists p', q' :: s == p' + t + q' && AllIntSpace(p') && AllIntSpace(q')
  {
  }

  /** Skipping one more whitespace character in front extends the prefix. */
  lemma SkipFront(c: char, r: string, p: string, t: string, q: string)
    requires IsIntSpace(c) && r == p + t + q && AllIntSpace(p)
    ensures [c] + r == ([c] + p) + t + q && AllIntSpace([c] + p)
  {
    var p' := [c] + p;
    assert forall k :: 0 < k < |p'| ==> p'[k] == p[k - 1];
  }

  /** Skipping one more whitespace character at the back extends the suffix. */
  lemma SkipBack(c: char, r: string, p: string, t: string, q: string)
    requires IsIntSpace(c) && r == p + t + q && AllIntSpace(q)
    ensures r + [c] == p + t + (q + [c]) && AllIntSpace(q + [c])
  {
    var q' := q + [c];
    assert forall k :: 0 <= k < |q| ==> q'[k] == q[k];
  }

  /**
   * Every character `int()` skips is one `strip()` removes, so `int()` finds
   * nothing more to skip in a stripped string.
   */
  lemma IntTrimAfterStrip(s: string)
    ensures IntTrim(Strip(s)) == Strip(s)
  {
    var t := Strip(s);
    IntTrimmed(t);
  }

  /**
   * The default limit on the number of digits `int()` converts from a
   * decimal string (and `str()` writes) before raising `ValueError`.
   */
  const MaxStrDigits := 4300

  /**
   * The strings `int()` accepts once surrounding whitespace is gone:
   * an optional sign followed by at least one and at most `MaxStrDigits`
   * ASCII digits.
   */
  predicate IsIntLiteral(t: string) {
    |t| > 0 &&
    (IsDigit(t[0]) || ((t[0] == '+' || t[0] == '-') && |t| > 1)) &&
    (forall k :: 0 < k < |t| ==> IsDigit(t[k])) &&
    (if IsDigit(t[0]) then |t| else |t| - 1) <= MaxStrDigits
  }

  /**
   * Python's `int(s)` for base 10: `None` stands for the `ValueError` it raises.
   */
  function ParseInt(s: string): Option<int> {
    var t := IntTrim(s);
    var negative := t != [] && t[0] == '-';
    var digits := if t != [] && (t[0] == '+' || t[0] == '-') then t[1..] else t;
    if 0 < |digits| <= MaxStrDigits && AllDigits(digits) then
      var v: int := DigitsValue(digits);
      Some(if negative then -v else v)
    else
      None
  }

  /**
   * `int()` succeeds exactly on the strings that are an integer literal once
   * trimmed, and yields a negative number only for a literal with a minus sign.
   */
  lemma ParseIntAccepts(s: string)
    ensures ParseInt(s).Some? <==> IsIntLiteral(IntTrim(s))
    ensures ParseInt(s).Some? && ParseInt(s).value < 0 ==> IntTrim(s)[0] == '-'
  {
  }

  /** A run of digits longer than the limit is refused, whatever its value. */
  lemma OverlongLiteralRejected(d: string)
    requires |d| > MaxStrDigits && AllDigits(d)
    ensures ParseInt(d) == None
  {
    IntTrimmed(d);
  }

  /** The decimal spelling of a natural number, as Python's `str()` writes it. */
  function NatToString(n: nat): (d: string)
    ensures |d| > 0 && AllDigits(d)
  {
    var last := ['0' + (n % 10) as char];
    if n < 10 then last else NatToString(n / 10) + last
  }

  /** The decimal spelling of an integer, as Python's `str()` writes it. */
  function IntToString(n: int): string {
    if n < 0 then "-" + NatToString(-n) else NatToString(n)
  }

  lemma {:induction false} NatToStringValue(n: nat)
    ensures DigitsValue(NatToString(n)) == n
  {
    var d := NatToString(n);
    if n >= 10 {
      NatToStringValue(n / 10);
      assert d[..|d| - 1] == NatToString(n / 10);
    }
  }

  /**
   * `int()` reads back every integer that `str()` writes; `str()` itself
   * refuses integers of more than `MaxStrDigits` digits.
   */
  lemma ParseIntToString(n: int)
    requires |NatToString(if n < 0 then -n else n)| <= MaxStrDigits
    ensures ParseInt(IntToString(n)) == Some(n)
  {
    var s := IntToString(n);
    var m := if n < 0 then -n else n;
    NatToStringValue(m);
    IntTrimmed(s);
    if n < 0 {
      assert s[1..] == NatToString(m);
    }
  }
}
