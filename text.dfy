/**
 * The string built-ins of Python and JavaScript that the application relies on:
 * prefix tests, whitespace trimming (JavaScript's String.prototype.trim and Python's
 * str.strip), splitting on one separator character (String.prototype.split), the
 * UTF-16 length JavaScript reports as .length, and Python's int() on a string.
 * Strings are sequences of Unicode scalar values, so |s| is Python's len(s).
 */
module Text {
  import opened Wrappers

  /**
   * The truthiness of an optional string in Python and in JavaScript: present (not
   * None, null or undefined) and not the empty string.
   */
  predicate Truthy(v: Option<string>) {
    v.Some? && v.value != ""
  }

  predicate StartsWith(s: string, prefix: string) {
    |prefix| <= |s| && s[..|prefix|] == prefix
  }

  /**
   * String.prototype.substring for non-negative arguments: both ends are clamped to
   * the length and swapped when the start is past the end.
   */
  function JsSubstring(s: string, start: nat, end: nat): (r: string)
    ensures |r| <= |s|
  {
    var a := if start < |s| then start else |s|;
    var b := if end < |s| then end else |s|;
    if a <= b then s[a..b] else s[b..a]
  }

  /** Comparing the first |p| characters with p is the prefix test, also on shorter strings. */
  lemma SubstringPrefix(s: string, p: string)
    ensures JsSubstring(s, 0, |p|) == p <==> StartsWith(s, p)
  {
    if |s| < |p| {
      assert |JsSubstring(s, 0, |p|)| == |s|;
    }
  }

  /** substring(k) with one argument runs to the end. */
  lemma SubstringSuffix(s: string, k: nat)
    requires k <= |s|
    ensures JsSubstring(s, k, |s|) == s[k..]
  {
  }

  /** The first position at or after from where t occurs in s, or -1. */
  function IndexFrom(s: string, t: string, from: nat): (r: int)
    requires from <= |s|
    ensures r == -1 || from <= r <= |s|
    ensures r >= 0 ==> StartsWith(s[r..], t)
    ensures r >= 0 ==> forall k | from <= k < r :: !StartsWith(s[k..], t)
    ensures r == -1 ==> forall k | from <= k <= |s| :: !StartsWith(s[k..], t)
    decreases |s| - from
  {
    if StartsWith(s[from..], t) then from
    else if from == |s| then -1
    else IndexFrom(s, t, from + 1)
  }

  /** String.prototype.indexOf: the first position where t occurs in s, or -1. */
  function IndexOf(s: string, t: string): (r: int)
    ensures -1 <= r <= |s|
    ensures r >= 0 ==> StartsWith(s[r..], t)
    ensures r >= 0 ==> forall k | 0 <= k < r :: !StartsWith(s[k..], t)
    ensures r == -1 ==> forall k | 0 <= k <= |s| :: !StartsWith(s[k..], t)
  {
    IndexFrom(s, t, 0)
  }

  /** indexOf(t) === 0 is the prefix test. */
  lemma IndexOfZero(s: string, t: string)
    ensures IndexOf(s, t) == 0 <==> StartsWith(s, t)
  {
    assert s[0..] == s;
  }

  // ---------------------------------------------------------------------------
  // Whitespace and trimming
  // ---------------------------------------------------------------------------

  /** The WhiteSpace and LineTerminator characters that String.prototype.trim removes. */
  predicate IsJsSpace(c: char) {
    var n := c as int;
    (9 <= n <= 13) || n == 32 || n == 0xA0 || n == 0x1680 || (0x2000 <= n <= 0x200A)
    || n == 0x2028 || n == 0x2029 || n == 0x202F || n == 0x205F || n == 0x3000 || n == 0xFEFF
  }

  /** The characters for which Python's str.isspace() holds, which str.strip() removes. */
  predicate IsPySpace(c: char) {
    var n := c as int;
    (9 <= n <= 13) || (0x1C <= n <= 0x1F) || n == 32 || n == 0x85 || n == 0xA0 || n == 0x1680
    || (0x2000 <= n <= 0x200A) || n == 0x2028 || n == 0x2029 || n == 0x202F || n == 0x205F
    || n == 0x3000
  }

  /** The linear whitespace of HTTP, space and horizontal tab (WSP in RFC 6265). */
  predicate IsHttpSpace(c: char) {
    c == ' ' || c == '\t'
  }

  /** The whitespace sets: JavaScript's trim, Python's strip and HTTP's WSP. */
  datatype Whitespace = JsWhitespace | PyWhitespace | HttpWhitespace

  predicate IsSpace(ws: Whitespace, c: char) {
    match ws
    case JsWhitespace => IsJsSpace(c)
    case PyWhitespace => IsPySpace(c)
    case HttpWhitespace => IsHttpSpace(c)
  }

  /** Drops the leading characters of the whitespace set ws. */
  function TrimStart(s: string, ws: Whitespace): (r: string)
    ensures |r| <= |s|
    ensures forall i {:trigger r[i]} | 0 <= i < |r| :: r[i] == s[|s| - |r| + i]
    ensures forall i | 0 <= i < |s| - |r| :: IsSpace(ws, s[i])
    ensures r != [] ==> !IsSpace(ws, r[0])
    decreases |s|
  {
    if s != [] && IsSpace(ws, s[0]) then
      var r := TrimStart(s[1..], ws);
      assert forall i | 1 <= i < |s| :: s[1..][i - 1] == s[i];
      r
    else s
  }

  /** Drops the trailing characters of the whitespace set ws. */
  function TrimEnd(s: string, ws: Whitespace): (r: string)
    ensures |r| <= |s|
    ensures forall i | 0 <= i < |r| :: r[i] == s[i]
    ensures forall i | |r| <= i < |s| :: IsSpace(ws, s[i])
    ensures r != [] ==> !IsSpace(ws, r[|r| - 1])
    decreases |s|
  {
    if s != [] && IsSpace(ws, s[|s| - 1]) then
      var r := TrimEnd(s[..|s| - 1], ws);
      assert forall i | 0 <= i < |s| - 1 :: s[..|s| - 1][i] == s[i];
      r
    else s
  }

  function Trim(s: string, ws: Whitespace): string {
    TrimEnd(TrimStart(s, ws), ws)
  }

  /** String.prototype.trim */
  function JsTrim(s: string): string {
    Trim(s, JsWhitespace)
  }

  /** Python's str.strip() with no argument. */
  function PyStrip(s: string): string {
    Trim(s, PyWhitespace)
  }

  /** A string that neither starts nor ends with a space is its own trim. */
  lemma TrimUnspaced(s: string, ws: Whitespace)
    requires s == [] || (!IsSpace(ws, s[0]) && !IsSpace(ws, s[|s| - 1]))
    ensures Trim(s, ws) == s
  {
  }

  /** Leading spaces do not change the trim. */
  lemma TrimDropsLeadingSpace(c: char, s: string, ws: Whitespace)
    requires IsSpace(ws, c)
    ensures Trim([c] + s, ws) == Trim(s, ws)
  {
    assert ([c] + s)[1..] == s;
  }

  // ---------------------------------------------------------------------------
  // Splitting and joining on one separator character
  // ---------------------------------------------------------------------------

  /**
   * String.prototype.split with a one-character separator: the pieces between the
   * separators, so "" gives [""] and "a;" gives ["a", ""].
   */
  function Split(s: string, sep: char): (parts: seq<string>)
    ensures |parts| >= 1
    ensures forall i | 0 <= i < |parts| :: sep !in parts[i]
    decreases |s|
  {
    if s == [] then [[]]
    else
      var rest := Split(s[1..], sep);
      if s[0] == sep then [[]] + rest else [[s[0]] + rest[0]] + rest[1..]
  }

  /** Array.prototype.join: the parts with sep between consecutive ones. */
  function Join(parts: seq<string>, sep: string): string
    decreases |parts|
  {
    if |parts| == 0 then []
    else if |parts| == 1 then parts[0]
    else parts[0] + sep + Join(parts[1..], sep)
  }

  /** Joining the pieces of a split with the separator gives the string back. */
  lemma {:induction false} JoinSplit(s: string, sep: char)
    ensures Join(Split(s, sep), [sep]) == s
    decreases |s|
  {
    if s != [] {
      var rest := Split(s[1..], sep);
      JoinSplit(s[1..], sep);
      if s[0] == sep {
        assert Split(s, sep) == [[]] + rest;
        assert ([[]] + rest)[1..] == rest;
      } else {
        var parts := [[s[0]] + rest[0]] + rest[1..];
        assert Split(s, sep) == parts;
        if |rest| == 1 {
          assert Join(rest, [sep]) == rest[0];
        } else {
          assert Join(rest, [sep]) == rest[0] + [sep] + Join(rest[1..], [sep]);
          assert parts[1..] == rest[1..];
        }
      }
    }
  }

  /** Splitting text that does not contain the separator extends the first piece. */
  lemma {:induction false} SplitPrepend(a: string, t: string, sep: char)
    requires sep !in a
    ensures Split(a + t, sep) == [a + Split(t, sep)[0]] + Split(t, sep)[1..]
    decreases |a|
  {
    if a != [] {
      assert (a + t)[0] == a[0];
      assert (a + t)[1..] == a[1..] + t;
      SplitPrepend(a[1..], t, sep);
      assert [a[0]] + (a[1..] + Split(t, sep)[0]) == a + Split(t, sep)[0];
    } else {
      var st := Split(t, sep);
      assert a + t == t;
      assert a + st[0] == st[0];
      assert st == [st[0]] + st[1..];
    }
  }

  /** A separator-free piece followed by the separator splits off as the first piece. */
  lemma SplitCons(a: string, t: string, sep: char)
    requires sep !in a
    ensures Split(a + [sep] + t, sep) == [a] + Split(t, sep)
  {
    SplitPrepend(a, [sep] + t, sep);
    assert a + [sep] + t == a + ([sep] + t);
    assert ([sep] + t)[1..] == t;
    assert a + [] == a;
  }

  /** Text without the separator is a single piece. */
  lemma SplitSingle(a: string, sep: char)
    requires sep !in a
    ensures Split(a, sep) == [a]
  {
    SplitPrepend(a, [], sep);
    assert a + [] == a;
  }

  /** Splitting the join of separator-free pieces gives the pieces back. */
  lemma {:induction false} SplitJoin(parts: seq<string>, sep: char)
    requires |parts| >= 1
    requires forall i | 0 <= i < |parts| :: sep !in parts[i]
    ensures Split(Join(parts, [sep]), sep) == parts
    decreases |parts|
  {
    if |parts| == 1 {
      SplitPrepend(parts[0], [], sep);
      assert parts[0] + [] == parts[0];
    } else {
      var tail := Join(parts[1..], [sep]);
      SplitJoin(parts[1..], sep);
      assert Join(parts, [sep]) == parts[0] + ([sep] + tail);
      SplitPrepend(parts[0], [sep] + tail, sep);
      assert ([sep] + tail)[1..] == tail;
      assert Split([sep] + tail, sep) == [[]] + parts[1..];
      assert parts[0] + [] == parts[0];
    }
  }

  // ---------------------------------------------------------------------------
  // JavaScript string length
  // ---------------------------------------------------------------------------

  /**
   * The .length JavaScript reports: UTF-16 code units, two for every character
   * outside the Basic Multilingual Plane.
   */
  function Utf16Length(s: string): (n: nat)
    ensures |s| <= n <= 2 * |s|
    ensures n == |s| <==> forall i | 0 <= i < |s| :: s[i] as int <= 0xFFFF
  {
    if s == [] then 0
    else
      var rest := Utf16Length(s[1..]);
      assert forall i | 1 <= i < |s| :: s[i] == s[1..][i - 1];
      (if s[0] as int > 0xFFFF then 2 else 1) + rest
  }

  // ---------------------------------------------------------------------------
  // Python's int() on a string, base 10
  // ---------------------------------------------------------------------------

  predicate IsDigit(c: char) {
    '0' <= c <= '9'
  }

  predicate AllDigits(s: string) {
    forall i | 0 <= i < |s| :: IsDigit(s[i])
  }

  /** The number a string of decimal digits denotes. */
  function DigitsValue(ds: string): nat
    requires AllDigits(ds)
    decreases |ds|
  {
    if ds == [] then 0
    else DigitsValue(ds[..|ds| - 1]) * 10 + (ds[|ds| - 1] as int - '0' as int)
  }

  /**
   * The digit part int() accepts: decimal digits, with single underscores allowed
   * between two digits.
   */
  predicate IsDigitGroups(s: string) {
    && |s| > 0
    && IsDigit(s[0])
    && IsDigit(s[|s| - 1])
    && (forall i | 0 <= i < |s| :: IsDigit(s[i]) || s[i] == '_')
    && (forall i | 0 <= i < |s| - 1 :: s[i] == '_' ==> s[i + 1] != '_')
  }

  function RemoveUnderscores(s: string): (r: string)
    ensures (forall i | 0 <= i < |s| :: IsDigit(s[i]) || s[i] == '_') ==> AllDigits(r)
    ensures AllDigits(s) ==> r == s
  {
    if s == [] then []
    else (if s[0] == '_' then [] else [s[0]]) + RemoveUnderscores(s[1..])
  }

  /**
   * The most decimal digits int() converts: CPython's default limit
   * (sys.int_info.default_max_str_digits); a longer digit string raises ValueError.
   */
  const MaxStrDigits := 4300

  /** The sign and digit groups of a stripped string, without the sign. */
  function SignedBody(t: string): string
    requires t != []
  {
    if t[0] == '-' || t[0] == '+' then t[1..] else t
  }

  /**
   * int() on an already stripped string: an optional sign, then digit groups of at most
   * MaxStrDigits digits (underscores do not count); None where Python raises ValueError.
   */
  function PySigned(t: string): (r: Option<int>)
    ensures r.Some? ==> |t| > 0 && IsDigit(t[|t| - 1])
    ensures r.Some? ==> IsDigitGroups(SignedBody(t)) && |RemoveUnderscores(SignedBody(t))| <= MaxStrDigits
    ensures t != [] && IsDigitGroups(SignedBody(t)) ==>
      (r.Some? <==> |RemoveUnderscores(SignedBody(t))| <= MaxStrDigits)
  {
    if t == [] then None
    else
      var negative := t[0] == '-';
      var body := SignedBody(t);
      if IsDigitGroups(body) && |RemoveUnderscores(body)| <= MaxStrDigits then
        assert body[|body| - 1] == t[|t| - 1];
        var v: int := DigitsValue(RemoveUnderscores(body));
        Some(if negative then -v else v)
      else None
  }

  /**
   * Python's int(s) for a str s in base 10: surrounding whitespace is stripped, an
   * optional sign is read, and the rest must be digit groups of at most MaxStrDigits
   * digits; anything else raises ValueError, modelled as None.
   */
  function PyInt(s: string): (r: Option<int>)
    ensures r.Some? ==> PyStrip(s) != [] && IsDigit(PyStrip(s)[|PyStrip(s)| - 1])
    ensures r.Some? ==> |RemoveUnderscores(SignedBody(PyStrip(s)))| <= MaxStrDigits
  {
    PySigned(PyStrip(s))
  }

  /** The decimal digits of a natural number, as Python's str() writes them. */
  function NatDigits(n: nat): (r: string)
    ensures |r| > 0 && AllDigits(r)
    ensures |r| > 1 ==> r[0] != '0'
    decreases n
  {
    if n < 10 then [('0' as int + n) as char]
    else NatDigits(n / 10) + [('0' as int + n % 10) as char]
  }

  /** Python's str() of an int. */
  function IntToString(n: int): string {
    if n < 0 then "-" + NatDigits(-n) else NatDigits(n)
  }

  lemma {:induction false} DigitsValueOfNatDigits(n: nat)
    ensures DigitsValue(NatDigits(n)) == n
    decreases n
  {
    if n >= 10 {
      DigitsValueOfNatDigits(n / 10);
      var ds := NatDigits(n);
      assert ds[..|ds| - 1] == NatDigits(n / 10);
    }
  }

  /** Printed digits are one digit group without underscores. */
  lemma NatDigitsAreGroups(n: nat)
    ensures IsDigitGroups(NatDigits(n))
    ensures RemoveUnderscores(NatDigits(n)) == NatDigits(n)
  {
    var ds := NatDigits(n);
    assert IsDigit(ds[0]) && IsDigit(ds[|ds| - 1]);
  }

  /** Printed integers have nothing to strip. */
  lemma IntToStringUnspaced(n: int)
    ensures PyStrip(IntToString(n)) == IntToString(n)
  {
    var s := IntToString(n);
    var ds := NatDigits(if n < 0 then -n else n);
    assert s[|s| - 1] == ds[|ds| - 1];
    assert IsDigit(s[|s| - 1]) && (IsDigit(s[0]) || s[0] == '-');
    TrimUnspaced(s, PyWhitespace);
  }

  /** An unsigned digit string is read as its value when it is short enough, else refused. */
  lemma PySignedUnsigned(s: string)
    requires IsDigitGroups(s)
    ensures PySigned(s) ==
      if |RemoveUnderscores(s)| <= MaxStrDigits then Some(DigitsValue(RemoveUnderscores(s)) as int) else None
  {
    assert s[0] != '-' && s[0] != '+';
    assert SignedBody(s) == s;
  }

  /** A minus sign before a digit string gives the negated value, within the same limit. */
  lemma PySignedNegative(s: string)
    requires |s| > 1 && s[0] == '-' && IsDigitGroups(s[1..])
    ensures PySigned(s) ==
      if |RemoveUnderscores(s[1..])| <= MaxStrDigits then Some(-(DigitsValue(RemoveUnderscores(s[1..])) as int)) else None
  {
    assert SignedBody(s) == s[1..];
  }

  /** With nothing to strip, int() reads the sign and digits directly. */
  lemma PyIntOfStripped(s: string)
    requires PyStrip(s) == s
    ensures PyInt(s) == PySigned(s)
  {
  }

  /** str() of a negative number is a minus sign before the digits of its magnitude. */
  lemma NegativeIntToString(n: int)
    requires n < 0
    ensures |IntToString(n)| > 1 && IntToString(n)[0] == '-' && IntToString(n)[1..] == NatDigits(-n)
  {
  }

  /** The magnitude of an integer. */
  function Abs(n: int): nat {
    if n < 0 then -n else n
  }

  /**
   * int(str(n)) == n for every integer of at most MaxStrDigits digits, which are the
   * integers str() prints under the same limit; a longer one is refused.
   */
  lemma PyIntOfIntToString(n: int)
    ensures PyInt(IntToString(n)) == if |NatDigits(Abs(n))| <= MaxStrDigits then Some(n) else None
  {
    var m := Abs(n);
    IntToStringUnspaced(n);
    PyIntOfStripped(IntToString(n));
    NatDigitsAreGroups(m);
    DigitsValueOfNatDigits(m);
    if n < 0 {
      NegativeIntToString(n);
      PySignedNegative(IntToString(n));
    } else {
      PySignedUnsigned(IntToString(n));
    }
  }
}
