/** The JavaScript built-ins on strings and numbers that the core relies on,
    each restricted to the way the core uses it:
    `String.prototype.toLowerCase`, `includes`, `startsWith`, `split` on a
    one-character separator (or a one-character class) followed by
    `Array.prototype.pop`, the decimal rendering of an integral Number, and
    the global `parseInt` without a radix. */
module JsText {
  import opened Wrappers

  /** JavaScript truthiness of a string that may be `null` or `undefined`
      (None): present and non-empty. */
  predicate Truthy(s: Option<string>) {
    s.Some? && s.value != ""
  }

  // ---------------------------------------------------------------------
  // toLowerCase (ASCII letters only)
  // ---------------------------------------------------------------------

  predicate IsUpper(c: char) { 'A' <= c <= 'Z' }

  function LowerChar(c: char): char {
    if IsUpper(c) then (c as int + 32) as char else c
  }

  /** `s.toLowerCase()`, folding the ASCII letters A-Z only. */
  function ToLower(s: string): (r: string)
    ensures |r| == |s|
    ensures forall i :: 0 <= i < |r| ==> !IsUpper(r[i])
    ensures forall i :: 0 <= i < |r| && !IsUpper(s[i]) ==> r[i] == s[i]
    ensures forall i :: 0 <= i < |r| && IsUpper(s[i]) ==> r[i] as int == s[i] as int + 32
  {
    seq(|s|, i requires 0 <= i < |s| => LowerChar(s[i]))
  }

  /** Folding twice is folding once. */
  lemma ToLowerIdempotent(s: string)
    ensures ToLower(ToLower(s)) == ToLower(s)
  {
  }

  // ---------------------------------------------------------------------
  // startsWith / includes
  // ---------------------------------------------------------------------

  /** `s.startsWith(prefix)`. */
  predicate StartsWith(s: string, prefix: string) {
    |prefix| <= |s| && s[..|prefix|] == prefix
  }

  /** `s` holds `t` at offset `i`. */
  ghost predicate OccursAt(s: string, t: string, i: int) {
    0 <= i && i + |t| <= |s| && s[i..i + |t|] == t
  }

  /** `s.includes(t)`: some offset of `s` holds `t`. */
  function Includes(s: string, t: string): (r: bool)
    ensures r <==> exists i :: OccursAt(s, t, i)
    decreases |s|
  {
    if StartsWith(s, t) then
      assert OccursAt(s, t, 0);
      true
    else if |s| <= |t| then
      assert forall i :: !OccursAt(s, t, i);
      false
    else
      var r := Includes(s[1..], t);
      IncludesShift(s, t);
      r
  }

  /** An occurrence in `s` either starts at offset 0 or is an occurrence
      in the tail of `s`, one offset to the left. */
  lemma IncludesShift(s: string, t: string)
    requires |s| > 0 && !StartsWith(s, t)
    ensures (exists i :: OccursAt(s, t, i)) <==> (exists i :: OccursAt(s[1..], t, i))
  {
    if i :| OccursAt(s, t, i) {
      assert i != 0 by { assert s[..|t|] == s[0..|t|]; }
      assert s[1..][i - 1..i - 1 + |t|] == s[i..i + |t|];
      assert OccursAt(s[1..], t, i - 1);
    }
    if j :| OccursAt(s[1..], t, j) {
      assert s[1..][j..j + |t|] == s[j + 1..j + 1 + |t|];
      assert OccursAt(s, t, j + 1);
    }
  }

  /** Every string includes the empty string. */
  lemma IncludesEmpty(s: string)
    ensures Includes(s, "")
  {
    assert OccursAt(s, "", 0);
  }

  // ---------------------------------------------------------------------
  // split on a one-character separator, and pop
  // ---------------------------------------------------------------------

  /** No character of `s` is a separator. */
  predicate Free(s: string, seps: set<char>) {
    forall i :: 0 <= i < |s| ==> s[i] !in seps
  }

  /** `s.split(sep)` for a one-character `sep`, or `s.split(/[..]/)` for a
      one-character class: the maximal separator-free runs of `s`, in order. */
  function Split(s: string, seps: set<char>): (r: seq<string>)
    ensures |r| >= 1
    ensures forall i :: 0 <= i < |r| ==> Free(r[i], seps)
    ensures |r| == 1 ==> r[0] == s
    decreases |s|
  {
    if s == [] then [""]
    else
      var rest := Split(s[1..], seps);
      if s[0] in seps then [""] + rest
      else [[s[0]] + rest[0]] + rest[1..]
  }

  /** A string splits into one field exactly when it has no separator. */
  lemma SplitSingle(s: string, seps: set<char>)
    ensures |Split(s, seps)| == 1 <==> Free(s, seps)
  {
    if Free(s, seps) {
      SplitFreePrefix(s, "", seps);
      assert s + "" == s;
    }
  }

  /** `parts.join(sep)`. */
  function Join(parts: seq<string>, sep: char): string
    requires |parts| >= 1
    decreases |parts|
  {
    if |parts| == 1 then parts[0] else parts[0] + [sep] + Join(parts[1..], sep)
  }

  /** Splitting loses nothing: joining the fields restores the string. */
  lemma {:induction false} JoinSplit(s: string, sep: char)
    ensures Join(Split(s, {sep}), sep) == s
    decreases |s|
  {
    if s != [] {
      var rest := Split(s[1..], {sep});
      JoinSplit(s[1..], sep);
      if s[0] == sep {
        assert Split(s, {sep}) == [""] + rest;
        assert s == [sep] + s[1..];
      } else if |rest| == 1 {
        assert s == [s[0]] + s[1..];
      } else {
        assert Split(s, {sep})[1..] == rest[1..];
        assert Join(rest, sep) == rest[0] + [sep] + Join(rest[1..], sep);
        assert s == [s[0]] + s[1..];
      }
    }
  }

  /** A separator-free prefix becomes the head of the first field. */
  lemma {:induction false} SplitFreePrefix(a: string, b: string, seps: set<char>)
    requires Free(a, seps)
    ensures Split(a + b, seps) == [a + Split(b, seps)[0]] + Split(b, seps)[1..]
    decreases |a|
  {
    if a != [] {
      var s := a + b;
      assert s != [] && s[0] == a[0] && s[0] !in seps;
      assert s[1..] == a[1..] + b;
      SplitFreePrefix(a[1..], b, seps);
      var rest := Split(s[1..], seps);
      assert Split(s, seps) == [[a[0]] + rest[0]] + rest[1..];
      assert [a[0]] + (a[1..] + Split(b, seps)[0]) == a + Split(b, seps)[0];
    } else {
      assert a + b == b;
      assert Split(b, seps) == [Split(b, seps)[0]] + Split(b, seps)[1..];
      assert a + Split(b, seps)[0] == Split(b, seps)[0];
    }
  }

  /** Joining separator-free fields and splitting again gives back the fields. */
  lemma {:induction false} SplitJoin(parts: seq<string>, sep: char)
    requires |parts| >= 1
    requires forall i :: 0 <= i < |parts| ==> Free(parts[i], {sep})
    ensures Split(Join(parts, sep), {sep}) == parts
    decreases |parts|
  {
    if |parts| == 1 {
      SplitFreePrefix(parts[0], "", {sep});
      assert parts[0] + "" == parts[0];
    } else {
      var tail := Join(parts[1..], sep);
      SplitJoin(parts[1..], sep);
      var t := [sep] + tail;
      assert t[1..] == tail;
      assert Split(t, {sep}) == [""] + parts[1..];
      SplitFreePrefix(parts[0], t, {sep});
      assert parts[0] + [sep] + tail == parts[0] + t;
      assert parts[0] + "" == parts[0];
    }
  }

  /** `s.split(...).pop()`: the last field. */
  function LastSegment(s: string, seps: set<char>): (r: string)
    ensures Free(r, seps)
    ensures |r| <= |s| && s[|s| - |r|..] == r
    ensures |r| < |s| ==> s[|s| - |r| - 1] in seps
  {
    var parts := Split(s, seps);
    SplitLast(s, seps);
    parts[|parts| - 1]
  }

  /** The last field is the suffix of `s` after its last separator. */
  lemma {:induction false} SplitLast(s: string, seps: set<char>)
    ensures var parts := Split(s, seps);
            var r := parts[|parts| - 1];
            |r| <= |s| && s[|s| - |r|..] == r &&
            (|r| < |s| ==> s[|s| - |r| - 1] in seps) &&
            (|parts| >= 2 ==> |r| < |s|)
    decreases |s|
  {
    if s != [] {
      SplitLast(s[1..], seps);
      var rest := Split(s[1..], seps);
      if s[0] !in seps && |rest| == 1 {
        assert rest[0] == s[1..];
        assert Split(s, seps) == [[s[0]] + s[1..]];
        assert [s[0]] + s[1..] == s;
      } else {
        var r := rest[|rest| - 1];
        assert Split(s, seps)[|Split(s, seps)| - 1] == r;
        assert s[|s| - |r|..] == s[1..][|s| - 1 - |r|..];
        if |r| < |s| - 1 {
          assert s[|s| - |r| - 1] == s[1..][|s| - 1 - |r| - 1];
        }
      }
    }
  }

  /** A separator-free string is its own last field. */
  lemma LastSegmentOfFree(s: string, seps: set<char>)
    requires Free(s, seps)
    ensures LastSegment(s, seps) == s
  {
  }

  /** After a separator, the last field is the last field of what follows. */
  lemma {:induction false} LastSegmentAfter(a: string, c: char, b: string, seps: set<char>)
    requires c in seps && Free(b, seps)
    ensures LastSegment(a + [c] + b, seps) == b
  {
    var s := a + [c] + b;
    var r := LastSegment(s, seps);
    assert s[|s| - |b| - 1] == c;
    assert s[|s| - |b|..] == b;
  }

  // ---------------------------------------------------------------------
  // numbers: decimal rendering and parseInt
  // ---------------------------------------------------------------------

  predicate IsDigit(c: char) { '0' <= c <= '9' }

  function DigitChar(d: nat): (c: char)
    requires d < 10
    ensures IsDigit(c)
  {
    ('0' as int + d) as char
  }

  /** `String(n)` for a non-negative integral Number below 10^21 (such as
      `Date.now()`): its decimal digits without leading zeros. */
  function DecimalString(n: nat): (r: string)
    ensures |r| >= 1
    ensures forall i :: 0 <= i < |r| ==> IsDigit(r[i])
    ensures |r| > 1 ==> r[0] != '0'
    decreases n
  {
    if n < 10 then [DigitChar(n)] else DecimalString(n / 10) + [DigitChar(n % 10)]
  }

  /** `String(i)` for an integral Number. */
  function IntString(i: int): string {
    if i < 0 then "-" + DecimalString(-i) else DecimalString(i)
  }

  /** The result of a numeric conversion: an integral value or NaN. */
  datatype Number = Int(value: int) | NaN

  /** The characters `parseInt` skips before the number: ECMAScript's
      WhiteSpace and LineTerminator productions. */
  predicate IsSpace(c: char) {
    c == '\t' || c == '\n' || c == '\U{000B}' || c == '\U{000C}' || c == '\r' || c == ' '
    || c == '\U{00A0}' || c == '\U{1680}' || ('\U{2000}' <= c <= '\U{200A}')
    || c == '\U{2028}' || c == '\U{2029}' || c == '\U{202F}' || c == '\U{205F}'
    || c == '\U{3000}' || c == '\U{FEFF}'
  }

  /** `s` with its leading white space removed. */
  function TrimStart(s: string): (r: string)
    ensures |r| <= |s| && s[|s| - |r|..] == r
    ensures r != [] ==> !IsSpace(r[0])
    decreases |s|
  {
    if s != [] && IsSpace(s[0]) then TrimStart(s[1..]) else s
  }

  /** The value of `c` as a digit (36 for a character that is no digit). */
  function DigitValue(c: char): nat {
    if '0' <= c <= '9' then c as int - '0' as int
    else if 'a' <= c <= 'z' then c as int - 'a' as int + 10
    else if 'A' <= c <= 'Z' then c as int - 'A' as int + 10
    else 36
  }

  predicate IsRadixDigit(c: char, radix: nat) { DigitValue(c) < radix }

  /** The longest prefix of `s` made of digits in `radix`. */
  function LeadingDigits(s: string, radix: nat): (r: string)
    ensures |r| <= |s| && s[..|r|] == r
    ensures forall i :: 0 <= i < |r| ==> IsRadixDigit(r[i], radix)
    ensures |r| < |s| ==> !IsRadixDigit(s[|r|], radix)
    decreases |s|
  {
    if s != [] && IsRadixDigit(s[0], radix) then [s[0]] + LeadingDigits(s[1..], radix) else []
  }

  /** The value of a digit string, most significant digit first. */
  function DigitsValue(d: string, radix: nat): nat
    decreases |d|
  {
    if d == [] then 0 else DigitsValue(d[..|d| - 1], radix) * radix + DigitValue(d[|d| - 1])
  }

  /** The digits after the sign: a `0x`/`0X` prefix selects radix 16
      (radix 10 otherwise), then the longest run of digits is read; no
      digit gives NaN. */
  function ParseUnsigned(u: string): (r: Number)
    ensures r.Int? ==> r.value >= 0 && exists i :: 0 <= i < |u| && IsDigit(u[i])
  {
    var hex := |u| >= 2 && u[0] == '0' && (u[1] == 'x' || u[1] == 'X');
    var radix := if hex then 16 else 10;
    var body := if hex then u[2..] else u;
    var digits := LeadingDigits(body, radix);
    if digits == [] then NaN
    else
      assert IsDigit(u[if hex then 0 else 0]);
      Int(DigitsValue(digits, radix))
  }

  /** `parseInt(s)` without a radix: skip leading white space, read one
      optional sign, then the unsigned number after it. */
  function ParseInt(s: string): (r: Number)
    ensures r.Int? ==> exists i :: 0 <= i < |s| && IsDigit(s[i])
  {
    var t := TrimStart(s);
    var k := |s| - |t|;
    if t != [] && (t[0] == '-' || t[0] == '+') then
      var r := ParseUnsigned(t[1..]);
      if r.NaN? then NaN
      else
        assert forall i :: 0 <= i < |t| - 1 ==> t[1..][i] == s[k + 1 + i];
        Int(if t[0] == '-' then -r.value else r.value)
    else
      var r := ParseUnsigned(t);
      assert forall i :: 0 <= i < |t| ==> t[i] == s[k + i];
      r
  }

  /** The decimal digits of `n` read back give `n`. */
  lemma {:induction false} DigitsValueOfDecimal(n: nat)
    ensures DigitsValue(DecimalString(n), 10) == n
    decreases n
  {
    if n >= 10 {
      var d := DecimalString(n);
      assert d[..|d| - 1] == DecimalString(n / 10);
      DigitsValueOfDecimal(n / 10);
    }
  }

  /** `String` is injective on non-negative integers. */
  lemma DecimalStringInjective(m: nat, n: nat)
    requires DecimalString(m) == DecimalString(n)
    ensures m == n
  {
    DigitsValueOfDecimal(m);
    DigitsValueOfDecimal(n);
  }

  /** `parseInt(String(i)) === i` for every integer `i` (a zero read with
      a minus sign is -0, which the model does not tell apart from 0). */
  lemma ParseIntOfIntString(i: int)
    ensures ParseInt(IntString(i)) == Int(i)
  {
    var m: nat := if i < 0 then -i else i;
    var d := DecimalString(m);
    ParseUnsignedOfDecimal(m);
    if i < 0 {
      var s := "-" + d;
      assert !IsSpace(s[0]);
      assert TrimStart(s) == s;
      assert s[1..] == d;
    } else {
      assert !IsSpace(d[0]);
      assert TrimStart(d) == d;
    }
  }

  /** The unsigned reading of `String(n)` is `n`. */
  lemma ParseUnsignedOfDecimal(n: nat)
    ensures ParseUnsigned(DecimalString(n)) == Int(n)
  {
    var d := DecimalString(n);
    DigitsValueOfDecimal(n);
    LeadingDigitsOfDigits(d);
  }

  lemma {:induction false} LeadingDigitsOfDigits(d: string)
    requires forall i :: 0 <= i < |d| ==> IsDigit(d[i])
    ensures LeadingDigits(d, 10) == d
    decreases |d|
  {
    if d != [] {
      LeadingDigitsOfDigits(d[1..]);
    }
  }
}
