/** String primitives with the meaning the plugin's Python 2 code gives them:
    `strip`, `lower`, `split`, `split(sep, 1)`, `rsplit(sep, 1)`, `join`,
    `int()` of a string and `str()`/`%d` of an integer. */
module Text {

  datatype Option<+T> = None | Some(value: T)

  // ---------------------------------------------------------------------------
  // Whitespace and stripping
  // ---------------------------------------------------------------------------

  /** Whitespace of a byte string in the C locale (`str.strip`, `str.isspace`). */
  predicate IsByteSpace(c: char) {
    c == ' ' || c == '\t' || c == '\n' || c == '\r' || c == '\U{000B}' || c == '\U{000C}'
  }

  /** Whitespace of a Python 2.7 unicode string (`unicode.strip`, and what `int()` skips). */
  predicate IsUnicodeSpace(c: char) {
    IsByteSpace(c) || ('\U{001C}' <= c <= '\U{001F}') || c == '\U{0085}' || c == '\U{00A0}'
    || c == '\U{1680}' || c == '\U{180E}' || ('\U{2000}' <= c <= '\U{200A}')
    || c == '\U{2028}' || c == '\U{2029}' || c == '\U{202F}' || c == '\U{205F}' || c == '\U{3000}'
  }

  /** Python 2 has two string types, and each has its own notion of whitespace. */
  datatype StringKind = Bytes | Unicode

  predicate IsSpace(kind: StringKind, c: char) {
    match kind
    case Bytes => IsByteSpace(c)
    case Unicode => IsUnicodeSpace(c)
  }

  /** `s` without its longest prefix of whitespace characters of its kind. */
  function TrimLeft(s: string, kind: StringKind): (r: string)
    ensures |r| <= |s|
  {
    if |s| > 0 && IsSpace(kind, s[0]) then TrimLeft(s[1..], kind) else s
  }

  /** What `TrimLeft` removes is a run of whitespace, and what it keeps starts with none. */
  lemma {:induction false} TrimLeftSpec(s: string, kind: StringKind)
    ensures var r := TrimLeft(s, kind);
      r == s[|s| - |r|..] && (r == [] || !IsSpace(kind, r[0])) &&
      forall i :: 0 <= i < |s| - |r| ==> IsSpace(kind, s[i])
    decreases |s|
  {
    if |s| > 0 && IsSpace(kind, s[0]) {
      TrimLeftSpec(s[1..], kind);
      var r := TrimLeft(s[1..], kind);
      assert s[1..][|s| - 1 - |r|..] == s[|s| - |r|..];
      forall i | 1 <= i < |s| - |r| ensures IsSpace(kind, s[i]) {
        assert s[i] == s[1..][i - 1];
      }
    }
  }

  /** `s` without its longest suffix of whitespace characters of its kind. */
  function TrimRight(s: string, kind: StringKind): (r: string)
    ensures |r| <= |s|
  {
    if |s| > 0 && IsSpace(kind, s[|s| - 1]) then TrimRight(s[..|s| - 1], kind) else s
  }

  /** What `TrimRight` removes is a run of whitespace, and what it keeps ends with none. */
  lemma {:induction false} TrimRightSpec(s: string, kind: StringKind)
    ensures var r := TrimRight(s, kind);
      r == s[..|r|] && (r == [] || !IsSpace(kind, r[|r| - 1])) &&
      forall i :: |r| <= i < |s| ==> IsSpace(kind, s[i])
    decreases |s|
  {
    if |s| > 0 && IsSpace(kind, s[|s| - 1]) {
      TrimRightSpec(s[..|s| - 1], kind);
      var r := TrimRight(s[..|s| - 1], kind);
      assert s[..|s| - 1][..|r|] == s[..|r|];
      forall i | |r| <= i < |s| - 1 ensures IsSpace(kind, s[i]) {
        assert s[i] == s[..|s| - 1][i];
      }
    }
  }

  /** Python's `s.strip()`, with the whitespace notion of the string's kind. */
  function Strip(s: string, kind: StringKind): string {
    TrimRight(TrimLeft(s, kind), kind)
  }

  /** A string that neither begins nor ends with whitespace is its own strip. */
  lemma StripUnchanged(s: string, kind: StringKind)
    requires s == [] || (!IsSpace(kind, s[0]) && !IsSpace(kind, s[|s| - 1]))
    ensures Strip(s, kind) == s
  {
  }

  // ---------------------------------------------------------------------------
  // Lower-casing
  // ---------------------------------------------------------------------------

  /** `str.lower` on one byte: ASCII letters only. */
  function LowerByte(c: char): char {
    if 'A' <= c <= 'Z' then (c as int + 32) as char else c
  }

  /** `str.lower` on a byte string. */
  function ByteLower(s: string): string {
    seq(|s|, i requires 0 <= i < |s| => LowerByte(s[i]))
  }

  /** `unicode.lower` on one character, as far as the result can be an ASCII letter:
      the ASCII capitals, LATIN CAPITAL LETTER I WITH DOT ABOVE (to `i`) and
      KELVIN SIGN (to `k`); every other character is kept. */
  function LowerChar(c: char): char {
    if 'A' <= c <= 'Z' then (c as int + 32) as char
    else if c == '\U{0130}' then 'i'
    else if c == '\U{212A}' then 'k'
    else c
  }

  /** `unicode.lower`, restricted as `LowerChar` is. */
  function UnicodeLower(s: string): string {
    seq(|s|, i requires 0 <= i < |s| => LowerChar(s[i]))
  }

  // ---------------------------------------------------------------------------
  // Splitting and joining
  // ---------------------------------------------------------------------------

  /** Python's `s.split(sep)` for a one-character separator: every piece, empty ones included. */
  function Split(s: string, sep: char): (parts: seq<string>)
    ensures |parts| >= 1
    ensures sep !in s ==> parts == [s]
    ensures forall k :: 0 <= k < |parts| ==> sep !in parts[k]
  {
    if s == [] then [[]]
    else
      var rest := Split(s[1..], sep);
      if s[0] == sep then [[]] + rest
      else
        assert sep !in s ==> rest == [s[1..]] && [s[0]] + s[1..] == s;
        [[s[0]] + rest[0]] + rest[1..]
  }

  /** Python's `sep.join(parts)` for a one-character separator. */
  function Join(parts: seq<string>, sep: char): string {
    if |parts| == 0 then []
    else if |parts| == 1 then parts[0]
    else parts[0] + [sep] + Join(parts[1..], sep)
  }

  lemma {:induction false} SplitAfterFirstPiece(a: string, b: string, sep: char)
    requires sep !in a
    ensures Split(a + [sep] + b, sep) == [a] + Split(b, sep)
    decreases |a|
  {
    if a == [] {
      assert (a + [sep] + b)[1..] == b;
    } else {
      assert (a + [sep] + b)[1..] == a[1..] + [sep] + b;
      SplitAfterFirstPiece(a[1..], b, sep);
      assert [a[0]] + a[1..] == a;
    }
  }

  /** Splitting undoes joining when no piece holds the separator. */
  lemma {:induction false} SplitJoin(parts: seq<string>, sep: char)
    requires |parts| >= 1
    requires forall k :: 0 <= k < |parts| ==> sep !in parts[k]
    ensures Split(Join(parts, sep), sep) == parts
    decreases |parts|
  {
    if |parts| > 1 {
      SplitJoin(parts[1..], sep);
      SplitAfterFirstPiece(parts[0], Join(parts[1..], sep), sep);
      assert [parts[0]] + parts[1..] == parts;
    }
  }

  /** Joining undoes splitting. */
  lemma {:induction false} JoinSplit(s: string, sep: char)
    ensures Join(Split(s, sep), sep) == s
    decreases |s|
  {
    if s != [] {
      JoinSplit(s[1..], sep);
      var rest := Split(s[1..], sep);
      if s[0] != sep {
        var parts := [[s[0]] + rest[0]] + rest[1..];
        assert parts[1..] == rest[1..];
        if |rest| > 1 {
          assert Join(rest, sep) == rest[0] + [sep] + Join(rest[1..], sep);
        }
      }
      assert [s[0]] + s[1..] == s;
    }
  }

  /** Python's `s.split(sep, 1)` unpacked into two names: None when the unpacking
      raises because `sep` does not occur; otherwise the split at the first `sep`. */
  function SplitOnce(s: string, sep: char): (r: Option<(string, string)>)
    ensures r.None? <==> sep !in s
    ensures r.Some? ==> s == r.value.0 + [sep] + r.value.1 && sep !in r.value.0
  {
    if s == [] then None
    else if s[0] == sep then
      assert s == [] + [sep] + s[1..];
      Some(([], s[1..]))
    else
      match SplitOnce(s[1..], sep)
      case None => None
      case Some((a, b)) =>
        assert s == [s[0]] + a + [sep] + b;
        Some(([s[0]] + a, b))
  }

  /** `pat` occurs in `s` starting at index `i`. */
  predicate OccursAt(s: string, pat: string, i: int) {
    0 <= i && i + |pat| <= |s| && s[i..i + |pat|] == pat
  }

  /** Python's `s.rsplit(sep, 1)` unpacked into two names: None when the unpacking
      raises because `sep` does not occur; otherwise the split at the last `sep`. */
  function RSplitOnce(s: string, sep: string): (r: Option<(string, string)>)
    requires |sep| > 0
    ensures r.None? <==> forall i :: !OccursAt(s, sep, i)
    ensures r.Some? ==> s == r.value.0 + sep + r.value.1
    ensures r.Some? ==> forall i :: |r.value.0| < i ==> !OccursAt(s, sep, i)
    decreases |s|
  {
    if |s| < |sep| then None
    else if s[|s| - |sep|..] == sep then
      assert OccursAt(s, sep, |s| - |sep|);
      assert s == s[..|s| - |sep|] + sep + [];
      Some((s[..|s| - |sep|], []))
    else
      var t := s[..|s| - 1];
      OccursInPrefix(s, sep);
      match RSplitOnce(t, sep)
      case None => None
      case Some((a, b)) =>
        assert s == a + sep + (b + [s[|s| - 1]]);
        assert OccursAt(s, sep, |a|);
        Some((a, b + [s[|s| - 1]]))
  }

  /** When `s` does not end with `pat`, the occurrences of `pat` in `s` are those in `s` without its last character. */
  lemma OccursInPrefix(s: string, pat: string)
    requires |pat| > 0 && |s| >= |pat| && s[|s| - |pat|..] != pat
    ensures forall i :: OccursAt(s, pat, i) <==> OccursAt(s[..|s| - 1], pat, i)
  {
    forall i ensures OccursAt(s, pat, i) <==> OccursAt(s[..|s| - 1], pat, i) {
      if 0 <= i && i + |pat| <= |s| - 1 {
        assert s[..|s| - 1][i..i + |pat|] == s[i..i + |pat|];
      }
    }
  }

  /** `split(sep, 1)` splits at the first separator: the one after a separator-free prefix. */
  lemma SplitOnceAt(a: string, b: string, sep: char)
    requires sep !in a
    ensures SplitOnce(a + [sep] + b, sep) == Some((a, b))
  {
    var s := a + [sep] + b;
    var r := SplitOnce(s, sep);
    assert s[|a|] == sep;
    var x := r.value.0;
    assert s[|x|] == sep;
    assert forall i :: 0 <= i < |a| ==> s[i] == a[i];
    assert forall i :: 0 <= i < |x| ==> s[i] == x[i];
    assert |x| == |a|;
    assert x == s[..|a|] == a;
    assert r.value.1 == s[|a| + 1..] == b;
  }

  /** `rsplit(sep, 1)` splits at an occurrence with none after it. */
  lemma RSplitLast(a: string, sep: string, b: string)
    requires |sep| > 0
    requires forall i :: |a| < i ==> !OccursAt(a + sep + b, sep, i)
    ensures RSplitOnce(a + sep + b, sep) == Some((a, b))
  {
    var s := a + sep + b;
    assert s[|a|..|a| + |sep|] == sep;
    assert OccursAt(s, sep, |a|);
    var r := RSplitOnce(s, sep);
    var x := r.value.0;
    assert s[|x|..|x| + |sep|] == sep;
    assert OccursAt(s, sep, |x|);
    assert |x| == |a|;
    assert x == s[..|a|] == a;
    assert r.value.1 == s[|a| + |sep|..] == b;
  }

  /** `s` holds no `:::` anywhere. */
  ghost predicate NoMarker(s: string) {
    forall i :: !OccursAt(s, ":::", i)
  }

  /** Text without a `:` holds no `:::`. */
  lemma ColonFreeNoMarker(s: string)
    requires ':' !in s
    ensures NoMarker(s)
  {
    forall i ensures !OccursAt(s, ":::", i) {
      if 0 <= i && i + 3 <= |s| {
        assert s[i] in s;
        assert s[i..i + 3][0] == s[i];
      }
    }
  }

  /** After `:::`, text that holds no `:::` and does not start with `:` holds no further `:::`. */
  lemma NoLaterMarker(a: string, b: string)
    requires (b == [] || b[0] != ':') && NoMarker(b)
    ensures forall i :: |a| < i ==> !OccursAt(a + ":::" + b, ":::", i)
  {
    var s := a + ":::" + b;
    forall i | |a| < i ensures !OccursAt(s, ":::", i) {
      if i + 3 <= |s| {
        if i >= |a| + 3 {
          assert s[i..i + 3] == b[i - |a| - 3..i - |a|];
          assert !OccursAt(b, ":::", i - |a| - 3);
        } else {
          assert s[|a| + 3] == b[0];
          assert s[i..i + 3][|a| + 3 - i] == b[0];
        }
      }
    }
  }

  /** Text that holds no `:::` between two pieces without a `:` makes a whole without `:::`. */
  lemma MarkerFreeBetween(pre: string, l: string, rest: string)
    requires ':' !in pre && ':' !in rest && NoMarker(l)
    ensures NoMarker(pre + l + rest)
  {
    var s := pre + l + rest;
    forall i ensures !OccursAt(s, ":::", i) {
      if 0 <= i && i + 3 <= |s| {
        if i < |pre| {
          assert pre[i] in pre;
          assert s[i..i + 3][0] == pre[i] != ':';
          assert s[i..i + 3] != ":::";
        } else if i + 3 <= |pre| + |l| {
          assert s[i..i + 3] == l[i - |pre|..i - |pre| + 3];
          assert !OccursAt(l, ":::", i - |pre|);
        } else {
          var k := i + 2 - |pre| - |l|;
          assert rest[k] in rest;
          assert s[i..i + 3][2] == rest[k] != ':';
          assert s[i..i + 3] != ":::";
        }
      }
    }
  }

  /** A string that ends with the separator splits into pieces the last of which is empty. */
  lemma {:induction false} SplitEndsEmpty(s: string, sep: char)
    requires |s| > 0 && s[|s| - 1] == sep
    ensures var parts := Split(s, sep); |parts| >= 2 && parts[|parts| - 1] == []
    decreases |s|
  {
    if |s| == 1 {
      assert s[1..] == [];
    } else {
      SplitEndsEmpty(s[1..], sep);
    }
  }

  /** A character found in neither the pieces nor the separator is not in their join. */
  lemma {:induction false} JoinFree(parts: seq<string>, sep: char, x: char)
    requires x != sep && forall k :: 0 <= k < |parts| ==> x !in parts[k]
    ensures x !in Join(parts, sep)
    decreases |parts|
  {
    if |parts| > 1 {
      JoinFree(parts[1..], sep, x);
    }
  }

  /** Concatenation regrouped; the solver only knows it through extensionality. */
  lemma AppendAssoc<T>(a: seq<T>, b: seq<T>, c: seq<T>)
    ensures a + b + c == a + (b + c)
  {
  }

  /** Concatenation of a sequence of strings (what writing them one after another produces). */
  function Concat(parts: seq<string>): string {
    if parts == [] then [] else parts[0] + Concat(parts[1..])
  }

  /** The elements of `s` in the opposite order (Python's `list.reverse()`). */
  function Reverse<T>(s: seq<T>): seq<T> {
    if s == [] then [] else Reverse(s[1..]) + [s[0]]
  }

  lemma {:induction false} ReverseAt<T>(s: seq<T>, k: nat)
    requires k < |s|
    ensures |Reverse(s)| == |s| && Reverse(s)[k] == s[|s| - 1 - k]
    decreases |s|
  {
    ReverseLength(s);
    if k < |s| - 1 {
      ReverseAt(s[1..], k);
    }
  }

  lemma {:induction false} ReverseLength<T>(s: seq<T>)
    ensures |Reverse(s)| == |s|
    decreases |s|
  {
    if s != [] {
      ReverseLength(s[1..]);
    }
  }

  // ---------------------------------------------------------------------------
  // Integers
  // ---------------------------------------------------------------------------

  predicate IsDigit(c: char) {
    '0' <= c <= '9'
  }

  predicate AllDigits(s: string) {
    forall i :: 0 <= i < |s| ==> IsDigit(s[i])
  }

  /** The number a string of decimal digits denotes. */
  function DigitsValue(s: string): nat
    requires AllDigits(s)
  {
    if s == [] then 0 else DigitsValue(s[..|s| - 1]) * 10 + (s[|s| - 1] as int - '0' as int)
  }

  /** Python 2's `int(s)` on a unicode string: surrounding whitespace, an optional sign,
      whitespace between the sign and the digits, and at least one ASCII digit.
      None where `int()` raises. Python also reads the other Unicode decimal digits
      (fullwidth, Arabic-Indic, ...); those are rejected here. */
  function ParseInt(s: string): Option<int> {
    ParseSigned(Strip(s, Unicode))
  }

  /** `int()` of an already stripped string. */
  function ParseSigned(t: string): Option<int> {
    if |t| > 0 && t[0] == '-' then
      match ParseDigits(TrimLeft(t[1..], Unicode))
      case None => None
      case Some(v) => Some(-v)
    else if |t| > 0 && t[0] == '+' then ParseDigits(TrimLeft(t[1..], Unicode))
    else ParseDigits(t)
  }

  /** A non-empty run of ASCII digits, read as a number. */
  function ParseDigits(d: string): Option<int> {
    if |d| > 0 && AllDigits(d) then Some(DigitsValue(d)) else None
  }

  function DigitChar(d: nat): char
    requires d < 10
  {
    ('0' as int + d) as char
  }

  /** The decimal numeral of `n`, without leading zeros. */
  function NatToString(n: nat): (r: string)
    ensures |r| > 0 && AllDigits(r)
  {
    if n < 10 then [DigitChar(n)] else NatToString(n / 10) + [DigitChar(n % 10)]
  }

  /** Python's `str(n)` and `"%d" % n`. */
  function IntToString(n: int): string {
    if n < 0 then "-" + NatToString(-n) else NatToString(n)
  }

  lemma {:induction false} NatToStringValue(n: nat)
    ensures DigitsValue(NatToString(n)) == n
    decreases n
  {
    if n >= 10 {
      NatToStringValue(n / 10);
      var s := NatToString(n);
      assert s[..|s| - 1] == NatToString(n / 10);
    }
  }

  /** A numeral has no whitespace at either end, so `int()` reads its digits unchanged. */
  lemma NumeralParses(d: string)
    requires |d| > 0 && AllDigits(d)
    ensures TrimLeft(d, Unicode) == d
    ensures ParseDigits(d) == Some(DigitsValue(d) as int)
    ensures ParseInt(d) == Some(DigitsValue(d) as int)
  {
    assert IsDigit(d[0]) && IsDigit(d[|d| - 1]);
    StripUnchanged(d, Unicode);
  }

  lemma MinusParses(t: string, d: string, v: int)
    requires |t| > 0 && t[0] == '-' && TrimLeft(t[1..], Unicode) == d
    requires ParseDigits(d) == Some(v)
    ensures ParseSigned(t) == Some(-v)
  {
  }

  lemma StrippedParses(s: string, v: int)
    requires Strip(s, Unicode) == s && ParseSigned(s) == Some(v)
    ensures ParseInt(s) == Some(v)
  {
  }

  lemma MinusNumeralStripped(d: string)
    requires |d| > 0 && AllDigits(d)
    ensures Strip("-" + d, Unicode) == "-" + d && ("-" + d)[1..] == d
  {
    var s := "-" + d;
    assert IsDigit(d[|d| - 1]) && s[|s| - 1] == d[|d| - 1];
    StripUnchanged(s, Unicode);
  }

  /** A minus sign before a numeral gives the negated value. */
  lemma NegativeNumeralParses(d: string, v: int)
    requires |d| > 0 && AllDigits(d) && ParseDigits(d) == Some(v)
    ensures ParseInt("-" + d) == Some(-v)
  {
    MinusNumeralStripped(d);
    assert TrimLeft(d, Unicode) == d by {
      assert IsDigit(d[0]);
    }
    MinusParses("-" + d, d, v);
    StrippedParses("-" + d, -v);
  }

  lemma NegativeIntString(n: int, d: string)
    requires n < 0 && d == NatToString(-n) && DigitsValue(d) == -n
    ensures ParseInt(IntToString(n)) == Some(n)
  {
    NumeralParses(d);
    NegativeNumeralParses(d, -n);
  }

  /** `int()` reads back what `str()` writes. */
  lemma ParseIntString(n: int)
    ensures ParseInt(IntToString(n)) == Some(n)
  {
    if n < 0 {
      NatToStringValue(-n);
      NegativeIntString(n, NatToString(-n));
    } else {
      NatToStringValue(n);
      NumeralParses(NatToString(n));
    }
  }

  /** Neither a numeral nor its sign is whitespace, a comma or a semicolon. */
  lemma IntStringChars(n: int)
    ensures var s := IntToString(n);
      forall i :: 0 <= i < |s| ==> s[i] == '-' || IsDigit(s[i])
  {
  }
}
