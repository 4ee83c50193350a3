/** The attribute-value escaper of the converter (`encode`, `__init__.py:262-268`):
    five `str.replace` calls, the one for `&` first. */
module Escape {

  /** Python's `s.replace(c, rep)` for a one-character pattern: every occurrence of `c`
      becomes `rep`, every other character is kept. */
  function Replace(s: string, c: char, rep: string): (r: string)
  {
    if s == [] then [] else (if s[0] == c then rep else [s[0]]) + Replace(s[1..], c, rep)
  }

  /** The replacements of the converter's `encode`, in the order it applies them: `&` first,
      so that the `&` of an entity written by a later replacement is never escaped again. */
  const EncodeTable: seq<(char, string)> :=
    [('&', "&amp;"), ('<', "&lt;"), ('>', "&gt;"), ('\'', "&apos;"), ('"', "&quot;")]

  /** `s.replace(c0, r0).replace(c1, r1)...` for the pairs of `table`, left to right. */
  function ReplaceEach(s: string, table: seq<(char, string)>): string
    decreases |table|
  {
    if table == [] then s else ReplaceEach(Replace(s, table[0].0, table[0].1), table[1..])
  }

  /** The converter's `encode`: the five replacements of `EncodeTable`, chained. */
  function Encode(s: string): string {
    ReplaceEach(s, EncodeTable)
  }

  /** The five characters `Encode` rewrites. */
  predicate IsSpecial(c: char) {
    c == '&' || c == '<' || c == '>' || c == '\'' || c == '"'
  }

  /** Characters that must not appear raw in an attribute value written between double quotes. */
  predicate IsMarkup(c: char) {
    c == '<' || c == '>' || c == '\'' || c == '"'
  }

  /** The escape of one character, as a single-pass escaper would write it. */
  function EscapeChar(c: char): string {
    if c == '&' then "&amp;"
    else if c == '<' then "&lt;"
    else if c == '>' then "&gt;"
    else if c == '\'' then "&apos;"
    else if c == '"' then "&quot;"
    else [c]
  }

  /** A single left-to-right pass escaping each character on its own. */
  function EscapeAll(s: string): string {
    if s == [] then [] else EscapeChar(s[0]) + EscapeAll(s[1..])
  }

  lemma {:induction false} ReplaceAppend(a: string, b: string, c: char, rep: string)
    ensures Replace(a + b, c, rep) == Replace(a, c, rep) + Replace(b, c, rep)
    decreases |a|
  {
    if a == [] {
      assert a + b == b;
    } else {
      assert (a + b)[1..] == a[1..] + b;
      ReplaceAppend(a[1..], b, c, rep);
    }
  }

  lemma {:induction false} ReplaceEachAppend(a: string, b: string, table: seq<(char, string)>)
    ensures ReplaceEach(a + b, table) == ReplaceEach(a, table) + ReplaceEach(b, table)
    decreases |table|
  {
    if table != [] {
      var (c, rep) := table[0];
      ReplaceAppend(a, b, c, rep);
      ReplaceEachAppend(Replace(a, c, rep), Replace(b, c, rep), table[1..]);
    }
  }

  lemma {:induction false} ReplaceAbsent(s: string, c: char, rep: string)
    requires c !in s
    ensures Replace(s, c, rep) == s
    decreases |s|
  {
    if s != [] {
      assert c !in s[1..];
      ReplaceAbsent(s[1..], c, rep);
      assert [s[0]] + s[1..] == s;
    }
  }

  lemma ReplaceOne(c: char, d: char, rep: string)
    ensures Replace([c], d, rep) == if c == d then rep else [c]
  {
    assert [c][1..] == [];
  }

  /** Replacements whose characters do not occur leave a string unchanged. */
  lemma {:induction false} ReplaceEachAbsent(s: string, table: seq<(char, string)>)
    requires forall j :: 0 <= j < |table| ==> table[j].0 !in s
    ensures ReplaceEach(s, table) == s
    decreases |table|
  {
    if table != [] {
      ReplaceAbsent(s, table[0].0, table[0].1);
      assert forall j :: 0 <= j < |table[1..]| ==> table[1..][j] == table[j + 1];
      ReplaceEachAbsent(s, table[1..]);
    }
  }

  /** A character first matched by entry `k` becomes that entry's text, provided no later
      entry rewrites that text again. */
  lemma {:induction false} ReplaceEachHit(c: char, table: seq<(char, string)>, k: nat)
    requires k < |table| && table[k].0 == c
    requires forall j :: 0 <= j < k ==> table[j].0 != c
    requires forall j :: k < j < |table| ==> table[j].0 !in table[k].1
    ensures ReplaceEach([c], table) == table[k].1
    decreases k
  {
    ReplaceOne(c, table[0].0, table[0].1);
    assert forall j :: 0 <= j < |table[1..]| ==> table[1..][j] == table[j + 1];
    if k == 0 {
      ReplaceEachAbsent(table[0].1, table[1..]);
    } else {
      ReplaceEachHit(c, table[1..], k - 1);
    }
  }

  /** `Encode` of one character is its single-pass escape: the `&` introduced by an
      earlier replacement is never touched by a later one. */
  lemma EncodeChar(c: char)
    ensures Encode([c]) == EscapeChar(c)
  {
    var t := EncodeTable;
    if c == '&' {
      ReplaceEachHit(c, t, 0);
    } else if c == '<' {
      ReplaceEachHit(c, t, 1);
    } else if c == '>' {
      ReplaceEachHit(c, t, 2);
    } else if c == '\'' {
      ReplaceEachHit(c, t, 3);
    } else if c == '"' {
      ReplaceEachHit(c, t, 4);
    } else {
      ReplaceEachAbsent([c], t);
    }
  }

  /** Chaining the five replacements, `&` first, is the same as escaping each character once. */
  lemma {:induction false} EncodeIsEscapeAll(s: string)
    ensures Encode(s) == EscapeAll(s)
    decreases |s|
  {
    if s != [] {
      assert s == [s[0]] + s[1..];
      ReplaceEachAppend([s[0]], s[1..], EncodeTable);
      EncodeChar(s[0]);
      EncodeIsEscapeAll(s[1..]);
    }
  }

  lemma {:induction false} EscapeAllClean(s: string)
    ensures forall i :: 0 <= i < |EscapeAll(s)| ==> !IsMarkup(EscapeAll(s)[i])
    ensures |EscapeAll(s)| >= |s|
    ensures |EscapeAll(s)| == |s| <==> forall i :: 0 <= i < |s| ==> !IsSpecial(s[i])
    decreases |s|
  {
    if s != [] {
      EscapeAllClean(s[1..]);
      var e, rest := EscapeChar(s[0]), EscapeAll(s[1..]);
      forall i | 0 <= i < |e + rest| ensures !IsMarkup((e + rest)[i]) {
        if i >= |e| {
          assert (e + rest)[i] == rest[i - |e|];
        }
      }
      if forall i :: 0 <= i < |s| ==> !IsSpecial(s[i]) {
        assert forall i :: 0 <= i < |s[1..]| ==> !IsSpecial(s[1..][i]) by {
          forall i | 0 <= i < |s[1..]| ensures !IsSpecial(s[1..][i]) {
            assert s[1..][i] == s[i + 1];
          }
        }
      } else if !IsSpecial(s[0]) {
        var i :| 0 <= i < |s| && IsSpecial(s[i]);
        assert s[1..][i - 1] == s[i];
      }
    }
  }

  /** The escaped value holds no raw `<`, `>`, `'` or `"`. */
  lemma EncodeLeavesNoMarkup(s: string)
    ensures forall i :: 0 <= i < |Encode(s)| ==> !IsMarkup(Encode(s)[i])
  {
    EncodeIsEscapeAll(s);
    EscapeAllClean(s);
  }

  lemma {:induction false} EscapeAllPlain(s: string)
    requires forall i :: 0 <= i < |s| ==> !IsSpecial(s[i])
    ensures EscapeAll(s) == s
    decreases |s|
  {
    if s != [] {
      assert !IsSpecial(s[0]);
      assert forall i :: 0 <= i < |s[1..]| ==> s[1..][i] == s[i + 1];
      EscapeAllPlain(s[1..]);
      assert [s[0]] + s[1..] == s;
    }
  }

  /** `Encode` changes its input exactly when the input holds one of the five special characters. */
  lemma EncodeUnchanged(s: string)
    ensures Encode(s) == s <==> forall i :: 0 <= i < |s| ==> !IsSpecial(s[i])
  {
    EncodeIsEscapeAll(s);
    EscapeAllClean(s);
    if forall i :: 0 <= i < |s| ==> !IsSpecial(s[i]) {
      EscapeAllPlain(s);
    }
  }

  /** Reading an escaped value back: each of the five entities becomes its character. */
  function Unescape(s: string): string
    decreases |s|
  {
    if s == [] then []
    else if "&amp;" <= s then "&" + Unescape(s[5..])
    else if "&lt;" <= s then "<" + Unescape(s[4..])
    else if "&gt;" <= s then ">" + Unescape(s[4..])
    else if "&apos;" <= s then "'" + Unescape(s[6..])
    else if "&quot;" <= s then "\"" + Unescape(s[6..])
    else [s[0]] + Unescape(s[1..])
  }

  lemma {:induction false} UnescapeEscapeAll(s: string)
    ensures Unescape(EscapeAll(s)) == s
    decreases |s|
  {
    if s != [] {
      var e, rest := EscapeChar(s[0]), EscapeAll(s[1..]);
      var t := e + rest;
      UnescapeEscapeAll(s[1..]);
      assert t[..|e|] == e && t[|e|..] == rest;
      if s[0] == '&' {
        assert "&amp;" <= t;
      } else if s[0] == '<' {
        assert t[1] == 'l';
        assert "&lt;" <= t;
      } else if s[0] == '>' {
        assert t[1] == 'g';
        assert "&gt;" <= t;
      } else if s[0] == '\'' {
        assert t[1] == 'a' && t[2] == 'p';
        assert "&apos;" <= t;
      } else if s[0] == '"' {
        assert t[1] == 'q';
        assert "&quot;" <= t;
      } else {
        assert t[0] == s[0] && t[1..] == rest;
      }
      assert [s[0]] + s[1..] == s;
    }
  }

  /** `Unescape` inverts `Encode`: the attribute value survives escaping unchanged. */
  lemma UnescapeEncode(s: string)
    ensures Unescape(Encode(s)) == s
  {
    EncodeIsEscapeAll(s);
    UnescapeEscapeAll(s);
  }
}
