/** Properties of the insertion's directive parser (`Insertion.Directive`): when each of the two
    messages appears, that later assignments override earlier ones, that names and values are
    normalised, that the option string `insertCode` writes parses back to the options it was
    written from, and how the background style is looked up. */
module InsertionLemmas {
  import opened Text
  import opened Escape
  import opened Insertion

  // ---------------------------------------------------------------------------
  // The two messages
  // ---------------------------------------------------------------------------

  /** The format message appears exactly when the value has no `:::` and there are no appendices:
      any assignment at all either applies or raises the option-format message. */
  lemma InvalidFormatIff(c: Config, value: string, appendices: seq<string>)
    ensures Directive(c, value, appendices) == InvalidFormat <==>
      (forall i :: !OccursAt(value, ":::", i)) && appendices == []
  {
    var (code, args) := OptionArgs(value);
    if (forall i :: !OccursAt(value, ":::", i)) && appendices == [] {
      assert args + appendices == [];
    } else {
      assert |args + appendices| > 0;
    }
  }

  /** An assignment that raises whatever the options are makes the whole scan raise, wherever it stands. */
  lemma {:induction false} FailureAnywhere(s: Settings, xs: seq<string>, k: nat)
    requires k < |xs| && forall t :: ApplyAssignment(t, xs[k]).Err?
    ensures ApplyAll(s, xs).Err?
    decreases k
  {
    if k > 0 {
      match ApplyAssignment(s, xs[0]) {
        case Err(_) =>
        case Ok(t) =>
          assert xs[1..][k - 1] == xs[k];
          FailureAnywhere(t, xs[1..], k - 1);
      }
    }
  }

  /** An assignment with neither `=` nor `:`, inline or appended, gives the option-format message. */
  lemma MissingSeparatorFails(c: Config, value: string, appendices: seq<string>, k: nat)
    requires var xs := OptionArgs(value).1 + appendices; k < |xs| && '=' !in xs[k] && ':' !in xs[k]
    ensures Directive(c, value, appendices).InvalidOptionFormat?
  {
    var xs := OptionArgs(value).1 + appendices;
    forall t ensures ApplyAssignment(t, xs[k]).Err? {
    }
    FailureAnywhere(Initial(c), xs, k);
  }

  /** An option section ending in `;` leaves an empty assignment, so the insertion gives the
      option-format message. */
  lemma TrailingSemicolonFails(c: Config, value: string, appendices: seq<string>)
    requires exists i :: OccursAt(value, ":::", i)
    requires |value| > 0 && value[|value| - 1] == ';'
    ensures Directive(c, value, appendices).InvalidOptionFormat?
  {
    var r := RSplitOnce(value, ":::");
    var section := r.value.1;
    assert value == r.value.0 + ":::" + section;
    assert |section| > 0 && section[|section| - 1] == ';';
    SplitEndsEmpty(section, ';');
    var args := Split(section, ';');
    assert (args + appendices)[|args| - 1] == [];
    MissingSeparatorFails(c, value, appendices, |args| - 1);
  }

  // ---------------------------------------------------------------------------
  // Assignments
  // ---------------------------------------------------------------------------

  lemma ApplyAllOne(s: Settings, x: string, xs: seq<string>, t: Settings)
    requires ApplyAssignment(s, x) == Ok(t)
    ensures ApplyAll(s, [x] + xs) == ApplyAll(t, xs)
  {
    assert ([x] + xs)[0] == x && ([x] + xs)[1..] == xs;
  }

  /** `name=value` is handed to the handler as `name` and `value` when the name holds no `=`. */
  lemma Assign(t: Settings, name: string, value: string)
    requires '=' !in name
    ensures ApplyAssignment(t, name + "=" + value) == ApplyOption(t, name, value)
  {
    assert name + "=" + value == name + ['='] + value;
    SplitOnceAt(name, value, '=');
  }

  /** With no `=` in the assignment, the split falls back to the first `:`. */
  lemma SplitAssignmentColon(setopt: string)
    requires '=' !in setopt
    ensures SplitAssignment(setopt) == SplitOnce(setopt, ':')
    ensures ':' in setopt ==>
      var (name, value) := SplitAssignment(setopt).value;
      setopt == name + ":" + value && ':' !in name
  {
  }

  /** `name:value` is handed to the handler as `name` and `value` when neither holds `=` and
      the name holds no `:`: the split falls back to the first `:`. */
  lemma ColonAssign(t: Settings, name: string, value: string)
    requires '=' !in name && '=' !in value && ':' !in name
    ensures ApplyAssignment(t, name + ":" + value) == ApplyOption(t, name, value)
  {
    assert name + ":" + value == name + [':'] + value;
    assert '=' !in name + [':'] + value;
    SplitOnceAt(name, value, ':');
  }

  lemma LangName()
    ensures OptionName("lang") == "lang"
  {
    StripUnchanged("lang", Unicode);
  }

  lemma ShowLinesName()
    ensures OptionName("showLines") == "showlines"
  {
    StripUnchanged("showLines", Unicode);
    assert UnicodeLower("showLines") == "showlines";
  }

  lemma StartLineName()
    ensures OptionName("startLine") == "startline"
  {
    StripUnchanged("startLine", Unicode);
    assert UnicodeLower("startLine") == "startline";
  }

  lemma HlLinesName()
    ensures OptionName("hlLines") == "hllines"
  {
    StripUnchanged("hlLines", Unicode);
    assert UnicodeLower("hlLines") == "hllines";
  }

  lemma BkgName()
    ensures OptionName("Bkg") == "bkg"
  {
    StripUnchanged("Bkg", Unicode);
    assert UnicodeLower("Bkg") == "bkg";
  }

  /** The handler changes only the option its name selects; `lang` and `bkg` take any value,
      and any other name raises. */
  lemma ApplyOptionFrame(s: Settings, name: string, value: string)
    ensures var r := ApplyOption(s, name, value);
      (r.Ok? ==> var t := r.value;
        (OptionName(name) != "lang" ==> t.lang == s.lang) &&
        (OptionName(name) != "showlines" ==> t.showLN == s.showLN) &&
        (OptionName(name) != "startline" ==> t.startLine == s.startLine) &&
        (OptionName(name) != "hllines" ==> t.hlLines == s.hlLines) &&
        (OptionName(name) != "bkg" ==> t.bkg == s.bkg)) &&
      (OptionName(name) == "lang" || OptionName(name) == "bkg" ==> r.Ok?) &&
      (OptionName(name) !in {"lang", "showlines", "startline", "hllines", "bkg"} ==>
        r == Err(UnknownOption(OptionName(name))))
  {
  }

  /** `lang` takes the stripped value, whatever it is. */
  lemma LangOption(s: Settings, name: string, value: string)
    requires OptionName(name) == "lang"
    ensures ApplyOption(s, name, value) == Ok(s.(lang := Strip(value, Unicode)))
  {
  }

  /** `showlines` turns line numbers on exactly for a non-zero integer, and raises on anything
      `int()` refuses. */
  lemma ShowLinesOption(s: Settings, name: string, value: string)
    requires OptionName(name) == "showlines"
    ensures var v := Strip(value, Unicode); var r := ApplyOption(s, name, value);
      (r.Err? <==> ParseInt(v).None?) &&
      (r.Err? ==> r.error == NotAnInteger(v)) &&
      (r.Ok? ==> r.value == s.(showLN := ParseInt(v).value != 0))
  {
  }

  /** `startline` takes any integer, without a lower bound, and raises on anything `int()` refuses. */
  lemma StartLineOption(s: Settings, name: string, value: string)
    requires OptionName(name) == "startline"
    ensures var v := Strip(value, Unicode); var r := ApplyOption(s, name, value);
      (r.Err? <==> ParseInt(v).None?) &&
      (r.Err? ==> r.error == NotAnInteger(v)) &&
      (r.Ok? ==> r.value == s.(startLine := ParseInt(v).value))
  {
  }

  /** `hllines` clears the list for an empty value; otherwise it takes the integer of every
      comma-separated piece, in order, and raises on a piece `int()` refuses. */
  lemma HlLinesOption(s: Settings, name: string, value: string)
    requires OptionName(name) == "hllines"
    ensures var v := Strip(value, Unicode); var pieces := Split(v, ','); var r := ApplyOption(s, name, value);
      (v == [] ==> r == Ok(s.(hlLines := []))) &&
      (v != [] ==> (r.Ok? <==> forall k :: 0 <= k < |pieces| ==> ParseInt(pieces[k]).Some?)) &&
      (v != [] && r.Ok? ==>
        r.value == s.(hlLines := r.value.hlLines) && |r.value.hlLines| == |pieces| &&
        (forall k :: 0 <= k < |pieces| ==> r.value.hlLines[k] == ParseInt(pieces[k]).value)) &&
      (r.Err? ==> exists k :: 0 <= k < |pieces| && ParseInt(pieces[k]).None? && r.error == NotAnInteger(pieces[k]))
  {
    var v := Strip(value, Unicode);
    if v != [] {
      assert HlLines(v) == ParseInts(Split(v, ','));
      ParseIntsSpec(Split(v, ','));
    }
  }

  /** `bkg` takes the stripped value, except that `default` leaves the background as it was. */
  lemma BkgOption(s: Settings, name: string, value: string)
    requires OptionName(name) == "bkg"
    ensures var v := Strip(value, Unicode);
      ApplyOption(s, name, value) == Ok(if v == "default" then s else s.(bkg := v))
  {
  }

  lemma LangAssignmentApplies(t: Settings, x: string)
    ensures ApplyAll(t, ["lang=" + x]) == Ok(t.(lang := Strip(x, Unicode)))
  {
    LangName();
    assert "lang=" + x == "lang" + "=" + x;
    Assign(t, "lang", x);
    ApplyAllOne(t, "lang=" + x, [], t.(lang := Strip(x, Unicode)));
    assert ["lang=" + x] + [] == ["lang=" + x];
  }

  /** `lang:x` sets the language as `lang=x` does, when `x` holds no `=`. */
  lemma LangColonApplies(t: Settings, x: string)
    requires '=' !in x
    ensures ApplyAssignment(t, "lang:" + x) == Ok(t.(lang := Strip(x, Unicode)))
    ensures ApplyAssignment(t, "lang:" + x) == ApplyAssignment(t, "lang=" + x)
  {
    LangName();
    assert "lang:" + x == "lang" + ":" + x;
    assert "lang=" + x == "lang" + "=" + x;
    ColonAssign(t, "lang", x);
    Assign(t, "lang", x);
  }

  /** An appendix `lang=x` after the inline options sets the language, whatever the value said:
      appendices are applied last and so override. */
  lemma AppendedLangWins(c: Config, value: string, appendices: seq<string>, x: string)
    requires Directive(c, value, appendices).Highlight?
    ensures var d := Directive(c, value, appendices);
      Directive(c, value, appendices + ["lang=" + x]) ==
        Highlight(d.code, d.settings.(lang := Strip(x, Unicode)))
  {
    var (code, args) := OptionArgs(value);
    var a := "lang=" + x;
    assert args + (appendices + [a]) == (args + appendices) + [a];
    ApplyAllAppend(Initial(c), args + appendices, [a]);
    LangAssignmentApplies(ApplyAll(Initial(c), args + appendices).value, x);
  }

  lemma StripTwice(t: string)
    ensures Strip(Strip(t, Unicode), Unicode) == Strip(t, Unicode)
  {
    var l := TrimLeft(t, Unicode);
    TrimLeftSpec(t, Unicode);
    TrimRightSpec(l, Unicode);
    StripUnchanged(Strip(t, Unicode), Unicode);
  }

  /** Lower-casing neither creates nor removes whitespace at the ends, and a second lower-casing
      changes nothing. */
  lemma LowerStripped(t: string)
    requires t == [] || (!IsUnicodeSpace(t[0]) && !IsUnicodeSpace(t[|t| - 1]))
    ensures Strip(UnicodeLower(t), Unicode) == UnicodeLower(t)
    ensures UnicodeLower(UnicodeLower(t)) == UnicodeLower(t)
  {
    StripUnchanged(UnicodeLower(t), Unicode);
  }

  /** `OptionName` is a normal form: a name already stripped and lower-cased is left as it is. */
  lemma OptionNameTwice(name: string)
    ensures OptionName(OptionName(name)) == OptionName(name)
  {
    var t := Strip(name, Unicode);
    StripTwice(name);
    TrimLeftSpec(name, Unicode);
    TrimRightSpec(TrimLeft(name, Unicode), Unicode);
    assert t == [] || (!IsUnicodeSpace(t[0]) && !IsUnicodeSpace(t[|t| - 1]));
    LowerStripped(t);
  }

  /** The handler sees a name only stripped and lower-cased, and a value only stripped. */
  lemma OptionNormalised(s: Settings, name: string, value: string)
    ensures ApplyOption(s, name, value) == ApplyOption(s, OptionName(name), Strip(value, Unicode))
  {
    OptionNameTwice(name);
    StripTwice(value);
  }

  // ---------------------------------------------------------------------------
  // The option string of `insertCode` parses back
  // ---------------------------------------------------------------------------

  /** Characters of a comma-separated list of integers. */
  predicate Numeric(s: string) {
    forall i :: 0 <= i < |s| ==> IsDigit(s[i]) || s[i] == '-' || s[i] == ','
  }

  lemma NumericAppend(a: string, b: string)
    requires Numeric(a) && Numeric(b)
    ensures Numeric(a + b)
  {
    forall i | 0 <= i < |a + b| ensures IsDigit((a + b)[i]) || (a + b)[i] == '-' || (a + b)[i] == ',' {
      if i >= |a| {
        assert (a + b)[i] == b[i - |a|];
      }
    }
  }

  lemma {:induction false} NumericJoin(parts: seq<string>)
    requires forall k :: 0 <= k < |parts| ==> Numeric(parts[k])
    ensures Numeric(Join(parts, ','))
    decreases |parts|
  {
    if |parts| > 1 {
      NumericJoin(parts[1..]);
      NumericAppend(parts[0], ",");
      NumericAppend(parts[0] + ",", Join(parts[1..], ','));
    }
  }

  /** Such text has no `:` or `;` to split on. */
  lemma NumericFree(s: string)
    requires Numeric(s)
    ensures ':' !in s && ';' !in s
  {
  }

  /** Such text has no whitespace to strip. */
  lemma NumericPlain(s: string)
    requires Numeric(s)
    ensures Strip(s, Unicode) == s
  {
    if s != [] {
      assert IsDigit(s[0]) || s[0] == '-' || s[0] == ',';
      assert IsDigit(s[|s| - 1]) || s[|s| - 1] == '-' || s[|s| - 1] == ',';
    }
    StripUnchanged(s, Unicode);
  }

  lemma IntNumeric(n: int)
    ensures Numeric(IntToString(n)) && ',' !in IntToString(n) && |IntToString(n)| > 0
  {
    IntStringChars(n);
  }

  function Numerals(xs: seq<int>): (r: seq<string>)
    ensures |r| == |xs| && forall k :: 0 <= k < |xs| ==> r[k] == IntToString(xs[k])
  {
    seq(|xs|, k requires 0 <= k < |xs| => IntToString(xs[k]))
  }

  lemma {:induction false} NumeralsParse(xs: seq<int>)
    ensures ParseInts(Numerals(xs)) == Ok(xs)
    decreases |xs|
  {
    if xs != [] {
      assert Numerals(xs)[1..] == Numerals(xs[1..]);
      NumeralsParse(xs[1..]);
      ParseIntString(xs[0]);
      assert [xs[0]] + xs[1..] == xs;
    }
  }

  /** `hlLines` reads back the list `insertCode` joins with commas, in order. */
  lemma HlLinesRoundTrip(xs: seq<int>)
    ensures Numeric(IntList(xs))
    ensures HlLines(IntList(xs)) == Ok(xs)
  {
    var parts := Numerals(xs);
    assert IntList(xs) == Join(parts, ',');
    forall k | 0 <= k < |parts| ensures Numeric(parts[k]) && ',' !in parts[k] {
      IntNumeric(xs[k]);
    }
    NumericJoin(parts);
    if xs != [] {
      IntNumeric(xs[0]);
      assert |Join(parts, ',')| > 0;
      SplitJoin(parts, ',');
      NumeralsParse(xs);
    }
  }

  /** A language the option string can carry unchanged: no `;` to split on, no `:::` to split
      at, nothing to strip. */
  ghost predicate PlainLang(l: string) {
    ';' !in l && NoMarker(l) && Strip(l, Unicode) == l
  }

  lemma LangApplies(t: Settings, l: string)
    requires Strip(l, Unicode) == l
    ensures ApplyAssignment(t, "lang=" + l) == Ok(t.(lang := l))
  {
    LangName();
    assert "lang=" + l == "lang" + "=" + l;
    Assign(t, "lang", l);
  }

  lemma ShowApplies(t: Settings, b: bool)
    ensures ApplyAssignment(t, "showLines=" + BoolDigit(b)) == Ok(t.(showLN := b))
  {
    assert "showLines=" + BoolDigit(b) == "showLines" + "=" + BoolDigit(b);
    Assign(t, "showLines", BoolDigit(b));
    ShowLinesName();
    ShowLinesOption(t, "showLines", BoolDigit(b));
    NumeralParses(BoolDigit(b));
  }

  lemma StartApplies(t: Settings, n: int)
    ensures ApplyAssignment(t, "startLine=" + IntToString(n)) == Ok(t.(startLine := n))
  {
    assert "startLine=" + IntToString(n) == "startLine" + "=" + IntToString(n);
    Assign(t, "startLine", IntToString(n));
    StartLineName();
    StartLineOption(t, "startLine", IntToString(n));
    IntNumeric(n);
    NumericPlain(IntToString(n));
    ParseIntString(n);
  }

  lemma HlApplies(t: Settings, xs: seq<int>)
    ensures ApplyAssignment(t, "hlLines=" + IntList(xs)) == Ok(t.(hlLines := xs))
  {
    assert "hlLines=" + IntList(xs) == "hlLines" + "=" + IntList(xs);
    Assign(t, "hlLines", IntList(xs));
    HlLinesName();
    HlLinesRoundTrip(xs);
    NumericPlain(IntList(xs));
  }

  lemma BkgDefaultApplies(t: Settings)
    ensures ApplyAssignment(t, "Bkg=default") == Ok(t)
  {
    StripUnchanged("default", Unicode);
    assert "Bkg=default" == "Bkg" + "=" + "default";
    Assign(t, "Bkg", "default");
    BkgName();
    BkgOption(t, "Bkg", "default");
  }

  /** Five assignments that each apply, one after another. */
  lemma ApplyFive(t0: Settings, a0: string, a1: string, a2: string, a3: string, a4: string,
                  t1: Settings, t2: Settings, t3: Settings, t4: Settings, t5: Settings)
    requires ApplyAssignment(t0, a0) == Ok(t1) && ApplyAssignment(t1, a1) == Ok(t2)
    requires ApplyAssignment(t2, a2) == Ok(t3) && ApplyAssignment(t3, a3) == Ok(t4)
    requires ApplyAssignment(t4, a4) == Ok(t5)
    ensures ApplyAll(t0, [a0, a1, a2, a3, a4]) == Ok(t5)
  {
    ApplyAllOne(t4, a4, [], t5);
    ApplyAllOne(t3, a3, [a4], t4);
    ApplyAllOne(t2, a2, [a3, a4], t3);
    ApplyAllOne(t1, a1, [a2, a3, a4], t2);
    ApplyAllOne(t0, a0, [a1, a2, a3, a4], t1);
    assert [a4] + [] == [a4] && [a3] + [a4] == [a3, a4] && [a2] + [a3, a4] == [a2, a3, a4];
    assert [a1] + [a2, a3, a4] == [a1, a2, a3, a4] && [a0] + [a1, a2, a3, a4] == [a0, a1, a2, a3, a4];
  }

  /** The five assignments set every option but the background, which `default` leaves alone. */
  lemma AssignmentsApply(t: Settings, s: Settings)
    requires Strip(s.lang, Unicode) == s.lang
    ensures ApplyAll(t, OptionAssignments(s)) == Ok(s.(bkg := t.bkg))
  {
    var t1 := t.(lang := s.lang);
    var t2 := t1.(showLN := s.showLN);
    var t3 := t2.(startLine := s.startLine);
    var t4 := t3.(hlLines := s.hlLines);
    LangApplies(t, s.lang);
    ShowApplies(t1, s.showLN);
    StartApplies(t2, s.startLine);
    HlApplies(t3, s.hlLines);
    BkgDefaultApplies(t4);
    ApplyFive(t, "lang=" + s.lang, "showLines=" + BoolDigit(s.showLN), "startLine=" + IntToString(s.startLine),
      "hlLines=" + IntList(s.hlLines), "Bkg=default", t1, t2, t3, t4, t4);
  }

  lemma PlainPiece(name: string, v: string)
    requires ':' !in name && ';' !in name && ':' !in v && ';' !in v
    ensures ':' !in name + v && ';' !in name + v
  {
  }

  /** None of the four assignments after the language holds a `:` or a `;`. */
  lemma AssignmentsPlain(s: Settings)
    ensures var p := OptionAssignments(s)[1..];
      forall k :: 0 <= k < |p| ==> ':' !in p[k] && ';' !in p[k]
  {
    IntNumeric(s.startLine);
    NumericFree(IntToString(s.startLine));
    HlLinesRoundTrip(s.hlLines);
    NumericFree(IntList(s.hlLines));
    PlainPiece("showLines=", BoolDigit(s.showLN));
    PlainPiece("startLine=", IntToString(s.startLine));
    PlainPiece("hlLines=", IntList(s.hlLines));
  }

  /** The option section splits back into its five assignments, holds no `:::` and does not
      start with `:`. */
  lemma SectionSplits(s: Settings)
    requires ';' !in s.lang && NoMarker(s.lang)
    ensures var j := Join(OptionAssignments(s), ';');
      j != [] && j[0] != ':' && NoMarker(j) && Split(j, ';') == OptionAssignments(s)
  {
    var p := OptionAssignments(s);
    var rest := Join(p[1..], ';');
    AssignmentsPlain(s);
    JoinFree(p[1..], ';', ':');
    assert ':' !in [';'] + rest;
    assert Join(p, ';') == "lang=" + s.lang + ([';'] + rest);
    MarkerFreeBetween("lang=", s.lang, [';'] + rest);
    assert forall k :: 0 <= k < |p| ==> ';' !in p[k] by {
      assert ';' !in "lang=" + s.lang;
      assert forall k :: 1 <= k < |p| ==> p[1..][k - 1] == p[k];
    }
    SplitJoin(p, ';');
  }

  /** Code followed by the option section `insertCode` writes parses back to that code and those
      options; the background stays the configured one, since the section always says `default`. */
  lemma OptionSectionRoundTrip(c: Config, code: string, s: Settings)
    requires PlainLang(s.lang)
    ensures Directive(c, code + OptionSection(s), []) == Highlight(code, s.(bkg := c.bkg))
  {
    var p := OptionAssignments(s);
    var j := Join(p, ';');
    SectionSplits(s);
    AppendAssoc(code, ":::", j);
    NoLaterMarker(code, j);
    RSplitLast(code, ":::", j);
    assert OptionArgs(code + OptionSection(s)) == (code, p);
    assert p + [] == p;
    AssignmentsApply(Initial(c), s);
  }

  /** The text `insertCode` adds is a `pc` insertion whose value parses back to the code it
      wrapped and the options it was given. */
  lemma InsertCodeRoundTrip(c: Config, text: string, s: Settings)
    requires PlainLang(s.lang)
    ensures Directive(c, InsertionValue(text, s), []) == Highlight(InsertedCode(text), s.(bkg := c.bkg))
    ensures exists v ::
      InsertText(text, s) == "[:" + InsertionTag + ":///" + v + "///]\n" &&
      Directive(c, v, []) == Highlight(InsertedCode(text), s.(bkg := c.bkg))
  {
    OptionSectionRoundTrip(c, InsertedCode(text), s);
    var v := InsertionValue(text, s);
    assert InsertText(text, s) == "[:" + InsertionTag + ":///" + v + "///]\n";
  }

  /** With the options of a fresh `Options` object, as `insertCode` uses them, the insertion
      reproduces the configuration exactly. */
  lemma FreshInsertionRoundTrip(c: Config, text: string)
    requires PlainLang(c.lang)
    ensures Directive(c, InsertionValue(text, Initial(c)), []) == Highlight(InsertedCode(text), Initial(c))
  {
    InsertCodeRoundTrip(c, text, Initial(c));
  }

  /** In a wiki that never changed the plugin's options, code inserted by `insertCode` is
      highlighted as Python with no line numbers, from line 1, on the `Light Blue` background. */
  lemma DefaultInsertionRoundTrip(text: string)
    ensures Directive(DefaultConfig, InsertionValue(text, Initial(DefaultConfig)), []) ==
      Highlight(InsertedCode(text), Settings("Python", false, 1, [], "Light Blue"))
  {
    assert ';' !in DefaultLang;
    ColonFreeNoMarker(DefaultLang);
    StripUnchanged(DefaultLang, Unicode);
    FreshInsertionRoundTrip(DefaultConfig, text);
  }

  // ---------------------------------------------------------------------------
  // The background style
  // ---------------------------------------------------------------------------

  /** `dict.get`: the value of the last pair with the key, or empty when no pair has it. */
  lemma {:induction false} DictGetSpec(pairs: seq<(string, string)>, key: string, j: int)
    requires j == -1 ==> forall k :: 0 <= k < |pairs| ==> pairs[k].0 != key
    requires j != -1 ==> 0 <= j < |pairs| && pairs[j].0 == key
    requires forall k :: j < k < |pairs| ==> pairs[k].0 != key
    ensures DictGet(pairs, key) == if j == -1 then [] else pairs[j].1
    decreases |pairs|
  {
    if pairs != [] && j != |pairs| - 1 {
      var init := pairs[..|pairs| - 1];
      assert forall k :: 0 <= k < |init| ==> init[k] == pairs[k];
      DictGetSpec(init, key, j);
    }
  }

  lemma {:induction false} ReplaceRemoves(s: string, c: char, rep: string)
    requires c !in rep
    ensures c !in Replace(s, c, rep)
    decreases |s|
  {
    if s != [] {
      ReplaceRemoves(s[1..], c, rep);
    }
  }

  /** The chosen background is found whatever the case of its name, as the last configured
      background with that name; its single quotes become double quotes. */
  lemma BackgroundFound(bkgs: seq<(string, string)>, bkg: string, j: nat)
    requires j < |bkgs| && UnicodeLower(bkgs[j].0) == UnicodeLower(bkg)
    requires forall k :: j < k < |bkgs| ==> UnicodeLower(bkgs[k].0) != UnicodeLower(bkg)
    ensures BackgroundStyle(bkgs, bkg) == Replace(bkgs[j].1, '\'', "\"")
    ensures '\'' !in BackgroundStyle(bkgs, bkg)
  {
    DictGetSpec(LowerKeys(bkgs), UnicodeLower(bkg), j);
    ReplaceRemoves(bkgs[j].1, '\'', "\"");
  }

  /** A configured background with a non-empty style puts the highlighted code inside a `<pre>`
      carrying that style, its single quotes turned into double quotes. */
  lemma FramedFound(bkgs: seq<(string, string)>, bkg: string, j: nat, result: string)
    requires j < |bkgs| && UnicodeLower(bkgs[j].0) == UnicodeLower(bkg) && bkgs[j].1 != []
    requires forall k :: j < k < |bkgs| ==> UnicodeLower(bkgs[k].0) != UnicodeLower(bkg)
    ensures Framed(result, BackgroundStyle(bkgs, bkg)) ==
      "<pre style=\"" + Replace(bkgs[j].1, '\'', "\"") + "\">" + result + "</pre>"
  {
    BackgroundFound(bkgs, bkg, j);
    assert |Replace(bkgs[j].1, '\'', "\"")| > 0;
  }

  /** An unknown background gives no style, and the highlighted code is left unframed. */
  lemma BackgroundMissing(bkgs: seq<(string, string)>, bkg: string, result: string)
    requires forall k :: 0 <= k < |bkgs| ==> UnicodeLower(bkgs[k].0) != UnicodeLower(bkg)
    ensures BackgroundStyle(bkgs, bkg) == []
    ensures Framed(result, BackgroundStyle(bkgs, bkg)) == result
  {
    DictGetSpec(LowerKeys(bkgs), UnicodeLower(bkg), -1);
  }
}
