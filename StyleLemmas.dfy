/** The inline styles the highlighter writes (`color: #008000; font-weight: bold`) and the
    markup the converter reads back from them (`__init__.py:216-234`). */
module StyleLemmas {
  import opened Text
  import opened Converter

  /** A string that byte-string lower-casing leaves as it is. */
  predicate Lowered(s: string) {
    forall i :: 0 <= i < |s| ==> LowerByte(s[i]) == s[i]
  }

  /** A colour value that survives the split into declarations: no `:` or `;`, and no
      whitespace at either end. Its letters may be in either case. */
  predicate PlainColor(c: string) {
    ':' !in c && ';' !in c &&
    (c == [] || (!IsByteSpace(c[0]) && !IsByteSpace(c[|c| - 1])))
  }

  predicate PlainMarks(marks: seq<Markup>) {
    forall k :: 0 <= k < |marks| ==> marks[k].Font? ==> PlainColor(marks[k].color)
  }

  /** The mark `m` once its colour has been lower-cased, as the converter lower-cases the
      whole style value before reading it. */
  function LowerMark(m: Markup): Markup {
    match m
    case Font(c) => Font(ByteLower(c))
    case _ => m
  }

  function LowerColors(marks: seq<Markup>): (lowered: seq<Markup>)
    ensures |lowered| == |marks|
  {
    seq(|marks|, k requires 0 <= k < |marks| => LowerMark(marks[k]))
  }

  /** The declaration that asks for `m`. */
  function DeclText(m: Markup): string {
    match m
    case Font(c) => "color: " + c
    case Bold => "font-weight: bold"
    case Italic => "font-style: italic"
  }

  /** The declarations of `marks`, each after the first preceded by a space. */
  function StylePieces(marks: seq<Markup>): (pieces: seq<string>)
    ensures |pieces| == |marks|
  {
    seq(|marks|, k requires 0 <= k < |marks| => (if k == 0 then "" else " ") + DeclText(marks[k]))
  }

  /** A style value asking for `marks`, in order: the declarations joined with `;`. */
  function StyleText(marks: seq<Markup>): string {
    Join(StylePieces(marks), ';')
  }

  lemma LoweredAppend(a: string, b: string)
    requires Lowered(a) && Lowered(b)
    ensures Lowered(a + b)
  {
    forall i | 0 <= i < |a + b| ensures LowerByte((a + b)[i]) == (a + b)[i] {
      if i >= |a| {
        assert (a + b)[i] == b[i - |a|];
      }
    }
  }

  lemma ByteLowerAppend(a: string, b: string)
    ensures ByteLower(a + b) == ByteLower(a) + ByteLower(b)
  {
    assert forall i :: 0 <= i < |a + b| ==> ByteLower(a + b)[i] == (ByteLower(a) + ByteLower(b))[i];
  }

  /** Lower-casing a colour keeps it free of `:`, `;` and surrounding whitespace. */
  lemma LowerPlainColor(c: string)
    requires PlainColor(c)
    ensures PlainColor(ByteLower(c))
  {
    var l := ByteLower(c);
    forall i | 0 <= i < |l| ensures l[i] != ':' && l[i] != ';' {
      assert c[i] in c;
    }
  }

  lemma LowerColorsPlain(marks: seq<Markup>)
    requires PlainMarks(marks)
    ensures PlainMarks(LowerColors(marks))
  {
    forall k | 0 <= k < |marks| && marks[k].Font? ensures PlainColor(LowerColors(marks)[k].color) {
      LowerPlainColor(marks[k].color);
    }
  }

  /** The fixed text of each declaration is already lower case. */
  lemma DeclWordsLowered(lead: string)
    requires lead == "" || lead == " "
    ensures ByteLower(lead + "color: ") == lead + "color: "
    ensures ByteLower(lead + "font-weight: bold") == lead + "font-weight: bold"
    ensures ByteLower(lead + "font-style: italic") == lead + "font-style: italic"
  {
    LoweredAppend(lead, "color: ");
    LoweredAppend(lead, "font-weight: bold");
    LoweredAppend(lead, "font-style: italic");
  }

  /** Lower-casing a declaration lower-cases only the colour it carries. */
  lemma LowerDecl(lead: string, m: Markup)
    requires lead == "" || lead == " "
    ensures ByteLower(lead + DeclText(m)) == lead + DeclText(LowerMark(m))
  {
    DeclWordsLowered(lead);
    if m.Font? {
      var head := lead + "color: ";
      assert lead + DeclText(m) == head + m.color;
      assert lead + DeclText(LowerMark(m)) == head + ByteLower(m.color);
      ByteLowerAppend(head, m.color);
    }
  }

  lemma {:induction false} LowerJoin(parts: seq<string>, lowered: seq<string>, sep: char)
    requires LowerByte(sep) == sep
    requires |lowered| == |parts| && forall k :: 0 <= k < |parts| ==> lowered[k] == ByteLower(parts[k])
    ensures ByteLower(Join(parts, sep)) == Join(lowered, sep)
    decreases |parts|
  {
    if |parts| > 1 {
      LowerJoin(parts[1..], lowered[1..], sep);
      ByteLowerAppend(parts[0] + [sep], Join(parts[1..], sep));
      ByteLowerAppend(parts[0], [sep]);
    }
  }

  /** Lower-casing a written style value gives the value written for the lower-cased marks. */
  lemma StyleTextLower(marks: seq<Markup>)
    ensures ByteLower(StyleText(marks)) == StyleText(LowerColors(marks))
  {
    var pieces := StylePieces(marks);
    var lowered := StylePieces(LowerColors(marks));
    forall k | 0 <= k < |pieces| ensures lowered[k] == ByteLower(pieces[k]) {
      LowerDecl(if k == 0 then "" else " ", marks[k]);
    }
    LowerJoin(pieces, lowered, ';');
  }

  /** A value that starts and ends with no whitespace survives `strip` after one leading space. */
  lemma StripAfterSpace(v: string)
    requires v == [] || (!IsByteSpace(v[0]) && !IsByteSpace(v[|v| - 1]))
    ensures Strip(" " + v, Bytes) == v
  {
    assert (" " + v)[1..] == v;
    StripUnchanged(v, Bytes);
  }

  /** A declaration name after an optional leading space strips to itself. */
  lemma StripName(lead: string, name: string)
    requires lead == "" || lead == " "
    requires |name| > 0 && !IsByteSpace(name[0]) && !IsByteSpace(name[|name| - 1])
    ensures Strip(lead + name, Bytes) == name
  {
    if lead == " " {
      StripAfterSpace(name);
    } else {
      assert lead + name == name;
      StripUnchanged(name, Bytes);
    }
  }

  /** `name: value` after an optional leading space splits on `:` into the name and the
      value, each of which strips back to itself. */
  lemma DeclParts(lead: string, name: string, value: string)
    requires lead == "" || lead == " "
    requires |name| > 0 && !IsByteSpace(name[0]) && !IsByteSpace(name[|name| - 1]) && ':' !in name
    requires value == [] || (!IsByteSpace(value[0]) && !IsByteSpace(value[|value| - 1]))
    requires ':' !in value
    ensures var p := Split(lead + (name + ": " + value), ':');
      |p| == 2 && Strip(p[0], Bytes) == name && Strip(p[1], Bytes) == value
  {
    assert lead + (name + ": " + value) == (lead + name) + [':'] + (" " + value);
    assert ':' !in lead + name;
    assert ':' !in " " + value;
    SplitAfterFirstPiece(lead + name, " " + value, ':');
    StripName(lead, name);
    StripAfterSpace(value);
  }

  /** A declaration `name: value` whose parts strip to `name` and `value`. */
  lemma DeclarationOf(spec: string, name: string, value: string)
    requires var p := Split(spec, ':'); |p| == 2 && Strip(p[0], Bytes) == name && Strip(p[1], Bytes) == value
    ensures Declaration(spec) ==
      if name == "color" then Opens(Font(value))
      else if name == "font-weight" && value == "bold" then Opens(Bold)
      else if name == "font-style" && value == "italic" then Opens(Italic)
      else Ignored
  {
  }

  /** The declaration written for `m`, after an optional leading space, opens `m` again. */
  lemma DeclarationRoundTrip(lead: string, m: Markup)
    requires lead == "" || lead == " "
    requires m.Font? ==> PlainColor(m.color)
    ensures Declaration(lead + DeclText(m)) == Opens(m)
  {
    var name := match m case Font(_) => "color" case Bold => "font-weight" case Italic => "font-style";
    var value := match m case Font(c) => c case Bold => "bold" case Italic => "italic";
    assert DeclText(m) == name + ": " + value;
    DeclParts(lead, name, value);
    DeclarationOf(lead + DeclText(m), name, value);
  }

  /** Declarations that all open markup, followed by `tail`: their marks come first, and the
      scan goes on into `tail`. */
  lemma {:induction false} MarksOfOpensThen(ds: seq<Declared>, marks: seq<Markup>, tail: seq<Declared>)
    requires |ds| == |marks| && forall k :: 0 <= k < |ds| ==> ds[k] == Opens(marks[k])
    ensures MarksOf(ds + tail) == Marks(marks + MarksOf(tail).marks, MarksOf(tail).fault)
    decreases |ds|
  {
    if ds == [] {
      assert ds + tail == tail;
    } else {
      assert (ds + tail)[0] == ds[0] && (ds + tail)[1..] == ds[1..] + tail;
      MarksOfOpensThen(ds[1..], marks[1..], tail);
      assert [marks[0]] + (marks[1..] + MarksOf(tail).marks) == marks + MarksOf(tail).marks;
    }
  }

  lemma {:induction false} JoinSnoc(parts: seq<string>, x: string, sep: char)
    requires |parts| >= 1
    ensures Join(parts + [x], sep) == Join(parts, sep) + [sep] + x
    decreases |parts|
  {
    if |parts| > 1 {
      assert (parts + [x])[1..] == parts[1..] + [x];
      JoinSnoc(parts[1..], x, sep);
    } else {
      assert (parts + [x])[1..] == [x];
    }
  }

  lemma PieceFree(lead: string, m: Markup)
    requires lead == "" || lead == " "
    requires m.Font? ==> PlainColor(m.color)
    ensures ';' !in lead + DeclText(m)
  {
    if m.Font? {
      assert lead + DeclText(m) == (lead + "color: ") + m.color;
    }
  }

  /** The pieces of a written style value are free of `;`, and each opens its mark. */
  lemma PiecesOpen(marks: seq<Markup>)
    requires PlainMarks(marks)
    ensures var pieces := StylePieces(marks);
      forall k :: 0 <= k < |pieces| ==> ';' !in pieces[k] && Declaration(pieces[k]) == Opens(marks[k])
  {
    var pieces := StylePieces(marks);
    forall k | 0 <= k < |pieces| ensures ';' !in pieces[k] && Declaration(pieces[k]) == Opens(marks[k]) {
      var lead := if k == 0 then "" else " ";
      assert pieces[k] == lead + DeclText(marks[k]);
      PieceFree(lead, marks[k]);
      DeclarationRoundTrip(lead, marks[k]);
    }
  }

  /** The converter reads back exactly the markup a style value asks for, in the order it
      was written, with every colour lower-cased. */
  lemma StyleRoundTrip(marks: seq<Markup>)
    requires |marks| >= 1 && PlainMarks(marks)
    ensures StyleMarks(Split(ByteLower(StyleText(marks)), ';')) == Marks(LowerColors(marks), None)
  {
    var lowered := LowerColors(marks);
    var pieces := StylePieces(lowered);
    StyleTextLower(marks);
    LowerColorsPlain(marks);
    PiecesOpen(lowered);
    SplitJoin(pieces, ';');
    MarksOfOpensThen(Declarations(pieces), lowered, []);
    assert Declarations(pieces) + [] == Declarations(pieces) && lowered + [] == lowered;
  }

  /** An attribute named `style` in any case, whose value is such a style value in any case,
      opens exactly the lower-cased marks. */
  lemma StyleAnyCase(name: string, v: string, marks: seq<Markup>)
    requires ByteLower(name) == "style" && ByteLower(v) == ByteLower(StyleText(marks))
    requires |marks| >= 1 && PlainMarks(marks)
    ensures AttrMarks(Attr(name, Some(v))) == Marks(LowerColors(marks), None)
  {
    StyleRoundTrip(marks);
  }

  /** For one: `Style="Color: #00FF00"` opens the colour `#00ff00`. */
  lemma StyleUpperCaseExample()
    ensures AttrMarks(Attr("Style", Some("Color: #00FF00"))) == Marks([Font("#00ff00")], None)
  {
    var marks := [Font("#00FF00")];
    assert StyleText(marks) == "color: #00FF00";
    assert ByteLower("Style") == "style";
    assert ByteLower("Color: #00FF00") == ByteLower(StyleText(marks));
    assert ByteLower("#00FF00") == "#00ff00";
    assert PlainColor("#00FF00");
    StyleAnyCase("Style", "Color: #00FF00", marks);
    assert LowerColors(marks) == [Font("#00ff00")];
  }

  lemma StyleNameLower()
    ensures ByteLower("style") == "style"
  {
    assert ByteLower("style")[0] == 's';
  }

  /** A `style` attribute holding such a value opens exactly its lower-cased marks. */
  lemma StyleAttrRoundTrip(marks: seq<Markup>)
    requires |marks| >= 1 && PlainMarks(marks)
    ensures AttrMarks(Attr("style", Some(StyleText(marks)))) == Marks(LowerColors(marks), None)
  {
    StyleNameLower();
    StyleAnyCase("style", StyleText(marks), marks);
  }

  /** A span start with one attribute writes a space and that attribute's openers. */
  lemma SpanOfOne(a: Attr)
    requires AttrMarks(a).fault == None
    ensures SpanOpening([a]) == Opening(" " + Openers(AttrMarks(a).marks), AttrMarks(a).marks, None)
  {
    var hs := AttrsMarks([a]);
    assert hs == [AttrMarks(a)];
    assert hs[1..] == [];
    var ms := AttrMarks(a).marks;
    assert Opened(hs[1..]) == Opening([], [], None);
    assert Opened(hs) == Opening((" " + Openers(ms)) + [], ms + [], None);
    assert (" " + Openers(ms)) + [] == " " + Openers(ms) && ms + [] == ms;
  }

  /** A span whose only attribute is such a style writes the openers of exactly the
      lower-cased marks and pushes their closers, last first. */
  lemma SpanRoundTrip(marks: seq<Markup>)
    requires |marks| >= 1 && PlainMarks(marks)
    ensures SpanOpening([Attr("style", Some(StyleText(marks)))]) ==
      Opening(" " + Openers(LowerColors(marks)), LowerColors(marks), None)
  {
    StyleAttrRoundTrip(marks);
    SpanOfOne(Attr("style", Some(StyleText(marks))));
  }

  /** A written style value followed by `;` splits into its pieces and one empty piece. */
  lemma TrailingPieces(marks: seq<Markup>)
    requires |marks| >= 1 && PlainMarks(marks)
    ensures Split(StyleText(marks) + ";", ';') == StylePieces(marks) + [[]]
  {
    var pieces := StylePieces(marks);
    PiecesOpen(marks);
    JoinSnoc(pieces, [], ';');
    assert StyleText(marks) + ";" == Join(pieces + [[]], ';');
    assert forall k :: 0 <= k < |pieces + [[]]| ==> ';' !in (pieces + [[]])[k];
    SplitJoin(pieces + [[]], ';');
  }

  /** A style value with a trailing `;` ends in an empty declaration, which does not split
      into a name and a value: the handler raises after opening everything before it. */
  lemma TrailingSemicolonRaises(marks: seq<Markup>)
    requires |marks| >= 1 && PlainMarks(marks)
    ensures StyleMarks(Split(ByteLower(StyleText(marks) + ";"), ';')) ==
      Marks(LowerColors(marks), Some(BadDeclaration([])))
  {
    var lowered := LowerColors(marks);
    var pieces := StylePieces(lowered);
    StyleTextLower(marks);
    ByteLowerAppend(StyleText(marks), ";");
    assert ByteLower(";") == ";";
    LowerColorsPlain(marks);
    TrailingPieces(lowered);
    PiecesOpen(lowered);
    assert Declarations(pieces + [[]]) == Declarations(pieces) + [Malformed([])];
    MarksOfOpensThen(Declarations(pieces), lowered, [Malformed([])]);
    assert lowered + [] == lowered;
  }
}
