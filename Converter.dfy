/** The converter that rewrites highlighted HTML for the wx preview widget
    (`_WXHtmlConverter`, `__init__.py:189-268`). The HTML tokenizer it extends is
    not modelled: its callbacks arrive here as a sequence of `Event` values. Each
    `<span style="...">` is replaced by `<font color>`, `<b>` and `<i>` openers,
    and a stack of closer lists remembers what each `</span>` has to write. */
module Converter {
  import opened Text
  import opened Escape

  /** One attribute as the tokenizer reports it; `None` for an attribute written without a value. */
  datatype Attr = Attr(name: string, value: Option<string>)

  /** The tokenizer callbacks the converter overrides, one value per call. */
  datatype Event =
    | StartTag(tag: string, attrs: seq<Attr>)
    | EndTag(tag: string)
    | CharRef(name: string)
    | EntityRef(name: string)
    | Data(text: string)
    | Comment(text: string)
    | Decl(text: string)
    | Pi(text: string)

  /** The markup one style declaration turns into. */
  datatype Markup = Font(color: string) | Bold | Italic

  /** The exceptions a handler raises. They leave the converter, and the export, aborted. */
  datatype Fault =
    | BadDeclaration(declaration: string)  // a declaration that does not split into exactly two parts on ':'
    | ValuelessAttribute(name: string)      // `encode` or `lower` applied to the None of a valueless attribute
    | UnmatchedEnd                          // `pop` on an empty stack at `</span>`

  function Opener(m: Markup): string {
    match m
    case Font(c) => "<font color=\"" + Encode(c) + "\">"
    case Bold => "<b>"
    case Italic => "<i>"
  }

  function Closer(m: Markup): string {
    match m
    case Font(_) => "</font>"
    case Bold => "</b>"
    case Italic => "</i>"
  }

  /** The openers of `marks`, written one after another. */
  function Openers(marks: seq<Markup>): string {
    if marks == [] then [] else Opener(marks[0]) + Openers(marks[1..])
  }

  /** The closers of `marks`, one per mark, in the same order. */
  function Closers(marks: seq<Markup>): seq<string> {
    seq(|marks|, i requires 0 <= i < |marks| => Closer(marks[i]))
  }

  lemma {:induction false} OpenersAppend(marks: seq<Markup>, m: Markup)
    ensures Openers(marks + [m]) == Openers(marks) + Opener(m)
    decreases |marks|
  {
    if marks != [] {
      assert (marks + [m])[1..] == marks[1..] + [m];
      OpenersAppend(marks[1..], m);
    }
  }

  lemma ClosersAppend(marks: seq<Markup>, m: Markup)
    ensures Closers(marks + [m]) == Closers(marks) + [Closer(m)]
  {
  }

  /** Writing one more opener and recording one more closer extends both by that mark. */
  lemma MarkupAppend(out: string, closers: seq<string>, marks: seq<Markup>, m: Markup)
    ensures out + Openers(marks) + Opener(m) == out + Openers(marks + [m])
    ensures closers + Closers(marks) + [Closer(m)] == closers + Closers(marks + [m])
  {
    OpenersAppend(marks, m);
    ClosersAppend(marks, m);
    AppendAssoc(out, Openers(marks), Opener(m));
    AppendAssoc(closers, Closers(marks), [Closer(m)]);
  }

  /** What one `;`-separated piece of a lower-cased style value does. */
  datatype Declared = Malformed(declaration: string) | Ignored | Opens(mark: Markup)

  /** One declaration of a style value (`__init__.py:219-234`). */
  function Declaration(spec: string): Declared {
    var pieces := Split(spec, ':');
    if |pieces| != 2 then Malformed(spec)
    else
      var name := Strip(pieces[0], Bytes);
      var value := Strip(pieces[1], Bytes);
      if name == "color" then Opens(Font(value))
      else if name == "font-weight" && value == "bold" then Opens(Bold)
      else if name == "font-style" && value == "italic" then Opens(Italic)
      else Ignored
  }

  /** Markup opened so far, and the fault that stopped the scan, if any. */
  datatype Marks = Marks(marks: seq<Markup>, fault: Option<Fault>)

  /** What each declaration of a style value does, in order. */
  function Declarations(decls: seq<string>): (ds: seq<Declared>)
    ensures |ds| == |decls| && forall k :: 0 <= k < |decls| ==> ds[k] == Declaration(decls[k])
  {
    seq(|decls|, k requires 0 <= k < |decls| => Declaration(decls[k]))
  }

  /** The markup a sequence of declarations opens, in order, up to the first malformed one. */
  function MarksOf(ds: seq<Declared>): Marks {
    if ds == [] then Marks([], None)
    else
      match ds[0]
      case Malformed(spec) => Marks([], Some(BadDeclaration(spec)))
      case Ignored => MarksOf(ds[1..])
      case Opens(m) =>
        var rest := MarksOf(ds[1..]);
        Marks([m] + rest.marks, rest.fault)
  }

  /** The markup the declarations of one style value open. */
  function StyleMarks(decls: seq<string>): Marks {
    MarksOf(Declarations(decls))
  }

  /** The markup one attribute of a span opens: only `style` (in any case) opens anything. */
  function AttrMarks(a: Attr): Marks {
    if ByteLower(a.name) != "style" then Marks([], None)
    else
      match a.value
      case None => Marks([], Some(ValuelessAttribute(a.name)))
      case Some(v) => StyleMarks(Split(ByteLower(v), ';'))
  }

  /** What a span start tag writes and which markup it opens, up to the first fault. */
  datatype Opening = Opening(written: string, marks: seq<Markup>, fault: Option<Fault>)

  /** The markup of each attribute of a span, in order. */
  function AttrsMarks(attrs: seq<Attr>): (hs: seq<Marks>)
    ensures |hs| == |attrs| && forall k :: 0 <= k < |attrs| ==> hs[k] == AttrMarks(attrs[k])
  {
    seq(|attrs|, k requires 0 <= k < |attrs| => AttrMarks(attrs[k]))
  }

  /** Every attribute writes a space, then the openers of its markup; the first fault stops. */
  function Opened(hs: seq<Marks>): Opening {
    if hs == [] then Opening([], [], None)
    else
      var text := " " + Openers(hs[0].marks);
      if hs[0].fault.Some? then Opening(text, hs[0].marks, hs[0].fault)
      else
        var rest := Opened(hs[1..]);
        Opening(text + rest.written, hs[0].marks + rest.marks, rest.fault)
  }

  /** One more attribute of a span start tag, taken off the front of what remains. */
  lemma OpenedStep(hs: seq<Marks>, i: nat, done: string, marks: seq<Markup>)
    requires i < |hs|
    ensures var text := " " + Openers(hs[i].marks);
      var now := Opened(hs[i..]);
      var rest := Opened(hs[i + 1..]);
      if hs[i].fault.Some? then
        done + now.written == done + text && now.fault == hs[i].fault && marks + now.marks == marks + hs[i].marks
      else
        done + now.written == (done + text) + rest.written && now.fault == rest.fault &&
        marks + now.marks == (marks + hs[i].marks) + rest.marks
  {
    assert hs[i..][1..] == hs[i + 1..];
    var text := " " + Openers(hs[i].marks);
    AppendAssoc(done, text, Opened(hs[i + 1..]).written);
    AppendAssoc(marks, hs[i].marks, Opened(hs[i + 1..]).marks);
  }

  lemma ClosersConcat(a: seq<Markup>, b: seq<Markup>)
    ensures Closers(a + b) == Closers(a) + Closers(b)
  {
  }

  /** What the attributes of a span start tag write and open (`__init__.py:213-234`). */
  function SpanOpening(attrs: seq<Attr>): Opening {
    Opened(AttrsMarks(attrs))
  }

  /** Text written, and the fault that stopped the writing, if any. */
  datatype Written = Written(text: string, fault: Option<Fault>)

  /** One attribute of a tag other than span, re-serialized with its value escaped
      (`__init__.py:202-207`); the value of a valueless attribute cannot be escaped. */
  function AttrText(a: Attr): Written {
    var lead := " " + a.name + "=\"";
    match a.value
    case None => Written(lead, Some(ValuelessAttribute(a.name)))
    case Some(v) => Written(lead + Encode(v) + "\"", None)
  }

  /** The attributes of a tag other than span, written one after another up to the first fault. */
  function AttrsText(attrs: seq<Attr>): Written {
    if attrs == [] then Written([], None)
    else
      var here := AttrText(attrs[0]);
      if here.fault.Some? then here
      else
        var rest := AttrsText(attrs[1..]);
        Written(here.text + rest.text, rest.fault)
  }

  /** The converter's state: the output buffer and the stack of closer lists. */
  datatype State = State(out: string, stack: seq<seq<string>>)

  /** The state after a handler, and the exception it raised, if any. */
  datatype Stepped = Stepped(state: State, fault: Option<Fault>)

  /** Tag names are compared with "span" after byte-string lower-casing. */
  predicate IsSpan(tag: string) {
    ByteLower(tag) == "span"
  }

  /** One tokenizer callback. Output is only ever appended; only span tags touch the stack:
      a span start pushes exactly one entry, a span end pops exactly one or fails on an empty stack. */
  function Step(s: State, e: Event): (r: Stepped)
    ensures s.out <= r.state.out
    ensures !(e.StartTag? || e.EndTag?) || !IsSpan(e.tag) ==> r.state.stack == s.stack
    ensures e.StartTag? && IsSpan(e.tag) && r.fault == None ==>
      r.state.stack == s.stack + [Reverse(Closers(SpanOpening(e.attrs).marks))]
    ensures e.StartTag? && r.fault.Some? ==> r.state.stack == s.stack
    ensures e.EndTag? && IsSpan(e.tag) ==>
      (r.fault.Some? <==> s.stack == []) &&
      (s.stack == [] ==> r.state == s) &&
      (s.stack != [] ==> r.state.stack == s.stack[..|s.stack| - 1])
    ensures e.Comment? || e.Decl? || e.Pi? ==> r == Stepped(s, None)
  {
    match e
    case StartTag(tag, attrs) =>
      if !IsSpan(tag) then
        var w := AttrsText(attrs);
        Stepped(State(s.out + "<" + tag + w.text + (if w.fault == None then ">" else ""), s.stack), w.fault)
      else
        var o := SpanOpening(attrs);
        var stack := if o.fault == None then s.stack + [Reverse(Closers(o.marks))] else s.stack;
        Stepped(State(s.out + o.written, stack), o.fault)
    case EndTag(tag) =>
      if !IsSpan(tag) then Stepped(State(s.out + "</" + tag + ">", s.stack), None)
      else if s.stack == [] then Stepped(s, Some(UnmatchedEnd))
      else Stepped(State(s.out + Concat(s.stack[|s.stack| - 1]), s.stack[..|s.stack| - 1]), None)
    case CharRef(name) => Stepped(State(s.out + "&#" + name + ";", s.stack), None)
    case EntityRef(name) => Stepped(State(s.out + "&" + name + ";", s.stack), None)
    case Data(text) => Stepped(State(s.out + text, s.stack), None)
    case Comment(_) => Stepped(s, None)
    case Decl(_) => Stepped(s, None)
    case Pi(_) => Stepped(s, None)
  }

  /** The callbacks for `events` in order, stopping at the first exception. */
  function Run(s: State, events: seq<Event>): (r: Stepped)
    ensures s.out <= r.state.out
    decreases |events|
  {
    if events == [] then Stepped(s, None)
    else
      var r := Step(s, events[0]);
      if r.fault.Some? then r else Run(r.state, events[1..])
  }

  class WxHtmlConverter {
    var out: string
    var stack: seq<seq<string>>

    constructor ()
      ensures out == [] && stack == []
    {
      out := [];
      stack := [];
    }

    function Value(): State
      reads this
    {
      State(out, stack)
    }

    /** `self.out.write`: output is only ever appended to. */
    method Write(text: string)
      modifies this
      ensures out == old(out) + text && stack == old(stack)
    {
      out := out + text;
    }

    method HandleStartTag(tag: string, attrs: seq<Attr>) returns (fault: Option<Fault>)
      modifies this
      ensures Stepped(Value(), fault) == Step(old(Value()), StartTag(tag, attrs))
    {
      if ByteLower(tag) != "span" {
        fault := WriteTag(tag, attrs);
      } else {
        fault := OpenSpan(attrs);
      }
    }

    /** A tag other than span is written back with its attributes (`__init__.py:198-209`). */
    method WriteTag(tag: string, attrs: seq<Attr>) returns (fault: Option<Fault>)
      modifies this
      ensures var w := AttrsText(attrs);
        out == old(out) + "<" + tag + w.text + (if w.fault == None then ">" else "") &&
        stack == old(stack) && fault == w.fault
    {
      ghost var w := AttrsText(attrs);
      ghost var done: string := [];
      Write("<");
      Write(tag);
      ghost var start := out;
      var i := 0;
      while i < |attrs|
        invariant 0 <= i <= |attrs| && stack == old(stack)
        invariant AttrsText(attrs[i..]).fault == w.fault
        invariant w.text == done + AttrsText(attrs[i..]).text
        invariant out == start + done
      {
        assert attrs[i..][1..] == attrs[i + 1..];
        ghost var here := AttrText(attrs[i]);
        fault := WriteAttr(attrs[i]);
        if fault.Some? {
          AppendAssoc(start, done, here.text);
          return;
        }
        AppendAssoc(start, done, here.text);
        AppendAssoc(done, here.text, AttrsText(attrs[i + 1..]).text);
        done := done + here.text;
        i := i + 1;
      }
      assert done == w.text;
      Write(">");
      return None;
    }

    /** One attribute of a tag other than span (`__init__.py:202-207`). */
    method WriteAttr(a: Attr) returns (fault: Option<Fault>)
      modifies this
      ensures out == old(out) + AttrText(a).text && stack == old(stack) && fault == AttrText(a).fault
    {
      Write(" ");
      Write(a.name);
      Write("=\"");
      if a.value.None? {
        return Some(ValuelessAttribute(a.name));
      }
      Write(Encode(a.value.value));
      Write("\"");
      return None;
    }

    /** A span start tag: openers for every attribute, then one stack entry holding
        the closers in reverse (`__init__.py:213-236`). */
    method OpenSpan(attrs: seq<Attr>) returns (fault: Option<Fault>)
      modifies this
      ensures var o := SpanOpening(attrs);
        out == old(out) + o.written && fault == o.fault &&
        stack == if o.fault == None then old(stack) + [Reverse(Closers(o.marks))] else old(stack)
    {
      var closers;
      closers, fault := OpenAttrs(attrs);
      if fault == None {
        stack := stack + [Reverse(closers)];
      }
    }

    /** The attributes of a span, one after another; the closers of their markup are
        collected in the order the openers were written (`__init__.py:213-234`). */
    method OpenAttrs(attrs: seq<Attr>) returns (closers: seq<string>, fault: Option<Fault>)
      modifies this
      ensures var o := SpanOpening(attrs);
        out == old(out) + o.written && closers == Closers(o.marks) && fault == o.fault &&
        stack == old(stack)
    {
      ghost var hs := AttrsMarks(attrs);
      ghost var o := Opened(hs);
      ghost var marks: seq<Markup> := [];
      ghost var done: string := [];
      closers := [];
      var i := 0;
      while i < |attrs|
        invariant 0 <= i <= |attrs| && stack == old(stack)
        invariant Opened(hs[i..]).fault == o.fault
        invariant o.written == done + Opened(hs[i..]).written
        invariant o.marks == marks + Opened(hs[i..]).marks
        invariant out == old(out) + done
        invariant closers == Closers(marks)
      {
        ghost var text := " " + Openers(hs[i].marks);
        OpenedStep(hs, i, done, marks);
        ClosersConcat(marks, hs[i].marks);
        closers, fault := OpenAttr(attrs[i], closers);
        AppendAssoc(old(out), done, text);
        if fault.Some? {
          return;
        }
        done := done + text;
        marks := marks + hs[i].marks;
        i := i + 1;
      }
      assert hs[i..] == [];
      assert o.marks == marks && o.fault == None;
      return closers, None;
    }

    /** One attribute of a span: a space, then the markup of its style value, if it is the
        style attribute (`__init__.py:214-234`). Its closers are appended to `closers0`. */
    method OpenAttr(a: Attr, closers0: seq<string>) returns (closers: seq<string>, fault: Option<Fault>)
      modifies this
      ensures var here := AttrMarks(a);
        out == old(out) + (" " + Openers(here.marks)) && closers == closers0 + Closers(here.marks) &&
        fault == here.fault && stack == old(stack)
    {
      Write(" ");
      if ByteLower(a.name) != "style" {
        return closers0, None;
      }
      if a.value.None? {
        return closers0, Some(ValuelessAttribute(a.name));
      }
      var decls := Split(ByteLower(a.value.value), ';');
      closers, fault := WriteStyle(decls, closers0);
      AppendAssoc(old(out), " ", Openers(StyleMarks(decls).marks));
    }

    /** The declarations of one lower-cased style value (`__init__.py:218-234`): each one
        that opens markup writes its opener and appends its closer to `closers0`; the first
        malformed one raises. */
    method WriteStyle(decls: seq<string>, closers0: seq<string>) returns (closers: seq<string>, fault: Option<Fault>)
      modifies this
      ensures var h := StyleMarks(decls);
        out == old(out) + Openers(h.marks) && closers == closers0 + Closers(h.marks) &&
        fault == h.fault && stack == old(stack)
    {
      ghost var ds := Declarations(decls);
      ghost var h := MarksOf(ds);
      ghost var done: seq<Markup> := [];
      closers := closers0;
      var j := 0;
      while j < |decls|
        invariant 0 <= j <= |decls| && stack == old(stack)
        invariant MarksOf(ds[j..]).fault == h.fault
        invariant h.marks == done + MarksOf(ds[j..]).marks
        invariant out == old(out) + Openers(done)
        invariant closers == closers0 + Closers(done)
      {
        assert ds[j..][1..] == ds[j + 1..];
        var d := WriteDeclaration(decls[j]);
        assert ds[j..][0] == d;
        match d {
          case Malformed(spec) =>
            assert h.marks == done;
            return closers, Some(BadDeclaration(spec));
          case Ignored =>
          case Opens(m) =>
            closers := closers + [Closer(m)];
            MarkupAppend(old(out), closers0, done, m);
            AppendAssoc(done, [m], MarksOf(ds[j + 1..]).marks);
            done := done + [m];
        }
        j := j + 1;
      }
      assert ds[j..] == [];
      assert h.marks == done;
      return closers, None;
    }

    /** One declaration of a style value (`__init__.py:219-234`): its opener, if it opens markup. */
    method WriteDeclaration(spec: string) returns (d: Declared)
      modifies this
      ensures d == Declaration(spec) && stack == old(stack)
      ensures out == old(out) + (if d.Opens? then Opener(d.mark) else [])
    {
      var pieces := Split(spec, ':');
      if |pieces| != 2 {
        return Malformed(spec);
      }
      var name := Strip(pieces[0], Bytes);
      var value := Strip(pieces[1], Bytes);
      if name == "color" {
        Write("<font color=\"");
        Write(Encode(value));
        Write("\">");
        d := Opens(Font(value));
      } else if name == "font-weight" && value == "bold" {
        Write("<b>");
        d := Opens(Bold);
      } else if name == "font-style" && value == "italic" {
        Write("<i>");
        d := Opens(Italic);
      } else {
        d := Ignored;
      }
    }

    method HandleEndTag(tag: string) returns (fault: Option<Fault>)
      modifies this
      ensures Stepped(Value(), fault) == Step(old(Value()), EndTag(tag))
    {
      if ByteLower(tag) != "span" {
        out := out + "</" + tag + ">";
        return None;
      }
      if stack == [] {
        return Some(UnmatchedEnd);
      }
      var closers := stack[|stack| - 1];
      stack := stack[..|stack| - 1];
      var k := 0;
      while k < |closers|
        invariant 0 <= k <= |closers| && stack == old(stack)[..|old(stack)| - 1]
        invariant old(out) + Concat(closers) == out + Concat(closers[k..])
      {
        assert closers[k..][1..] == closers[k + 1..];
        out := out + closers[k];
        k := k + 1;
      }
      return None;
    }

    method HandleCharRef(name: string)
      modifies this
      ensures out == old(out) + "&#" + name + ";" && stack == old(stack)
    {
      out := out + "&#" + name + ";";
    }

    method HandleEntityRef(name: string)
      modifies this
      ensures out == old(out) + "&" + name + ";" && stack == old(stack)
    {
      out := out + "&" + name + ";";
    }

    method HandleData(data: string)
      modifies this
      ensures out == old(out) + data && stack == old(stack)
    {
      out := out + data;
    }

    /** Comments, declarations and processing instructions are dropped. */
    method HandleIgnored(data: string)
      ensures Step(Value(), Comment(data)) == Stepped(Value(), None)
      ensures Step(Value(), Decl(data)) == Stepped(Value(), None)
      ensures Step(Value(), Pi(data)) == Stepped(Value(), None)
    {
    }

    /** The tokenizer's dispatch of one event to its handler. */
    method Handle(e: Event) returns (fault: Option<Fault>)
      modifies this
      ensures Stepped(Value(), fault) == Step(old(Value()), e)
    {
      match e
      case StartTag(tag, attrs) => fault := HandleStartTag(tag, attrs);
      case EndTag(tag) => fault := HandleEndTag(tag);
      case CharRef(name) => HandleCharRef(name); fault := None;
      case EntityRef(name) => HandleEntityRef(name); fault := None;
      case Data(text) => HandleData(text); fault := None;
      case Comment(text) => HandleIgnored(text); fault := None;
      case Decl(text) => HandleIgnored(text); fault := None;
      case Pi(text) => HandleIgnored(text); fault := None;
    }

    /** Feeding a whole event stream; an exception stops it where it was raised. */
    method Feed(events: seq<Event>) returns (fault: Option<Fault>)
      modifies this
      ensures Stepped(Value(), fault) == Run(old(Value()), events)
    {
      var i := 0;
      while i < |events|
        invariant 0 <= i <= |events|
        invariant Run(old(Value()), events) == Run(Value(), events[i..])
      {
        assert events[i..][1..] == events[i + 1..];
        fault := Handle(events[i]);
        if fault.Some? {
          return;
        }
        i := i + 1;
      }
      return None;
    }
  }

  /** The conversion for the wx preview (`__init__.py:959-964`): a fresh converter fed the
      whole highlighted fragment; its output buffer is the result. */
  method Convert(events: seq<Event>) returns (html: string, fault: Option<Fault>)
    ensures html == Run(State([], []), events).state.out
    ensures fault == Run(State([], []), events).fault
  {
    var converter := new WxHtmlConverter();
    fault := converter.Feed(events);
    html := converter.out;
  }
}
