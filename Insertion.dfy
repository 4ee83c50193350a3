/** The `[:pc:...]` insertion of the plugin: the options record (`Options`, `__init__.py:99-118`),
    the option handler and the directive parser of `InsertionHandler.createContent`
    (`__init__.py:867-928`), the background frame put around the highlighted code
    (`__init__.py:954-957`) and the option string `insertCode` writes (`__init__.py:985-994`). */
module Insertion {
  import opened Text
  import opened Escape

  /** The tag of the insertion, as in `[:pc:///code///]`. */
  const InsertionTag: string := "pc"
  const DefaultLang: string := "Python"
  const DefaultBkg: string := "Light Blue"
  const DefaultBkgs: seq<(string, string)> := [
    ("Light Blue", "background-color: #F7F9FA; border: 1px #8CACBB dashed; width: 80%; padding: 4px; margin: 2"),
    ("Light Yellow", "background-color: #FFFFDD; border: 1px #8CACBB dashed; width: 80%; padding: 4px; margin: 2")
  ]

  /** The values read from the global configuration: language, line numbers on or off, the named
      background styles (a dictionary, here in the order its items are visited) and the chosen one. */
  datatype Config = Config(lang: string, showLN: bool, bkgs: seq<(string, string)>, bkg: string)

  /** The configuration of a wiki that never changed the plugin's options. */
  const DefaultConfig: Config := Config(DefaultLang, false, DefaultBkgs, DefaultBkg)

  /** The options an insertion can set. */
  datatype Settings = Settings(lang: string, showLN: bool, startLine: int, hlLines: seq<int>, bkg: string)

  /** The options before any assignment: the configured ones, counting from line 1, nothing highlighted. */
  function Initial(c: Config): (s: Settings)
    ensures s.lang == c.lang && s.showLN == c.showLN && s.bkg == c.bkg
    ensures s.startLine == 1 && s.hlLines == []
  {
    Settings(c.lang, c.showLN, 1, [], c.bkg)
  }

  /** Why an assignment raised. */
  datatype OptionError =
    | MissingSeparator(assignment: string)   // neither `=` nor `:`: the unpacking of `split(":", 1)` fails
    | UnknownOption(name: string)            // `invalid option name`
    | NotAnInteger(literal: string)          // `int()` refused the text

  datatype Result<T> = Ok(value: T) | Err(error: OptionError)

  /** What the insertion turns into: highlighted code with its options, or one of the two messages. */
  datatype Outcome =
    | Highlight(code: string, settings: Settings)
    | InvalidOptionFormat(error: OptionError)
    | InvalidFormat

  /** An option name as the handler compares it: stripped, then lower-cased. */
  function OptionName(name: string): string {
    UnicodeLower(Strip(name, Unicode))
  }

  /** `[int(x) for x in parts]`: the first part `int()` refuses raises. */
  function ParseInts(parts: seq<string>): (r: Result<seq<int>>)
    ensures r.Ok? ==> |r.value| == |parts|
  {
    if parts == [] then Ok([])
    else
      match ParseInt(parts[0])
      case None => Err(NotAnInteger(parts[0]))
      case Some(n) =>
        match ParseInts(parts[1..])
        case Err(e) => Err(e)
        case Ok(ns) => Ok([n] + ns)
  }

  /** `[int(x) for x in parts]` succeeds exactly when `int()` accepts every part, and then holds
      their integers in order; otherwise it raises for a part `int()` refuses. */
  lemma {:induction false} ParseIntsSpec(parts: seq<string>)
    ensures var r := ParseInts(parts);
      (r.Ok? <==> forall k :: 0 <= k < |parts| ==> ParseInt(parts[k]).Some?) &&
      (r.Ok? ==> forall k :: 0 <= k < |parts| ==> r.value[k] == ParseInt(parts[k]).value) &&
      (r.Err? ==> exists k :: 0 <= k < |parts| && ParseInt(parts[k]).None? && r.error == NotAnInteger(parts[k]))
    decreases |parts|
  {
    if parts != [] {
      ParseIntsSpec(parts[1..]);
      assert forall k :: 1 <= k < |parts| ==> parts[1..][k - 1] == parts[k];
    }
  }

  /** The value of `hlLines`: nothing for an empty value, else the comma-separated integers in order. */
  function HlLines(v: string): Result<seq<int>> {
    if v == [] then Ok([]) else ParseInts(Split(v, ','))
  }

  /** The handler's effect on the options, or the exception it raises. */
  function ApplyOption(s: Settings, name: string, value: string): Result<Settings>
  {
    var n := OptionName(name);
    var v := Strip(value, Unicode);
    if n == "lang" then Ok(s.(lang := v))
    else if n == "showlines" then
      match ParseInt(v)
      case None => Err(NotAnInteger(v))
      case Some(k) => Ok(s.(showLN := k != 0))
    else if n == "startline" then
      match ParseInt(v)
      case None => Err(NotAnInteger(v))
      case Some(k) => Ok(s.(startLine := k))
    else if n == "hllines" then
      match HlLines(v)
      case Err(e) => Err(e)
      case Ok(ks) => Ok(s.(hlLines := ks))
    else if n == "bkg" then
      if v != "default" then Ok(s.(bkg := v)) else Ok(s)
    else Err(UnknownOption(n))
  }

  /** An assignment split at its first `=`, or failing that at its first `:`. */
  function SplitAssignment(setopt: string): (r: Option<(string, string)>)
    ensures r.None? <==> '=' !in setopt && ':' !in setopt
    ensures '=' in setopt ==> r == SplitOnce(setopt, '=')
  {
    match SplitOnce(setopt, '=')
    case Some(p) => Some(p)
    case None => SplitOnce(setopt, ':')
  }

  function ApplyAssignment(s: Settings, setopt: string): Result<Settings> {
    match SplitAssignment(setopt)
    case None => Err(MissingSeparator(setopt))
    case Some((name, value)) => ApplyOption(s, name, value)
  }

  /** The assignments applied in order; the first one that raises ends the scan. */
  function ApplyAll(s: Settings, setopts: seq<string>): Result<Settings>
    decreases |setopts|
  {
    if setopts == [] then Ok(s)
    else
      match ApplyAssignment(s, setopts[0])
      case Err(e) => Err(e)
      case Ok(t) => ApplyAll(t, setopts[1..])
  }

  /** The code and the inline assignments of an insertion's value: everything after the last
      `:::` is the option section, split on `;`; without `:::` the whole value is code. */
  function OptionArgs(value: string): (r: (string, seq<string>))
    ensures |r.1| == 0 <==> forall i :: !OccursAt(value, ":::", i)
  {
    match RSplitOnce(value, ":::")
    case None => (value, [])
    case Some((code, section)) => (code, Split(section, ';'))
  }

  /** Applying `xs` then `ys` is applying `xs + ys`; an exception in `xs` means `ys` is never seen. */
  lemma {:induction false} ApplyAllAppend(s: Settings, xs: seq<string>, ys: seq<string>)
    ensures ApplyAll(s, xs + ys) == match ApplyAll(s, xs) case Err(e) => Err(e) case Ok(t) => ApplyAll(t, ys)
    decreases |xs|
  {
    if xs == [] {
      assert xs + ys == ys;
    } else {
      assert (xs + ys)[0] == xs[0] && (xs + ys)[1..] == xs[1..] + ys;
      match ApplyAssignment(s, xs[0]) {
        case Err(e) =>
        case Ok(t) => ApplyAllAppend(t, xs[1..], ys);
      }
    }
  }

  /** What `createContent` makes of an insertion before it calls the highlighter. */
  function Directive(c: Config, value: string, appendices: seq<string>): Outcome {
    var (code, args) := OptionArgs(value);
    match ApplyAll(Initial(c), args + appendices)
    case Err(e) => InvalidOptionFormat(e)
    case Ok(s) => if args + appendices == [] then InvalidFormat else Highlight(code, s)
  }

  /** The options object of one insertion. */
  class Options {
    var lang: string
    var showLN: bool
    var bkgs: seq<(string, string)>
    var bkg: string
    var startLine: int
    var hlLines: seq<int>

    /** The options as read from the configuration (`Options.__init__`). */
    constructor(c: Config)
      ensures Current() == Initial(c) && bkgs == c.bkgs
    {
      lang := c.lang;
      showLN := c.showLN;
      bkgs := c.bkgs;
      bkg := c.bkg;
      startLine := 1;
      hlLines := [];
    }

    function Current(): Settings
      reads this
    {
      Settings(lang, showLN, startLine, hlLines, bkg)
    }

    /** `handleOption`: sets the field the name selects, or raises before changing anything. */
    method HandleOption(name: string, value: string) returns (error: Option<OptionError>)
      modifies this
      ensures var r := ApplyOption(old(Current()), name, value);
        (error.None? <==> r.Ok?) &&
        (r.Ok? ==> Current() == r.value) &&
        (r.Err? ==> error == Some(r.error) && Current() == old(Current()))
      ensures bkgs == old(bkgs)
    {
      var n := OptionName(name);
      var v := Strip(value, Unicode);
      error := None;
      if n == "lang" {
        lang := v;
      } else if n == "showlines" {
        match ParseInt(v) {
          case None => error := Some(NotAnInteger(v));
          case Some(k) => showLN := k != 0;
        }
      } else if n == "startline" {
        match ParseInt(v) {
          case None => error := Some(NotAnInteger(v));
          case Some(k) => startLine := k;
        }
      } else if n == "hllines" {
        if v != [] {
          match ParseInts(Split(v, ',')) {
            case Err(e) => error := Some(e);
            case Ok(ks) => hlLines := ks;
          }
        } else {
          hlLines := [];
        }
      } else if n == "bkg" {
        if v != "default" {
          bkg := v;
        }
      } else {
        error := Some(UnknownOption(n));
      }
    }
  }

  /** One assignment of the directive: split at the first `=`, or failing that at the first
      `:`, then handed to `handleOption`; an assignment with neither raises. */
  method HandleAssignment(options: Options, setopt: string) returns (error: Option<OptionError>)
    modifies options
    ensures var r := ApplyAssignment(old(options.Current()), setopt);
      (error.None? <==> r.Ok?) &&
      (r.Ok? ==> options.Current() == r.value) &&
      (r.Err? ==> error == Some(r.error) && options.Current() == old(options.Current()))
    ensures options.bkgs == old(options.bkgs)
  {
    var name, value;
    match SplitOnce(setopt, '=') {
      case Some(p) => name, value := p.0, p.1;
      case None =>
        match SplitOnce(setopt, ':') {
          case None => return Some(MissingSeparator(setopt));
          case Some(p) => name, value := p.0, p.1;
        }
    }
    error := options.HandleOption(name, value);
  }

  /** The assignments handled one after another; the first exception ends the loop.
      `found` records whether any assignment was handled. */
  method HandleAssignments(options: Options, setopts: seq<string>) returns (error: Option<OptionError>, found: bool)
    modifies options
    ensures var r := ApplyAll(old(options.Current()), setopts);
      (error.None? <==> r.Ok?) &&
      (r.Ok? ==> options.Current() == r.value && (found <==> |setopts| > 0)) &&
      (r.Err? ==> error == Some(r.error))
    ensures options.bkgs == old(options.bkgs)
  {
    ghost var start := options.Current();
    found := false;
    var i := 0;
    while i < |setopts|
      invariant 0 <= i <= |setopts|
      invariant ApplyAll(start, setopts) == ApplyAll(options.Current(), setopts[i..])
      invariant found <==> i > 0
      invariant options.bkgs == old(options.bkgs)
    {
      assert setopts[i..][0] == setopts[i] && setopts[i..][1..] == setopts[i + 1..];
      error := HandleAssignment(options, setopts[i]);
      if error.Some? {
        return;
      }
      found := true;
      i := i + 1;
    }
    error := None;
  }

  /** `createContent` up to the call of the highlighter: the inline assignments, then the
      appendices, each handled in turn; the first exception gives the option-format message,
      and an insertion with no assignment at all gives the format message. */
  method CreateContent(c: Config, value: string, appendices: seq<string>) returns (outcome: Outcome)
    ensures outcome == Directive(c, value, appendices)
  {
    var options := new Options(c);
    var code, args := value, [];
    var split := RSplitOnce(value, ":::");
    if split.Some? {
      code := split.value.0;
      args := Split(split.value.1, ';');
    }
    ApplyAllAppend(options.Current(), args, appendices);
    var error, inline := HandleAssignments(options, args);
    if error.Some? {
      return InvalidOptionFormat(error.value);
    }
    var appended;
    error, appended := HandleAssignments(options, appendices);
    if error.Some? {
      return InvalidOptionFormat(error.value);
    }
    var optionFound := inline || appended;
    if !optionFound {
      return InvalidFormat;
    }
    return Highlight(code, options.Current());
  }

  // ---------------------------------------------------------------------------
  // The background frame
  // ---------------------------------------------------------------------------

  /** `dict.get(key, "")` on the dictionary built from `pairs`: a later pair with the same key
      replaces an earlier one. */
  function DictGet(pairs: seq<(string, string)>, key: string): string
    decreases |pairs|
  {
    if pairs == [] then []
    else if pairs[|pairs| - 1].0 == key then pairs[|pairs| - 1].1
    else DictGet(pairs[..|pairs| - 1], key)
  }

  /** The configured backgrounds with their names lower-cased. */
  function LowerKeys(bkgs: seq<(string, string)>): (r: seq<(string, string)>)
    ensures |r| == |bkgs|
    ensures forall k :: 0 <= k < |bkgs| ==> r[k] == (UnicodeLower(bkgs[k].0), bkgs[k].1)
  {
    seq(|bkgs|, k requires 0 <= k < |bkgs| => (UnicodeLower(bkgs[k].0), bkgs[k].1))
  }

  /** The style of the chosen background, looked up without regard to case, with its single
      quotes turned into double quotes; empty when no background has that name. */
  function BackgroundStyle(bkgs: seq<(string, string)>, bkg: string): string {
    Replace(DictGet(LowerKeys(bkgs), UnicodeLower(bkg)), '\'', "\"")
  }

  /** The highlighted code, inside a `<pre>` carrying the background style when there is one. */
  function Framed(result: string, style: string): string {
    if style != [] then "<pre style=\"" + style + "\">" + result + "</pre>" else result
  }

  // ---------------------------------------------------------------------------
  // The option string of `insertCode`
  // ---------------------------------------------------------------------------

  /** `"%d" % int(b)`. */
  function BoolDigit(b: bool): string {
    if b then "1" else "0"
  }

  /** `",".join([str(x) for x in xs])`. */
  function IntList(xs: seq<int>): string {
    Join(seq(|xs|, k requires 0 <= k < |xs| => IntToString(xs[k])), ',')
  }

  /** The five assignments `insertCode` writes after `:::`; the background is always `default`. */
  function OptionAssignments(s: Settings): seq<string> {
    [ "lang=" + s.lang,
      "showLines=" + BoolDigit(s.showLN),
      "startLine=" + IntToString(s.startLine),
      "hlLines=" + IntList(s.hlLines),
      "Bkg=default" ]
  }

  function OptionSection(s: Settings): string {
    ":::" + Join(OptionAssignments(s), ';')
  }

  /** The code as `insertCode` writes it: on lines of its own, ending with a line break. */
  function InsertedCode(text: string): (code: string)
    ensures code == "\n" + text || code == "\n" + text + "\n"
    ensures code == "\n" + text <==> text == [] || text[|text| - 1] == '\n'
    ensures |code| > 0 && code[0] == '\n' && code[|code| - 1] == '\n'
  {
    var body := "\n" + text;
    if body[|body| - 1] == '\n' then body else body + "\n"
  }

  /** The value of the insertion `insertCode` writes: the code, then the options. */
  function InsertionValue(text: string, s: Settings): string {
    InsertedCode(text) + OptionSection(s)
  }

  /** The text `insertCode` puts into the editor. */
  function InsertText(text: string, s: Settings): string {
    "[:" + InsertionTag + ":///" + InsertionValue(text, s) + "///]\n"
  }
}
