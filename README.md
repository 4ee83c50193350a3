# PrettyCode insertion and wx HTML converter, in Dafny

This project models the core of the WikidPad PrettyCode plugin (`__init__.py`). It has three parts.

- **The `[:pc:///…///]` insertion.** `createContent` reads an insertion's value. It splits the value at its last `:::` into source code and an option section, and splits the section on `;`. Each assignment is split at its first `=`, or failing that at its first `:`. The assignment is then passed to `handleOption`, which sets one field of an `Options` object: `lang`, `showLN`, `startLine`, `hlLines` or `bkg`. Appendices of the insertion are handled after the inline assignments.
  - The first assignment that raises gives the "Invalid option format" message.
  - An insertion with no assignment at all gives the "Invalid format" message.
  - Otherwise the code is highlighted with the options.
- **The background and `insertCode`.** The model covers two pieces around the insertion:
  - the background lookup, which puts the highlighted code in a `<pre>` frame;
  - the option string that `insertCode` writes into the editor, which the parser reads back.
- **`_WXHtmlConverter`.** This HTML parser subclass rewrites the highlighter's `<span style="…">` markup for the wx preview widget.
  - Each `color:`, `font-weight: bold` and `font-style: italic` declaration becomes a `<font color>`, `<b>` or `<i>` opener.
  - A stack of closer lists remembers what each `</span>` must write.
  - Other tags are written back with their attribute values escaped by `encode`.

Modules:

- `Text`: the Python 2 string built-ins the code relies on. These are byte and unicode `strip` and `lower`, `split`, `split(sep, 1)` and `rsplit(sep, 1)` unpacked into two names, `join`, `int()` and `str()`.
- `Escape`: the converter's `encode`, as five chained `replace` calls. It is proved equal to a one-pass escaper, and an unescaper is proved to invert it.
- `Converter`: the tokenizer callbacks as `Event` values, and the callbacks' meaning as the functions `Step` and `Run`. The class `WxHtmlConverter` has the fields `out` and `stack`, and one method per handler, each proved against `Step`.
- `ConverterLemmas`: the closer stack follows the span nesting, and each `</span>` writes the closers of its own `<span>`, last opened first.
- `StyleLemmas`: the style values the highlighter writes are read back as exactly the markup they ask for.
- `Insertion`: the options and settings, and `handleOption` as the specification function `ApplyOption` and the method `Options.HandleOption`. It also has the directive as the function `Directive` and the method `CreateContent`, the background lookup, and the `insertCode` formatter.
- `InsertionLemmas`: when each message appears, override order, normalisation of names and values, the `insertCode` round trip, and the background lookup.

Where the code and the plugin's description of itself differ, the model follows the code:

- The converter writes a space for every attribute of a span, so a converted span with attributes starts with a space.
- `startLine` is not checked to be at least 1, and `hlLines` entries are not checked to be positive. `int()` accepts any integer.
- The default background is `Light Blue` (`DEFAULT_BKG`), not `default`.
- `insertCode` writes `Bkg=default`, which names the default and never changes the configured background.

## Model

| member | source | states |
|---|---|---|
| Text.TrimLeftSpec | __init__.py:871-872 | `strip` on the left removes exactly a maximal run of whitespace of the string's kind |
| Text.TrimRightSpec | __init__.py:871-872 | `strip` on the right removes exactly a maximal run of whitespace of the string's kind |
| Text.Split | __init__.py:218 | `split` gives at least one piece, no piece holds the separator, and text without the separator is its own single piece |
| Text.SplitJoin | __init__.py:988-994 | splitting on a separator undoes a join whose pieces do not hold it |
| Text.JoinSplit | __init__.py:894 | joining the pieces of a split gives back the original string |
| Text.SplitOnce | __init__.py:902-904 | `split(sep, 1)` unpacking fails exactly when the separator is absent; otherwise the text is the first part, the separator and the rest, and the first part holds no separator |
| Text.RSplitOnce | __init__.py:893 | `rsplit(":::", 1)` unpacking fails exactly when there is no `:::`; otherwise it splits at an occurrence with none after it |
| Text.ParseIntString | __init__.py:879 | `int()` reads back what `str()`/`%d` writes, negative numbers included |
| Escape.EncodeIsEscapeAll | __init__.py:262-268 | the five chained replacements, `&` first, equal escaping each character once, so no entity is escaped twice |
| Escape.EncodeChar | __init__.py:263-267 | one character is encoded as its own entity or left as it is |
| Escape.EncodeLeavesNoMarkup | __init__.py:262-268 | an encoded value holds no raw `<`, `>`, `'` or `"` |
| Escape.EncodeUnchanged | __init__.py:262-268 | `encode` leaves a value unchanged exactly when it holds none of the five special characters |
| Escape.UnescapeEncode | __init__.py:262-268 | decoding the five entities inverts `encode`: no value is lost |
| Converter.Step | __init__.py:197-261 | output is only appended; only span tags touch the stack; a span start that raises nothing pushes one entry, its closers reversed; a span end raises exactly on an empty stack, and otherwise pops one entry; comments, declarations and processing instructions change nothing |
| Converter.Run | __init__.py:197-261 | a run of callbacks only appends to the output |
| Converter.WxHtmlConverter.constructor | __init__.py:193-196 | a new converter has empty output and an empty stack |
| Converter.WxHtmlConverter.Write | __init__.py:200-208 | writing appends to the output and leaves the stack alone |
| Converter.WxHtmlConverter.HandleStartTag | __init__.py:197-236 | the new output, stack and raised exception are those `Step` gives for a start tag |
| Converter.WxHtmlConverter.WriteTag | __init__.py:198-209 | a tag other than span is written with each attribute escaped, and closed with `>` unless an attribute raised |
| Converter.WxHtmlConverter.WriteAttr | __init__.py:202-207 | one attribute is written as ` name="escaped value"`; a valueless one raises after ` name="` |
| Converter.WxHtmlConverter.OpenSpan | __init__.py:213-236 | a span start writes the openers of its markup and, if nothing raised, pushes their closers in reverse |
| Converter.WxHtmlConverter.OpenAttrs | __init__.py:213-234 | each attribute of a span writes a space and its openers; the closers are collected in opening order; the first fault stops the loop |
| Converter.WxHtmlConverter.OpenAttr | __init__.py:214-234 | only a `style` attribute, in any case, opens markup; a valueless `style` raises |
| Converter.WxHtmlConverter.WriteStyle | __init__.py:218-234 | each declaration of a style writes its opener and records its closer, up to the first malformed declaration, which raises |
| Converter.WxHtmlConverter.WriteDeclaration | __init__.py:219-234 | a declaration opens `<font color>` for `color`, `<b>` for bold and `<i>` for italic; other declarations are ignored; one that does not split in two on `:` is malformed |
| Converter.WxHtmlConverter.HandleEndTag | __init__.py:237-245 | the new state is the one `Step` gives for an end tag: a span end writes the top entry's closers and pops it, or raises on an empty stack |
| Converter.WxHtmlConverter.HandleCharRef | __init__.py:246-249 | a character reference is written back as `&#name;` |
| Converter.WxHtmlConverter.HandleEntityRef | __init__.py:250-253 | an entity reference is written back as `&name;` |
| Converter.WxHtmlConverter.HandleData | __init__.py:254-255 | text is copied to the output unchanged |
| Converter.WxHtmlConverter.HandleIgnored | __init__.py:256-261 | comments, declarations and processing instructions leave the state as it is |
| Converter.WxHtmlConverter.Handle | __init__.py:197-261 | each callback changes the converter as `Step` says |
| Converter.WxHtmlConverter.Feed | __init__.py:962 | feeding a stream of events changes the converter as `Run` says, stopping at the first exception |
| Converter.Convert | __init__.py:961-964 | the converted HTML is what a fresh converter writes for the whole stream |
| ConverterLemmas.RunAppend | __init__.py:197-261 | feeding two stretches one after the other is feeding them together; an exception in the first means the second is never seen |
| ConverterLemmas.RunNesting | __init__.py:244 | on well-formed input the only exception is an unmatched `</span>`, raised exactly when the span depth goes below zero; otherwise the stack holds one entry per span still open |
| ConverterLemmas.RunKeepsBase | __init__.py:213-245 | input that never closes more spans than it opened leaves the lower stack entries untouched |
| ConverterLemmas.BalancedKeepsStack | __init__.py:236-244 | balanced input leaves the closer stack as it found it |
| ConverterLemmas.ClosingOrder | __init__.py:235-236 | the pushed entry holds the closers in reverse opening order, one per mark |
| ConverterLemmas.EndPops | __init__.py:244-245 | a span end writes the top entry's closers and leaves the entries below |
| ConverterLemmas.SpanClosesItsOwn | __init__.py:213-245 | a span around a balanced body: its end writes exactly the closers of its own markup, last opened first, and the stack is back where it was |
| ConverterLemmas.FreshRunFaults | __init__.py:193-196 | a fresh converter raises on well-formed input exactly when some span end has no open span |
| StyleLemmas.DeclarationRoundTrip | __init__.py:219-234 | the declaration the highlighter writes for a mark opens that mark again |
| StyleLemmas.StyleTextLower | __init__.py:217 | lower-casing a written style value lower-cases only the colours in it |
| StyleLemmas.StyleRoundTrip | __init__.py:216-234 | a style value of `;`-joined declarations, colours in any case, opens exactly its marks, in order, with every colour lower-cased and no fault |
| StyleLemmas.StyleAnyCase | __init__.py:214-234 | an attribute named `style` in any case, whose value is such a style value in any case, opens exactly the marks with lower-cased colours |
| StyleLemmas.StyleUpperCaseExample | __init__.py:214-234 | `Style="Color: #00FF00"` opens the colour `#00ff00` |
| StyleLemmas.StyleAttrRoundTrip | __init__.py:214-234 | a `style` attribute with such a value opens exactly its marks, colours lower-cased |
| StyleLemmas.SpanRoundTrip | __init__.py:213-236 | a span with such a style writes a space and the openers of exactly those marks, colours lower-cased |
| StyleLemmas.TrailingSemicolonRaises | __init__.py:218-219 | a style value ending in `;` opens its marks, colours lower-cased, and then raises on the empty last declaration |
| Insertion.Options.constructor | __init__.py:112-118 | a new options object holds the initial settings and the configured backgrounds |
| Insertion.Options.HandleOption | __init__.py:870-889 | the handler succeeds exactly when `ApplyOption` does, and then holds its settings; on an exception nothing has changed |
| Insertion.ParseIntsSpec | __init__.py:882 | the list parses exactly when every piece is an integer, and then holds `int()` of each piece in order; otherwise it raises on a piece that is not an integer |
| Insertion.SplitAssignment | __init__.py:901-904 | an assignment fails to split exactly when it has neither `=` nor `:`; with `=` present it splits at the first `=` |
| InsertionLemmas.SplitAssignmentColon | __init__.py:901-904 | with no `=`, an assignment splits at its first `:`, into a name with no `:` and the rest |
| InsertionLemmas.ColonAssign | __init__.py:901-906 | `name:value` with no `=` and no `:` in the name hands the handler that name and value |
| InsertionLemmas.LangColonApplies | __init__.py:901-906 | `lang:x` with no `=` sets the language to the stripped `x`, as `lang=x` does |
| Insertion.HandleAssignment | __init__.py:901-906 | one assignment changes the options as `ApplyAssignment` says, or raises its error |
| Insertion.HandleAssignments | __init__.py:900-907 | the loop applies the assignments in order as `ApplyAll` says; `optionFound` is set exactly when there was at least one assignment |
| Insertion.OptionArgs | __init__.py:892-897 | there are no inline assignments exactly when the value holds no `:::` |
| Insertion.ApplyAllAppend | __init__.py:899-916 | applying the inline assignments and then the appendices is applying their concatenation |
| Insertion.CreateContent | __init__.py:867-928 | the outcome is the one `Directive` gives: highlight, option-format message or format message |
| Insertion.InsertedCode | __init__.py:985-987 | the inserted code starts on a new line and always ends with a line break; it is the text alone after the new line exactly when the text is empty or already ends with a line break |
| InsertionLemmas.InvalidFormatIff | __init__.py:924-928 | the format message appears exactly when the value has no `:::` and there are no appendices |
| InsertionLemmas.FailureAnywhere | __init__.py:899-922 | an assignment that always raises makes the whole scan raise, wherever it stands |
| InsertionLemmas.MissingSeparatorFails | __init__.py:899-922 | an assignment with neither `=` nor `:`, inline or appended, gives the option-format message |
| InsertionLemmas.TrailingSemicolonFails | __init__.py:893-906 | an option section ending in `;` holds an empty assignment and gives the option-format message |
| InsertionLemmas.ApplyOptionFrame | __init__.py:870-889 | the handler changes only the option its name selects; `lang` and `bkg` accept any value; any other name raises |
| InsertionLemmas.LangOption | __init__.py:874-875 | `lang` sets the language to the stripped value, whatever it is |
| InsertionLemmas.ShowLinesOption | __init__.py:876-877 | `showlines` raises exactly when the stripped value is not an integer, and otherwise turns line numbers on exactly when the integer is not 0 |
| InsertionLemmas.StartLineOption | __init__.py:878-879 | `startline` raises exactly when the stripped value is not an integer, and otherwise sets the first line number to it |
| InsertionLemmas.HlLinesOption | __init__.py:880-884 | `hllines` with an empty value highlights nothing; otherwise it succeeds exactly when every comma piece is an integer, sets the lines to those integers in order, and raises on a piece that is not |
| InsertionLemmas.BkgOption | __init__.py:885-887 | `bkg` sets the background to the stripped value unless it is `default`, which changes nothing |
| InsertionLemmas.AppendedLangWins | __init__.py:909-916 | an appended `lang=x` overrides the language the inline options set |
| InsertionLemmas.OptionNameTwice | __init__.py:871 | stripping and lower-casing a name a second time changes nothing |
| InsertionLemmas.OptionNormalised | __init__.py:870-872 | the handler only ever sees the stripped, lower-cased name and the stripped value |
| InsertionLemmas.LangApplies | __init__.py:874-875 | `lang=l` sets the language to `l` |
| InsertionLemmas.ShowApplies | __init__.py:876-877 | `showLines=0` or `showLines=1` turns line numbers off or on |
| InsertionLemmas.StartApplies | __init__.py:878-879 | `startLine=n` sets the first line number to `n` |
| InsertionLemmas.HlApplies | __init__.py:880-884 | `hlLines=` with a comma-joined list sets exactly those lines, in order |
| InsertionLemmas.BkgDefaultApplies | __init__.py:885-887 | `Bkg=default` leaves the options unchanged |
| InsertionLemmas.HlLinesRoundTrip | __init__.py:880-884 | the comma-joined list `insertCode` writes parses back to the same list |
| InsertionLemmas.AssignmentsApply | __init__.py:988-994 | the five assignments `insertCode` writes set every option except the background |
| InsertionLemmas.SectionSplits | __init__.py:988-994 | the option section splits on `;` back into its five assignments, does not start with `:` and holds no `:::` |
| InsertionLemmas.OptionSectionRoundTrip | __init__.py:892-907 | code followed by the option section parses back to that code and those options, with the configured background |
| InsertionLemmas.InsertCodeRoundTrip | __init__.py:985-994 | the text `insertCode` writes holds a value that parses back to the wrapped text, with a leading line break and a trailing one when it lacked one, and to the options it was given except the background, which stays the configured one |
| InsertionLemmas.FreshInsertionRoundTrip | __init__.py:984-994 | with the options of a fresh `Options` object, the inserted code parses back to exactly those options |
| InsertionLemmas.DefaultInsertionRoundTrip | __init__.py:60-69 | with the default configuration, the inserted code parses back to `Python`, no line numbers, line 1, nothing highlighted and the `Light Blue` background |
| InsertionLemmas.DictGetSpec | __init__.py:954-955 | a lookup finds the value of the last pair with the key, or nothing |
| InsertionLemmas.BackgroundFound | __init__.py:954-955 | the chosen background is found in any case of its name, as the last one with that name, and its single quotes become double quotes |
| InsertionLemmas.FramedFound | __init__.py:954-957 | a found, non-empty background style puts the highlighted code in a `<pre>` carrying that style |
| InsertionLemmas.BackgroundMissing | __init__.py:955-957 | an unknown background gives no style, and the code is left unframed |

## Left out

- The HTML tokenizer (`HTMLParser.feed`/`close`) is not modelled: the converter is fed the callbacks it would make, as `Event` values.
- The highlighter (`highlight`, `get_lexer_by_name`, `HtmlFormatter`) and the "Invalid language name" message are not modelled. They are library calls, so `Directive` ends where the highlighter would be called.
- The UTF-8 `encode`/`decode` around the converter is not modelled. Strings are sequences of characters throughout.
- The message texts, including `str(e)` of the exceptions, are not modelled: the outcomes carry an error value instead.
- Reading and saving the configuration, the `eval` of the stored background dictionary, `register`, the menu and clipboard handlers, and the editor calls of `insertCode` are not modelled. They are I/O and wx UI.
- Dictionaries are modelled as sequences of pairs in the order they are visited. The dictionary built from the lower-cased names keeps the last pair with a given name, as `dict(zip(...))` does.
- `unicode.lower` is modelled for ASCII and the two non-ASCII characters that lower-case to ASCII letters. Other characters are left as they are. For option names this changes nothing, since a name that lower-cases to one of the five ASCII names is recognised either way. For background names it does, as the three lines below say.
- Insertion.ParseIntsSpec: `ParseInt` reads only ASCII digits. Python 2's `int()` on a unicode value also reads every other Unicode decimal digit, so `３` (fullwidth) or `٣` (Arabic-Indic) is read as 3 there and rejected here.
- InsertionLemmas.ShowLinesOption: raises where Python would read a non-ASCII decimal digit, as `ParseIntsSpec` says.
- InsertionLemmas.StartLineOption: `startLine=３` sets line 3 in Python; here it raises, as `ParseIntsSpec` says.
- InsertionLemmas.HlLinesOption: a list piece made of non-ASCII decimal digits raises here, as `ParseIntsSpec` says.
- InsertionLemmas.BackgroundFound: the background lookup ignores case only for ASCII letters (and the two characters above). Python also matches `Übersicht` with `übersicht`; the model does not, so a later name equal only under full lower-casing does not win either.
- InsertionLemmas.FramedFound: inherits the ASCII-only case matching of `BackgroundFound`.
- InsertionLemmas.BackgroundMissing: a name that matches only under full lower-casing, such as `übersicht` for `Übersicht`, counts as missing here, while Python finds it.
- Insertion.CreateContent: an unknown option name with a non-ASCII character, such as `länge=5`, makes `str(e)` raise `UnicodeEncodeError` under Python 2's ASCII default codec at `__init__.py:922`, and that error escapes `createContent`. `Directive` and `CreateContent` give the option-format message instead.
- The `_()` translation of the default background name is not modelled: the name is taken as written.
- `SEP` and `ESC_SEP` are unused by the core and are not modelled.
- The wiki parser that cuts the insertion's value out of the page text is not modelled. `InsertText` gives the text that `insertCode` adds, and `InsertCodeRoundTrip` starts from the value between its `:///` and `///`.
- StyleLemmas.StyleRoundTrip: requires at least one mark. An empty style value splits into one empty declaration, which raises, as `TrailingSemicolonRaises` shows for a trailing `;`.
- InsertionLemmas.AssignmentsApply: requires a language with no surrounding whitespace, which reading the option back would strip.
- InsertionLemmas.InsertCodeRoundTrip: requires a language with no `;`, no `:::` and no surrounding whitespace, as do `OptionSectionRoundTrip` and `FreshInsertionRoundTrip`. A `;` splits the language into two assignments, and a `:::` moves the split between code and options.
- StyleLemmas.StyleAnyCase: colours are required to hold no `:` or `;` and no surrounding whitespace, as the highlighter writes them; others do not survive the split into declarations.
