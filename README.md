# ValueStringBuilder.AppendFormat in Dafny

This project models the composite-format expander of LinkDotNet's
`ValueStringBuilder`: the three `AppendFormat` overloads, which take a format
with one, two or three arguments, and their shared helper `GetValidArgumentIndex`.
It then proves what the expander appends for whole classes of formats.

An `AppendFormat` call walks the format from left to right:

- A character other than `{` is appended as it is.
- A `{` looks for the first later `}`.
  - If there is none, the **whole format** is appended and the call returns.
    Characters copied before that `{` therefore appear twice.
  - Otherwise the placeholder runs from the `{` to that `}`. The text between the braces
    must be accepted by `int.TryParse`, and the resulting index must lie in
    `[0, arity - 1]`. If it is, that argument's text is appended and the cursor moves past the `}`.
    If it is not, a `FormatException` is thrown.
- The builder keeps everything appended before the exception.
- `}` on its own is an ordinary character, and `{{` is not an escape.

The model, file by file:

- `wrappers.dfy`: `Option` and `Result`.
- `int_parsing.dfy` (module `IntParsing`): `int.TryParse` as a left-to-right scanner
  over a span.
  - The rule is leading and trailing white space (U+0009 to U+000D and U+0020),
    an optional `+` or `-`, one or more ASCII digits, and a result in the
    32-bit signed range.
  - `Decimal` is the decimal spelling of a natural number, proved to read back.
- `int_parsing_facts.dfy` (module `IntParsingFacts`): an independent reference
  definition of the same parse (trim, sign, digits). The scanner is proved equal to it
  on every span, and from that come the facts the expander needs:
  - white space, an optional sign, digits and white space parse to the signed value of the digits when it fits 32 bits;
  - a span without a digit fails;
  - a span with a foreign character such as `:` or `{` fails.
- `composite_format.dfy` (module `CompositeFormat`): the expander as a specification.
  - `Expand(format, pos, args)` gives the text one call appends from cursor `pos`,
    either `Done(text)` or `Failed(text, error)`. `args[k]` is the already stringified argument `k`.
  - It is defined through `Run` (the `while` loop) and `Step` (its body).
  - `GetValidArgumentIndex` and the span `IndexOf` are here too.
- `format_properties.dfy` (module `FormatProperties`): properties of whole formats.
  - Verbatim copy of formats without `{`.
  - The repeated prefix of an unterminated `{`.
  - The placeholder rule for any index text at a `{` (`PlaceholderStep`), and an unterminated `{` anywhere (`UnterminatedAt`).
  - `{}` throws, and so does `{{` when a `}` follows it.
  - The canonical placeholder `{k}` appends argument `k` when `k` is in range and throws otherwise.
  - A round trip: a `Template` of literals and canonical placeholders is shown as a
    format, and expanding that format gives exactly the template's rendering.
- `value_string_builder.dfy` (module `StringBuilder`): the builder as a class.
  - Its `content` only grows at the end.
  - `AppendFormat` is the shared loop for one to three arguments, with `allowedRange == |args| - 1`. The two- and three-argument overloads call it.
  - `AppendFormat1` is the one-argument loop, which checks the index against range 0 and then
    appends its only argument.
  - Each loop is proved to leave `old(content) + Expand(format, 0, args).text`
    and to report `Expand(format, 0, args).Exception()` as its thrown error.
- `format_examples.dfy` (module `FormatExamples`): concrete formats, including the
  `{0:00}` rejection that `ValueStringBuilder.AppendFormat.cs:13-15` documents and the state a throwing call leaves behind.

How the model reads the code:

- A thrown `FormatException` is the method's returned `Some(error)`.
- The builder's content at that point is what the loop had appended: the call does not roll back.
- A `ReadOnlySpan<char>` view of the format is the format together with a start and an
  end or length. So `format[(formatIndex + 1)..]` is "from `formatIndex + 1`", and
  `format.Slice(formatIndex, endIndex + 2)` is the placeholder `format[formatIndex..formatIndex + endIndex + 2]`.
- The placeholder's inner span `placeholder[1..^1]` is `format[start + 1..start + length - 1]`.
- The two- and three-argument loops are one method, `AppendFormat`, over a sequence of arguments.
  Their `switch` on the index becomes `args[index]`. The two agree because the index has already been checked against `|args| - 1`.

Behaviour worth noting:

- Unterminated placeholder. `AppendFormat("literal {0", "x")` appends `literal literal {0`.
  The loop has already copied `literal ` when it sees the `{`, and then `Append(format)` appends the whole format
  (`ValueStringBuilder.AppendFormat.cs:27-31`). The copied prefix therefore appears twice.
  `FormatExamples.Unterminated` states the result.
- Index syntax. The index is read by `int.TryParse` (`ValueStringBuilder.AppendFormat.cs:166`). It accepts
  surrounding white space, a sign and leading zeros, so `{ 1 }`, `{+1}` and `{01}` name argument 1 and
  `{-0}` names argument 0. It also accepts `{-1}`, which the range check then rejects.
- Builder state after an exception. The characters appended before the exception stay in the builder,
  as the loop leaves them. The model states exactly which ones.

## Model

| member | source | states |
|---|---|---|
| IntParsing.DigitValue | src/LinkDotNet.StringBuilder/ValueStringBuilder.AppendFormat.cs:166 | the value of an ASCII digit is below ten |
| IntParsing.Decimal | src/LinkDotNet.StringBuilder/ValueStringBuilder.AppendFormat.cs:166 | the decimal spelling of an index has at least one digit |
| IntParsing.DecimalRoundTrip | src/LinkDotNet.StringBuilder/ValueStringBuilder.AppendFormat.cs:166 | the spelling is all digits, starts with `0` only for 0, and reads back as the number |
| IntParsing.Finish | src/LinkDotNet.StringBuilder/ValueStringBuilder.AppendFormat.cs:166 | a signed magnitude is kept exactly when it fits the 32-bit signed range, and then with its sign applied |
| IntParsing.Scan | src/LinkDotNet.StringBuilder/ValueStringBuilder.AppendFormat.cs:166 | any value the scanner accepts lies in the 32-bit signed range |
| IntParsing.ParseInt32 | src/LinkDotNet.StringBuilder/ValueStringBuilder.AppendFormat.cs:166 | `int.TryParse` on a span succeeds only with a 32-bit value |
| IntParsingFacts.TrimmedStart | src/LinkDotNet.StringBuilder/ValueStringBuilder.AppendFormat.cs:166 | the first position past the leading white space: all white before it, not white at it |
| IntParsingFacts.TrimmedEnd | src/LinkDotNet.StringBuilder/ValueStringBuilder.AppendFormat.cs:166 | the end without the trailing white space: all white after it, not white just before it |
| IntParsingFacts.ScanTrailing | src/LinkDotNet.StringBuilder/ValueStringBuilder.AppendFormat.cs:166 | after the digits the parse succeeds exactly when only white space remains |
| IntParsingFacts.ScanDigits | src/LinkDotNet.StringBuilder/ValueStringBuilder.AppendFormat.cs:166 | among the digits the parse succeeds exactly when the rest, without trailing white space, is digits, and then with their value |
| IntParsingFacts.ScanAfterSign | src/LinkDotNet.StringBuilder/ValueStringBuilder.AppendFormat.cs:166 | after a sign one or more digits must follow, then only white space |
| IntParsingFacts.ScanLeading | src/LinkDotNet.StringBuilder/ValueStringBuilder.AppendFormat.cs:166 | the scanner from its start state agrees with the trim/sign/digits reference on every span |
| IntParsingFacts.ParseInt32Reference | src/LinkDotNet.StringBuilder/ValueStringBuilder.AppendFormat.cs:166 | the parser and the reference definition give the same answer on every span |
| IntParsingFacts.ParseSpelled | src/LinkDotNet.StringBuilder/ValueStringBuilder.AppendFormat.cs:166 | white space, an optional sign, digits and white space parse to the signed value of the digits when it fits |
| IntParsingFacts.ParseDecimal | src/LinkDotNet.StringBuilder/ValueStringBuilder.AppendFormat.cs:166 | the decimal spelling of any index up to `int.MaxValue` parses back to that index |
| IntParsingFacts.ParseNeedsDigit | src/LinkDotNet.StringBuilder/ValueStringBuilder.AppendFormat.cs:166-170 | a span without a digit, such as the empty one, is rejected |
| IntParsingFacts.ParseRejectsForeign | src/LinkDotNet.StringBuilder/ValueStringBuilder.AppendFormat.cs:166-170 | a span with a character that is not white space, a digit or a sign is rejected |
| CompositeFormat.IndexOf | src/LinkDotNet.StringBuilder/ValueStringBuilder.AppendFormat.cs:27 | the offset is -1 or lies within the searched suffix |
| CompositeFormat.IndexOfSpec | src/LinkDotNet.StringBuilder/ValueStringBuilder.AppendFormat.cs:27-28 | -1 exactly when no `}` follows, otherwise the offset of a `}` with none before it |
| CompositeFormat.GetValidArgumentIndex | src/LinkDotNet.StringBuilder/ValueStringBuilder.AppendFormat.cs:163-178 | success exactly when the inner span parses to a value in `[0, allowedRange]`, with that value; `NotAnInteger` when it does not parse; `IndexOutOfRange` with the parsed value when it is out of range |
| CompositeFormat.Run | src/LinkDotNet.StringBuilder/ValueStringBuilder.AppendFormat.cs:22-46 | defines the `while` loop: at the end of the format it appends nothing and returns, otherwise it runs one pass of the body (`Step`) |
| CompositeFormat.Step | src/LinkDotNet.StringBuilder/ValueStringBuilder.AppendFormat.cs:24-45 | defines one pass of the body: a character other than `{` is copied and the loop goes on at `pos + 1`; a `{` with no later `}` gives `Done(format)`, the whole format; otherwise the placeholder `format[pos..pos + endIndex + 2]` goes through `GetValidArgumentIndex`, whose error is thrown, or whose index selects the argument appended before the loop goes on at `pos + endIndex + 2` |
| CompositeFormat.ExpandPlaceholderSingle | src/LinkDotNet.StringBuilder/ValueStringBuilder.AppendFormat.cs:34-39 | with one argument, validating against range 0 and appending that argument is the shared step |
| FormatProperties.IndexOfFirst | src/LinkDotNet.StringBuilder/ValueStringBuilder.AppendFormat.cs:27 | the first `}` after the cursor is the offset `IndexOf` returns |
| FormatProperties.PlaceholderStep | src/LinkDotNet.StringBuilder/ValueStringBuilder.AppendFormat.cs:25-39 | at a `{` whose first later `}` is at `q`: an unparsable inner text throws `NotAnInteger`, an index naming an argument appends it and resumes after the `}`, any other index throws `IndexOutOfRange`; both errors name the placeholder from `{` to `}` |
| FormatProperties.UnterminatedAt | src/LinkDotNet.StringBuilder/ValueStringBuilder.AppendFormat.cs:27-31 | a `{` with no `}` anywhere after it appends the whole format and ends the call without an exception |
| FormatProperties.LiteralRun | src/LinkDotNet.StringBuilder/ValueStringBuilder.AppendFormat.cs:41-45 | a run without `{` is appended as it stands, and the expansion goes on after it |
| FormatProperties.NoBraceVerbatim | src/LinkDotNet.StringBuilder/ValueStringBuilder.AppendFormat.cs:22-46 | a format without `{` is appended verbatim, and nothing is thrown |
| FormatProperties.UnterminatedRepeats | src/LinkDotNet.StringBuilder/ValueStringBuilder.AppendFormat.cs:27-31 | a first `{` with no `}` after it appends the characters before it and then the whole format |
| FormatProperties.DoubleBraceThrows | src/LinkDotNet.StringBuilder/ValueStringBuilder.AppendFormat.cs:166-170 | `{{` is not an escape: the placeholder starting there throws `NotAnInteger` |
| FormatProperties.EmptyPlaceholderThrows | src/LinkDotNet.StringBuilder/ValueStringBuilder.AppendFormat.cs:166-170 | `{}` throws `NotAnInteger` for a placeholder of length 2 |
| FormatProperties.CanonicalPlaceholder | src/LinkDotNet.StringBuilder/ValueStringBuilder.AppendFormat.cs:163-178 | `{k}` appends argument `k` and moves past its `}` when `k < arity`, and otherwise throws `IndexOutOfRange` naming `k` and appends nothing more |
| FormatProperties.ExpandSegment | src/LinkDotNet.StringBuilder/ValueStringBuilder.AppendFormat.cs:22-46 | a literal or a canonical placeholder found at the cursor is expanded to its rendering |
| FormatProperties.LiteralsText | src/LinkDotNet.StringBuilder/ValueStringBuilder.AppendFormat.cs:41-45 | a literal run shows as its own text, and renders as itself when it holds no `{` |
| FormatProperties.ExpandTemplate | src/LinkDotNet.StringBuilder/ValueStringBuilder.AppendFormat.cs:22-46 | a template found at the cursor is expanded to its rendering, and the expansion goes on after it |
| FormatProperties.TemplateRoundTrip | src/LinkDotNet.StringBuilder/ValueStringBuilder.AppendFormat.cs:22-46 | formatting the text of any template of literals and in-range placeholders returns its rendering and throws nothing |
| FormatProperties.TemplateThenUnterminated | src/LinkDotNet.StringBuilder/ValueStringBuilder.AppendFormat.cs:27-31 | a template followed by an unterminated `{` appends the rendering and then the whole format |
| FormatProperties.UnterminatedAfter | src/LinkDotNet.StringBuilder/ValueStringBuilder.AppendFormat.cs:27-31 | the same for any format holding the template and then a `{` with no `}` after it |
| FormatProperties.LiteralsThenUnterminated | src/LinkDotNet.StringBuilder/ValueStringBuilder.AppendFormat.cs:27-31 | literal text without `{` followed by an unterminated `{` appears twice in what is appended |
| FormatProperties.TemplateThenOutOfRange | src/LinkDotNet.StringBuilder/ValueStringBuilder.AppendFormat.cs:172-175 | a template followed by an out-of-range `{k}` keeps the rendering appended and throws `IndexOutOfRange` at the placeholder |
| FormatProperties.OutOfRangeAfter | src/LinkDotNet.StringBuilder/ValueStringBuilder.AppendFormat.cs:172-175 | the same for any format holding the template and then the placeholder |
| FormatExamples.SinglePlaceholder | src/LinkDotNet.StringBuilder/ValueStringBuilder.AppendFormat.cs:34-39 | `{0}` with `hi` appends `hi` |
| FormatExamples.TwoPlaceholders | src/LinkDotNet.StringBuilder/ValueStringBuilder.AppendFormat.cs:79-93 | literals without `{` around `{0}` and `{1}` expand with each placeholder replaced by its argument |
| FormatExamples.Greeting | src/LinkDotNet.StringBuilder/ValueStringBuilder.AppendFormat.cs:61-101 | `Hello {0}, you are {1}` with `Bob` and `42` appends `Hello Bob, you are 42` |
| FormatExamples.Unterminated | src/LinkDotNet.StringBuilder/ValueStringBuilder.AppendFormat.cs:27-31 | `literal {0` appends `literal literal {0` |
| FormatExamples.IndexTooLarge | src/LinkDotNet.StringBuilder/ValueStringBuilder.AppendFormat.cs:172-175 | `{2}` with one argument throws `IndexOutOfRange` for index 2 |
| FormatExamples.NegativeIndex | src/LinkDotNet.StringBuilder/ValueStringBuilder.AppendFormat.cs:172-175 | `{-1}` parses and then throws `IndexOutOfRange` for index -1 |
| FormatExamples.EmptyIndex | src/LinkDotNet.StringBuilder/ValueStringBuilder.AppendFormat.cs:166-170 | `{}` throws `NotAnInteger` |
| FormatExamples.DoubleBrace | src/LinkDotNet.StringBuilder/ValueStringBuilder.AppendFormat.cs:166-170 | `{{0}` throws `NotAnInteger` for the whole four-character placeholder |
| FormatExamples.FormatSpecifier | src/LinkDotNet.StringBuilder/ValueStringBuilder.AppendFormat.cs:13-15 | `{0:00}` throws `NotAnInteger`: a custom format is not allowed |
| FormatExamples.SpacesAndSigns | src/LinkDotNet.StringBuilder/ValueStringBuilder.AppendFormat.cs:166 | `{ 1 }` names argument 1 and `{-0}` names argument 0 |
| FormatExamples.PlusAndLeadingZero | src/LinkDotNet.StringBuilder/ValueStringBuilder.AppendFormat.cs:166 | `{+1}` and `{01}` both name argument 1 |
| FormatExamples.LoneClosingBrace | src/LinkDotNet.StringBuilder/ValueStringBuilder.AppendFormat.cs:41-45 | `a}b` is appended as it stands |
| FormatExamples.PrefixKept | src/LinkDotNet.StringBuilder/ValueStringBuilder.AppendFormat.cs:72-93 | `x{0}y{5}` appends `xAy` and then throws `IndexOutOfRange` at position 5 |
| FormatExamples.BuilderUnterminated | src/LinkDotNet.StringBuilder/ValueStringBuilder.AppendFormat.cs:27-31 | a builder holding `pre` holds `preliteral literal {0` after the unterminated call, with no error |
| FormatExamples.BuilderThrows | src/LinkDotNet.StringBuilder/ValueStringBuilder.AppendFormat.cs:61-101 | a builder holding `> ` holds `> xAy` after the throwing call, and the error names the bad placeholder |
| StringBuilder.ValueStringBuilder.constructor | tests/LinkDotNet.StringBuilder.UnitTests/ValueStringBuilderTests.cs:10-14 | a new builder is empty |
| StringBuilder.ValueStringBuilder.AppendChar | src/LinkDotNet.StringBuilder/ValueStringBuilder.AppendFormat.cs:43 | the character is added at the end, and nothing else changes |
| StringBuilder.ValueStringBuilder.Append | tests/LinkDotNet.StringBuilder.UnitTests/ValueStringBuilderTests.cs:20-27 | the text is added at the end, and nothing else changes |
| StringBuilder.ValueStringBuilder.AppendFormat | src/LinkDotNet.StringBuilder/ValueStringBuilder.AppendFormat.cs:117-161 | the shared loop (arity 1 to 3) leaves the old content followed by the expansion's text and returns the expansion's exception |
| StringBuilder.ValueStringBuilder.AppendFormat1 | src/LinkDotNet.StringBuilder/ValueStringBuilder.AppendFormat.cs:17-47 | the one-argument loop leaves the old content followed by the expansion with `[arg]` and returns its exception |
| StringBuilder.ValueStringBuilder.AppendFormat2 | src/LinkDotNet.StringBuilder/ValueStringBuilder.AppendFormat.cs:61-101 | the two-argument overload is the shared loop with `[arg1, arg2]` |
| StringBuilder.ValueStringBuilder.AppendFormat3 | src/LinkDotNet.StringBuilder/ValueStringBuilder.AppendFormat.cs:117-161 | the three-argument overload is the shared loop with `[arg1, arg2, arg3]` |

## Left out

- Buffer growth, `ArrayPool` renting and returning, and disposal. That code is not part of this model. The builder's content is a `seq<char>` that `Append` and `AppendChar` extend at the end.
- Generic stringification of the arguments (`AppendInternal`, `ToString`, `ISpanFormattable`). It is a call on arbitrary types. The arguments are given as their text, and `AppendInternal(arg)` is `Append` of that text.
- Culture-specific signs in `int.TryParse` (only `+` and `-` are accepted), and the .NET parser's tolerance of trailing NUL characters. The white space set (U+0009 to U+000D, U+0020) is fixed and modelled.
- Character width. Dafny's `char` is a Unicode scalar value, while C#'s `char` is a UTF-16 code unit. The appended text is the same, but a `FormatError`'s `start` and `length` count one unit per scalar value, so they differ from the source's after a character outside the Basic Multilingual Plane, and a lone surrogate in a format cannot be represented.
- The exception message text and the `StringSyntax` attribute. The source throws the same `FormatException`, with the same message, at `ValueStringBuilder.AppendFormat.cs:169` and at `:174`. The split of `FormatError` into `NotAnInteger` and `IndexOutOfRange`, and its `start`, `length` and `index` fields, are this model's own refinement of that one exception, not two exception kinds of the source.
- `AppendLine`, `Environment.NewLine`, the indexer and `ToString`, which the tests exercise. Their implementations are not part of this model.
- `ref struct` and non-copyability semantics. They are C#-specific ownership rules.
