# TTML decoder model

A Dafny model of ExoPlayer's TTML (Timed Text Markup Language) subtitle decoder, as found
in the ExoPlayer fork that adds embedded images and a metadata head. The model covers the
four parts of the decoder.

- **Literal parsers.**
  - Time expressions (`parseTimeExpression`): clock times `HH:MM:SS[.frac | :FF[.sub]]` and offset times `<n>(h|m|s|ms|f|t)`.
  - Region lengths (`TtmlLength.parse`): `<number><unit>` or `auto`.
  - Document parameters: frame and tick rates, cell resolution.
  - Style attributes, with the `fontSize` grammar and the `style` reference list.
- **The document builder** (`TtmlDecoder.decode`). A loop over a sequence of XML pull-parser events. Its state:
  - the node stack;
  - the counter of unsupported elements, which skips whole subtrees;
  - the global style table, the region table and the image table of the head.
- **The node tree and the cue query** (`TtmlNode`):
  - the `isActive` interval rule;
  - the child list;
  - the collection of event times;
  - the two traversal passes of `getCues` (text per region with recorded offsets, then styled ranges);
  - the whitespace clean-up `cleanUpText`;
  - the placement of each cue.
- **The image table** (`TtmlMetadata`), a class over an id-to-image map, and the `metadata`/`image` elements that fill it.

Java's numeric behaviour is written out:
- `long` addition and multiplication wrap modulo 2^64 (`JavaNumbers.Wrap64`);
- the `(long)` cast truncates toward zero and saturates (`JavaNumbers.ToLong`);
- a `double` is an exact real or one of the non-finite values a division by zero gives (`JavaNumbers.Double`);
- `Integer.parseInt`/`Long.parseLong` check their ranges (`JavaText.ParseInteger`).

The regular expressions of the source are recognised by hand over `seq<char>`. Each
recogniser is proved sound and complete against a declarative description of the pattern.

Where the source changes state, the model is imperative: loops, and a class for the image
table. Each method is proved equal to a specification function, and the properties are
proved about those functions:
- the event loop (`TtmlDecoder.EventLoop`);
- the do-while loops of the head, metadata and image elements;
- the attribute loops;
- the accumulation of clock-time seconds;
- the traversal passes;
- the index loops of `cleanUpText`;
- the TreeSet and TreeMap iterations.

Modules, one per file:

| file | module | source |
|---|---|---|
| wrappers.dfy | Wrappers | Option and Result |
| java_text.dfy | JavaText | String/Integer/regex behaviour used by the decoder |
| java_numbers.dfy | JavaNumbers | `long` and `double` arithmetic |
| xml_events.dfy | XmlEvents | the pull-parser events and attribute lookup |
| ttml_parameters.dfy | TtmlParameters | `parseFrameAndTickRates`, `parseCellResolution` |
| ttml_length.dfy | TtmlLength | TtmlLength.java |
| ttml_time.dfy | TtmlTime | `parseTimeExpression` |
| ttml_style.dfy | TtmlStyle | `parseStyleAttributes`, `parseFontSize`, `parseStyleIds`, head `style` elements |
| ttml_region.dfy | TtmlRegion | `parseRegionAttributes` |
| ttml_metadata.dfy | TtmlMetadata | TtmlMetadata.java, `parseMetadata`, `parseImage` |
| ttml_node.dfy | TtmlNode | node construction, `isActive`, children, event times |
| ttml_traversal.dfy | TtmlTraversal | `traverseForText`, `traverseForStyle`, `getRegionOutput` |
| ttml_cleanup.dfy | TtmlCleanUp | `cleanUpText` |
| ttml_cues.dfy | TtmlCues | `getCues`, `getLineYValue`, `getLineXValue` |
| ttml_decoder.dfy | TtmlDecoder | `decode`, `parseNode`, `parseHeader`, `isSupportedTag` |

### Behaviour that differs from what the documentation leads one to expect

Each point below is a fact about the code, and the model follows the code in the first
three. The fourth is one of the two defects under Findings, which argues what was intended.
Each defect is modelled twice: a member as the code is written, which shows the defect,
and a corrected member. The decoder and the cue query are built on the corrected members.
The "## Left out" lines that start with `TtmlCues.PlacementOf` and
`TtmlStyle.ApplyStyleAttribute` say where their results differ from the code's.

- **Zero cell resolution.** A well-formed `ttp:cellResolution` with a zero column or row count throws SubtitleDecoderException (TtmlDecoder.java lines 226-227); it does not fall back to the default as a malformed value does. The `tt` parameters are read at lines 130-131, outside the try around `parseNode`, so the exception ends `decode` (`TtmlParameters.CellResolutionZeroThrows`, `TtmlDecoder.TtParametersEscape`, `TtmlDecoder.ZeroCellResolutionEscapes`).
- **Region units.** The doc comment of `parseRegionAttributes` (TtmlDecoder.java lines 268-274) says that origin and extent must be percentages and that other formats return null. The code never checks the unit, so `px`, `em` and `c` regions are declared (`TtmlRegion.PixelOriginAccepted`).
- **Clean-up is not idempotent.** `cleanUpText` applied to `"a \n\n"` gives `"a\n"`, and applied again gives `"a"` (`TtmlCleanUp.NotIdempotent`).
- **Vertical cue position.** For a centred region with origin `10% 20%` and extent `50% 30%`, `getLineYValue` (TtmlNode.java lines 205-218) divides the origin by 100 but adds half the raw height, giving 15.2 (`TtmlCues.LineYValueExample`). The modelled cue query uses the corrected value; see Findings.

## Model

| member | source | states |
|---|---|---|
| JavaText.ParseInteger | library/core/src/main/java/com/google/android/exoplayer2/text/ttml/TtmlDecoder.java:222-223 | `Integer.parseInt`/`Long.parseLong`: a value is returned only within the type's bounds, and only for text that is digits after an optional `+` or `-` (a sign alone is refused); anything else is a NumberFormatException |
| JavaText.ParseIntegerRoundTrip | library/core/src/main/java/com/google/android/exoplayer2/text/ttml/TtmlDecoder.java:222-223 | every integer within the bounds, written in decimal, parses back to itself |
| JavaText.ParseIntegerSigned | library/core/src/main/java/com/google/android/exoplayer2/text/ttml/TtmlDecoder.java:222-223 | an optional `+` or `-` and any non-empty digits, leading zeros included, parse to the signed value of the digits exactly when it lies within the bounds, else fail |
| JavaText.ParseIntegerExamples | library/core/src/main/java/com/google/android/exoplayer2/text/ttml/TtmlDecoder.java:222-223 | `+7` is 7 and `abc` is a NumberFormatException |
| JavaText.Trim | library/core/src/main/java/com/google/android/exoplayer2/text/ttml/TtmlDecoder.java:378 | `String.trim`: the result is empty or starts and ends above U+0020 |
| JavaText.ToLower | library/core/src/main/java/com/google/android/exoplayer2/text/ttml/TtmlLength.java:49 | lower-casing keeps the length and maps each character |
| JavaText.SplitEach | library/core/src/main/java/com/google/android/exoplayer2/text/ttml/TtmlDecoder.java:188 | `split(" ")`: at least one piece, no piece holds a separator |
| JavaText.SplitEachJoin | library/core/src/main/java/com/google/android/exoplayer2/text/ttml/TtmlDecoder.java:188-189 | splitting at one character and joining gives the text back, with one piece more than separators |
| JavaText.SplitRuns | library/core/src/main/java/com/google/android/exoplayer2/text/ttml/TtmlDecoder.java:379 | `split("\\s+")`: no piece holds whitespace; a leading run gives an empty first piece |
| JavaText.SplitRunsNonEmpty | library/core/src/main/java/com/google/android/exoplayer2/text/ttml/TtmlDecoder.java:378-379 | a text ending in a non-separator splits into non-empty pieces after the first, and the first too when it starts with a non-separator |
| JavaText.SplitDefault | library/core/src/main/java/com/google/android/exoplayer2/text/ttml/TtmlDecoder.java:285 | `split("\\s")` of a text without whitespace is the text itself |
| JavaText.DigitsValueConcat | library/core/src/main/java/com/google/android/exoplayer2/text/ttml/TtmlDecoder.java:617-621 | the value of concatenated digit strings is the first shifted by the length of the second, plus the second |
| JavaText.NatToStringValue | library/core/src/main/java/com/google/android/exoplayer2/text/ttml/TtmlDecoder.java:182 | decimal rendering reads back to the same number |
| JavaNumbers.Wrap64 | library/core/src/main/java/com/google/android/exoplayer2/text/ttml/TtmlDecoder.java:617 | long wrap-around lands in the long range, is the identity there and differs by a multiple of 2^64 |
| JavaNumbers.Wrap64Above | library/core/src/main/java/com/google/android/exoplayer2/text/ttml/TtmlDecoder.java:617 | just above the long range, wrapping subtracts 2^64 |
| JavaNumbers.Trunc | library/core/src/main/java/com/google/android/exoplayer2/text/ttml/TtmlDecoder.java:632 | truncation toward zero for both signs |
| JavaNumbers.ToLong | library/core/src/main/java/com/google/android/exoplayer2/text/ttml/TtmlDecoder.java:632 | the `(long)` cast stays in range and is exact truncation when that fits |
| XmlEvents.AttributeValue | library/core/src/main/java/com/google/android/exoplayer2/text/ttml/TtmlDecoder.java:283 | the first attribute with the name, and None exactly when there is none |
| XmlEvents.NamespacedValue | library/core/src/main/java/com/google/android/exoplayer2/text/ttml/TtmlDecoder.java:180 | the first attribute with the namespace and name, and None exactly when there is none |
| TtmlParameters.IntParameter | library/core/src/main/java/com/google/android/exoplayer2/text/ttml/TtmlDecoder.java:179-183 | an absent rate keeps its default; a bad one is a NumberFormatException |
| TtmlParameters.FrameRateMultiplier | library/core/src/main/java/com/google/android/exoplayer2/text/ttml/TtmlDecoder.java:185-194 | absent is 1; a value without exactly one space is a SubtitleDecoderException |
| TtmlParameters.MultiplierRoundTrip | library/core/src/main/java/com/google/android/exoplayer2/text/ttml/TtmlDecoder.java:185-194 | `"N D"` with int N and non-zero D gives N/D |
| TtmlParameters.EffectiveFrameRate | library/core/src/main/java/com/google/android/exoplayer2/text/ttml/TtmlDecoder.java:177-209 | with frameRate F and multiplier `N D`, the effective rate is F·(N/D) and the other rates are 1 |
| TtmlParameters.ParseFrameAndTickRates | library/core/src/main/java/com/google/android/exoplayer2/text/ttml/TtmlDecoder.java:177-209 | the only exceptions are NumberFormatException and SubtitleDecoderException; a successful read multiplies the parsed frameRate by the parsed multiplier; an absent subFrameRate or tickRate is 1 |
| TtmlParameters.DefaultRates | library/core/src/main/java/com/google/android/exoplayer2/text/ttml/TtmlDecoder.java:177-209 | with none of the four `ttp:` attributes the rates are 30, 1 and 1 |
| TtmlParameters.RateWithoutFrameRate | library/core/src/main/java/com/google/android/exoplayer2/text/ttml/TtmlDecoder.java:179-195 | without frameRate the effective rate is 30 times the multiplier |
| TtmlParameters.RateWithoutMultiplier | library/core/src/main/java/com/google/android/exoplayer2/text/ttml/TtmlDecoder.java:179-195 | without frameRateMultiplier the effective rate is the frameRate itself |
| TtmlParameters.MatchCellResolution | library/core/src/main/java/com/google/android/exoplayer2/text/ttml/TtmlDecoder.java:218-219 | the pattern `^(\d+) (\d+)$`: a match is two digit runs around one space |
| TtmlParameters.ParseCellResolution | library/core/src/main/java/com/google/android/exoplayer2/text/ttml/TtmlDecoder.java:211-234 | the default (32 columns, 15 rows) when the attribute is absent, does not match `^(\d+) (\d+)$` or has a count beyond an int; otherwise positive counts; the only error is SubtitleDecoderException |
| TtmlParameters.CellResolutionRoundTrip | library/core/src/main/java/com/google/android/exoplayer2/text/ttml/TtmlDecoder.java:211-234 | `"C R"` with positive int counts gives exactly C columns and R rows |
| TtmlParameters.CellResolutionZeroThrows | library/core/src/main/java/com/google/android/exoplayer2/text/ttml/TtmlDecoder.java:224-228 | a zero count throws SubtitleDecoderException instead of using the default |
| TtmlParameters.ZeroCellResolutionExample | library/core/src/main/java/com/google/android/exoplayer2/text/ttml/TtmlDecoder.java:211-228 | `ttp:cellResolution="0 15"` alone: the rates parse and the cell resolution throws SubtitleDecoderException |
| TtmlLength.MatchLengthFormat | library/core/src/main/java/com/google/android/exoplayer2/text/ttml/TtmlLength.java:37-39 | the engine's match: group 1 has at least one digit |
| TtmlLength.MatchShape | library/core/src/main/java/com/google/android/exoplayer2/text/ttml/TtmlLength.java:16 | a match splits the text into group 1 and a unit without '.' or whitespace |
| TtmlLength.MatchSound | library/core/src/main/java/com/google/android/exoplayer2/text/ttml/TtmlLength.java:16 | every reported match satisfies the pattern |
| TtmlLength.MatchComplete | library/core/src/main/java/com/google/android/exoplayer2/text/ttml/TtmlLength.java:16 | whenever some split satisfies the pattern, a match is reported |
| TtmlLength.CompleteDigitsOnly | library/core/src/main/java/com/google/android/exoplayer2/text/ttml/TtmlLength.java:16 | digits followed by a unit without dot or whitespace always match |
| TtmlLength.CompleteWithDot | library/core/src/main/java/com/google/android/exoplayer2/text/ttml/TtmlLength.java:16 | digits, a dot and more digits followed by a unit always match |
| TtmlLength.NotAuto | library/core/src/main/java/com/google/android/exoplayer2/text/ttml/TtmlLength.java:34-35 | a literal starting with a digit or minus is never taken for `auto` |
| TtmlLength.UnitSpelling | library/core/src/main/java/com/google/android/exoplayer2/text/ttml/TtmlLength.java:49-58 | any capitalisation of px, %, em or c is a unit the switch accepts after lower-casing |
| TtmlLength.ParseAutoIff | library/core/src/main/java/com/google/android/exoplayer2/text/ttml/TtmlLength.java:33-35 | exactly the spellings of `auto`, in any case, give type AUTO, always with value -1 |
| TtmlLength.Parse | library/core/src/main/java/com/google/android/exoplayer2/text/ttml/TtmlLength.java:33-63 | an AUTO length always has value -1; any other result has the type named by the lower-cased unit group of a LENGTH_FORMAT match and the value of its group 1 |
| TtmlLength.ParseRoundTrip | library/core/src/main/java/com/google/android/exoplayer2/text/ttml/TtmlLength.java:33-63 | an integer followed by `px`, `%`, `em` or `c` in any case parses to that value and unit type |
| TtmlLength.ParseIntegral | library/core/src/main/java/com/google/android/exoplayer2/text/ttml/TtmlLength.java:41-47 | a parsed number-and-unit length always has an integral value |
| TtmlLength.FractionRejected | library/core/src/main/java/com/google/android/exoplayer2/text/ttml/TtmlLength.java:49-61 | a literal with fraction digits such as `12.5%` is rejected (null) |
| TtmlLength.DigitUnitUnknown | library/core/src/main/java/com/google/android/exoplayer2/text/ttml/TtmlLength.java:49-61 | a unit group starting with a digit is no known unit |
| TtmlTime.MatchClockTimeSound | library/core/src/main/java/com/google/android/exoplayer2/text/ttml/TtmlDecoder.java:78-80 | every text CLOCK_TIME accepts is the text of well-formed groups, which are the ones reported |
| TtmlTime.MatchClockTimeComplete | library/core/src/main/java/com/google/android/exoplayer2/text/ttml/TtmlDecoder.java:78-80 | CLOCK_TIME accepts the text of every well-formed set of groups and reports exactly them |
| TtmlTime.MatchOffsetTimeSound | library/core/src/main/java/com/google/android/exoplayer2/text/ttml/TtmlDecoder.java:81-82 | every text OFFSET_TIME accepts is the text of well-formed groups, which are the ones reported |
| TtmlTime.MatchOffsetTimeComplete | library/core/src/main/java/com/google/android/exoplayer2/text/ttml/TtmlDecoder.java:81-82 | OFFSET_TIME accepts the text of every well-formed set of groups and reports exactly them |
| TtmlTime.ParseUnitText | library/core/src/main/java/com/google/android/exoplayer2/text/ttml/TtmlDecoder.java:639-658 | each of h, m, s, ms, f, t names its unit |
| TtmlTime.ParseUnit | library/core/src/main/java/com/google/android/exoplayer2/text/ttml/TtmlDecoder.java:639-658 | a recognised unit is exactly the text of that unit |
| TtmlTime.TimeExpression | library/core/src/main/java/com/google/android/exoplayer2/text/ttml/TtmlDecoder.java:612-662 | the result is a long; the only errors are NumberFormatException and SubtitleDecoderException |
| TtmlTime.AccumulateClockSeconds | library/core/src/main/java/com/google/android/exoplayer2/text/ttml/TtmlDecoder.java:616-631 | the terms added one by one equal the specification of the clock seconds |
| TtmlTime.ScaleOffsetSeconds | library/core/src/main/java/com/google/android/exoplayer2/text/ttml/TtmlDecoder.java:636-658 | the in-place scaling by unit equals the specification of the offset seconds |
| TtmlTime.ParseTimeExpression | library/core/src/main/java/com/google/android/exoplayer2/text/ttml/TtmlDecoder.java:612-662 | clock time first, then offset time, else SubtitleDecoderException, as specified by TimeExpression |
| TtmlTime.ClockTimeFormula | library/core/src/main/java/com/google/android/exoplayer2/text/ttml/TtmlDecoder.java:612-632 | a clock time is (H·3600 + M·60 + S + fraction + frames/fps + subframes/subFrameRate/fps)·10^6, cast to long |
| TtmlTime.ClockTimeMicros | library/core/src/main/java/com/google/android/exoplayer2/text/ttml/TtmlDecoder.java:614-632 | a matched, well-formed clock time is its seconds in microseconds |
| TtmlTime.ClockSecondsExactly | library/core/src/main/java/com/google/android/exoplayer2/text/ttml/TtmlDecoder.java:616-631 | without overflow, the double accumulation equals the exact formula |
| TtmlTime.OffsetTimeFormula | library/core/src/main/java/com/google/android/exoplayer2/text/ttml/TtmlDecoder.java:634-660 | an offset time is the number ×3600, ×60, ×1, ÷1000, ÷fps or ÷tickRate, times 10^6, cast to long |
| TtmlTime.NoClockInOffset | library/core/src/main/java/com/google/android/exoplayer2/text/ttml/TtmlDecoder.java:614-635 | an offset time is never taken for a clock time |
| TtmlTime.NoColonNoClock | library/core/src/main/java/com/google/android/exoplayer2/text/ttml/TtmlDecoder.java:78-80 | digits followed by anything but a colon are no clock time |
| TtmlTime.ClockTimeWhole | library/core/src/main/java/com/google/android/exoplayer2/text/ttml/TtmlDecoder.java:612-632 | `HH:MM:SS` is (H·3600 + M·60 + S)·10^6 microseconds at any rate |
| TtmlTime.ClockFractionExample | library/core/src/main/java/com/google/android/exoplayer2/text/ttml/TtmlDecoder.java:612-632 | `00:00:01.500` is 1 500 000 |
| TtmlTime.OffsetSecondsExample | library/core/src/main/java/com/google/android/exoplayer2/text/ttml/TtmlDecoder.java:634-660 | `2.5s` is 2 500 000 |
| TtmlTime.OffsetFrameExample | library/core/src/main/java/com/google/android/exoplayer2/text/ttml/TtmlDecoder.java:652-654 | `1f` at 25 fps is 40 000 |
| TtmlTime.TimeNeedsLeadingDigit | library/core/src/main/java/com/google/android/exoplayer2/text/ttml/TtmlDecoder.java:661 | a literal that does not start with a digit throws SubtitleDecoderException |
| TtmlTime.TimeNonNegative | library/core/src/main/java/com/google/android/exoplayer2/text/ttml/TtmlDecoder.java:612-662 | under positive rates, and unless the hours overflow, every time is non-negative |
| TtmlTime.ClockNonNegative | library/core/src/main/java/com/google/android/exoplayer2/text/ttml/TtmlDecoder.java:614-632 | a well-formed clock time under positive rates whose hours fit a long succeeds and is non-negative |
| TtmlTime.OffsetNonNegative | library/core/src/main/java/com/google/android/exoplayer2/text/ttml/TtmlDecoder.java:634-660 | a well-formed offset time under positive rates succeeds and is non-negative |
| TtmlTime.HoursWrapAround | library/core/src/main/java/com/google/android/exoplayer2/text/ttml/TtmlDecoder.java:617 | hours whose product with 3600 exceeds a long wrap to a negative time |
| TtmlStyle.CreateIfNull | library/core/src/main/java/com/google/android/exoplayer2/text/ttml/TtmlDecoder.java:470-472 | a present style is kept, a missing one becomes a new style |
| TtmlStyle.SplitUnit | library/core/src/main/java/com/google/android/exoplayer2/text/ttml/TtmlDecoder.java:581-594 | group 3 of FONT_SIZE: the text is the number followed by the unit suffix |
| TtmlStyle.LooseNumberValue | library/core/src/main/java/com/google/android/exoplayer2/text/ttml/TtmlDecoder.java:595 | `Float.valueOf` of the number FONT_SIZE admits: its only error is NumberFormatException |
| TtmlStyle.FontSizeTarget | library/core/src/main/java/com/google/android/exoplayer2/text/ttml/TtmlDecoder.java:566-577 | one value is matched whole, two values use the second, more throw SubtitleDecoderException |
| TtmlStyle.ParseFontSize | library/core/src/main/java/com/google/android/exoplayer2/text/ttml/TtmlDecoder.java:565-599 | with the decimal point escaped, every failure is a SubtitleDecoderException |
| TtmlStyle.FontSizeDecimalRoundTrip | library/core/src/main/java/com/google/android/exoplayer2/text/ttml/TtmlDecoder.java:565-599 | `a.b` followed by a unit is that decimal in that unit |
| TtmlStyle.FontSizeWholeRoundTrip | library/core/src/main/java/com/google/android/exoplayer2/text/ttml/TtmlDecoder.java:565-599 | a natural number followed by a unit is that number in that unit |
| TtmlStyle.FontSizeSecondValue | library/core/src/main/java/com/google/android/exoplayer2/text/ttml/TtmlDecoder.java:571-575 | of two whitespace-separated values only the second counts |
| TtmlStyle.FontSizeThreeValues | library/core/src/main/java/com/google/android/exoplayer2/text/ttml/TtmlDecoder.java:575-577 | three values are rejected |
| TtmlStyle.FontSizeAsWrittenAgrees | library/core/src/main/java/com/google/android/exoplayer2/text/ttml/TtmlDecoder.java:565-599 | wherever the escaped pattern accepts, the pattern as written gives the same size |
| TtmlStyle.FontSizeSeparatorThrows | library/core/src/main/java/com/google/android/exoplayer2/text/ttml/TtmlDecoder.java:595 | as written, digits, an odd separator and digits throw NumberFormatException; corrected, a caught SubtitleDecoderException |
| TtmlStyle.FontSizeFindingExample | library/core/src/main/java/com/google/android/exoplayer2/text/ttml/TtmlDecoder.java:83 | `1x5px` throws NumberFormatException as written |
| TtmlStyle.FontSizeAsWritten | library/core/src/main/java/com/google/android/exoplayer2/text/ttml/TtmlDecoder.java:565-599 | as written: the errors are SubtitleDecoderException and the uncaught NumberFormatException; the unit is the unit group of the chosen value |
| TtmlStyle.TextAlignOf | library/core/src/main/java/com/google/android/exoplayer2/text/ttml/TtmlDecoder.java:427-445 | an alignment is set exactly for left, start, right, end and center in any case |
| TtmlStyle.ParseStyleAttributes | library/core/src/main/java/com/google/android/exoplayer2/text/ttml/TtmlDecoder.java:382-468 | the attribute loop equals the fold of the single-attribute step, whose effect per attribute the lemmas below state |
| TtmlStyle.ApplyStyleAttribute | library/core/src/main/java/com/google/android/exoplayer2/text/ttml/TtmlDecoder.java:385-465 | one attribute never drops an existing style; only `id` on a `style` element changes the id; other attribute names leave the style as it was; the field each attribute sets is stated by the Apply lemmas |
| TtmlStyle.StyleCreatedIff | library/core/src/main/java/com/google/android/exoplayer2/text/ttml/TtmlDecoder.java:382-468 | a content element gets a style exactly when one of its attributes creates one |
| TtmlStyle.ApplyCreatesStyle | library/core/src/main/java/com/google/android/exoplayer2/text/ttml/TtmlDecoder.java:385-465 | one attribute leaves the style null exactly when it was null and the attribute creates none |
| TtmlStyle.ApplyFontFamily | library/core/src/main/java/com/google/android/exoplayer2/text/ttml/TtmlDecoder.java:408-410 | `fontFamily` sets the family; other attributes keep it |
| TtmlStyle.ApplyBackgroundColor | library/core/src/main/java/com/google/android/exoplayer2/text/ttml/TtmlDecoder.java:392-399 | `backgroundColor` sets the parsed colour, or only creates the style when the colour does not parse; every other field is as before |
| TtmlStyle.ApplyColor | library/core/src/main/java/com/google/android/exoplayer2/text/ttml/TtmlDecoder.java:400-407 | `color` sets the parsed font colour, or only creates the style; every other field is as before |
| TtmlStyle.ApplyFontSize | library/core/src/main/java/com/google/android/exoplayer2/text/ttml/TtmlDecoder.java:411-418 | `fontSize` sets the unit and size that parse, or only creates the style; other attributes keep a present style's size |
| TtmlStyle.ApplyFontWeight | library/core/src/main/java/com/google/android/exoplayer2/text/ttml/TtmlDecoder.java:419-422 | `fontWeight` sets bold exactly when the value is `bold` in any case; other attributes keep it |
| TtmlStyle.ApplyFontStyle | library/core/src/main/java/com/google/android/exoplayer2/text/ttml/TtmlDecoder.java:423-426 | `fontStyle` sets italic exactly when the value is `italic` in any case; every other field is as before |
| TtmlStyle.ApplyTextAlign | library/core/src/main/java/com/google/android/exoplayer2/text/ttml/TtmlDecoder.java:427-445 | `textAlign` sets a recognised alignment; any other value leaves the style, even a null one, untouched |
| TtmlStyle.ApplyTextDecoration | library/core/src/main/java/com/google/android/exoplayer2/text/ttml/TtmlDecoder.java:446-461 | the four keywords in any case switch line-through or underline on or off; any other value changes nothing |
| TtmlStyle.IdOnlyOnStyleElement | library/core/src/main/java/com/google/android/exoplayer2/text/ttml/TtmlDecoder.java:387-391 | only a `style` element's attributes can set the style id |
| TtmlStyle.LastFontFamilyWins | library/core/src/main/java/com/google/android/exoplayer2/text/ttml/TtmlDecoder.java:408-410 | the last `fontFamily` attribute decides the family |
| TtmlStyle.LastFontSizeWins | library/core/src/main/java/com/google/android/exoplayer2/text/ttml/TtmlDecoder.java:411-418 | the last `fontSize` attribute, when it parses, decides the unit and size |
| TtmlStyle.LastFontWeightWins | library/core/src/main/java/com/google/android/exoplayer2/text/ttml/TtmlDecoder.java:419-422 | the last `fontWeight` attribute decides whether the style is bold |
| TtmlStyle.ParseStyleIds | library/core/src/main/java/com/google/android/exoplayer2/text/ttml/TtmlDecoder.java:377-380 | every id is non-empty and holds no whitespace |
| TtmlStyle.TrimmedIdsNonEmpty | library/core/src/main/java/com/google/android/exoplayer2/text/ttml/TtmlDecoder.java:378-379 | after trimming, splitting at whitespace runs gives no empty id |
| TtmlStyle.SplitJoinedIds | library/core/src/main/java/com/google/android/exoplayer2/text/ttml/TtmlDecoder.java:377-380 | ids without whitespace joined by spaces split back into the same ids |
| TtmlStyle.StyleIdsRoundTrip | library/core/src/main/java/com/google/android/exoplayer2/text/ttml/TtmlDecoder.java:377-380 | ids joined by single spaces are read back one by one |
| TtmlStyle.BlankStyleIds | library/core/src/main/java/com/google/android/exoplayer2/text/ttml/TtmlDecoder.java:377-380 | a blank value names no style |
| TtmlStyle.Chain | library/core/src/main/java/com/google/android/exoplayer2/text/ttml/TtmlDecoder.java:248-252 | each referenced id gives its global style, or null when none is declared |
| TtmlStyle.DeclareStyleStores | library/core/src/main/java/com/google/android/exoplayer2/text/ttml/TtmlDecoder.java:245-255 | a head style with an id is stored under its last id, other styles unchanged |
| TtmlStyle.DeclareStyle | library/core/src/main/java/com/google/android/exoplayer2/text/ttml/TtmlDecoder.java:245-255 | a head style never removes a global style; any new or replaced entry is a style stored under its own id |
| TtmlStyle.DeclareStyleWithoutId | library/core/src/main/java/com/google/android/exoplayer2/text/ttml/TtmlDecoder.java:253-255 | a head style without an id declares nothing |
| TtmlStyle.LastIdWins | library/core/src/main/java/com/google/android/exoplayer2/text/ttml/TtmlDecoder.java:387-391 | the last `id` attribute of a style element is its id |
| TtmlStyle.NoIdAttribute | library/core/src/main/java/com/google/android/exoplayer2/text/ttml/TtmlDecoder.java:387-391 | a style element without an `id` attribute has no id |
| TtmlRegion.LengthPair | library/core/src/main/java/com/google/android/exoplayer2/text/ttml/TtmlDecoder.java:284-305 | an origin or extent is exactly two tokens, the first not `auto`, both parsed lengths |
| TtmlRegion.LineAnchor | library/core/src/main/java/com/google/android/exoplayer2/text/ttml/TtmlDecoder.java:348-362 | `center` gives MIDDLE and `after` gives END in any case; anything else gives START |
| TtmlRegion.ParseRegionAttributes | library/core/src/main/java/com/google/android/exoplayer2/text/ttml/TtmlDecoder.java:275-375 | a region is declared exactly when id, origin and extent are valid, with text size 1/rows |
| TtmlRegion.LengthPairRoundTrip | library/core/src/main/java/com/google/android/exoplayer2/text/ttml/TtmlDecoder.java:284-305 | `"A<u> B<u'>"` reads back as the two lengths |
| TtmlRegion.TwoTokens | library/core/src/main/java/com/google/android/exoplayer2/text/ttml/TtmlDecoder.java:285 | two whitespace-free tokens joined by a space split into exactly those two |
| TtmlRegion.AutoFirstRejected | library/core/src/main/java/com/google/android/exoplayer2/text/ttml/TtmlDecoder.java:295-304 | a first token `auto` drops the origin or extent |
| TtmlRegion.OneTokenRejected | library/core/src/main/java/com/google/android/exoplayer2/text/ttml/TtmlDecoder.java:295-304 | a single token is not a pair |
| TtmlRegion.RegionRoundTrip | library/core/src/main/java/com/google/android/exoplayer2/text/ttml/TtmlDecoder.java:275-375 | an id, origin `X% Y%` and extent `W% H%` give those four percentages |
| TtmlRegion.PixelOriginAccepted | library/core/src/main/java/com/google/android/exoplayer2/text/ttml/TtmlDecoder.java:291-300 | pixel origins are declared although only percentages are meant to be supported |
| TtmlMetadata.Metadata.constructor | library/core/src/main/java/com/google/android/exoplayer2/text/ttml/TtmlMetadata.java:17-19 | a new table holds no image |
| TtmlMetadata.Metadata.GetImage | library/core/src/main/java/com/google/android/exoplayer2/text/ttml/TtmlMetadata.java:21-24 | `getImage` is the stored image, or null for an absent id |
| TtmlMetadata.Metadata.AddImage | library/core/src/main/java/com/google/android/exoplayer2/text/ttml/TtmlMetadata.java:26-28 | the id maps to the image afterwards; every other id keeps its image |
| TtmlMetadata.EmptyTableHasNoImage | library/core/src/main/java/com/google/android/exoplayer2/text/ttml/TtmlMetadata.java:17-24 | a new table returns null for every id |
| TtmlMetadata.AddThenGet | library/core/src/main/java/com/google/android/exoplayer2/text/ttml/TtmlMetadata.java:21-28 | after `addImage(id, img)`, `getImage(id)` is `img` and other ids are unchanged |
| TtmlMetadata.AddReplaces | library/core/src/main/java/com/google/android/exoplayer2/text/ttml/TtmlMetadata.java:26-28 | adding twice under one id keeps only the second image |
| TtmlMetadata.LastValue | library/core/src/main/java/com/google/android/exoplayer2/text/ttml/TtmlDecoder.java:684-695 | the value of the last attribute with one of the names, None exactly when there is none |
| TtmlMetadata.ImageAttributes | library/core/src/main/java/com/google/android/exoplayer2/text/ttml/TtmlDecoder.java:684-695 | the attribute loop keeps the last `id`/`xml:id` and the last `encoding` |
| TtmlMetadata.FindImageEnd | library/core/src/main/java/com/google/android/exoplayer2/text/ttml/TtmlDecoder.java:705-708 | the first image end tag from a position; a malformed event or the end of input is XmlPullParserException |
| TtmlMetadata.SkipToImageEnd | library/core/src/main/java/com/google/android/exoplayer2/text/ttml/TtmlDecoder.java:705-708 | the do-while loop stops at that end tag |
| TtmlMetadata.ImageElement | library/core/src/main/java/com/google/android/exoplayer2/text/ttml/TtmlDecoder.java:680-720 | parseImage ends on an image end tag; its only error is XmlPullParserException |
| TtmlMetadata.ParseImage | library/core/src/main/java/com/google/android/exoplayer2/text/ttml/TtmlDecoder.java:680-720 | the method equals the specification of parseImage |
| TtmlMetadata.ImageDropRules | library/core/src/main/java/com/google/android/exoplayer2/text/ttml/TtmlDecoder.java:710-719 | an image is kept only with an id, a base64 encoding (any case), text and a decodable bitmap |
| TtmlMetadata.MetadataFrom | library/core/src/main/java/com/google/android/exoplayer2/text/ttml/TtmlDecoder.java:664-677 | the loop ends on the metadata end tag; images are only added |
| TtmlMetadata.ParseMetadata | library/core/src/main/java/com/google/android/exoplayer2/text/ttml/TtmlDecoder.java:664-677 | a new table filled as MetadataFrom specifies |
| TtmlMetadata.OneImage | library/core/src/main/java/com/google/android/exoplayer2/text/ttml/TtmlDecoder.java:664-677 | a metadata element with one base64 image with an id adds exactly that image |
| TtmlNode.BuildTextNode | library/core/src/main/java/com/google/android/exoplayer2/text/ttml/TtmlNode.java:92-95 | a text node: no tag, unset times, anonymous region, no children |
| TtmlNode.BuildNode | library/core/src/main/java/com/google/android/exoplayer2/text/ttml/TtmlNode.java:97-100 | an element node with the tag and no children |
| TtmlNode.IsActiveInterval | library/core/src/main/java/com/google/android/exoplayer2/text/ttml/TtmlNode.java:117-122 | active exactly when a set start is at most the time and a set end is above it |
| TtmlNode.IsActive | library/core/src/main/java/com/google/android/exoplayer2/text/ttml/TtmlNode.java:117-122 | a node without times is always active; a node is inactive before its set start and from its set end on |
| TtmlNode.AddChild | library/core/src/main/java/com/google/android/exoplayer2/text/ttml/TtmlNode.java:124-129 | the child goes at the end; nothing else changes |
| TtmlNode.GetChild | library/core/src/main/java/com/google/android/exoplayer2/text/ttml/TtmlNode.java:131-136 | the child at the index, or IndexOutOfBoundsException out of range |
| TtmlNode.GetChildCount | library/core/src/main/java/com/google/android/exoplayer2/text/ttml/TtmlNode.java:138-140 | the number of children |
| TtmlNode.AddChildrenInOrder | library/core/src/main/java/com/google/android/exoplayer2/text/ttml/TtmlNode.java:124-140 | after adding children one by one, the count grows by their number and they are found in order |
| TtmlNode.NoChildren | library/core/src/main/java/com/google/android/exoplayer2/text/ttml/TtmlNode.java:131-136 | a node without children throws for every index |
| TtmlNode.EventTimesSet | library/core/src/main/java/com/google/android/exoplayer2/text/ttml/TtmlNode.java:153-169 | no event time is TIME_UNSET |
| TtmlNode.ChildEventTimesSet | library/core/src/main/java/com/google/android/exoplayer2/text/ttml/TtmlNode.java:166-168 | the children contribute no TIME_UNSET either |
| TtmlNode.ParagraphTimesIncluded | library/core/src/main/java/com/google/android/exoplayer2/text/ttml/TtmlNode.java:153-162 | the set times of a `p` node or a node below one are event times |
| TtmlNode.NoParagraphNoTimes | library/core/src/main/java/com/google/android/exoplayer2/text/ttml/TtmlNode.java:153-169 | a tree without `p` nodes has no event times |
| TtmlNode.ChildNoParagraphNoTimes | library/core/src/main/java/com/google/android/exoplayer2/text/ttml/TtmlNode.java:166-168 | children outside any `p` contribute no event times |
| TtmlNode.CollectEventTimes | library/core/src/main/java/com/google/android/exoplayer2/text/ttml/TtmlNode.java:153-169 | the recursive collection adds exactly the event times of the subtree |
| TtmlNode.Least | library/core/src/main/java/com/google/android/exoplayer2/text/ttml/TtmlNode.java:147-149 | the next TreeSet element is the least one |
| TtmlNode.AscendingArray | library/core/src/main/java/com/google/android/exoplayer2/text/ttml/TtmlNode.java:145-150 | the TreeSet copied to an array is strictly ascending with the same elements |
| TtmlNode.GetEventTimesUs | library/core/src/main/java/com/google/android/exoplayer2/text/ttml/TtmlNode.java:142-151 | strictly ascending, exactly the event times of the tree, never TIME_UNSET |
| TtmlTraversal.RegionOutput | library/core/src/main/java/com/google/android/exoplayer2/text/ttml/TtmlNode.java:274-280 | the region's accumulator exists afterwards, a new one empty, others untouched |
| TtmlTraversal.Append | library/core/src/main/java/com/google/android/exoplayer2/text/ttml/TtmlNode.java:365-371 | the region's text is extended by the appended text, others untouched |
| TtmlTraversal.SetImage | library/core/src/main/java/com/google/android/exoplayer2/text/ttml/TtmlNode.java:251-252 | the region's image is set, nothing else changes |
| TtmlTraversal.Lengths | library/core/src/main/java/com/google/android/exoplayer2/text/ttml/TtmlNode.java:255-257 | every accumulator's length, keyed by region |
| TtmlTraversal.CloseElement | library/core/src/main/java/com/google/android/exoplayer2/text/ttml/TtmlNode.java:264-270 | paragraph end, then end offsets of every region recorded with the start offsets |
| TtmlTraversal.EndParagraph | library/core/src/main/java/com/google/android/exoplayer2/text/ttml/TtmlNode.java:264-266 | only the paragraph's region changes, and it exists afterwards |
| TtmlTraversal.TextPassAppends | library/core/src/main/java/com/google/android/exoplayer2/text/ttml/TtmlNode.java:231-272 | pass one only appends, and every recorded start ≤ end ≤ length |
| TtmlTraversal.ActiveTextPassAppends | library/core/src/main/java/com/google/android/exoplayer2/text/ttml/TtmlNode.java:250-271 | an active container only appends and keeps every recorded range within its region's text |
| TtmlTraversal.CloseElementAppends | library/core/src/main/java/com/google/android/exoplayer2/text/ttml/TtmlNode.java:264-270 | closing an element only appends and records ranges within the text |
| TtmlTraversal.MetadataContributesNothing | library/core/src/main/java/com/google/android/exoplayer2/text/ttml/TtmlNode.java:236-242 | a metadata element adds nothing, its subtree included; only its maps are cleared |
| TtmlTraversal.TextLeafAppends | library/core/src/main/java/com/google/android/exoplayer2/text/ttml/TtmlNode.java:244-247 | a text leaf in a paragraph appends its text to its resolved region, outside one nothing |
| TtmlTraversal.LineBreakAppends | library/core/src/main/java/com/google/android/exoplayer2/text/ttml/TtmlNode.java:248-249 | a `br` in a paragraph appends a newline to its resolved region |
| TtmlTraversal.BackgroundImageSet | library/core/src/main/java/com/google/android/exoplayer2/text/ttml/TtmlNode.java:250-257 | an active element with an image id sets its region's image, in or out of a paragraph |
| TtmlTraversal.BackgroundImageWithoutMetadata | library/core/src/main/java/com/google/android/exoplayer2/text/ttml/TtmlNode.java:251-252 | an image id without a metadata table is a NullPointerException |
| TtmlTraversal.TextPassSucceeds | library/core/src/main/java/com/google/android/exoplayer2/text/ttml/TtmlNode.java:231-272 | with a metadata table pass one cannot fail, and every accumulator is of a known region |
| TtmlTraversal.TextPass | library/core/src/main/java/com/google/android/exoplayer2/text/ttml/TtmlNode.java:231-272 | pass one can fail only with a NullPointerException, and only without an image table |
| TtmlTraversal.ChildrenTextPassSucceeds | library/core/src/main/java/com/google/android/exoplayer2/text/ttml/TtmlNode.java:259-263 | with an image table and declared regions the child loop of pass one cannot fail |
| TtmlTraversal.ApplyRanges | library/core/src/main/java/com/google/android/exoplayer2/text/ttml/TtmlNode.java:289-312 | a style goes to each non-empty range; a missing start is 0; a missing accumulator is an NPE |
| TtmlTraversal.InactiveSkipped | library/core/src/main/java/com/google/android/exoplayer2/text/ttml/TtmlNode.java:286-288 | an inactive node leaves every accumulator as it was, subtree included |
| TtmlTraversal.StylePassKeepsText | library/core/src/main/java/com/google/android/exoplayer2/text/ttml/TtmlNode.java:282-301 | pass two keeps texts, images and regions; it only adds spans |
| TtmlTraversal.StylePassSucceeds | library/core/src/main/java/com/google/android/exoplayer2/text/ttml/TtmlNode.java:282-301 | ranges recorded by pass one always find their accumulators |
| TtmlTraversal.StylePass | library/core/src/main/java/com/google/android/exoplayer2/text/ttml/TtmlNode.java:282-312 | pass two can fail only with a NullPointerException |
| TtmlTraversal.RecordedRangesApply | library/core/src/main/java/com/google/android/exoplayer2/text/ttml/TtmlNode.java:289-297 | ranges recorded by pass one always find their accumulator, and styling keeps them valid |
| TtmlTraversal.NodeBeforeChildren | library/core/src/main/java/com/google/android/exoplayer2/text/ttml/TtmlNode.java:289-300 | a node's ranges get its style before its children's ranges |
| TtmlTraversal.RangeRules | library/core/src/main/java/com/google/android/exoplayer2/text/ttml/TtmlNode.java:291-293 | a range is styled exactly when its start differs from its end; a missing start counts as 0 |
| TtmlTraversal.RecordLengths | library/core/src/main/java/com/google/android/exoplayer2/text/ttml/TtmlNode.java:255-257 | the entry loop records every accumulator's length |
| TtmlTraversal.TraverseForText | library/core/src/main/java/com/google/android/exoplayer2/text/ttml/TtmlNode.java:231-272 | the method equals the specification of pass one |
| TtmlTraversal.TraverseChildrenForText | library/core/src/main/java/com/google/android/exoplayer2/text/ttml/TtmlNode.java:259-263 | the child loop equals the specification of the children's pass one |
| TtmlTraversal.ApplyStyleToRanges | library/core/src/main/java/com/google/android/exoplayer2/text/ttml/TtmlNode.java:289-297 | the entry loop equals the specification of the styled ranges |
| TtmlTraversal.TraverseForStyle | library/core/src/main/java/com/google/android/exoplayer2/text/ttml/TtmlNode.java:282-301 | the method equals the specification of pass two |
| TtmlTraversal.TraverseChildrenForStyle | library/core/src/main/java/com/google/android/exoplayer2/text/ttml/TtmlNode.java:298-300 | the child loop equals the specification of the children's pass two |
| TtmlCleanUp.CollapseProperties | library/core/src/main/java/com/google/android/exoplayer2/text/ttml/TtmlNode.java:316-330 | step 1 leaves no double space and keeps every other character |
| TtmlCleanUp.CleanUpProperties | library/core/src/main/java/com/google/android/exoplayer2/text/ttml/TtmlNode.java:314-359 | no double space, no space at either end or next to a newline, and the non-space characters kept but one trailing newline; it does not state how many spaces survive |
| TtmlCleanUp.CleanUp | library/core/src/main/java/com/google/android/exoplayer2/text/ttml/TtmlNode.java:314-359 | the clean-up never lengthens the text |
| TtmlCleanUp.TrailingSpaceDropped | library/core/src/main/java/com/google/android/exoplayer2/text/ttml/TtmlNode.java:342-346 | after the trailing space is dropped the text does not end in a space |
| TtmlCleanUp.TrailingNewlineDropped | library/core/src/main/java/com/google/android/exoplayer2/text/ttml/TtmlNode.java:353-357 | dropping the trailing newline leaves no trailing space behind |
| TtmlCleanUp.CollapsesRuns | library/core/src/main/java/com/google/android/exoplayer2/text/ttml/TtmlNode.java:316-330 | `"a   b"` becomes `"a b"` |
| TtmlCleanUp.TrimsLines | library/core/src/main/java/com/google/android/exoplayer2/text/ttml/TtmlNode.java:314-359 | `" x \n y "` becomes `"x\ny"` |
| TtmlCleanUp.NotIdempotent | library/core/src/main/java/com/google/android/exoplayer2/text/ttml/TtmlNode.java:353-357 | `"a \n\n"` becomes `"a\n"`, which becomes `"a"` |
| TtmlCleanUp.CollapseSpaces | library/core/src/main/java/com/google/android/exoplayer2/text/ttml/TtmlNode.java:317-330 | the step 1 loop equals the collapse of space runs |
| TtmlCleanUp.DropLineStartSpaces | library/core/src/main/java/com/google/android/exoplayer2/text/ttml/TtmlNode.java:331-341 | the step 2 loops delete the leading space and each space after a newline |
| TtmlCleanUp.DropLineEndSpaces | library/core/src/main/java/com/google/android/exoplayer2/text/ttml/TtmlNode.java:342-352 | the step 3 loops delete the trailing space and each space before a newline |
| TtmlCleanUp.DropSpacesBeforeNewlines | library/core/src/main/java/com/google/android/exoplayer2/text/ttml/TtmlNode.java:347-352 | the step 3 index loop equals its specification |
| TtmlCleanUp.CleanUpText | library/core/src/main/java/com/google/android/exoplayer2/text/ttml/TtmlNode.java:314-359 | the four steps on the builder equal the specified clean-up |
| TtmlCues.LineXValue | library/core/src/main/java/com/google/android/exoplayer2/text/ttml/TtmlNode.java:220-224 | a percentage becomes a hundredth, any other length its raw value |
| TtmlCues.LineYValue | library/core/src/main/java/com/google/android/exoplayer2/text/ttml/TtmlNode.java:205-218 | corrected: y as a fraction plus the anchor's share of the height as a fraction |
| TtmlCues.LineInsideRegion | library/core/src/main/java/com/google/android/exoplayer2/text/ttml/TtmlNode.java:205-218 | corrected, the line of a region inside the viewport lies inside the region and in [0, 1] |
| TtmlCues.LineYValueAgrees | library/core/src/main/java/com/google/android/exoplayer2/text/ttml/TtmlNode.java:205-218 | as written and corrected agree for a start anchor or a non-percentage height |
| TtmlCues.LineYValueAsWrittenOffRegion | library/core/src/main/java/com/google/android/exoplayer2/text/ttml/TtmlNode.java:211-216 | as written, a percentage height moves a middle or end line 100 times too far |
| TtmlCues.LineYValueExample | library/core/src/main/java/com/google/android/exoplayer2/text/ttml/TtmlNode.java:205-218 | the region at 10% 20% of size 50% 30%, centred: 15.2 as written, 0.35 corrected |
| TtmlCues.LineYValueAsWritten | library/core/src/main/java/com/google/android/exoplayer2/text/ttml/TtmlNode.java:205-218 | as written: y as a fraction plus the anchor's share of the raw height value |
| TtmlCues.PlacementOf | library/core/src/main/java/com/google/android/exoplayer2/text/ttml/TtmlNode.java:184-199 | a region with geometry places its cue by line, anchor, position, size and text size |
| TtmlCues.CueOf | library/core/src/main/java/com/google/android/exoplayer2/text/ttml/TtmlNode.java:184-199 | a cue holds the cleaned-up text, the spans, the image and the placement |
| TtmlCues.StringLessIrreflexive | library/core/src/main/java/com/google/android/exoplayer2/text/ttml/TtmlNode.java:181 | TreeMap key order is irreflexive |
| TtmlCues.StringLessTransitive | library/core/src/main/java/com/google/android/exoplayer2/text/ttml/TtmlNode.java:181 | TreeMap key order is transitive |
| TtmlCues.StringLessTotal | library/core/src/main/java/com/google/android/exoplayer2/text/ttml/TtmlNode.java:181 | TreeMap key order is total |
| TtmlCues.LeastId | library/core/src/main/java/com/google/android/exoplayer2/text/ttml/TtmlNode.java:181 | the next TreeMap key is the least one |
| TtmlCues.AppendLeast | library/core/src/main/java/com/google/android/exoplayer2/text/ttml/TtmlNode.java:181 | appending the least remaining key keeps the ids ascending and below the rest |
| TtmlCues.StylePassNeverFails | library/core/src/main/java/com/google/android/exoplayer2/text/ttml/TtmlNode.java:178-179 | after pass one succeeds, pass two succeeds and keeps every text |
| TtmlCues.QuerySucceeds | library/core/src/main/java/com/google/android/exoplayer2/text/ttml/TtmlNode.java:175-180 | with a metadata table and declared regions, the passes succeed and every accumulator has a region |
| TtmlCues.CuesInOrder | library/core/src/main/java/com/google/android/exoplayer2/text/ttml/TtmlNode.java:180-201 | one cue per accumulator in ascending region order; a missing region is an NPE |
| TtmlCues.RegionCue | library/core/src/main/java/com/google/android/exoplayer2/text/ttml/TtmlNode.java:182-199 | the cue of one region's accumulator |
| TtmlCues.GetCues | library/core/src/main/java/com/google/android/exoplayer2/text/ttml/TtmlNode.java:175-202 | the passes, then one cue per region in ascending order, or the exception of the first failure |
| TtmlDecoder.ImageReference | library/core/src/main/java/com/google/android/exoplayer2/text/ttml/TtmlDecoder.java:512-523 | an empty value is ignored and one leading `#` is dropped |
| TtmlDecoder.NodeAttributesOf | library/core/src/main/java/com/google/android/exoplayer2/text/ttml/TtmlDecoder.java:485-526 | a kept region is always anonymous or declared |
| TtmlDecoder.AttributeStepFails | library/core/src/main/java/com/google/android/exoplayer2/text/ttml/TtmlDecoder.java:488-497 | one more attribute fails the loop exactly when it is a time that does not parse |
| TtmlDecoder.BadTimeFailsLoop | library/core/src/main/java/com/google/android/exoplayer2/text/ttml/TtmlDecoder.java:485-497 | a time that does not parse fails the loop wherever it stands |
| TtmlDecoder.FirstBadTime | library/core/src/main/java/com/google/android/exoplayer2/text/ttml/TtmlDecoder.java:485-497 | a failed loop failed at its first bad time, with that exception |
| TtmlDecoder.AttributeLoopFails | library/core/src/main/java/com/google/android/exoplayer2/text/ttml/TtmlDecoder.java:485-497 | the loop fails exactly when some time does not parse, with the first one's exception |
| TtmlDecoder.FailureSticks | library/core/src/main/java/com/google/android/exoplayer2/text/ttml/TtmlDecoder.java:485-497 | once the loop failed, later attributes do not change the outcome |
| TtmlDecoder.ApplyAttribute | library/core/src/main/java/com/google/android/exoplayer2/text/ttml/TtmlDecoder.java:486-525 | one pass of the switch equals its specification |
| TtmlDecoder.ParseNodeAttributes | library/core/src/main/java/com/google/android/exoplayer2/text/ttml/TtmlDecoder.java:485-526 | the attribute loop equals its specification |
| TtmlDecoder.NormalizeTimes | library/core/src/main/java/com/google/android/exoplayer2/text/ttml/TtmlDecoder.java:527-543 | the time rules equal their specification |
| TtmlDecoder.ParseNode | library/core/src/main/java/com/google/android/exoplayer2/text/ttml/TtmlDecoder.java:474-545 | parseNode equals its specification |
| TtmlDecoder.NodeOf | library/core/src/main/java/com/google/android/exoplayer2/text/ttml/TtmlDecoder.java:474-545 | parseNode fails exactly when its attribute loop does, with the same exception; a built node has the tag, no children and a declared or anonymous region |
| TtmlDecoder.RegionIdFrom | library/core/src/main/java/com/google/android/exoplayer2/text/ttml/TtmlDecoder.java:505-511 | attributes other than `region` do not change the region |
| TtmlDecoder.RegionReference | library/core/src/main/java/com/google/android/exoplayer2/text/ttml/TtmlDecoder.java:505-511 | a `region` attribute is kept when declared, else the anonymous region |
| TtmlDecoder.TimesRelativeToParent | library/core/src/main/java/com/google/android/exoplayer2/text/ttml/TtmlDecoder.java:527-534 | under a timed parent, begin and end count from the parent's begin |
| TtmlDecoder.TimesAbsolute | library/core/src/main/java/com/google/android/exoplayer2/text/ttml/TtmlDecoder.java:527-534 | without a timed parent, begin and end are as written |
| TtmlDecoder.EndFromDuration | library/core/src/main/java/com/google/android/exoplayer2/text/ttml/TtmlDecoder.java:535-538 | without an end, the duration ends the node that long after its begin |
| TtmlDecoder.EndInherited | library/core/src/main/java/com/google/android/exoplayer2/text/ttml/TtmlDecoder.java:535-542 | without end and duration, the node ends with its parent or stays open |
| TtmlDecoder.DurationWithoutBegin | library/core/src/main/java/com/google/android/exoplayer2/text/ttml/TtmlDecoder.java:535-538 | a duration without a begin is added to TIME_UNSET: the node is never active at a time ≥ 0 |
| TtmlDecoder.HeaderFrom | library/core/src/main/java/com/google/android/exoplayer2/text/ttml/TtmlDecoder.java:236-266 | the head ends on its end tag; declared regions are only added |
| TtmlDecoder.HeaderElement | library/core/src/main/java/com/google/android/exoplayer2/text/ttml/TtmlDecoder.java:244-263 | one head element keeps every declared region |
| TtmlDecoder.ReadHeaderElement | library/core/src/main/java/com/google/android/exoplayer2/text/ttml/TtmlDecoder.java:244-263 | the loop body equals its specification |
| TtmlDecoder.ParseHeader | library/core/src/main/java/com/google/android/exoplayer2/text/ttml/TtmlDecoder.java:236-266 | the do-while loop equals its specification |
| TtmlDecoder.StartElement | library/core/src/main/java/com/google/android/exoplayer2/text/ttml/TtmlDecoder.java:128-150 | a start tag reads on at most to the head's end tag |
| TtmlDecoder.DocumentParameters | library/core/src/main/java/com/google/android/exoplayer2/text/ttml/TtmlDecoder.java:129-132 | only `tt` changes the rates and cell resolution, and only those |
| TtmlDecoder.PushNode | library/core/src/main/java/com/google/android/exoplayer2/text/ttml/TtmlDecoder.java:138-149 | a supported element is pushed or, on a bad time, skipped |
| TtmlDecoder.Pop | library/core/src/main/java/com/google/android/exoplayer2/text/ttml/TtmlDecoder.java:141-157 | pop removes the top of the stack and adds it as the last child of the node below; the rest of the stack is untouched |
| TtmlDecoder.Step | library/core/src/main/java/com/google/android/exoplayer2/text/ttml/TtmlDecoder.java:125-167 | one loop iteration reads on at most to the head's end tag |
| TtmlDecoder.DecodeEvents | library/core/src/main/java/com/google/android/exoplayer2/text/ttml/TtmlDecoder.java:107-175 | decode fails exactly when the loop does; a tokenizer failure (XmlPullParserException) surfaces as SubtitleDecoderException, any other exception with its own kind, and a successful loop's subtitle is returned as it is |
| TtmlDecoder.TtParametersEscape | library/core/src/main/java/com/google/android/exoplayer2/text/ttml/TtmlDecoder.java:128-131 | when a `tt` start tag's rates or cell resolution throw, the loop ends with that exception (the rates' one first): it is not turned into a skipped subtree |
| TtmlDecoder.ZeroCellResolutionEscapes | library/core/src/main/java/com/google/android/exoplayer2/text/ttml/TtmlDecoder.java:226-227 | a document opening with `<tt ttp:cellResolution="0 15">` fails to decode with SubtitleDecoderException |
| TtmlDecoder.OpenElement | library/core/src/main/java/com/google/android/exoplayer2/text/ttml/TtmlDecoder.java:128-150 | a start tag as handled equals its specification |
| TtmlDecoder.OpenNode | library/core/src/main/java/com/google/android/exoplayer2/text/ttml/TtmlDecoder.java:139-149 | parseNode under its try equals its specification |
| TtmlDecoder.Advance | library/core/src/main/java/com/google/android/exoplayer2/text/ttml/TtmlDecoder.java:125-167 | the loop body equals its specification |
| TtmlDecoder.RunContinues | library/core/src/main/java/com/google/android/exoplayer2/text/ttml/TtmlDecoder.java:124-167 | a successful step hands the rest of the document to the loop |
| TtmlDecoder.RunStops | library/core/src/main/java/com/google/android/exoplayer2/text/ttml/TtmlDecoder.java:124-175 | a failed step ends decode with its exception |
| TtmlDecoder.EventLoop | library/core/src/main/java/com/google/android/exoplayer2/text/ttml/TtmlDecoder.java:124-168 | the while loop equals the specification of the event loop |
| TtmlDecoder.Decode | library/core/src/main/java/com/google/android/exoplayer2/text/ttml/TtmlDecoder.java:107-175 | decode equals its specification |
| TtmlDecoder.SkippedEvents | library/core/src/main/java/com/google/android/exoplayer2/text/ttml/TtmlDecoder.java:159-165 | while the counter is non-zero, events only move it: no node is built, attached or popped |
| TtmlDecoder.SkippedElement | library/core/src/main/java/com/google/android/exoplayer2/text/ttml/TtmlDecoder.java:159-165 | an unsupported element, or one with a bad time, is passed over with its subtree; the state is as before |
| TtmlDecoder.IsSupportedTag | library/core/src/main/java/com/google/android/exoplayer2/text/ttml/TtmlDecoder.java:547-563 | the content elements `body`, `div`, `p`, `span`, `br`, the `metadata` element and the SMPTE image are supported; a nameless element is not |
| TtmlDecoder.PushDeclared | library/core/src/main/java/com/google/android/exoplayer2/text/ttml/TtmlDecoder.java:139-144 | a pushed node names a declared region |
| TtmlDecoder.AddChildDeclared | library/core/src/main/java/com/google/android/exoplayer2/text/ttml/TtmlDecoder.java:142-144 | attaching a child with declared regions keeps the parent's regions declared |
| TtmlDecoder.StackRegionsGrow | library/core/src/main/java/com/google/android/exoplayer2/text/ttml/TtmlDecoder.java:256-260 | declaring more regions keeps every stacked node's regions declared |
| TtmlDecoder.StartDeclared | library/core/src/main/java/com/google/android/exoplayer2/text/ttml/TtmlDecoder.java:128-150 | a start tag keeps every node's region declared |
| TtmlDecoder.StepDeclared | library/core/src/main/java/com/google/android/exoplayer2/text/ttml/TtmlDecoder.java:125-167 | one iteration keeps every node's region declared |
| TtmlDecoder.RunDeclared | library/core/src/main/java/com/google/android/exoplayer2/text/ttml/TtmlDecoder.java:124-168 | the loop keeps every node's region declared |
| TtmlDecoder.DecodedRegionsDeclared | library/core/src/main/java/com/google/android/exoplayer2/text/ttml/TtmlDecoder.java:505-511 | a decoded tree names only regions of the subtitle's map, which holds the anonymous one |
| TtmlDecoder.DecodedCuesResolve | library/core/src/main/java/com/google/android/exoplayer2/text/ttml/TtmlNode.java:175-182 | the cues of a decoded document with an image table can always be built |

## Left out

- Float and double rounding: times, lengths, frame rates and cue geometry are exact reals. Only the non-finite results of a division by zero are kept. The sign of a zero is not kept: with `ttp:frameRate="0"` and multiplier `"-1 1"` the source's rate is -0.0, so `5f` gives -Infinity and LONG_MIN, where the model gives LONG_MAX.
- JavaText.ParseInteger: only the ASCII digits 0-9 are digits. `Integer.parseInt` and `Long.parseLong` also accept other Unicode decimal digits, so `ttp:frameRate="٣٠"` is 30 in the source and a NumberFormatException in the model.
- Case mapping beyond ASCII: `toLowerCase`, `toLowerInvariant` and `equalsIgnoreCase` map only A-Z.
- The regular-expression engine: the five fixed patterns are recognised by hand.
- The XML tokenizer: the input is a sequence of events, and the tokenizer's failure is a `Malformed` event. The IOException path is not modelled, since the input is a byte array in memory.
- `XmlPullParserUtil.getAttributeValue` is taken to return the first attribute with the local name.
- Base64 and BitmapFactory decoding are a parameter `decodeImage`, and a bitmap is an opaque handle.
- These library classes are not part of this model:
  - TtmlStyle (only the attributes the decoder sets are recorded; `chain` is a list of the chained styles);
  - TtmlRegion (a record of the parsed values);
  - TtmlRenderUtil: `applyTextElementSpacePolicy`, `endParagraph` and `resolveStyle` are parameters, and `applyStylesToSpan` is a recorded span;
  - ColorParser (a parameter);
  - TtmlSubtitle;
  - the Cue constructor;
  - Log.
- The anonymous region's geometry: the anonymous region has none. Its cue is built without a placement, where the source reads the fields of `new TtmlRegion(null)`.
- TtmlCues.CueOf: the span positions are not shifted when `cleanUpText` deletes characters. The text is cleaned up; the spans keep pass two's offsets.
- Node identity: nodes are values. A child is attached to its parent when it is popped, not when it is pushed; in a balanced document the tree is the same. A subtitle that shares the live `globalStyles` map with the decoder is a copy here.
- HashMap iteration order: the per-node offset maps and `regionOutputs` entries are visited in an unspecified order. Pass two's result does not depend on it, since each region gets its own span.
- Per-node offset maps: one side table keyed by the node's path, fresh for each query, stands in for the maps kept on the nodes between queries.
- TtmlCues.StringLess compares UTF-16 code units as `char` values. Region ids outside the Basic Multilingual Plane are not distinguished from that order.
- TtmlCues.PlacementOf: the cue line is the corrected `LineYValue`, not `getLineYValue` as written (see Findings). For a middle or end anchor with a percentage height, the source's line is y/100 + share·height and the model's is y/100 + share·height/100; the region at `10% 20%` of size `50% 30%`, centred, gives 15.2 in the source and 0.35 here. TtmlCues.CueOf, TtmlCues.RegionCue, TtmlCues.CuesInOrder and TtmlCues.GetCues carry that line.
- TtmlStyle.ApplyStyleAttribute: `tts:fontSize` is read with the corrected `ParseFontSize`, not FONT_SIZE as written (see Findings). Values whose separator is not a dot are ignored here: `-5px`, `+5px` and `1e5px` set the size to -5, 5 and 100000 in the source. `1x5px` ends the source's `decode` with an uncaught NumberFormatException, where the model decodes on. TtmlStyle.ParseStyleAttributes, TtmlDecoder.NodeOf, TtmlDecoder.ParseNode, TtmlDecoder.PushNode, TtmlDecoder.DecodeEvents and TtmlDecoder.Decode inherit this.
- TtmlCleanUp.CleanUpProperties: it states where spaces may stand and that the non-space characters are kept, but not that a run of spaces between two other characters leaves exactly one. A clean-up that deleted every space would also meet it; TtmlCleanUp.CollapsesRuns shows the single space on `"a   b"` only.
- The SimpleSubtitleDecoder lifecycle and the constructor's parser-factory setup.

## Findings

| source | as written | input that shows it | evidently intended | confidence | as-written member | corrected member |
|---|---|---|---|---|---|---|
| library/core/src/main/java/com/google/android/exoplayer2/text/ttml/TtmlDecoder.java:83 | FONT_SIZE writes `([0-9]*.)?` with an unescaped `.`, so any character before the last digits matches: `-5px`, `+5px` and `1e5px` set sizes -5, 5 and 100000. With any other separator `Float.valueOf` throws NumberFormatException, which neither `parseStyleAttributes`, the per-node try nor `decode` catches. | `<p tts:fontSize="1x5px">` | a decimal point only; any other value is a SubtitleDecoderException that is caught, so the font size is ignored | not executed | TtmlStyle.FontSizeAsWritten, TtmlStyle.FontSizeSeparatorThrows, TtmlStyle.FontSizeFindingExample | TtmlStyle.ParseFontSize, TtmlStyle.FontSizeAsWrittenAgrees |
| library/core/src/main/java/com/google/android/exoplayer2/text/ttml/TtmlNode.java:205-218 | `getLineYValue` divides a percentage y by 100 but adds `region.height.value` raw for middle and end anchors | origin `10% 20%`, extent `50% 30%`, displayAlign `center`: line 15.2 | the height converted like y, giving 0.35, a fraction inside the region | not executed | TtmlCues.LineYValueAsWritten, TtmlCues.LineYValueExample, TtmlCues.LineYValueAsWrittenOffRegion | TtmlCues.LineYValue, TtmlCues.LineInsideRegion |
