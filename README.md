# fuzzyjson result normalisation, modelled in Dafny

fuzzyjson is a differential oracle for JSON parsers. It feeds the same bytes to
several parser backends. Each backend adapter reduces its library's native
result to one shared outcome: `ok`, `string_error`, `number_error`,
`encoding_error` or `other_error`. This project models the two adapter headers
that wrap rapidjson:

- `include/rapidjsonparser.h` is the adapter class `RapidjsonParser`. It has a
  constant `unordered_map` from rapidjson's 18 `ParseErrorCode` values to
  outcomes. Its `parse` records the native code in `last_result` and returns
  the code's image under the map. Its `get_result_string` re-derives the
  outcome from `last_result` and returns its text.
- `include/sajsonparser.h` is a copy of that adapter. It keeps the class name
  `RapidjsonParser` and the name `"rapidjson"`. Its `parse` returns only an
  acceptance flag. It carries an identical table that nothing reads.

Files:

- `parsing_result.dfy` (`ParsingResults`): the five-value outcome taxonomy.
- `rapidjson_errors.dfy` (`RapidjsonErrors`): rapidjson's `ParseErrorCode`,
  `HasParseError`, and the library's parse entry point as the function type
  `Backend`. `Category` is a match over the codes. It groups each code by the
  construct it names and is the reference the tables are proved against.
- `unordered_map.dfy` (`UnorderedMaps`): a constant `std::unordered_map`
  built from a braced list of entries. The C++ standard leaves open which of
  several entries with the same key is kept; the model keeps the first, as
  common implementations do. Both tables are proved to have distinct keys,
  so the choice makes no difference to them. `at` on it finds what a linear search
  of the list finds.
- `rapidjson_parser.dfy` (`RapidjsonAdapter`): the table, its totality, the
  per-category facts, and the class `RapidjsonParser` with `Parse` and
  `GetResultString`.
- `sajson_parser.dfy` (`SajsonAdapter`): the boolean `Parse` as a function,
  the duplicate table, and the agreement between the two adapters.

The call into rapidjson (`Document::Parse`, `GetParseError`) is the parameter
`rapidjson: Backend` of each `Parse`. It is applied to `json[..size]`, because
rapidjson is given exactly `size` bytes. `HasParseError` is rapidjson's
"code is not `kParseErrorNone`". `result_to_string` is declared in
`parser.h`, which is not part of this model. It is the parameter
`resultToString` of `GetResultString`.

## Model

| member | source | states |
|---|---|---|
| `UnorderedMaps.FromEntriesFrom` | include/rapidjsonparser.h:38-57 | the map built from an initializer list has exactly the keys the list mentions |
| `UnorderedMaps.FromEntriesAt` | include/rapidjsonparser.h:27 | `at` on the built map succeeds iff some entry has the key, and then yields the value of the first such entry, which for a list with distinct keys is its only entry |
| `UnorderedMaps.FirstValueOfConsistent` | include/rapidjsonparser.h:38-57 | when every entry's value is a fixed function of its key, looking up any key the list holds yields that function of the key, whatever entries precede it |
| `UnorderedMaps.FirstValueOfUnshadowed` | include/rapidjsonparser.h:38-57 | a lookup finds an entry when no entry before it has the same key |
| `UnorderedMaps.FromEntriesOfDistinct` | include/rapidjsonparser.h:38-57 | when no key repeats, the built map holds every entry as written, whatever policy the library follows for repeated keys |
| `RapidjsonAdapter.EntryKeysDistinct` | include/rapidjsonparser.h:39-56 | no native code has two entries in `result_correspondances`: exactly one entry per code |
| `RapidjsonAdapter.TableHoldsEveryEntry` | include/rapidjsonparser.h:38-57 | every entry of the initializer list is in the map exactly as written |
| `RapidjsonAdapter.EntriesFollowCategory` | include/rapidjsonparser.h:39-56 | each of the 18 entries pairs a native code with that code's taxonomy category |
| `RapidjsonAdapter.EntriesCoverEveryCode` | include/rapidjsonparser.h:39-56 | every native code has an entry in the list |
| `RapidjsonAdapter.EntriesClassifyEveryCode` | include/rapidjsonparser.h:39-56 | every one of the 18 native codes has an entry, and its value is the code's taxonomy category |
| `RapidjsonAdapter.TableAgreesWithCategory` | include/rapidjsonparser.h:38-57 | `result_correspondances` is total over the native codes and maps each one to its category |
| `RapidjsonAdapter.ResultCorrespondanceAt` | include/rapidjsonparser.h:27 | `result_correspondances.at(code)` never throws; it yields the code's category, and `ok` iff rapidjson reports no parse error |
| `RapidjsonAdapter.OnlySuccessMapsToOk` | include/rapidjsonparser.h:39-56 | `kParseErrorNone` is the only code mapped to `ok`; every other code maps to an error outcome |
| `RapidjsonAdapter.NumberCodesMapToNumberError` | include/rapidjsonparser.h:52-54 | a code maps to `number_error` iff it is `NumberTooBig`, `NumberMissFraction` or `NumberMissExponent` |
| `RapidjsonAdapter.HexEscapeMapsToEncodingError` | include/rapidjsonparser.h:47 | a code maps to `encoding_error` iff it is `StringUnicodeEscapeInvalidHex` |
| `RapidjsonAdapter.StringCodesMapToStringError` | include/rapidjsonparser.h:48-51 | a code maps to `string_error` iff it is one of the surrogate, escape, missing-quote and invalid-encoding string codes |
| `RapidjsonAdapter.StructuralCodesMapToOtherError` | include/rapidjsonparser.h:40-56 | a code maps to `other_error` iff it is a document, value, object, array, termination or unspecific syntax failure |
| `RapidjsonAdapter.RapidjsonParser.constructor` | include/rapidjsonparser.h:13-16 | a new adapter is named `"rapidjson"` and has not parsed yet |
| `RapidjsonAdapter.RapidjsonParser.Parse` | include/rapidjsonparser.h:20-28 | `last_result` becomes rapidjson's code for exactly the first `size` bytes; the result is that code's category, `ok` iff there was no parse error; nothing else changes, and the previous `last_result` plays no part |
| `RapidjsonAdapter.RapidjsonParser.GetResultString` | include/rapidjsonparser.h:30-33 | after a parse, the text is that of the category of `last_result`; no state changes |
| `RapidjsonAdapter.ParseThenDescribe` | include/rapidjsonparser.h:20-33 | after `parse`, `get_result_string` returns the text of exactly the outcome `parse` returned |
| `RapidjsonAdapter.ReparseGivesSameOutcome` | include/rapidjsonparser.h:20-28 | parsing the same bytes twice on one adapter gives the same outcome |
| `SajsonAdapter.Parse` | include/sajsonparser.h:13-19 | the adapter accepts iff rapidjson reports `kParseErrorNone` for exactly the first `size` bytes; no adapter state is involved |
| `SajsonAdapter.TablesCoincide` | include/sajsonparser.h:22-41 | `error_correspondances` is entry for entry the list of `result_correspondances`, hence the same map |
| `SajsonAdapter.TableAgreesWithCategory` | include/sajsonparser.h:22-41 | `error_correspondances` is total over the same 18 codes, with each code's category |
| `SajsonAdapter.EntryKeysDistinct` | include/sajsonparser.h:22-41 | no native code has two entries in `error_correspondances` |
| `SajsonAdapter.AdaptersAgreeOnAcceptance` | include/sajsonparser.h:18 | for every input, this adapter's flag is true iff the other adapter's table maps rapidjson's code to `ok` |
| `SajsonAdapter.NamesCoincide` | include/sajsonparser.h:12 | this adapter's name equals the other adapter's, `"rapidjson"` |

## Left out

- The JSON parsing inside rapidjson (`Document::Parse`, `GetParseError`) is a foreign library. It is the function parameter `Backend`.
- `result_to_string`, the `Parser` base class and the `ParsingResult` declaration are in `parser.h`, which is not part of this model. The outcome's text is the parameter `resultToString`; the five outcome values are those the tables use.
- Reading `last_result` before any parse is undefined in C++, because the field is uninitialised. `GetResultString` requires the ghost flag `hasParsed` instead of inventing a default.
- `result_correspondances` is a per-object member in C++. It is never written after construction, so it is the module constant `ResultCorrespondances`, shared by every adapter object.
- `include/sajsonparser.h` does not compile as written. Its map's value type is `Parser` while its entries are `ParsingResult` values, and its `bool parse` overrides a base member that returns `ParsingResult`. The model types the values as `ParsingResult` and keeps the `bool` result.
- Both headers declare `fuzzyjson::RapidjsonParser`, so they cannot be linked into one program. The model puts them in separate modules. The second adapter is named for sajson but wraps rapidjson and reports the name `"rapidjson"`; the model keeps that as written.
- `HasParseError` is rapidjson's own definition of `Document::HasParseError()`, used by the acceptance flag at include/sajsonparser.h:18: the code is not `kParseErrorNone`. It belongs to the library boundary, so it has no contract of its own; the contracts of both `Parse` members and of `AdaptersAgreeOnAcceptance` state what it means.
- The comparator that drives several adapters and computes agreement has no implementation in these files.
- `dependencies/simdjson_saka1/benchmark/benchmark.h` is timing instrumentation (cycle counters, clocks, floating-point rates, printing). It does not affect classification.
- `size` is required to be between 0 and the buffer length. A negative `int` size becomes a huge `size_t` inside rapidjson, and a larger one reads past the buffer; both are undefined behaviour in the source.
