/** The part of the rapidjson library the adapters see: its `ParseErrorCode`
    enumeration, the `HasParseError` test, and the parse entry point, which is
    a foreign call and is therefore passed to the adapters as a function value. */
module RapidjsonErrors {
  import opened ParsingResults

  newtype byte = x: int | 0 <= x < 256

  /** rapidjson::ParseErrorCode, all eighteen values, in declaration order
      (the `kParseError` prefix written without its `k`). */
  datatype ParseErrorCode =
    | ParseErrorNone
    | ParseErrorDocumentEmpty
    | ParseErrorDocumentRootNotSingular
    | ParseErrorValueInvalid
    | ParseErrorObjectMissName
    | ParseErrorObjectMissColon
    | ParseErrorObjectMissCommaOrCurlyBracket
    | ParseErrorArrayMissCommaOrSquareBracket
    | ParseErrorStringUnicodeEscapeInvalidHex
    | ParseErrorStringUnicodeSurrogateInvalid
    | ParseErrorStringEscapeInvalid
    | ParseErrorStringMissQuotationMark
    | ParseErrorStringInvalidEncoding
    | ParseErrorNumberTooBig
    | ParseErrorNumberMissFraction
    | ParseErrorNumberMissExponent
    | ParseErrorTermination
    | ParseErrorUnspecificSyntaxError

  /** The place of a code in the enumeration's declaration order. */
  function Position(code: ParseErrorCode): nat
  {
    match code
    case ParseErrorNone => 0
    case ParseErrorDocumentEmpty => 1
    case ParseErrorDocumentRootNotSingular => 2
    case ParseErrorValueInvalid => 3
    case ParseErrorObjectMissName => 4
    case ParseErrorObjectMissColon => 5
    case ParseErrorObjectMissCommaOrCurlyBracket => 6
    case ParseErrorArrayMissCommaOrSquareBracket => 7
    case ParseErrorStringUnicodeEscapeInvalidHex => 8
    case ParseErrorStringUnicodeSurrogateInvalid => 9
    case ParseErrorStringEscapeInvalid => 10
    case ParseErrorStringMissQuotationMark => 11
    case ParseErrorStringInvalidEncoding => 12
    case ParseErrorNumberTooBig => 13
    case ParseErrorNumberMissFraction => 14
    case ParseErrorNumberMissExponent => 15
    case ParseErrorTermination => 16
    case ParseErrorUnspecificSyntaxError => 17
  }

  /** `Document::Parse(json, size)` followed by `GetParseError()`: the native
      code rapidjson reports for exactly the bytes it was given. */
  type Backend = seq<byte> -> ParseErrorCode

  /** `Document::HasParseError()`: the parse result is an error iff its code is
      not `kParseErrorNone`. */
  predicate HasParseError(code: ParseErrorCode)
  {
    code != ParseErrorNone
  }

  /** The codes for a malformed number literal. */
  const NumberCodes: set<ParseErrorCode> :=
    {ParseErrorNumberTooBig, ParseErrorNumberMissFraction, ParseErrorNumberMissExponent}

  /** The codes for malformed string content, other than a bad `\u` hex digit. */
  const StringCodes: set<ParseErrorCode> :=
    {ParseErrorStringUnicodeSurrogateInvalid, ParseErrorStringEscapeInvalid,
     ParseErrorStringMissQuotationMark, ParseErrorStringInvalidEncoding}

  /** The codes for document-level, object, array and syntax failures. */
  const StructuralCodes: set<ParseErrorCode> :=
    {ParseErrorDocumentEmpty, ParseErrorDocumentRootNotSingular, ParseErrorValueInvalid,
     ParseErrorObjectMissName, ParseErrorObjectMissColon, ParseErrorObjectMissCommaOrCurlyBracket,
     ParseErrorArrayMissCommaOrSquareBracket, ParseErrorTermination, ParseErrorUnspecificSyntaxError}

  /** The taxonomy's reading of each native code, grouped by the construct the
      code names: malformed string content, malformed number, a bad `\u`
      escape (an encoding fault), success, and every structural failure.
      Written as a match so that a new native code cannot go unclassified. */
  function Category(code: ParseErrorCode): ParsingResult
  {
    match code
    case ParseErrorNone => Ok
    case ParseErrorStringUnicodeEscapeInvalidHex => EncodingError
    case ParseErrorStringUnicodeSurrogateInvalid | ParseErrorStringEscapeInvalid
       | ParseErrorStringMissQuotationMark | ParseErrorStringInvalidEncoding => StringError
    case ParseErrorNumberTooBig | ParseErrorNumberMissFraction | ParseErrorNumberMissExponent => NumberError
    case ParseErrorDocumentEmpty | ParseErrorDocumentRootNotSingular | ParseErrorValueInvalid
       | ParseErrorObjectMissName | ParseErrorObjectMissColon | ParseErrorObjectMissCommaOrCurlyBracket
       | ParseErrorArrayMissCommaOrSquareBracket | ParseErrorTermination
       | ParseErrorUnspecificSyntaxError => OtherError
  }
}
