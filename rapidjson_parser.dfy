/** The rapidjson adapter: a parser object that remembers the native code of
    its last parse and reports the taxonomy value that code maps to. */
module RapidjsonAdapter {
  import opened ParsingResults
  import opened RapidjsonErrors
  import opened UnorderedMaps

  /** The name the adapter hands to its `Parser` base. */
  const AdapterName: string := "rapidjson"

  /** The initializer list of `result_correspondances`, entry by entry. */
  const ResultCorrespondanceEntries: seq<(ParseErrorCode, ParsingResult)> := [
    (ParseErrorNone, Ok),
    (ParseErrorDocumentEmpty, OtherError),
    (ParseErrorDocumentRootNotSingular, OtherError),
    (ParseErrorValueInvalid, OtherError),
    (ParseErrorObjectMissName, OtherError),
    (ParseErrorObjectMissColon, OtherError),
    (ParseErrorObjectMissCommaOrCurlyBracket, OtherError),
    (ParseErrorArrayMissCommaOrSquareBracket, OtherError),
    (ParseErrorStringUnicodeEscapeInvalidHex, EncodingError),
    (ParseErrorStringUnicodeSurrogateInvalid, StringError),
    (ParseErrorStringEscapeInvalid, StringError),
    (ParseErrorStringMissQuotationMark, StringError),
    (ParseErrorStringInvalidEncoding, StringError),
    (ParseErrorNumberTooBig, NumberError),
    (ParseErrorNumberMissFraction, NumberError),
    (ParseErrorNumberMissExponent, NumberError),
    (ParseErrorTermination, OtherError),
    (ParseErrorUnspecificSyntaxError, OtherError)
  ]

  /** Every entry of the list pairs a native code with that code's category. */
  lemma EntriesFollowCategory()
    ensures forall i | 0 <= i < |ResultCorrespondanceEntries| ::
              ResultCorrespondanceEntries[i].1 == Category(ResultCorrespondanceEntries[i].0)
  {
  }

  /** Every native code has an entry in the list. */
  lemma EntriesCoverEveryCode(code: ParseErrorCode)
    ensures (code, Category(code)) in ResultCorrespondanceEntries
  {
  }

  /** No native code has two entries: the entries follow the enumeration's
      declaration order, one code per position. */
  lemma EntryKeysDistinct()
    ensures KeysDistinct(ResultCorrespondanceEntries)
  {
    var e := ResultCorrespondanceEntries;
    assert forall i | 0 <= i < |e| :: Position(e[i].0) == i;
  }

  /** Reading the entry list for any native code finds an entry, and the first
      one found carries the taxonomy's category of that code. */
  lemma EntriesClassifyEveryCode(code: ParseErrorCode)
    ensures FirstValueFrom(ResultCorrespondanceEntries, code, 0) == Some(Category(code))
  {
    var entries := ResultCorrespondanceEntries;
    EntriesFollowCategory();
    EntriesCoverEveryCode(code);
    var j :| 0 <= j < |entries| && entries[j] == (code, Category(code));
    FirstValueOfConsistent(entries, Category, 0, j);
  }

  /** `result_correspondances`: the map the initializer list builds. */
  const ResultCorrespondances: map<ParseErrorCode, ParsingResult> := FromEntries(ResultCorrespondanceEntries)

  /** Every entry of the list is in the map exactly as written, whichever
      entry the library would keep for a repeated key. */
  lemma TableHoldsEveryEntry(j: nat)
    requires j < |ResultCorrespondanceEntries|
    ensures ResultCorrespondanceEntries[j].0 in ResultCorrespondances
    ensures ResultCorrespondances[ResultCorrespondanceEntries[j].0] == ResultCorrespondanceEntries[j].1
  {
    EntryKeysDistinct();
    FromEntriesOfDistinct(ResultCorrespondanceEntries, j);
  }

  /** The table is total over the native codes and agrees with the taxonomy's
      category of each: `result_correspondances.at(code)` never throws. */
  lemma TableAgreesWithCategory(code: ParseErrorCode)
    ensures code in ResultCorrespondances
    ensures ResultCorrespondances[code] == Category(code)
  {
    EntriesClassifyEveryCode(code);
    FromEntriesAt(ResultCorrespondanceEntries, code, 0);
  }

  /** `result_correspondances.at(code)`, which always finds its key. */
  function ResultCorrespondanceAt(code: ParseErrorCode): (r: ParsingResult)
    ensures r == Category(code)
    ensures r == Ok <==> !HasParseError(code)
  {
    TableAgreesWithCategory(code);
    ResultCorrespondances[code]
  }

  /** Success is the only native code the table sends to `ok`; every other
      code is sent to one of the four error outcomes. */
  lemma OnlySuccessMapsToOk(code: ParseErrorCode)
    ensures code in ResultCorrespondances
    ensures ResultCorrespondances[code] == Ok <==> code == ParseErrorNone
  {
    assert (Category(code) == Ok) == (code == ParseErrorNone);
    TableAgreesWithCategory(code);
  }

  /** The table sends a code to `number_error` iff it is one of the three
      malformed-number codes. */
  lemma NumberCodesMapToNumberError(code: ParseErrorCode)
    ensures code in ResultCorrespondances
    ensures ResultCorrespondances[code] == NumberError <==> code in NumberCodes
  {
    assert (Category(code) == NumberError) == (code in NumberCodes);
    TableAgreesWithCategory(code);
  }

  /** A bad hex digit in a `\u` escape, and nothing else, is an encoding error. */
  lemma HexEscapeMapsToEncodingError(code: ParseErrorCode)
    ensures code in ResultCorrespondances
    ensures ResultCorrespondances[code] == EncodingError <==> code == ParseErrorStringUnicodeEscapeInvalidHex
  {
    assert (Category(code) == EncodingError) == (code == ParseErrorStringUnicodeEscapeInvalidHex);
    TableAgreesWithCategory(code);
  }

  /** The table sends a code to `string_error` iff it is one of the other four
      string codes. */
  lemma StringCodesMapToStringError(code: ParseErrorCode)
    ensures code in ResultCorrespondances
    ensures ResultCorrespondances[code] == StringError <==> code in StringCodes
  {
    assert (Category(code) == StringError) == (code in StringCodes);
    TableAgreesWithCategory(code);
  }

  /** The table sends a code to `other_error` iff it is a document-level,
      object, array, termination or unspecific syntax failure. */
  lemma StructuralCodesMapToOtherError(code: ParseErrorCode)
    ensures code in ResultCorrespondances
    ensures ResultCorrespondances[code] == OtherError <==> code in StructuralCodes
  {
    assert (Category(code) == OtherError) == (code in StructuralCodes);
    TableAgreesWithCategory(code);
  }

  /** The adapter object.  `lastResult` is the native code of the most recent
      parse; C++ leaves it uninitialised until then, so the ghost flag
      `hasParsed` records whether it may be read. */
  class RapidjsonParser {
    const name: string
    var lastResult: ParseErrorCode
    ghost var hasParsed: bool

    constructor ()
      ensures name == AdapterName && !hasParsed
    {
      name := AdapterName;
      hasParsed := false;
    }

    /** Parses exactly the first `size` bytes of `json` with a fresh document,
        records rapidjson's code and returns its image under the table.  Only
        `lastResult` changes, and the outcome does not depend on it. */
    method Parse(rapidjson: Backend, json: seq<byte>, size: int) returns (r: ParsingResult)
      requires 0 <= size <= |json|
      modifies this`lastResult, this`hasParsed
      ensures hasParsed && lastResult == rapidjson(json[..size])
      ensures r == Category(lastResult)
      ensures r == Ok <==> !HasParseError(lastResult)
    {
      var code := rapidjson(json[..size]);
      lastResult := code;
      hasParsed := true;
      r := ResultCorrespondanceAt(lastResult);
    }

    /** The text of the outcome the last parse produced; `resultToString` is
        the project's outcome-to-text table, which is not part of this model. */
    method GetResultString(resultToString: ParsingResult -> string) returns (s: string)
      requires hasParsed
      ensures s == resultToString(Category(lastResult))
    {
      var fuzzyResult := ResultCorrespondanceAt(lastResult);
      s := resultToString(fuzzyResult);
    }
  }

  /** A parse followed by `get_result_string`: the text reported is that of the
      very outcome the parse returned. */
  method ParseThenDescribe(p: RapidjsonParser, rapidjson: Backend, json: seq<byte>, size: int,
                           resultToString: ParsingResult -> string)
    returns (r: ParsingResult, s: string)
    requires 0 <= size <= |json|
    modifies p
    ensures s == resultToString(r)
    ensures r == Category(rapidjson(json[..size]))
  {
    r := p.Parse(rapidjson, json, size);
    s := p.GetResultString(resultToString);
  }

  /** Two parses of the same bytes on one adapter give the same outcome,
      whatever the first left behind. */
  method ReparseGivesSameOutcome(p: RapidjsonParser, rapidjson: Backend, json: seq<byte>, size: int)
    returns (first: ParsingResult, second: ParsingResult)
    requires 0 <= size <= |json|
    modifies p
    ensures first == second
    ensures p.lastResult == rapidjson(json[..size])
  {
    first := p.Parse(rapidjson, json, size);
    second := p.Parse(rapidjson, json, size);
  }
}
