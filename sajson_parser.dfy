/** The second adapter file: a copy of the rapidjson adapter (same class name,
    same reported name) whose parse only says whether the input was accepted,
    and which carries its own, unused copy of the correspondence table.  Its
    parse touches no member, so it is modelled by functions. */
module SajsonAdapter {
  import opened ParsingResults
  import opened RapidjsonErrors
  import opened UnorderedMaps
  import RapidjsonAdapter

  /** The name this adapter hands to its `Parser` base. */
  const AdapterName: string := "rapidjson"

  /** The initializer list of `error_correspondances`, typed as the
      taxonomy values its entries are. */
  const ErrorCorrespondanceEntries: seq<(ParseErrorCode, ParsingResult)> := [
    (ParseErrorNone, Ok),
    (ParseErrorDocumentEmpty, OtherError),
    (ParseErrorDocumentRootNotSingular, OtherError),
    (ParseErrorValueInvalid, OtherError),
    (ParseErrorObjectMissName, OtherError),
    (ParseErrorObjectMissColon, OtherError),
    (ParseErrorObjectMissCommaOrCurlyBracket, OtherError),
    (ParseErrorArrayMissCommaOrSquareBracket, OtherError),
    (ParseErrorStringUnicodeEscapeInvalidHex, EncodingError),
    (ParseErrorStringUnicodeSurrogateInvalid, StringError),
    (ParseErrorStringEscapeInvalid, StringError),
    (ParseErrorStringMissQuotationMark, StringError),
    (ParseErrorStringInvalidEncoding, StringError),
    (ParseErrorNumberTooBig, NumberError),
    (ParseErrorNumberMissFraction, NumberError),
    (ParseErrorNumberMissExponent, NumberError),
    (ParseErrorTermination, OtherError),
    (ParseErrorUnspecificSyntaxError, OtherError)
  ]

  /** `error_correspondances`: the map the initializer list builds. */
  const ErrorCorrespondances: map<ParseErrorCode, ParsingResult> := FromEntries(ErrorCorrespondanceEntries)

  /** Parses exactly the first `size` bytes of `json` with a fresh document and
      reports whether rapidjson accepted them. */
  function Parse(rapidjson: Backend, json: seq<byte>, size: int): (accepted: bool)
    requires 0 <= size <= |json|
    ensures accepted <==> rapidjson(json[..size]) == ParseErrorNone
  {
    !HasParseError(rapidjson(json[..size]))
  }

  /** The two tables are the same list of entries, hence the same map. */
  lemma TablesCoincide()
    ensures ErrorCorrespondanceEntries == RapidjsonAdapter.ResultCorrespondanceEntries
    ensures ErrorCorrespondances == RapidjsonAdapter.ResultCorrespondances
  {
  }

  /** This table, too, is total over the native codes, with the taxonomy's
      category of each. */
  lemma TableAgreesWithCategory(code: ParseErrorCode)
    ensures code in ErrorCorrespondances
    ensures ErrorCorrespondances[code] == Category(code)
  {
    TablesCoincide();
    RapidjsonAdapter.TableAgreesWithCategory(code);
  }

  /** No native code has two entries in this table either. */
  lemma EntryKeysDistinct()
    ensures KeysDistinct(ErrorCorrespondanceEntries)
  {
    TablesCoincide();
    RapidjsonAdapter.EntryKeysDistinct();
  }

  /** The two adapters agree on acceptance: this one accepts exactly when the
      other one's table sends rapidjson's code to `ok`. */
  lemma AdaptersAgreeOnAcceptance(rapidjson: Backend, json: seq<byte>, size: int)
    requires 0 <= size <= |json|
    ensures rapidjson(json[..size]) in RapidjsonAdapter.ResultCorrespondances
    ensures Parse(rapidjson, json, size)
            <==> RapidjsonAdapter.ResultCorrespondances[rapidjson(json[..size])] == Ok
  {
    RapidjsonAdapter.OnlySuccessMapsToOk(rapidjson(json[..size]));
  }

  /** Both adapters report the same name. */
  lemma NamesCoincide()
    ensures AdapterName == RapidjsonAdapter.AdapterName
  {
  }
}
