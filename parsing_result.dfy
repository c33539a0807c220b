/** The shared outcome taxonomy every adapter reduces its backend's result to.
    Its declaration lives in the project's `parser.h`; the five values are
    the ones the adapters' tables use. */
module ParsingResults {

  /** `Ok` accepts the input; every other value is a class of rejection. */
  datatype ParsingResult = Ok | StringError | NumberError | EncodingError | OtherError
}
