/**
 * The Python library calls the server relies on, passed in as total functions.
 * `None` stands for the exception the call raises on its argument.
 */
module Library {
  import opened Wrappers
  import opened DateTimes

  datatype Library = Library(
    /** `float(s)`: `None` is the `ValueError` raised for text that is not a number. */
    parseFloat: string -> Option<real>,
    /** `datetime.strptime(s, fmt)`: `None` is the `ValueError` for a mismatch. */
    strptime: (string, string) -> Option<DateTime>,
    /** `datetime.fromtimestamp(x)`: `None` is the error raised for an out-of-range value. */
    fromTimestamp: real -> Option<DateTime>,
    /** `str(x)` for a float, e.g. `str(0.0) == "0.0"`. */
    floatStr: real -> string)
}
