/** Values exchanged with the data-acquisition board library (open and read calls).
    The calls themselves are not modelled: their outcomes are inputs of the core. */
module Hat {

  /** The library's success code, RESULT_SUCCESS. */
  const ResultSuccess: int := 0

  /** Result of a board open: the code the library returned. */
  datatype Status = Status(code: int)

  /** Result of one channel read: the code the library returned and the value it wrote. */
  datatype Reading = Reading(code: int, value: real)

  /** The callers keep a library code in a `uint8_t` before comparing it with RESULT_SUCCESS,
      so a call counts as failed when its code is not 0 modulo 256. */
  predicate Failed(code: int)
  {
    code % 256 != ResultSuccess
  }

  /** The value a caller sees when a library code is stored in a `uint8_t` and then returned
      from a function declared `int8_t`: reduced modulo 256, then read as two's complement.
      It is nonzero exactly when the call counted as failed. */
  function ReturnCode(code: int): (r: int)
    ensures -128 <= r < 128
    ensures (r - code) % 256 == 0
    ensures -128 <= code < 128 ==> r == code
    ensures r != 0 <==> Failed(code)
  {
    var u := code % 256;
    if u < 128 then u else u - 256
  }
}
