/** Machine integers, error codes and results shared by every component. */
module Prelude {

  const TWO_8: int := 0x100
  const TWO_16: int := 0x1_0000
  const TWO_32: int := 0x1_0000_0000
  const TWO_63: int := 0x8000_0000_0000_0000
  const TWO_64: int := 0x1_0000_0000_0000_0000

  type byte = x: int | 0 <= x < 0x100
  type u32 = x: int | 0 <= x < 0x1_0000_0000
  type u64 = x: int | 0 <= x < 0x1_0000_0000_0000_0000
  type i64 = x: int | -0x8000_0000_0000_0000 <= x < 0x8000_0000_0000_0000

  /** The codes of `enum nb_err` that the modelled code raises. Every error handler of the library ends
      the run, so an error is a final outcome. The last two codes are not in the enum: `ErrAssert` is a
      failed `assert`, and `ErrUndefined` an access whose effect the C language does not define. */
  datatype NbErr =
    | ErrParse | ErrItem | ErrEof | ErrRange | ErrOper | ErrIndef | ErrUnsup
    | ErrBreak | ErrNitems | ErrUndefId | ErrOther | ErrAssert | ErrUndefined

  datatype Option<+T> = None | Some(value: T)

  datatype Result<+T> = Ok(value: T) | Err(error: NbErr) {
    predicate IsFailure() {
      Err?
    }

    function PropagateFailure<U>(): Result<U>
      requires Err?
    {
      Err(error)
    }

    function Extract(): T
      requires Ok?
    {
      value
    }
  }

  function Min(a: int, b: int): int {
    if a <= b then a else b
  }

  function Max(a: int, b: int): int {
    if a >= b then a else b
  }

  /** The bytes that `strlen` and `strcmp` see of a buffer: those before its first NUL. */
  function CStr(bs: seq<byte>): (r: seq<byte>)
    ensures |r| <= |bs| && r == bs[..|r|]
    ensures 0 !in r
    ensures |r| < |bs| ==> bs[|r|] == 0
  {
    if bs == [] || bs[0] == 0 then [] else [bs[0]] + CStr(bs[1..])
  }

  lemma CStrOfCString(bs: seq<byte>)
    requires 0 !in bs
    ensures CStr(bs) == bs
  {}
}
