/** Values shared by every part of the model: Java's null and Java's 32-bit int. */
module Base {

  /** A Java reference that may be null: `None` stands for null. */
  datatype Option<+T> = None | Some(value: T)

  const INT32_MIN: int := -0x8000_0000
  const INT32_MODULUS: int := 0x1_0000_0000

  /** Java's `int`. */
  type int32 = x: int | INT32_MIN <= x < INT32_MIN + INT32_MODULUS

  /** The Java `int` that an exact integer result is truncated to (two's-complement wrap-around). */
  function WrapInt32(x: int): (r: int32)
    ensures (r - x) % INT32_MODULUS == 0
    ensures INT32_MIN <= x < INT32_MIN + INT32_MODULUS ==> r == x
  {
    var m := x % INT32_MODULUS;
    if m >= INT32_MODULUS / 2 then m - INT32_MODULUS else m
  }

  function Last<T>(s: seq<T>): T
    requires |s| > 0
  {
    s[|s| - 1]
  }

  function DropLast<T>(s: seq<T>): seq<T>
    requires |s| > 0
  {
    s[..|s| - 1]
  }
}
