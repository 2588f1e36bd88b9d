/** Result shapes shared by the whole model. */
module Common {

  /** Rust's `Option<T>`. */
  datatype Option<+T> = None | Some(value: T)

  /** Rust's `Result<T, &'static str>`: every error in this program is a static message. */
  datatype Result<+T> = Ok(value: T) | Err(error: string)

  /** Whether a call returned normally or panicked (`panic!`, `assert!`, an arithmetic
      underflow or an empty random range). A panic is not an `Err`: it ends the program. */
  datatype Outcome<+T> = Done(value: T) | Panic(message: string)

  /** A city's coordinates: Rust's `(f64, f64)`, with `f64` values modelled as reals. */
  type Point = (real, real)

  /** `usize::MAX` on a 64-bit target. */
  const USIZE_MAX: nat := 0xFFFF_FFFF_FFFF_FFFF

  function Min(a: nat, b: nat): nat { if a <= b then a else b }
  function Max(a: nat, b: nat): nat { if a <= b then b else a }
}
