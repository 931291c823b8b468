/** Java value types the repository uses, stated in Dafny's terms. */
module JavaLang {

  /** A nullable reference: `None` is Java's `null`. */
  datatype Option<+T> = None | Some(value: T)

  /** The result of a `void` operation that may throw: `Fail` carries the exception. */
  datatype Outcome<+E> = Pass | Fail(error: E)

  /** `java.lang.Long`: a signed 64-bit integer. */
  type Long = x: int | -0x8000_0000_0000_0000 <= x < 0x8000_0000_0000_0000

  /** `java.lang.Integer`: a signed 32-bit integer. */
  type Integer = x: int | -0x8000_0000 <= x < 0x8000_0000

  /** `java.time.LocalDateTime`, as a count of ticks; the model only compares instants for equality. */
  type LocalDateTime = int

  /** Spring's `StringUtils.isEmpty`: null or the empty string. */
  predicate IsEmpty(s: Option<string>) {
    s == None || s == Some("")
  }
}
