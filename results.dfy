/** Failure-carrying values: Java's null and Java's exceptions, made explicit. */
module Results {

  /** A Java reference that may be null. */
  datatype Option<+T> = None | Some(value: T)

  /** The value a Java method returns, or the exception it throws. */
  datatype Result<+T, +E> = Success(value: T) | Failure(error: E)

  /** The outcome of a Java `void` method: it returns normally or throws. */
  datatype Outcome<+E> = Pass | Fail(error: E)

  /**
   * The exceptions the domain layer throws. `UsuarioInvalidoException` is
   * raised both for invalid data and for a duplicate email: only the message
   * tells those two apart, so the model keeps one constructor for both.
   */
  datatype Error =
    | IllegalArgument(message: string)      // java.lang.IllegalArgumentException
    | UsuarioInvalido(message: string)      // UsuarioInvalidoException
    | UsuarioNaoEncontrado(message: string) // UsuarioNaoEncontradoException
    | NullPointer(message: string)          // java.lang.NullPointerException
}
