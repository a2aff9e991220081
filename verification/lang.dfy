/** Java-language notions the authorization model needs: null references,
    the argument of `equals(Object)`, the exceptions the code throws, calls on
    mutable objects that may throw, and the 32-bit `int`. */
module Lang {

  /** A reference that may be null. */
  datatype Option<+T> = None | Some(value: T)

  /** The argument of a Java `equals(Object obj)`: null, an instance of some
      other class, or an instance of the receiver's own class. */
  datatype Obj<+T> = Null | Foreign | Is(value: T)

  /** A possibly-null field passed on to `equals(Object)`. */
  function AsObj<T>(o: Option<T>): (r: Obj<T>)
    ensures r.Null? <==> o.None?
    ensures r.Is? ==> o == Some(r.value)
  {
    match o
    case None => Null
    case Some(v) => Is(v)
  }

  /** The exceptions thrown by the modelled code. */
  datatype Exception =
    | IllegalArgument(message: string)
    | IllegalState(message: string)
    | NullPointer
    | UnsupportedOperation
    | AuthorizationService(message: string)
    | PipProcessing(message: string)

  /** A value returned normally, or the exception thrown instead. */
  datatype Outcome<+T> = Success(value: T) | Failure(error: Exception)

  /** A call on a mutable object: the object's state after the call, and the
      exception the call threw, if any. */
  datatype Effect<+T> = Effect(after: T, thrown: Option<Exception>)

  /** Java's `int`. */
  type Int32 = x: int | -0x8000_0000 <= x < 0x8000_0000
}
