/** The C++ exceptions that reach the PHP boundary, the set of them that poisons a
    connection, and their translation to PHP exceptions. */
module Exceptions {

  /** The dynamic classes that matter to the two dynamic_cast cascades. `OtherError` is any
      other std::exception (UnimplementedError, OpenSSLError, std::runtime_error, ...). */
  datatype Exc =
    | ServerException(code: int)
    | ProtocolError
    | CompressionError
    | AssertionError
    | ConnectionError
    | ValidationError
    | OtherError

  datatype Result<+T> = Ok(value: T) | Err(error: Exc)

  datatype Option<+T> = None | Some(value: T)

  /** True when a failed operation leaves the connection unusable. */
  predicate Poisons(e: Exc) {
    e.ConnectionError? || e.ProtocolError? || e.CompressionError? || e.AssertionError?
  }

  datatype PhpException =
    | PhpServerException(code: int)
    | PhpProtocolException
    | PhpConnectionException
    | PhpValueError
    | PhpClickHouseException
    | Foreign(id: nat)   // raised by the engine, e.g. a coroutine cancellation

  /** The pending PHP exception of the executor, and the only operation that sets it here. */
  class Executor {
    var exception: Option<PhpException>

    constructor ()
      ensures exception == None
    {
      exception := None;
    }

    /** The branch cascade at the boundary: a pending exception wins. */
    method TranslateAndThrow(e: Exc)
      modifies this
      ensures old(exception).Some? ==> exception == old(exception)
      ensures old(exception).None? ==> exception == Some(Translated(e))
    {
      if exception.Some? {
        return;
      }
      if e.ServerException? {
        exception := Some(PhpServerException(e.code));
        return;
      }
      if e.ProtocolError? || e.CompressionError? || e.AssertionError? {
        exception := Some(PhpProtocolException);
        return;
      }
      if e.ConnectionError? {
        exception := Some(PhpConnectionException);
        return;
      }
      if e.ValidationError? {
        exception := Some(PhpValueError);
        return;
      }
      exception := Some(PhpClickHouseException);
    }
  }

  /** What the caller sees for a failure when nothing was pending. */
  function Translated(e: Exc): PhpException {
    match e
    case ServerException(code) => PhpServerException(code)
    case ProtocolError => PhpProtocolException
    case CompressionError => PhpProtocolException
    case AssertionError => PhpProtocolException
    case ConnectionError => PhpConnectionException
    case ValidationError => PhpValueError
    case OtherError => PhpClickHouseException
  }

  /** The two cascades agree: a connection is given up exactly for the failures that the caller
      sees as a connection or a protocol exception, unless an exception was pending before. */
  lemma {:induction false} PoisonIsWhatTheCallerSees(e: Exc)
    ensures Poisons(e) <==> Translated(e) == PhpConnectionException || Translated(e) == PhpProtocolException
    ensures Translated(e) == PhpConnectionException <==> e.ConnectionError?
  {
  }

  /** Class by class: a server error keeps its code, a caller's mistake is a ValueError, the three
      decoding failures are one class, and what is none of these is the base class. */
  lemma {:induction false} EveryClassIsSeenAs(e: Exc)
    ensures forall code :: Translated(e) == PhpServerException(code) <==> e == ServerException(code)
    ensures Translated(e) == PhpValueError <==> e == ValidationError
    ensures Translated(e) == PhpConnectionException <==> e == ConnectionError
    ensures Translated(e) == PhpProtocolException <==> e in {ProtocolError, CompressionError, AssertionError}
    ensures Translated(e) == PhpClickHouseException <==> e == OtherError
    ensures Poisons(e) <==> e in {ConnectionError, ProtocolError, CompressionError, AssertionError}
  {
  }
}
