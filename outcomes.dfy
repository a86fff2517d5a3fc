/** Nullable values and the typed failures the services raise.
    A Java reference that may be null becomes an Option; a method that either
    returns a value or throws one of the application's exceptions returns a
    Result whose error names the exception class. */
module Outcomes {

  datatype Option<+T> = None | Some(value: T)

  /** The application exceptions (NotFoundException, NotAvailableException,
      BadRequestParamException, AlreadyExistsException). */
  datatype Error = NotFound | NotAvailable | BadRequestParam | AlreadyExists

  datatype Result<+T> = Ok(value: T) | Err(error: Error)
}
