/** The exceptions the converter can throw, one constructor per PHP exception
    class, each carrying the message the PHP code builds. The messages of
    ParseError and TypeError come from the PHP runtime instead: the model's
    ParseError text is an approximation, since PHP also appends the position
    and the reason of the parse failure. */
module Errors {

  datatype Error =
    | DomainError(message: string)       // \DomainException
    | InvalidArgument(message: string)   // \InvalidArgumentException
    | OutOfRange(message: string)        // \OutOfRangeException
    | ParseError(message: string)        // \Exception thrown by the DateTime constructor
    | IOError(message: string)           // \Exception for an import file that cannot be opened
    | TypeError(message: string)         // \TypeError thrown by the PHP runtime

  const NotPreparedMessage := "GemeindeIT\\iCalConverter\\Converter was not prepared with data."
  /** count() of a magic component property with no such child, which the
      library returns as null (PHP 8 refuses to count null). */
  const CountNullMessage := "count(): Argument #1 ($value) must be of type Countable|array, null given"
  const NoModifiersMessage := "GemeindeIT\\iCalConverter\\Converter has no modifiers set up."
}
