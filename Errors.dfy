/**
 * The exceptions the compiler core raises. A LithiumCompilerException's message is
 * represented by the fault it reports; the text formatting is not modelled.
 */
module Errors {
  import Grammar

  /** Why a LithiumCompilerException was raised. */
  datatype CompilerFault =
    | CannotRegisterLocal
    | ReturnOutsideFunction
    | BreakOutsideLoop
    | CannotRegisterJumpLabel
    | LabelNotFound(labelName: string)
    | UnrecognizedStatement(term: Grammar.Term)
    | UnrecognizedExpression(term: Grammar.Term)

  /** A thrown CLR exception, by type. */
  datatype Exception =
    | CompilerException(fault: CompilerFault)  // LithiumCompilerException
    | NotImplemented                           // NotImplementedException
    | NullReference                            // NullReferenceException
    | IndexOutOfRange                          // ArgumentOutOfRangeException from a list index
    | InvalidOperation                         // InvalidOperationException from Single/SingleOrDefault
    | DuplicateKey(key: string)                // ArgumentException from Dictionary.Add
    | SubstringOutOfRange                      // ArgumentOutOfRangeException from String.Substring
    | BadNumberFormat                          // FormatException from Convert.ToUInt32
    | BadArgument                              // ArgumentException from a library call
}
