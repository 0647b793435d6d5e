/** Small shared vocabulary: optional values and the diagnostic kinds. */
module Wrappers {
  /** A value that may be absent; stands for the C code's NULL pointers. */
  datatype Option<+T> = None | Some(value: T)
}

/**
 * Diagnostic kinds reported by the builder, the checker and the emitter.
 * The C code ORs one-bit flags into an `ErrorType`; here a composite value
 * is a set of kinds and OR is set union, so `{}` plays the part of ERR_NONE.
 */
module Errors {
  datatype ErrorKind =
    | SemRedeclaredSymbol      // ERR_SEM_REDECLARED_SYMBOL
    | ArrayZeroSize            // ERR_ARRAY_ZERO_SIZE
    | UndeclaredSymbol         // ERR_UNDECLARED_SYMBOL (the process exits)
    | UseUndefinedFunction     // ERR_USE_UNDEFINED_FUNCTION (printed only)
    | SemIsNotCallable         // ERR_SEM_IS_NOT_CALLABLE
    | FunctionAsRvalue         // ERR_FUNCTION_AS_RVALUE
    | ReturnTypeNonVoid        // ERR_RETURN_TYPE_NON_VOID
    | ReturnTypeVoid           // ERR_RETURN_TYPE_VOID
    | MainUnavailable          // ERR_MAIN_UNAVAILABLE
    | MainReturnType           // ERR_MAIN_RETURN_TYPE
    | MainParam                // ERR_MAIN_PARAM
    | WarnReturnWithoutValue   // WARN_RETURN_WITHOUT_VALUE (printed only)

  type ErrorSet = set<ErrorKind>

  /** How a pass can end early: exit() with an error's code, or the process dying on a failed assert or a NULL dereference. */
  datatype Stop = Exited(code: ErrorKind) | Aborted
}
