/**
  The regular-expression library the search tool calls, kept abstract.

  Which expressions compile and what a compiled expression matches are the two
  parameters of an `Engine`; nothing about Go's regular-expression syntax is
  assumed. A compiled expression is identified by the text it was compiled
  from, since compiling is deterministic.
*/
module Regex {
  import opened Wrappers

  datatype Engine = Engine(compiles: string -> bool, matches: (string, string) -> bool)

  /** A compiled regular expression. */
  datatype Regexp = Regexp(expr: string)

  /** The error a failed compilation reports. */
  datatype SyntaxError = SyntaxError(expr: string)

  function Compile(eng: Engine, expr: string): Result<Regexp, SyntaxError>
  {
    if eng.compiles(expr) then Success(Regexp(expr)) else Failure(SyntaxError(expr))
  }

  /** Whether `re` finds a match anywhere in `subject`. */
  predicate Match(eng: Engine, re: Regexp, subject: string)
  {
    eng.matches(re.expr, subject)
  }
}
