/** What the compiler frontend hands back for one file. The frontend itself is foreign code:
    everywhere it is a function value passed in by the caller. */
module Frontend {

  datatype IncludeKind = LocalInclude | SystemInclude

  datatype Origin = Project | System | External | Unresolved

  /** An empty `resolved` is a missing path; the code never tells the two apart. */
  datatype Include = Include(name: string, resolved: string, kind: IncludeKind, origin: Origin,
                             line: int, column: int)

  datatype Diagnostic = Diagnostic(line: int, column: int, length: int, message: string)

  datatype Analysis = Analysis(diagnostics: seq<Diagnostic>, includes: seq<Include>)
}
