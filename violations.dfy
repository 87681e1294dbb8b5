/** Findings (src/rules/mod.rs, `Violation` and `Severity`). */
module Violations {
  import opened Base

  /** Error ranks above Warning. */
  datatype Severity = Warning | Error

  /** What a finding says, kept as data; the source renders it as text. */
  datatype Message =
    | MatchesPattern(file: Path)              // "File <path> matches rule pattern"
    | ExceedsMaximum(size: nat, limit: nat)   // "File size <size> exceeds maximum allowed size <limit>"
    | ExceedsWarning(size: nat, limit: nat)   // "File size <size> exceeds warning threshold <limit>"

  /** The diagnostic "actual" and "expected" values. */
  datatype Value =
    | Literal(text: string)   // "matched", "not matched"
    | Size(bytes: nat)        // format_size(bytes)
    | AtMost(bytes: nat)      // "≤ " + format_size(bytes)

  /** One finding. `sortKey` is the byte size that drove it (0 for a bare
      pattern match); it only serves to compare findings for one path. */
  datatype Violation = Violation(
    path: Path,
    ruleName: string,
    message: Message,
    severity: Severity,
    actualValue: Option<Value>,
    expectedValue: Option<Value>,
    sortKey: nat)
}
