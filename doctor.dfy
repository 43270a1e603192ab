/** The finding record every detector produces. */
module Doctor {

  datatype Severity = Info | Warning | Critical

  /** The text a severity is reported as (the Go type is a string). */
  function SeverityText(s: Severity): (r: string)
    ensures r in {"INFO", "WARNING", "CRITICAL"}
  {
    match s
    case Info => "INFO"
    case Warning => "WARNING"
    case Critical => "CRITICAL"
  }

  /** The three severities are reported under three different names. */
  lemma SeverityTextInjective(a: Severity, b: Severity)
    requires SeverityText(a) == SeverityText(b)
    ensures a == b
  {
  }

  /** An empty `suggestion` or `codeSnippet` means the field is absent. */
  datatype Diagnosis = Diagnosis(
    severity: Severity,
    message: string,
    whyItMatters: string,
    suggestion: string,
    file: string,
    line: int,
    codeSnippet: string)

  predicate IsCritical(d: Diagnosis) {
    d.severity == Critical
  }
}
