/**
 * The Jakarta Bean Validation constraints used by the request records, and the
 * field error that a failed constraint produces.
 */
module Validation {
  import opened Outcomes

  /**
   * One failed constraint, as Spring's FieldError reports it: the field it
   * concerns, the constraint that failed (its annotation name), and the
   * message given in the annotation.
   */
  datatype FieldError = FieldError(field: string, code: string, defaultMessage: string)

  /**
   * @NotBlank rejects null and any string that is empty after trimming; Java's
   * String.trim removes every character up to and including U+0020.
   */
  predicate IsBlank(s: Option<string>)
  {
    s.None? || forall i :: 0 <= i < |s.value| ==> s.value[i] <= ' '
  }

  /** The error list contains at most one error for each field. */
  predicate OneErrorPerField(errs: seq<FieldError>)
  {
    forall i, j :: 0 <= i < j < |errs| ==> errs[i].field != errs[j].field
  }

  /** An errors list of one element when `failed` holds, empty otherwise. */
  function ErrorIf(failed: bool, e: FieldError): seq<FieldError>
  {
    if failed then [e] else []
  }
}
