/** LoginRequestDTO: the body of a login request and its constraints. */
module LoginRequest {
  import opened Outcomes
  import opened Validation

  /** A null JSON field arrives as `None`. */
  datatype LoginRequestDTO = LoginRequestDTO(username: Option<string>, password: Option<string>)

  const UsernameRequired := FieldError("username", "NotBlank", "The username is required.")
  const PasswordRequired := FieldError("password", "NotBlank", "The password is required.")

  /** The request satisfies every constraint of the record. */
  predicate IsValid(d: LoginRequestDTO)
  {
    !IsBlank(d.username) && !IsBlank(d.password)
  }

  /**
   * The field errors that validating `d` reports: one per failed constraint,
   * in the order the fields are declared.
   */
  function Validate(d: LoginRequestDTO): (errs: seq<FieldError>)
    ensures UsernameRequired in errs <==> IsBlank(d.username)
    ensures PasswordRequired in errs <==> IsBlank(d.password)
    ensures forall e :: e in errs ==> e == UsernameRequired || e == PasswordRequired
    ensures OneErrorPerField(errs)
    ensures errs == [] <==> IsValid(d)
  {
    ErrorIf(IsBlank(d.username), UsernameRequired)
      + ErrorIf(IsBlank(d.password), PasswordRequired)
  }

  /** A body with both fields null reports exactly those two errors. */
  lemma BothFieldsMissing()
    ensures Validate(LoginRequestDTO(None, None)) == [UsernameRequired, PasswordRequired]
  {
  }
}
