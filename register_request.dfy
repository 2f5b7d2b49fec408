/** RegisterRequestDTO: the body of a registration request and its constraints. */
module RegisterRequest {
  import opened Outcomes
  import opened Validation
  import opened UserModel

  /** A null JSON field arrives as `None`. */
  datatype RegisterRequestDTO = RegisterRequestDTO(
    username: Option<string>,
    password: Option<string>,
    role: Option<Role>)

  const UsernameRequired := FieldError("username", "NotBlank", "The username is required.")
  const PasswordRequired := FieldError("password", "NotBlank", "The password is required.")
  const RoleRequired := FieldError("role", "NotNull", "The role is required.")

  /** The request satisfies every constraint of the record. */
  predicate IsValid(d: RegisterRequestDTO)
  {
    !IsBlank(d.username) && !IsBlank(d.password) && d.role.Some?
  }

  /** A request without field errors: the only kind `create` is modelled on. */
  type ValidRegisterRequest = d: RegisterRequestDTO | IsValid(d)
    witness (assert "a"[0] == 'a'; RegisterRequestDTO(Some("a"), Some("a"), Some(ADMIN)))

  /**
   * The field errors that validating `d` reports: one per failed constraint,
   * in the order the fields are declared.
   */
  function Validate(d: RegisterRequestDTO): (errs: seq<FieldError>)
    ensures UsernameRequired in errs <==> IsBlank(d.username)
    ensures PasswordRequired in errs <==> IsBlank(d.password)
    ensures RoleRequired in errs <==> d.role.None?
    ensures forall e :: e in errs ==> e == UsernameRequired || e == PasswordRequired || e == RoleRequired
    ensures OneErrorPerField(errs)
    ensures errs == [] <==> IsValid(d)
  {
    ErrorIf(IsBlank(d.username), UsernameRequired)
      + ErrorIf(IsBlank(d.password), PasswordRequired)
      + ErrorIf(d.role.None?, RoleRequired)
  }

  /** A body with all three fields null reports exactly one error per field. */
  lemma AllFieldsMissing()
    ensures Validate(RegisterRequestDTO(None, None, None)) == [UsernameRequired, PasswordRequired, RoleRequired]
  {
  }
}
