/** ProductRequestDTO: the body of a create or update request for a product. */
module ProductRequest {
  import opened Outcomes
  import opened Validation

  /**
   * A null JSON field arrives as `None`. The price is a Java Double; the model
   * takes it as a `real` and only compares it with zero.
   */
  datatype ProductRequestDTO = ProductRequestDTO(name: Option<string>, price: Option<real>)

  const NameRequired := FieldError("name", "NotBlank", "The name is required.")
  const PriceRequired := FieldError("price", "NotNull", "The price is required.")
  const PricePositive := FieldError("price", "Positive", "The price must be positive.")

  /** The request satisfies every constraint of the record. */
  predicate IsValid(d: ProductRequestDTO)
  {
    !IsBlank(d.name) && d.price.Some? && d.price.value > 0.0
  }

  /** A request without field errors: the only kind `createProduct` is modelled on. */
  type ValidProductRequest = d: ProductRequestDTO | IsValid(d)
    witness (assert "a"[0] == 'a'; ProductRequestDTO(Some("a"), Some(1.0)))

  /**
   * The field errors that validating `d` reports. @Positive accepts null, so a
   * missing price is reported once, as required, and never as not positive.
   */
  function Validate(d: ProductRequestDTO): (errs: seq<FieldError>)
    ensures NameRequired in errs <==> IsBlank(d.name)
    ensures PriceRequired in errs <==> d.price.None?
    ensures PricePositive in errs <==> d.price.Some? && d.price.value <= 0.0
    ensures forall e :: e in errs ==> e == NameRequired || e == PriceRequired || e == PricePositive
    ensures OneErrorPerField(errs)
    ensures errs == [] <==> IsValid(d)
  {
    ErrorIf(IsBlank(d.name), NameRequired)
      + ErrorIf(d.price.None?, PriceRequired)
      + ErrorIf(d.price.Some? && d.price.value <= 0.0, PricePositive)
  }

  /** A body with both fields null reports exactly two errors, none of them "positive". */
  lemma BothFieldsMissing()
    ensures Validate(ProductRequestDTO(None, None)) == [NameRequired, PriceRequired]
  {
  }
}
