/**
 * The behaviour the controller tests expect, stated over the model: the
 * responses to invalid bodies, to a taken username and to bad credentials,
 * and two end-to-end runs of the services.
 */
module Scenarios {
  import opened Outcomes
  import opened UserModel
  import opened ExceptionHandler
  import RegisterRequest
  import LoginRequest
  import ProductRequest
  import Users
  import Products

  /** Any invalid registration body answers 400 with one entry per failed field. */
  lemma InvalidRegisterBodyAnswers400(d: RegisterRequest.RegisterRequestDTO)
    requires !RegisterRequest.IsValid(d)
    ensures Handle(ValidationFailed(RegisterRequest.Validate(d))).status == BAD_REQUEST
    ensures 1 <= |Handle(ValidationFailed(RegisterRequest.Validate(d))).body.errors| <= 3
  {
  }

  /** A registration body with all fields null: 400 and the three messages. */
  lemma RegisterNullBodyResponse()
    ensures Handle(ValidationFailed(RegisterRequest.Validate(RegisterRequest.RegisterRequestDTO(None, None, None))))
         == Response(BAD_REQUEST, ErrorList([
              ValidationError("username", "The username is required."),
              ValidationError("password", "The password is required."),
              ValidationError("role", "The role is required.")]))
  {
  }

  /** A login body with both fields null: 400 and the two messages. */
  lemma LoginNullBodyResponse()
    ensures Handle(ValidationFailed(LoginRequest.Validate(LoginRequest.LoginRequestDTO(None, None))))
         == Response(BAD_REQUEST, ErrorList([
              ValidationError("username", "The username is required."),
              ValidationError("password", "The password is required.")]))
  {
  }

  /** A product body with both fields null: 400 and exactly two entries. */
  lemma ProductNullBodyResponse()
    ensures Handle(ValidationFailed(ProductRequest.Validate(ProductRequest.ProductRequestDTO(None, None))))
         == Response(BAD_REQUEST, ErrorList([
              ValidationError("name", "The name is required."),
              ValidationError("price", "The price is required.")]))
  {
  }

  /** A refused registration answers 400 with the username-taken message. */
  lemma UsernameTakenResponse()
    ensures Dispatch(UsernameTaken(Users.UsernameTakenMessage)).Some?
    ensures Handle(Dispatch(UsernameTaken(Users.UsernameTakenMessage)).value)
         == Response(BAD_REQUEST, Text("This username is already in use."))
  {
  }

  /**
   * A missing product is raised as an exception no handler method takes, so
   * the 404 the controller tests expect is never produced by the service.
   */
  lemma MissingProductIsUnhandled()
    ensures Dispatch(NotFound(Products.NotFoundMessage)) == None
  {
  }

  /**
   * Register bob, register bob again, log in with the right password and with
   * a wrong one. The encoder and the authentication manager are arbitrary,
   * except that the right password matches its digest and the wrong one does
   * not.
   */
  method RegisterTwiceThenLogin(
    encode: string -> string, authenticate: (string, Option<string>, string) -> bool, generateToken: User -> string)
    returns (first: Result<()>, second: Result<()>, good: Users.LoginResponse, bad: Users.LoginResponse)
    requires authenticate("bob", Some("pw123"), encode("pw123"))
    requires !authenticate("bob", Some("wrong"), encode("pw123"))
    ensures first == Ok(())
    ensures second == Err(UsernameTaken("This username is already in use."))
    ensures good == Users.LoginResponse(Some(generateToken(User("bob", encode("pw123"), USER))), Some("bob"), Some(USER), true)
    ensures bad == Users.LoginFailure
  {
    var service := new Users.UserService(encode, authenticate, generateToken);
    assert "bob"[0] == 'b' && "pw123"[0] == 'p';
    var bob: RegisterRequest.ValidRegisterRequest := RegisterRequest.RegisterRequestDTO(Some("bob"), Some("pw123"), Some(USER));
    first := service.Create(bob);
    second := service.Create(bob);
    good := service.Login(LoginRequest.LoginRequestDTO(Some("bob"), Some("pw123")));
    bad := service.Login(LoginRequest.LoginRequestDTO(Some("bob"), Some("wrong")));
  }

  /**
   * Create a product, rename it with a null price, read it back, delete it
   * and delete it again.
   */
  method ProductLifecycle(idText: Products.Id -> string)
    returns (created: Products.Product, read: Result<Products.ProductResponse>,
             deleted: Products.DeleteResponse, again: Products.DeleteResponse)
    ensures created.name == "Smartphone" && created.price == 10.5
    ensures read == Ok(Products.ProductResponse(created.productId, "Smartphone X", 10.5))
    ensures deleted == Products.DeleteResponse(OK, "Product " + idText(created.productId) + " deleted.")
    ensures again == Products.DeleteResponse(BAD_REQUEST, "Product not found.")
  {
    var service := new Products.ProductService(idText);
    assert "Smartphone"[0] == 'S';
    var request: ProductRequest.ValidProductRequest := ProductRequest.ProductRequestDTO(Some("Smartphone"), Some(10.5));
    created := service.CreateProduct(request);
    var _ := service.UpdateProduct(created.productId, ProductRequest.ProductRequestDTO(Some("Smartphone X"), None));
    read := service.GetProduct(created.productId);
    deleted := service.DeleteProduct(created.productId);
    again := service.DeleteProduct(created.productId);
  }
}
