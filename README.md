# Product API: users, products, validation and error responses

A Dafny model of the core of a small Spring Boot service (productAPI). It has
two services over in-memory tables, the validation rules of the three request
records, and the exception handler that turns failures into responses.

- **User registry** (`Users`, class `UserService`): the user table is a
  `map<string, User>` keyed by username. `Create` refuses a username already
  present. Otherwise it stores exactly one new user, with the encoder's output
  in place of the raw password and the requested role. `Login` only reads the
  table. It returns a token, the username and the stored role on success. An
  unknown user and a rejected password return one and the same failure value.
  The invariant `KeyedByUsername` keeps usernames unique across any sequence
  of registrations (`RegisterAllKeepsUnique`).
- **Product store** (`Products`, class `ProductService`): the product table is
  a `map<Id, Product>`. The operations are create (under some unused id), read,
  a partial update that keeps every field the request leaves null, and
  delete-if-present.
- **Request validation** (`RegisterRequest`, `LoginRequest`, `ProductRequest`):
  each record's `@NotBlank`, `@NotNull` and `@Positive` constraints become a
  `Validate` function. It returns the `(field, code, message)` errors in the
  order the fields are declared. A request without field errors has its own
  subset type (`ValidRegisterRequest`, `ValidProductRequest`). Those are the
  only requests `Create` and `CreateProduct` accept. The basis is the
  controller tests, which check that `create` and `createProduct` are never
  called on a body with field errors (UserControllerTest.java:123,
  ProductControllerTest.java:104). The controllers shown take their
  `@RequestBody` without `@Valid` (UserController.java:21,
  ProductController.java:21), so this gate is taken from the tests, not from
  the code.
- **Error responses** (`ExceptionHandler`): one total function from the four
  handled exception kinds to a status and a body. Bad credentials always get
  the same fixed text. Validation failures get one `(field, message)` entry per
  field error, in order.

Collaborators whose code is not part of this model are function-valued
constants of the service objects, fixed by their constructors:
- the password encoder's `encode`;
- the authentication manager's `authenticate`, a predicate on the username,
  the raw password and the stored digest;
- the token service's `generateToken`;
- the text form of a product id.

The state-changing methods are specified by pure functions of the old table
(`Register`, `Update`, `Delete`). The lemmas about those functions state the
properties.

The tests expect some things that the code does not do. The model follows the
code:
- `getProduct` and `updateProduct` throw `IllegalMonitorStateException` for a
  missing id (ProductService.java:35,40). The exception handler has no method
  for that class. The controller tests expect a `ProductNotFoundException`
  answered with 404 (ProductControllerTest.java:237-245). In the model this
  failure is `NotFound`, and `Dispatch` maps it to no handler
  (`Scenarios.MissingProductIsUnhandled`).
- `deleteProduct` returns a BAD_REQUEST response for a missing id
  (ProductService.java:55). The test expects an exception answered with 404
  (ProductControllerTest.java:423-431).
- `login` returns a failure value for bad credentials (UserService.java:57,60).
  The controller test instead has the service throw `BadCredentialsException`
  (UserControllerTest.java:164). The handler's 401 case is modelled all the
  same (`Handle`).

## Model

| member | source | states |
|---|---|---|
| `RegisterRequest.Validate` | src/main/java/com/example/product/domain/user/RegisterRequestDTO.java:6-13 | The username error is reported iff the username is null or blank. The same holds for the password, and the role error iff the role is null. Nothing else is reported, at most one error per field, and no errors iff the request is valid. |
| `RegisterRequest.AllFieldsMissing` | src/test/java/com/example/product/controller/UserControllerTest.java:103-121 | A body with all fields null gives exactly the three "required" errors. |
| `LoginRequest.Validate` | src/main/java/com/example/product/domain/user/LoginRequestDTO.java:5-10 | The username and password errors are each reported iff that field is null or blank. Nothing else is reported, at most one error per field, and no errors iff the request is valid. |
| `LoginRequest.BothFieldsMissing` | src/test/java/com/example/product/controller/UserControllerTest.java:184-199 | A body with both fields null gives exactly the two "required" errors. |
| `ProductRequest.Validate` | src/main/java/com/example/product/domain/product/ProductRequestDTO.java:7-13 | The name error is reported iff the name is null or blank. "Price required" is reported iff the price is null. "Price must be positive" is reported iff the price is present and not above zero. Nothing else is reported, at most one error per field, and no errors iff the request is valid. |
| `ProductRequest.BothFieldsMissing` | src/test/java/com/example/product/controller/ProductControllerTest.java:85-101 | A null price is reported only as required, so a body with both fields null gives exactly two errors. |
| `ExceptionHandler.FromFieldError` | src/main/java/com/example/product/domain/error/ValidationErrorDTO.java:4-6 | An entry made from a field error copies its field and default message unchanged. |
| `ExceptionHandler.ToValidationErrors` | src/main/java/com/example/product/exception/GlobalExceptionHandler.java:34-36 | There is one entry per field error. Entry i carries field error i's field and message, so the order is kept. |
| `ExceptionHandler.Handle` | src/main/java/com/example/product/exception/GlobalExceptionHandler.java:15-39 | The status is 404 iff product-not-found, 401 iff bad credentials, and 400 iff username conflict or validation failure. Not-found and conflict carry the exception's message. Bad credentials carry the fixed text. Validation failures carry the mapped field errors. |
| `ExceptionHandler.Dispatch` | src/main/java/com/example/product/exception/GlobalExceptionHandler.java:15-31 | No handler method takes a service failure iff it is a missing product (thrown as IllegalMonitorStateException). A username conflict reaches the username-in-use handler with its message. |
| `ExceptionHandler.BadCredentialsHidesMessage` | src/main/java/com/example/product/exception/GlobalExceptionHandler.java:26-29 | Bad-credential exceptions with different messages give the same 401 response. |
| `ExceptionHandler.ValidationBodyMatches` | src/main/java/com/example/product/exception/GlobalExceptionHandler.java:31-38 | A (field, message) entry is in the validation body iff a field error with that field and message was reported. |
| `Users.FindByUsername` | src/main/java/com/example/product/service/UserService.java:47 | The lookup finds a user iff the username is non-null and stored, and then it is the stored user. A null username finds none. |
| `Users.Register` | src/main/java/com/example/product/service/UserService.java:29-44 | A create succeeds iff the username is absent. On failure the result is the username-taken error and the table is unchanged. On success exactly that username is added, holding the requested username and role and `encode(password)`. No earlier entry changes, and being keyed by username is preserved. |
| `Users.RegisterAllKeepsUnique` | src/main/java/com/example/product/service/UserService.java:29-44 | After any sequence of creates, successful or not, the table is still keyed by username and its usernames are unique. No earlier user is replaced, and the usernames are exactly the earlier ones plus the requested ones. |
| `Users.RegisterSameUsernameTwice` | src/main/java/com/example/product/service/UserService.java:30-43 | Registering one new username twice: the first create succeeds. The second fails with the username-taken error and leaves the table as the first left it. |
| `Users.UserService.constructor` | src/main/java/com/example/product/service/UserService.java:17-27 | A new service has an empty table and the given collaborators. |
| `Users.UserService.Create` | src/main/java/com/example/product/service/UserService.java:29-44 | The result and the new table are those `Register` gives for the old table. The table stays keyed by username. |
| `Users.UserService.Login` | src/main/java/com/example/product/service/UserService.java:46-62 | A login succeeds iff the username is stored and authentication accepts the password against the stored digest. Success returns the token generated for the stored user, the requested username, the stored role and true. Every failure returns the one failure value. The table is only read. |
| `Products.ToResponse` | src/main/java/com/example/product/service/ProductService.java:36 | The response carries the product's id, name and price unchanged. |
| `Products.Lookup` | src/main/java/com/example/product/service/ProductService.java:34-37 | A read succeeds iff the id is present, returning that product's fields. Otherwise it fails with "Product not found.". |
| `Products.Merge` | src/main/java/com/example/product/service/ProductService.java:41-46 | A non-null request name replaces the name and a null one keeps it. The same holds for the price, and the id never changes. |
| `Products.MergeIdempotent` | src/main/java/com/example/product/service/ProductService.java:41-46 | Applying the same update twice equals applying it once. |
| `Products.MergeEmptyKeeps` | src/main/java/com/example/product/service/ProductService.java:41-46 | An update with both fields null leaves the product unchanged. |
| `Products.Update` | src/main/java/com/example/product/service/ProductService.java:39-48 | An update succeeds iff the id is present. An absent id fails with "Product not found." and leaves the table unchanged. Otherwise only the entry under the id changes, to the merge, which is returned. The key set and the keyed-by-id invariant are kept. |
| `Products.Delete` | src/main/java/com/example/product/service/ProductService.java:50-57 | The status is OK iff the id is present, with "Product <id> deleted.", and exactly that entry is removed. An absent id gives BAD_REQUEST "Product not found." and an unchanged table. |
| `Products.LookupAfterUpdate` | src/main/java/com/example/product/service/ProductService.java:34-48 | A read after an update returns the merged product for a present id, and not-found for an absent one. |
| `Products.DeleteThenLookupAndDelete` | src/main/java/com/example/product/service/ProductService.java:34-57 | After a delete the id reads as not found, and a second delete reports BAD_REQUEST. |
| `Products.ProductService.constructor` | src/main/java/com/example/product/service/ProductService.java:19-20 | A new service has an empty table and the given id-to-text function. |
| `Products.ProductService.CreateProduct` | src/main/java/com/example/product/service/ProductService.java:22-27 | The new product gets an id not in use, and the request's name and price. The table gains exactly that entry, which is returned. |
| `Products.ProductService.GetProduct` | src/main/java/com/example/product/service/ProductService.java:34-37 | The result is the read `Lookup` defines: it succeeds iff the id is present, returning the id, name and price unchanged. Otherwise it fails with "Product not found.". The table is only read. |
| `Products.ProductService.UpdateProduct` | src/main/java/com/example/product/service/ProductService.java:39-48 | The result and the new table are those `Update` gives for the old table. |
| `Products.ProductService.DeleteProduct` | src/main/java/com/example/product/service/ProductService.java:50-57 | The result and the new table are those `Delete` gives for the old table and the id's text. |
| `Scenarios.InvalidRegisterBodyAnswers400` | src/main/java/com/example/product/exception/GlobalExceptionHandler.java:31-38 | Any invalid registration body gets status 400 with one to three entries. |
| `Scenarios.RegisterNullBodyResponse` | src/test/java/com/example/product/controller/UserControllerTest.java:99-124 | A registration body with all fields null gets 400 with exactly the three (field, message) entries. |
| `Scenarios.LoginNullBodyResponse` | src/test/java/com/example/product/controller/UserControllerTest.java:180-202 | A login body with both fields null gets 400 with exactly the two (field, message) entries. |
| `Scenarios.ProductNullBodyResponse` | src/test/java/com/example/product/controller/ProductControllerTest.java:81-105 | A product body with both fields null gets 400 with exactly two entries, name and price required. |
| `Scenarios.UsernameTakenResponse` | src/test/java/com/example/product/controller/UserControllerTest.java:75-97 | A refused registration gets 400 with "This username is already in use.". |
| `Scenarios.MissingProductIsUnhandled` | src/main/java/com/example/product/service/ProductService.java:35 | The missing-product failure the service raises reaches no handler method, so it is never answered with 404. |
| `Scenarios.RegisterTwiceThenLogin` | src/main/java/com/example/product/service/UserService.java:29-62 | Registering bob twice gives success, then the username-taken error. Logging in with the right password returns bob's token, username and role USER. A wrong password returns the failure value. |
| `Scenarios.ProductLifecycle` | src/main/java/com/example/product/service/ProductService.java:22-57 | A product is created with the request's fields. After renaming it with a null price, a read shows the new name and the old price. Deleting it reports OK, and deleting it again reports BAD_REQUEST. |

## Left out

- `getAllProducts` and the repository's `getAllFiltered` query: the query's source is not part of this model, and the service only forwards to it.
- Controllers: HTTP routing, `ResponseEntity`, the Location header and the 201 status of a registration.
- Token signing and verification, password hashing and the authentication manager: `TokenService.java` and the security configuration are not part of this model. They appear only as the function-valued constants `generateToken`, `encode` and `authenticate`. Salting, constant-time comparison, signatures and expiry are not modelled.
- Users.UserService.Login: `authenticate` is a boolean. Authentication exceptions other than `BadCredentialsException` (a disabled or locked account) escape `login` in the code and are not modelled. The principal the authentication manager returns is taken to be the stored user.
- The framework's default response to an exception that no handler method takes (the `IllegalMonitorStateException` of a missing product): `Dispatch` returns `None` for it.
- Concurrency: simultaneous registrations of one username are a database matter, not visible in this code.
- Persistence: ids are naturals standing for UUIDs. A new product gets some id not in the table. The user table's generated id column is left out, because the user table is keyed by username.
- Floating point: a price is a `real`, only compared with zero.
- Field-error order: Bean Validation does not fix the order in which violations are reported. The model reports them in field declaration order, and the tests look errors up by field.
- `@NotBlank` is modelled as "null, or empty after Java's `trim`". Characters above U+0020 that Java treats as whitespace count as non-blank.
- Users.UserService.Create: accepts only requests without field errors, following the test at UserControllerTest.java:123; the controller shown carries no `@Valid`. So the model does not show what the code does with an invalid body: `create` would store a blank username such as `"   "` as given (UserService.java:30-40).
- Products.ProductService.CreateProduct: accepts only requests without field errors, following the test at ProductControllerTest.java:104; the controller shown carries no `@Valid`. So the model does not show that `createProduct` would be passed a null name or price (ProductService.java:22-26).
- The login gate of UserControllerTest.java:201 (no `login` call on a body with field errors) is neither assumed nor stated. `Login` accepts any body and treats a null username as not found. `UpdateProduct` also accepts any body, because the update tests send null fields.
- `UserRole.java` and `LoginResponseDTO.java` are not part of this model. The roles are taken to be ADMIN and USER, and the login response's fourth component is called `succeeded`.
