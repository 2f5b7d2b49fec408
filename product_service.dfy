/**
 * ProductService: create, read, partial update and delete over the product
 * table. The table is a map from product id to product.
 */
module Products {
  import opened Outcomes
  import opened ProductRequest

  /** A product id; the table generates it (a UUID in the running system). */
  type Id = nat

  /** The product entity. The price is a Java Double, taken here as a `real`. */
  datatype Product = Product(productId: Id, name: string, price: real)

  /** ProductResponseDTO: the fields of a product, as a read returns them. */
  datatype ProductResponse = ProductResponse(productId: Id, name: string, price: real)

  /** DeleteResponseDTO: a status and a message. */
  datatype DeleteResponse = DeleteResponse(status: int, message: string)

  const NotFoundMessage := "Product not found."

  /** Every entry of the table is stored under its own id. */
  ghost predicate KeyedById(products: map<Id, Product>)
  {
    forall id :: id in products ==> products[id].productId == id
  }

  /** A bound above every id in use; the table never runs out of ids. */
  ghost function IdBound(ids: set<Id>): (b: Id)
    ensures forall id :: id in ids ==> id < b
    decreases ids
  {
    if ids == {} then 0
    else
      var x :| x in ids;
      var rest := IdBound(ids - {x});
      assert forall id :: id in ids && id != x ==> id in ids - {x};
      if x < rest then rest else x + 1
  }

  /** ProductResponseDTO's constructor from a product. */
  function ToResponse(p: Product): (r: ProductResponse)
    ensures r.productId == p.productId && r.name == p.name && r.price == p.price
  {
    ProductResponse(p.productId, p.name, p.price)
  }

  /** The read `getProduct` performs. */
  function Lookup(products: map<Id, Product>, id: Id): (r: Result<ProductResponse>)
    ensures r.Ok? <==> id in products
    ensures r.Err? ==> r.error == NotFound(NotFoundMessage)
    ensures r.Ok? ==> r.value == ToResponse(products[id])
  {
    if id in products then Ok(ToResponse(products[id])) else Err(NotFound(NotFoundMessage))
  }

  /**
   * The merge `updateProduct` applies: a field present in the request
   * replaces the stored one, a null field keeps it, and the id never changes.
   */
  function Merge(p: Product, d: ProductRequestDTO): (q: Product)
    ensures q.productId == p.productId
    ensures d.name.Some? ==> q.name == d.name.value
    ensures d.name.None? ==> q.name == p.name
    ensures d.price.Some? ==> q.price == d.price.value
    ensures d.price.None? ==> q.price == p.price
  {
    var withName := if d.name.Some? then p.(name := d.name.value) else p;
    if d.price.Some? then withName.(price := d.price.value) else withName
  }

  /** Applying the same update twice is the same as applying it once. */
  lemma MergeIdempotent(p: Product, d: ProductRequestDTO)
    ensures Merge(Merge(p, d), d) == Merge(p, d)
  {
  }

  /** An update with both fields null leaves the product as it was. */
  lemma MergeEmptyKeeps(p: Product)
    ensures Merge(p, ProductRequestDTO(None, None)) == p
  {
  }

  /**
   * What one `updateProduct` call does to the table: an absent id is refused
   * and nothing changes; otherwise only the entry under `id` changes, to its
   * merge with the request.
   */
  function Update(products: map<Id, Product>, id: Id, d: ProductRequestDTO)
    : (out: (Result<Product>, map<Id, Product>))
    ensures out.0.Ok? <==> id in products
    ensures out.0.Err? ==> out.0.error == NotFound(NotFoundMessage) && out.1 == products
    ensures out.1.Keys == products.Keys
    ensures forall k :: k in products && k != id ==> out.1[k] == products[k]
    ensures out.0.Ok? ==> out.0.value == Merge(products[id], d) && out.1[id] == out.0.value
    ensures KeyedById(products) ==> KeyedById(out.1)
  {
    if id in products then
      var q := Merge(products[id], d);
      (Ok(q), products[id := q])
    else
      (Err(NotFound(NotFoundMessage)), products)
  }

  /**
   * What one `deleteProduct` call does to the table, given the text of the id:
   * a present id is removed alone and reported OK; an absent one is reported
   * BAD_REQUEST and nothing changes.
   */
  function Delete(products: map<Id, Product>, id: Id, idText: string): (out: (DeleteResponse, map<Id, Product>))
    ensures out.0.status == OK <==> id in products
    ensures id in products ==> out.0.message == "Product " + idText + " deleted."
    ensures id !in products ==> out.0 == DeleteResponse(BAD_REQUEST, NotFoundMessage) && out.1 == products
    ensures out.1.Keys == products.Keys - {id}
    ensures forall k :: k in out.1 ==> out.1[k] == products[k]
  {
    if id in products then
      (DeleteResponse(OK, "Product " + idText + " deleted."), products - {id})
    else
      (DeleteResponse(BAD_REQUEST, NotFoundMessage), products)
  }

  /** A read after an update returns the merged product, or not-found as before. */
  lemma LookupAfterUpdate(products: map<Id, Product>, id: Id, d: ProductRequestDTO)
    ensures Lookup(Update(products, id, d).1, id)
         == if id in products then Ok(ToResponse(Merge(products[id], d))) else Err(NotFound(NotFoundMessage))
  {
  }

  /** After a delete the id reads as not found, and a second delete is refused. */
  lemma DeleteThenLookupAndDelete(products: map<Id, Product>, id: Id, idText: string)
    ensures Lookup(Delete(products, id, idText).1, id) == Err(NotFound(NotFoundMessage))
    ensures Delete(Delete(products, id, idText).1, id, idText).0 == DeleteResponse(BAD_REQUEST, NotFoundMessage)
  {
  }

  class ProductService {
    /** The product table behind productRepository. */
    var products: map<Id, Product>
    /** UUID.toString: the text of an id, used in the delete message. */
    const idText: Id -> string

    ghost predicate Valid()
      reads this
    {
      KeyedById(products)
    }

    constructor (idText: Id -> string)
      ensures Valid() && products == map[] && this.idText == idText
    {
      products := map[];
      this.idText := idText;
    }

    /**
     * createProduct: stores a new product with a fresh id and the request's
     * name and price, and returns it. Only a request without field errors is
     * accepted, as the controller tests require (the controller shown carries
     * no @Valid); what the code does with an invalid body is not modelled.
     */
    method CreateProduct(data: ValidProductRequest) returns (p: Product)
      requires Valid()
      modifies this
      ensures Valid()
      ensures p.productId !in old(products)
      ensures p.name == data.name.value && p.price == data.price.value
      ensures products == old(products)[p.productId := p]
    {
      ghost var bound := IdBound(products.Keys);
      assert bound !in products;
      var id :| id !in products;
      p := Product(id, data.name.value, data.price.value);
      products := products[id := p];
    }

    /** getProduct: the product under `id`, or not found. The table is only read. */
    method GetProduct(id: Id) returns (r: Result<ProductResponse>)
      requires Valid()
      ensures r == Lookup(products, id)
      ensures r.Ok? <==> id in products
      ensures r.Err? ==> r.error == NotFound(NotFoundMessage)
      ensures r.Ok? ==> r.value == ProductResponse(id, products[id].name, products[id].price)
    {
      if id in products {
        var product := products[id];
        r := Ok(ToResponse(product));
      } else {
        r := Err(NotFound(NotFoundMessage));
      }
    }

    /**
     * updateProduct: loads the product, replaces each non-null field of the
     * request, and stores it back. The request is not validated.
     */
    method UpdateProduct(id: Id, data: ProductRequestDTO) returns (r: Result<Product>)
      requires Valid()
      modifies this
      ensures Valid()
      ensures (r, products) == Update(old(products), id, data)
    {
      if id !in products {
        r := Err(NotFound(NotFoundMessage));
        return;
      }
      var product := products[id];
      if data.name.Some? {
        product := product.(name := data.name.value);
      }
      if data.price.Some? {
        product := product.(price := data.price.value);
      }
      products := products[id := product];
      r := Ok(product);
    }

    /** deleteProduct: removes the product if present and reports the outcome. */
    method DeleteProduct(id: Id) returns (r: DeleteResponse)
      requires Valid()
      modifies this
      ensures Valid()
      ensures (r, products) == Delete(old(products), id, idText(id))
    {
      if id in products {
        products := products - {id};
        r := DeleteResponse(OK, "Product " + idText(id) + " deleted.");
      } else {
        r := DeleteResponse(BAD_REQUEST, NotFoundMessage);
      }
    }
  }
}
