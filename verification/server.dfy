/** The five HTTP handlers of the catalogue service, each run atomically
    against the one `products` table they share. */
module Server {
  import opened Wrappers
  import opened Products
  import opened Table
  import opened Paging

  const StatusOK := 200
  const StatusCreated := 201
  const StatusNoContent := 204
  const StatusBadRequest := 400
  const StatusNotFound := 404
  const StatusConflict := 409
  const StatusInternalServerError := 500

  const PageOutOfRange := "Page out of range"
  const EmptyField := "Empty field"
  const MissingId := "Product ID is not provided!"

  /** Where the text of a passed-through `error` message comes from: the JSON
      binder that rejected the body, or the database driver. */
  datatype Origin = Decoder | Driver

  /** The JSON payload of a response. */
  datatype Body =
    | Rows(items: seq<Product>)
    | Item(product: Product)
    | Message(text: string)
    | Reported(origin: Origin)
    | NoBody

  datatype Response = Response(status: int, body: Body)

  /** The database handle every handler is given; its state is the table. */
  class Database {
    var products: seq<Product>

    predicate Valid()
      reads this
    {
      WellFormed(products)
    }

    /** The freshly created, empty `products` table. */
    constructor ()
      ensures products == [] && Valid()
    {
      products := [];
    }
  }

  /** GET /products?page=..&limit=.. */
  method GetProducts(db: Database, pageParam: Option<int>, limitParam: Option<int>) returns (resp: Response)
    ensures var limit := ParamOr(limitParam, DefaultLimit);
            var offset := Offset(ParamOr(pageParam, DefaultPage), limit);
            if offset >= |db.products| then resp == Response(StatusNotFound, Message(PageOutOfRange))
            else resp == Response(StatusOK, Rows(Window(db.products, offset, limit)))
  {
    var page := ParamOr(pageParam, DefaultPage);
    var limit := ParamOr(limitParam, DefaultLimit);
    var offset := Offset(page, limit);

    var totalProducts := |db.products|;
    if offset >= totalProducts {
      return Response(StatusNotFound, Message(PageOutOfRange));
    }

    var cursor := Window(db.products, offset, limit);
    var products: seq<Product> := [];
    var i := 0;
    while i < |cursor|
      invariant 0 <= i <= |cursor|
      invariant products == cursor[..i]
    {
      products := products + [cursor[i]];
      i := i + 1;
    }
    assert cursor[..|cursor|] == cursor;
    resp := Response(StatusOK, Rows(products));
  }

  /** GET /product?id=.. ; an absent id is reported as a driver error (500),
      not as 404. */
  method GetProduct(db: Database, id: string) returns (resp: Response)
    ensures resp.status == StatusOK <==> HasId(db.products, id)
    ensures resp.status == StatusOK ==>
              resp.body.Item? && resp.body.product.id == id && resp.body.product in db.products
    ensures resp.status != StatusOK ==> resp == Response(StatusInternalServerError, Reported(Driver))
  {
    var found := Lookup(db.products, id);
    if found.None? {
      return Response(StatusInternalServerError, Reported(Driver));
    }
    resp := Response(StatusOK, Item(found.value));
  }

  /** POST /products */
  method AddProduct(db: Database, body: Option<Product>) returns (resp: Response)
    requires db.Valid()
    modifies db
    ensures db.Valid()
    ensures body.None? ==>
              resp == Response(StatusBadRequest, Reported(Decoder)) && db.products == old(db.products)
    ensures body.Some? && !Complete(body.value) ==>
              resp == Response(StatusBadRequest, Message(EmptyField)) && db.products == old(db.products)
    ensures body.Some? && Complete(body.value) && HasId(old(db.products), body.value.id) ==>
              resp == Response(StatusConflict, Reported(Driver)) && db.products == old(db.products)
    ensures body.Some? && Complete(body.value) && !HasId(old(db.products), body.value.id) ==>
              resp == Response(StatusCreated, Item(body.value)) &&
              db.products == Insert(old(db.products), body.value)
  {
    if body.None? {
      return Response(StatusBadRequest, Reported(Decoder));
    }
    var product := body.value;
    if product.id == "" || product.name == "" || product.price == "" || product.quantity == "" {
      return Response(StatusBadRequest, Message(EmptyField));
    }
    // the primary key refuses a second row with the same id
    if HasId(db.products, product.id) {
      return Response(StatusConflict, Reported(Driver));
    }
    InsertDistinct(db.products, product);
    db.products := Insert(db.products, product);
    resp := Response(StatusCreated, Item(product));
  }

  /** PUT /product?id=.. ; the body may leave fields empty to keep them. */
  method UpdateProduct(db: Database, id: string, body: Option<Product>) returns (resp: Response)
    requires db.Valid()
    modifies db
    ensures db.Valid()
    ensures id == "" ==>
              resp == Response(StatusBadRequest, Message(MissingId)) && db.products == old(db.products)
    ensures id != "" && body.None? ==>
              resp == Response(StatusBadRequest, Reported(Decoder)) && db.products == old(db.products)
    ensures id != "" && body.Some? && !HasId(old(db.products), id) ==>
              resp == Response(StatusInternalServerError, Reported(Driver)) &&
              db.products == old(db.products)
    ensures id != "" && body.Some? && HasId(old(db.products), id) ==>
              var stored := Lookup(old(db.products), id).value;
              var merged := Merge(stored, body.value);
              resp == Response(StatusOK, Item(merged)) &&
              db.products == Replace(old(db.products), id, merged.(id := id))
  {
    if id == "" {
      return Response(StatusBadRequest, Message(MissingId));
    }
    if body.None? {
      return Response(StatusBadRequest, Reported(Decoder));
    }
    var newProduct := body.value;

    var found := Lookup(db.products, id);
    if found.None? {
      return Response(StatusInternalServerError, Reported(Driver));
    }
    var dbProduct := found.value;

    if newProduct.name == "" {
      newProduct := newProduct.(name := dbProduct.name);
    }
    if newProduct.price == "" {
      newProduct := newProduct.(price := dbProduct.price);
    }
    if newProduct.quantity == "" {
      newProduct := newProduct.(quantity := dbProduct.quantity);
    }
    assert newProduct == Merge(dbProduct, body.value);

    assert Complete(dbProduct);
    MergeKeepsComplete(dbProduct, body.value.(id := id));
    ReplaceWellFormed(db.products, id, newProduct.(id := id));
    db.products := Replace(db.products, id, newProduct.(id := id));
    resp := Response(StatusOK, Item(newProduct));
  }

  /** DELETE /product?id=.. */
  method DeleteProduct(db: Database, id: string) returns (resp: Response)
    requires db.Valid()
    modifies db
    ensures db.Valid()
    ensures id == "" ==>
              resp == Response(StatusBadRequest, Message(MissingId)) && db.products == old(db.products)
    ensures id != "" && !HasId(old(db.products), id) ==>
              resp == Response(StatusInternalServerError, Reported(Driver)) &&
              db.products == old(db.products)
    ensures id != "" && HasId(old(db.products), id) ==>
              resp == Response(StatusNoContent, NoBody) &&
              exists k :: 0 <= k < |old(db.products)| && old(db.products)[k].id == id &&
                          db.products == old(db.products)[..k] + old(db.products)[k + 1..]
  {
    if id == "" {
      return Response(StatusBadRequest, Message(MissingId));
    }
    var found := Lookup(db.products, id);
    if found.None? {
      return Response(StatusInternalServerError, Reported(Driver));
    }
    ghost var k :| 0 <= k < |db.products| && db.products[k].id == id;
    RemoveAt(db.products, k);
    RemoveWellFormed(db.products, id);
    db.products := Remove(db.products, id);
    resp := Response(StatusNoContent, NoBody);
  }
}
