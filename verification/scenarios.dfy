/** The create and list cases of the service's integration tests, and one
    create/get/update/delete sequence composed from the handlers, each
    followed through the handlers' contracts alone. */
module Scenarios {
  import opened Wrappers
  import opened Products
  import opened Table
  import opened Server

  /** The create cases, in order, starting from an empty table: a full
      record is created, a record without an id and a second record with the
      same id are refused, and so is an all-empty body; only the first record
      is stored. */
  method CreateScenario() returns (statuses: seq<int>, stored: seq<Product>)
    ensures statuses == [201, 400, 409, 400]
    ensures stored == [Product("31", "NAME", "PRICE", "QUANTITY")]
  {
    var db := new Database();
    var p := Product("31", "NAME", "PRICE", "QUANTITY");

    var created := AddProduct(db, Some(p));
    var noId := AddProduct(db, Some(Product("", "NAME", "PRICE", "QUANTITY")));
    assert db.products == [p] && HasId([p], "31");
    var duplicate := AddProduct(db, Some(p));
    var empty := AddProduct(db, Some(Product("", "", "", "")));

    statuses := [created.status, noId.status, duplicate.status, empty.status];
    stored := db.products;
  }

  /** Create, get, partial update, get, delete, get, and the two delete
      failures, starting from an empty table. The update body carries no id,
      so the update's answer has an empty id while the stored row keeps "31". */
  method CatalogScenario() returns (statuses: seq<int>, updated: Body, fetched: Body)
    ensures statuses == [201, 200, 200, 200, 204, 500, 400, 500]
    ensures updated == Item(Product("", "NAME", "P2", "QUANTITY"))
    ensures fetched == Item(Product("31", "NAME", "P2", "QUANTITY"))
  {
    var db := new Database();
    var p := Product("31", "NAME", "PRICE", "QUANTITY");

    var created := AddProduct(db, Some(p));
    assert db.products == [p];
    var got := GetProduct(db, "31");

    var put := UpdateProduct(db, "31", Some(Product("", "", "P2", "")));
    assert db.products == [Product("31", "NAME", "P2", "QUANTITY")];
    var after := GetProduct(db, "31");
    assert after.body.product in db.products;

    var deleted := DeleteProduct(db, "31");
    assert db.products == [];
    var gone := GetProduct(db, "31");
    var noId := DeleteProduct(db, "");
    var again := DeleteProduct(db, "31");

    statuses := [created.status, got.status, put.status, after.status,
                 deleted.status, gone.status, noId.status, again.status];
    updated := put.body;
    fetched := after.body;
  }

  /** The list cases against the 30 seeded rows: pages (1, 5), (2, 10) and
      (1, 30) return that many rows, page 3 of 15 is out of range. */
  method PagingScenario(db: Database) returns (sizes: seq<int>, lastStatus: int)
    requires |db.products| == 30
    ensures sizes == [5, 10, 30]
    ensures lastStatus == StatusNotFound
  {
    var a := GetProducts(db, Some(1), Some(5));
    var b := GetProducts(db, Some(2), Some(10));
    var c := GetProducts(db, Some(1), Some(30));
    var d := GetProducts(db, Some(3), Some(15));
    sizes := [|a.body.items|, |b.body.items|, |c.body.items|];
    lastStatus := d.status;
  }
}
