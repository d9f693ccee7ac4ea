/** The product handlers and the product table they work on.

    The table is a map from id to row plus the counter the store draws fresh
    ids from. The two queries are functions of the map; the four handlers
    that change the table are methods of `Store`.

    Divergence from the handlers as written: after answering 404 the source
    does not return, and goes on to use the missing row. That later step
    throws (a second response on an answered request, or a call on null),
    and the empty `catch` swallows the exception, so the client still sees
    the 404 and the table is untouched. Here every id-addressed handler
    returns at once on a missing row, which gives that same observable
    outcome. */
module Products {

  datatype Product = Product(id: int, name: string, price: int, availability: bool)

  /** The JSON bodies the service answers with. */
  datatype Payload =
    | ErrorList(msgs: seq<string>)       // { errors: [{ msg }] }
    | ErrorText(error: string)           // { error }
    | Data(product: Product)             // { data: product }
    | DataList(products: seq<Product>)   // { data: [product] }
    | DataText(text: string)             // { data: "..." }

  datatype Response = Response(status: int, body: Payload)

  const NotFoundMessage := "Product not found"
  const DeletedMessage := "Prducto eliminado"
  const NotFound := Response(404, ErrorText(NotFoundMessage))

  /** Every row is stored under its own id. */
  ghost predicate Keyed(rows: map<int, Product>) {
    forall k :: k in rows ==> rows[k].id == k
  }

  /** The data invariant the validation rules are there to protect: every
      stored product has a non-empty name and a strictly positive price. */
  ghost predicate WellFormed(rows: map<int, Product>) {
    forall k :: k in rows ==> rows[k].name != "" && rows[k].price > 0
  }

  /** Strictly descending by id. */
  ghost predicate IdsDescending(ps: seq<Product>) {
    forall i, j :: 0 <= i < j < |ps| ==> ps[i].id > ps[j].id
  }

  // ---------------------------------------------------------------- queries

  /** `getProductByID`: the row under `id`, or 404 "Product not found". */
  function GetProductByID(rows: map<int, Product>, id: int): (r: Response)
    requires Keyed(rows)
    ensures r.status == 200 || r.status == 404
    ensures r.status == 200 <==> id in rows
    ensures r.status == 200 ==> r.body.Data? && r.body.product.id == id && r.body.product == rows[id]
    ensures r.status == 404 ==> r == NotFound
  {
    if id in rows then Response(200, Data(rows[id])) else NotFound
  }

  /** A set is empty or has an element. */
  lemma SomeElement(keys: set<int>)
    ensures keys == {} || exists x :: x in keys
  {
    if forall x :: x !in keys {
      assert keys == {};
    }
  }

  predicate IsMaxKey(k: int, keys: set<int>) {
    k in keys && forall j :: j in keys ==> j <= k
  }

  lemma MaxKeyExists(keys: set<int>)
    requires keys != {}
    ensures exists k :: IsMaxKey(k, keys)
  {
    SomeElement(keys);
    var x :| x in keys;
    var rest := keys - {x};
    assert forall j :: j in keys ==> j == x || j in rest;
    if rest == {} {
      assert IsMaxKey(x, keys);
    } else {
      MaxKeyExists(rest);
      var m :| IsMaxKey(m, rest);
      assert IsMaxKey(if x <= m then m else x, keys);
    }
  }

  /** The largest id in a non-empty set of ids. */
  function MaxKey(keys: set<int>): (k: int)
    requires keys != {}
    ensures IsMaxKey(k, keys)
  {
    MaxKeyExists(keys);
    var k :| IsMaxKey(k, keys);
    k
  }

  /** `ps` lists the rows of `rows`, each exactly once. */
  ghost predicate Enumerates(ps: seq<Product>, rows: map<int, Product>) {
    && |ps| == |rows|
    && (forall i :: 0 <= i < |ps| ==> ps[i].id in rows && rows[ps[i].id] == ps[i])
    && (forall k :: k in rows ==> rows[k] in ps)
  }

  /** Putting the row with the largest id in front of a descending listing of
      the other rows gives a descending listing of all of them. */
  lemma PrependLargest(rows: map<int, Product>, k: int, tail: seq<Product>)
    requires Keyed(rows) && IsMaxKey(k, rows.Keys)
    requires Enumerates(tail, rows - {k}) && IdsDescending(tail)
    ensures Enumerates([rows[k]] + tail, rows)
    ensures IdsDescending([rows[k]] + tail)
  {
    var rest := rows - {k};
    var ps := [rows[k]] + tail;
    assert rest.Keys == rows.Keys - {k};
    assert |rows| == |rest| + 1;
    forall i | 0 <= i < |tail|
      ensures tail[i].id < k
    {
      assert tail[i].id in rest;
    }
    forall j | j in rows
      ensures rows[j] in ps
    {
      if j != k {
        assert j in rest;
        assert rows[j] in tail;
      }
    }
  }

  /** All rows, largest id first (`ORDER BY id DESC`). */
  function ByIdDescending(rows: map<int, Product>): (ps: seq<Product>)
    requires Keyed(rows)
    ensures Enumerates(ps, rows)
    ensures IdsDescending(ps)
    decreases |rows|
  {
    if |rows| == 0 then
      []
    else
      var k := MaxKey(rows.Keys);
      var rest := rows - {k};
      assert |rest| < |rows| by { assert rest.Keys == rows.Keys - {k}; }
      var tail := ByIdDescending(rest);
      PrependLargest(rows, k, tail);
      [rows[k]] + tail
  }

  /** `getProducts`: every stored product, ordered by id descending. The route
      has no validation, so this is the only answer it gives. */
  function GetProducts(rows: map<int, Product>): (r: Response)
    requires Keyed(rows)
    ensures r.status == 200 && r.body.DataList?
    ensures IdsDescending(r.body.products)
    ensures |r.body.products| == |rows|
    ensures forall p :: p in r.body.products <==> p.id in rows && rows[p.id] == p
  {
    var ps := ByIdDescending(rows);
    assert forall p :: p in ps ==> p.id in rows && rows[p.id] == p by {
      forall p | p in ps ensures p.id in rows && rows[p.id] == p {
        var i :| 0 <= i < |ps| && ps[i] == p;
      }
    }
    Response(200, DataList(ps))
  }

  // ------------------------------------------------------------ row updates

  /** A full update: name, price and availability replaced, id kept. */
  function Replaced(p: Product, name: string, price: int, availability: bool): (q: Product)
    ensures q.id == p.id
    ensures q.name == name && q.price == price && q.availability == availability
  {
    p.(name := name, price := price, availability := availability)
  }

  /** The availability toggle: availability negated, everything else kept. */
  function Toggled(p: Product): (q: Product)
    ensures q.id == p.id && q.name == p.name && q.price == p.price
    ensures q.availability != p.availability
  {
    p.(availability := !p.availability)
  }

  /** Toggling a row twice gives the row back, and so does toggling a table
      entry twice give the table back. */
  lemma ToggleTwiceRestores(rows: map<int, Product>, id: int)
    requires id in rows
    ensures var once := rows[id := Toggled(rows[id])];
            once[id := Toggled(once[id])] == rows
  {
  }

  /** After a row is removed, looking its id up answers 404. */
  lemma LookupAfterDelete(rows: map<int, Product>, id: int)
    requires Keyed(rows) && id in rows
    ensures Keyed(rows - {id})
    ensures GetProductByID(rows - {id}, id) == NotFound
  {
  }

  /** After a create, the new id looks up the created row. */
  lemma LookupAfterCreate(rows: map<int, Product>, p: Product)
    requires Keyed(rows) && p.id !in rows
    ensures Keyed(rows[p.id := p])
    ensures GetProductByID(rows[p.id := p], p.id) == Response(200, Data(p))
    ensures |rows[p.id := p]| == |rows| + 1
  {
  }

  // ------------------------------------------------------------------ table

  /** The product table: rows keyed by id and the next id to hand out. */
  class Store {
    var rows: map<int, Product>
    var nextId: int

    /** Ids start at 1, every row is stored under its own id, and every id in
        use is below the counter, so the counter is always a fresh id. */
    ghost predicate Valid()
      reads this
    {
      && 1 <= nextId
      && Keyed(rows)
      && forall k :: k in rows ==> 1 <= k < nextId
    }

    constructor ()
      ensures Valid()
      ensures rows == map[] && nextId == 1
    {
      rows := map[];
      nextId := 1;
    }

    /** `creaeteProduct`: stores a new row under a fresh id and answers 201
        with it. */
    method CreateProduct(name: string, price: int, availability: bool) returns (r: Response)
      requires Valid()
      modifies this
      ensures Valid()
      ensures old(nextId) !in old(rows)
      ensures rows == old(rows)[old(nextId) := Product(old(nextId), name, price, availability)]
      ensures |rows| == |old(rows)| + 1
      ensures nextId == old(nextId) + 1
      ensures r == Response(201, Data(rows[old(nextId)]))
    {
      var p := Product(nextId, name, price, availability);
      LookupAfterCreate(rows, p);
      rows := rows[nextId := p];
      nextId := nextId + 1;
      r := Response(201, Data(p));
    }

    /** `updateProduct`: replaces name, price and availability of an existing
        row; a missing id answers 404 and changes nothing. */
    method UpdateProduct(id: int, name: string, price: int, availability: bool) returns (r: Response)
      requires Valid()
      modifies this
      ensures Valid()
      ensures nextId == old(nextId)
      ensures id !in old(rows) ==> r == NotFound && rows == old(rows)
      ensures id in old(rows) ==>
                && rows == old(rows)[id := Replaced(old(rows)[id], name, price, availability)]
                && r == Response(200, Data(rows[id]))
    {
      if id !in rows {
        return NotFound;
      }
      var p := Replaced(rows[id], name, price, availability);
      rows := rows[id := p];
      r := Response(200, Data(p));
    }

    /** `updateAvailability`: negates the availability of an existing row; a
        missing id answers 404 and changes nothing. */
    method UpdateAvailability(id: int) returns (r: Response)
      requires Valid()
      modifies this
      ensures Valid()
      ensures nextId == old(nextId)
      ensures id !in old(rows) ==> r == NotFound && rows == old(rows)
      ensures id in old(rows) ==>
                && rows == old(rows)[id := Toggled(old(rows)[id])]
                && r == Response(200, Data(rows[id]))
    {
      if id !in rows {
        return NotFound;
      }
      var p := Toggled(rows[id]);
      rows := rows[id := p];
      r := Response(200, Data(p));
    }

    /** `deleteProduct`: removes an existing row and answers 200 with the
        deletion notice; a missing id answers 404 and changes nothing. */
    method DeleteProduct(id: int) returns (r: Response)
      requires Valid()
      modifies this
      ensures Valid()
      ensures nextId == old(nextId)
      ensures id !in old(rows) ==> r == NotFound && rows == old(rows)
      ensures id in old(rows) ==>
                && rows == old(rows) - {id}
                && |rows| == |old(rows)| - 1
                && r == Response(200, DataText(DeletedMessage))
    {
      if id !in rows {
        return NotFound;
      }
      rows := rows - {id};
      r := Response(200, DataText(DeletedMessage));
    }
  }
}
