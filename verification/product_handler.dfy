/**
 * The product request handlers, each a pure function from the table and the
 * request's observable outcomes to `(status, body, table')`.
 *
 * Inputs that the real handler draws from the outside are parameters: the
 * decoded request body, the UUID and clock readings the constructor takes,
 * `strconv.Atoi` and `ParseID` (pure library functions), and whether the
 * storage engine fails the write or listing statement (`fault`).
 */
module ProductHandler {
  import opened Wrappers
  import opened GoInt
  import opened EntityId
  import opened ProductEntity
  import opened ProductDB
  import opened ProductDBProperties
  import opened Http

  /** The body of `POST /products`. */
  datatype ProductInput = ProductInput(name: string, price: real)

  /** `POST /products`. */
  function CreateProduct(s: Store, request: Decoded<ProductInput>, id: FreshId, now: int,
                         precedence: Precedence, fault: bool): (r: Response<Store>)
    ensures r.status == StatusCreated || r.status == StatusBadRequest || r.status == StatusInternalServerError
    ensures r.status != StatusCreated ==> r.store == s
    ensures request.Undecodable? ==> r == Response(StatusBadRequest, ErrorBody(DecodeError(request.message)), s)
    ensures request.Decoded? && !Valid(Product(id, request.value.name, request.value.price, now)) ==>
      && r.status == StatusBadRequest && r.body.ErrorBody? && r.body.cause.InvalidProduct?
      && r.body.cause.error in Violations(request.value.name, request.value.price)
    ensures request.Decoded? && NewProduct(request.value.name, request.value.price, id, now, precedence).Failure? ==>
      r == Response(StatusBadRequest,
                    ErrorBody(InvalidProduct(NewProduct(request.value.name, request.value.price, id, now, precedence).error)), s)
    ensures r.status == StatusCreated <==>
      request.Decoded? && request.value.name != "" && request.value.price > 0.0 && !fault && !Stored(s, id)
    ensures request.Decoded? && request.value.name != "" && request.value.price > 0.0 && (fault || Stored(s, id)) ==>
      r == Response(StatusInternalServerError, NoBody, s)
    ensures r.status == StatusInternalServerError ==> r.body == NoBody
    ensures r.status == StatusCreated ==>
      && r.body == NoBody
      && r.store == s + [Product(id, request.value.name, request.value.price, now)]
      && FindByID(r.store, id) == Success(Product(id, request.value.name, request.value.price, now))
    ensures UniqueIds(s) ==> UniqueIds(r.store)
  {
    match request
    case Undecodable(message) => Response(StatusBadRequest, ErrorBody(DecodeError(message)), s)
    case Decoded(input) =>
      match NewProduct(input.name, input.price, id, now, precedence)
      case Failure(e) => Response(StatusBadRequest, ErrorBody(InvalidProduct(e)), s)
      case Success(p) =>
        match Create(s, p, fault)
        case Failure(_) => Response(StatusInternalServerError, NoBody, s)
        case Success(s') =>
          CreateThenFind(s, p, fault);
          assert s' == s + [p];
          Response(StatusCreated, NoBody, s')
  }

  /** A query parameter after `strconv.Atoi`: a failed parse is 0. */
  function QueryInt(atoi: string -> Option<Int64>, text: string): (n: Int64)
    ensures atoi(text).None? ==> n == 0
    ensures atoi(text).Some? ==> n == atoi(text).value
  {
    match atoi(text)
    case Some(n) => n
    case None => 0
  }

  /** `GET /products?page=…&limit=…&sort=…`. */
  function GetProducts(s: Store, page: string, limit: string, sort: string,
                       atoi: string -> Option<Int64>, fault: bool): (r: Response<Store>)
    ensures r.store == s
    ensures fault ==> r == Response(StatusInternalServerError, NoBody, s)
    ensures !fault ==> r.status == StatusOK && r.body.ProductsBody?
    ensures !fault ==>
      r.body == ProductsBody(FindAll(s, QueryInt(atoi, page), QueryInt(atoi, limit), sort, false).value)
    ensures !fault && (atoi(page).None? || atoi(limit).None?) ==>
      r.body.products == InCreationOrder(s, NormalizeSort(sort))
  {
    var pageInt := QueryInt(atoi, page);
    var limitInt := QueryInt(atoi, limit);
    match FindAll(s, pageInt, limitInt, sort, fault)
    case Failure(_) => Response(StatusInternalServerError, NoBody, s)
    case Success(products) => Response(StatusOK, ProductsBody(products), s)
  }

  /** `GET /products/{id}`. */
  function GetProduct(s: Store, id: string): (r: Response<Store>)
    ensures r.store == s
    ensures id == "" ==> r == Response(StatusBadRequest, NoBody, s)
    ensures id != "" && !Stored(s, id) ==> r == Response(StatusNotFound, NoBody, s)
    ensures r.status == StatusOK <==> id != "" && Stored(s, id)
    ensures r.status == StatusOK ==> r.body.ProductBody? && r.body.product.id == id && r.body.product in s
  {
    if id == "" then Response(StatusBadRequest, NoBody, s)
    else
      match FindByID(s, id)
      case Failure(_) => Response(StatusNotFound, NoBody, s)
      case Success(p) => Response(StatusOK, ProductBody(p), s)
  }

  /**
   * `PUT /products/{id}`: the body is a whole product and is not validated;
   * the path id replaces the body's id.
   */
  function UpdateProduct(s: Store, pathId: string, request: Decoded<Product>,
                         parseId: string -> Option<Id>, fault: bool): (r: Response<Store>)
    ensures r.body == NoBody
    ensures r.status != StatusOK ==> r.store == s
    ensures pathId == "" || request.Undecodable? || parseId(pathId).None? ==>
      r == Response(StatusBadRequest, NoBody, s)
    ensures pathId != "" && request.Decoded? && parseId(pathId).Some? ==>
      var id := parseId(pathId).value;
      && (!Stored(s, id) ==> r == Response(StatusNotFound, NoBody, s))
      && (Stored(s, id) && fault ==> r == Response(StatusInternalServerError, NoBody, s))
      && (Stored(s, id) && !fault ==>
            r == Response(StatusOK, NoBody, Overwrite(s, request.value.(id := id))))
    ensures UniqueIds(s) ==> UniqueIds(r.store)
  {
    if pathId == "" then Response(StatusBadRequest, NoBody, s)
    else
      match request
      case Undecodable(_) => Response(StatusBadRequest, NoBody, s)
      case Decoded(body) =>
        match parseId(pathId)
        case None => Response(StatusBadRequest, NoBody, s)
        case Some(id) =>
          var product := body.(id := id);
          match FindByID(s, id)
          case Failure(_) => Response(StatusNotFound, NoBody, s)
          case Success(_) =>
            match Update(s, product, fault)
            case Failure(_) => Response(StatusInternalServerError, NoBody, s)
            case Success(s') =>
              assert s' == Overwrite(s, product);
              if UniqueIds(s) then
                UpdateKeepsUniqueIds(s, product, fault);
                Response(StatusOK, NoBody, s')
              else
                Response(StatusOK, NoBody, s')
  }

  /** `DELETE /products/{id}`: the row found by the probe is the one deleted. */
  function DeleteProduct(s: Store, id: string, fault: bool): (r: Response<Store>)
    ensures r.body == NoBody
    ensures r.status != StatusOK ==> r.store == s
    ensures id == "" ==> r == Response(StatusBadRequest, NoBody, s)
    ensures id != "" && !Stored(s, id) ==> r == Response(StatusNotFound, NoBody, s)
    ensures id != "" && Stored(s, id) && fault ==> r == Response(StatusInternalServerError, NoBody, s)
    ensures id != "" && Stored(s, id) && !fault ==>
      && r.status == StatusOK
      && !Stored(r.store, id)
      && (forall q :: q in r.store <==> q in s && q.id != id)
    ensures UniqueIds(s) ==> UniqueIds(r.store)
    ensures UniqueIds(s) && r.status == StatusOK ==> |r.store| == |s| - 1
  {
    if id == "" then Response(StatusBadRequest, NoBody, s)
    else
      match FindByID(s, id)
      case Failure(_) => Response(StatusNotFound, NoBody, s)
      case Success(product) =>
        match Delete(s, product.id, fault)
        case Failure(_) => Response(StatusInternalServerError, NoBody, s)
        case Success(s') =>
          if UniqueIds(s) then
            DeleteKeepsUniqueIds(s, product.id, fault);
            DeleteRemovesFoundRow(s, product.id, fault);
            Response(StatusOK, NoBody, s')
          else
            Response(StatusOK, NoBody, s')
  }

  /**
   * The update handler stores what it decoded without validating it: a
   * product with an empty name and a negative price replaces a valid one.
   */
  lemma UpdateStoresInvalidProduct(stored: Product, parseId: string -> Option<Id>)
    requires Valid(stored) && parseId(stored.id) == Some(stored.id) && stored.id != ""
    ensures var body := Product("ignored", "", -1.0, stored.createdAt);
      var r := UpdateProduct([stored], stored.id, Decoded(body), parseId, false);
      && r.status == StatusOK
      && r.store == [Product(stored.id, "", -1.0, stored.createdAt)]
      && !Valid(r.store[0])
  {
    assert [stored][0].id == stored.id;
    var body := Product("ignored", "", -1.0, stored.createdAt);
    var r := UpdateProduct([stored], stored.id, Decoded(body), parseId, false);
    assert r.store[0] == Product(stored.id, "", -1.0, stored.createdAt);
  }

  /** A product created through the API is then served by `GET /products/{id}`. */
  lemma CreateThenGet(s: Store, input: ProductInput, id: FreshId, now: int, precedence: Precedence)
    requires CreateProduct(s, Decoded(input), id, now, precedence, false).status == StatusCreated
    ensures var created := CreateProduct(s, Decoded(input), id, now, precedence, false);
      GetProduct(created.store, id)
        == Response(StatusOK, ProductBody(Product(id, input.name, input.price, now)), created.store)
  {
    var created := CreateProduct(s, Decoded(input), id, now, precedence, false);
    assert FindByID(created.store, id) == Success(Product(id, input.name, input.price, now));
  }

  /**
   * After a successful `PUT /products/{id}`, `GET` with the parsed id serves
   * the decoded record under that id, and every other id is served as before.
   */
  lemma UpdateThenGet(s: Store, pathId: string, body: Product, parseId: string -> Option<Id>, other: string)
    requires UniqueIds(s)
    requires UpdateProduct(s, pathId, Decoded(body), parseId, false).status == StatusOK
    ensures var id := parseId(pathId).value;
      var updated := UpdateProduct(s, pathId, Decoded(body), parseId, false);
      && (id != "" ==> GetProduct(updated.store, id) == Response(StatusOK, ProductBody(body.(id := id)), updated.store))
      && (other != id ==> GetProduct(updated.store, other).status == GetProduct(s, other).status)
      && (other != id ==> GetProduct(updated.store, other).body == GetProduct(s, other).body)
  {
    var id := parseId(pathId).value;
    var updated := UpdateProduct(s, pathId, Decoded(body), parseId, false);
    assert Update(s, body.(id := id), false) == Success(updated.store);
    UpdateThenFind(s, body.(id := id), false, other);
  }

  /** After a successful `DELETE /products/{id}`, `GET` on that id answers 404. */
  lemma DeleteThenGet(s: Store, id: string)
    requires DeleteProduct(s, id, false).status == StatusOK
    ensures var deleted := DeleteProduct(s, id, false);
      GetProduct(deleted.store, id) == Response(StatusNotFound, NoBody, deleted.store)
  {
  }
}
