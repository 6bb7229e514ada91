/**
 * What a handler writes back: a status code, a JSON body (or none), and the
 * table as the request left it. A request body is represented by the
 * outcome of decoding it.
 */
module Http {
  import opened ProductEntity

  const StatusOK: int := 200
  const StatusCreated: int := 201
  const StatusBadRequest: int := 400
  const StatusUnauthorized: int := 401
  const StatusNotFound: int := 404
  const StatusInternalServerError: int := 500

  /** The outcome of `json.NewDecoder(req.Body).Decode(&v)`. */
  datatype Decoded<T> = Decoded(value: T) | Undecodable(message: string)

  /** The text of an `Error{Message}` body: the error the handler caught. */
  datatype Cause = DecodeError(message: string) | InvalidProduct(error: ProductError)

  datatype Body =
    | NoBody
    | ErrorBody(cause: Cause)                  // `{"message": …}`
    | ProductBody(product: Product)            // one product as JSON
    | ProductsBody(products: seq<Product>)     // a JSON array of products
    | TokenBody(accessToken: string)           // `{"access_token": …}`

  datatype Response<S> = Response(status: int, body: Body, store: S)
}
