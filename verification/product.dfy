/**
 * The product entity and its validating constructor.
 *
 * internal/entity/product.go is outside this model; the constructor's
 * contract is the one its unit tests pin down: an empty name, a zero price and
 * a negative price each fail with their own error, and a valid pair yields a
 * product carrying a fresh identifier, the given name and price, and the
 * construction time. The tests never combine an empty name with a bad price,
 * so which of the two errors wins is left open as the `Precedence` parameter.
 */
module ProductEntity {
  import opened Wrappers
  import opened EntityId

  /** A product identifier, as the text stored in the `id` column. */
  type Id = string

  /**
   * A catalogue product. `createdAt` is a full-resolution timestamp (an
   * integer count of nanoseconds), so products created in quick succession
   * still get distinct, increasing values.
   */
  datatype Product = Product(id: Id, name: string, price: real, createdAt: int)

  /** The sentinel errors of the entity package. */
  datatype ProductError = NameIsRequired | PriceIsRequired | InvalidPrice

  /** Which check the constructor performs first when both fail (not observable in the tests). */
  datatype Precedence = NameFirst | PriceFirst

  /** The invariant every constructed product satisfies. */
  predicate Valid(p: Product) {
    p.name != "" && p.price > 0.0
  }

  /** Every error that a name/price pair deserves on its own. */
  function Violations(name: string, price: real): (v: set<ProductError>)
    ensures v == {} <==> name != "" && price > 0.0
    ensures NameIsRequired in v <==> name == ""
    ensures PriceIsRequired in v <==> price == 0.0
    ensures InvalidPrice in v <==> price < 0.0
  {
    (if name == "" then {NameIsRequired} else {})
    + (if price == 0.0 then {PriceIsRequired} else {})
    + (if price < 0.0 then {InvalidPrice} else {})
  }

  /** The price check alone: zero is "required", negative is "invalid". */
  function PriceError(price: real): Option<ProductError>
  {
    if price == 0.0 then Some(PriceIsRequired)
    else if price < 0.0 then Some(InvalidPrice)
    else None
  }

  /** `Product.Validate`: the first violated rule, or none. */
  function Validate(p: Product, precedence: Precedence): (r: Option<ProductError>)
    ensures r.None? <==> Valid(p)
    ensures r.Some? ==> r.value in Violations(p.name, p.price)
    ensures p.name == "" && p.price > 0.0 ==> r == Some(NameIsRequired)
    ensures p.name != "" && p.price == 0.0 ==> r == Some(PriceIsRequired)
    ensures p.name != "" && p.price < 0.0 ==> r == Some(InvalidPrice)
  {
    var nameError := if p.name == "" then Some(NameIsRequired) else None;
    var priceError := PriceError(p.price);
    match precedence
    case NameFirst => if nameError.Some? then nameError else priceError
    case PriceFirst => if priceError.Some? then priceError else nameError
  }

  /**
   * `NewProduct(name, price)`: `id` is the generator's output and `now` the
   * clock reading, both taken at construction.
   */
  function NewProduct(name: string, price: real, id: FreshId, now: int, precedence: Precedence)
    : (r: Result<Product, ProductError>)
    ensures r.Success? <==> name != "" && price > 0.0
    ensures r.Success? ==>
      && r.value.id == id && r.value.id != ""
      && r.value.name == name && r.value.price == price
      && r.value.createdAt == now
      && Valid(r.value)
    ensures r.Failure? ==> r.error in Violations(name, price)
    ensures name == "" && price > 0.0 ==> r == Failure(NameIsRequired)
    ensures name != "" && price == 0.0 ==> r == Failure(PriceIsRequired)
    ensures name != "" && price < 0.0 ==> r == Failure(InvalidPrice)
  {
    var candidate := Product(id, name, price, now);
    match Validate(candidate, precedence)
    case Some(e) => Failure(e)
    case None => Success(candidate)
  }

  /** A freshly constructed product passes `Validate`, whichever rule is checked first. */
  lemma NewProductValidates(name: string, price: real, id: FreshId, now: int, p1: Precedence, p2: Precedence)
    requires NewProduct(name, price, id, now, p1).Success?
    ensures Validate(NewProduct(name, price, id, now, p1).value, p2).None?
  {
  }

  /**
   * With an empty name and a non-positive price both errors are possible:
   * the precedence alone decides, so the model promises neither.
   */
  lemma CombinedErrorsDependOnPrecedence(name: string, price: real, id: FreshId, now: int)
    requires name == "" && price <= 0.0
    ensures NewProduct(name, price, id, now, NameFirst) == Failure(NameIsRequired)
    ensures NewProduct(name, price, id, now, PriceFirst) == Failure(PriceError(price).value)
    ensures NewProduct(name, price, id, now, PriceFirst) != Failure(NameIsRequired)
  {
  }
}
