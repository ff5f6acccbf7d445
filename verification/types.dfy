/** Records shared by the mock data layer and the screens that consume it. */
module Types {

  /** A value that may be absent; `Partial<Product>` fields and lookups use it. */
  datatype Option<T> = None | Some(value: T) {
    function GetOr(default: T): T {
      match this
      case Some(v) => v
      case None => default
    }
  }

  /** The outcome of a facade call: a value, or the message of the thrown error. */
  datatype Result<T> = Ok(value: T) | Err(message: string)

  datatype Role = Manager | Storekeeper

  /** A user as handed out after authentication: there is no password field. */
  datatype User = User(id: string, email: string, name: string, role: Role)

  datatype Status = InStock | LowStock | OutOfStock

  /** A stored product. `price` is an abstract decimal, `quantity` an integer. */
  datatype Product = Product(
    id: string,
    name: string,
    category: string,
    quantity: int,
    price: real,
    unit: string,
    supplier: string,
    lastUpdated: string,
    status: Status)

  /** A create payload: a product without `id` and `lastUpdated`. */
  datatype ProductInput = ProductInput(
    name: string,
    category: string,
    quantity: int,
    price: real,
    unit: string,
    supplier: string,
    status: Status)

  /** An update payload: every product field may be present or absent. */
  datatype ProductPatch = ProductPatch(
    id: Option<string>,
    name: Option<string>,
    category: Option<string>,
    quantity: Option<int>,
    price: Option<real>,
    unit: Option<string>,
    supplier: Option<string>,
    lastUpdated: Option<string>,
    status: Option<Status>)

  const EmptyPatch := ProductPatch(None, None, None, None, None, None, None, None, None)
}
