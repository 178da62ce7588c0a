/** The three persisted entities (the three schemas under backend/models) as they are once stored:
    every default applied, every required field present. */
module Records {
  import opened Wrappers

  /** Record identifiers (MongoDB `_id`), allocated by the store. */
  type Id = nat
  /** Prices and deposits, in the smallest currency unit (baisa). */
  type Money = int
  /** Timestamps, in milliseconds since the epoch (`Date.now()`). */
  type Time = int

  /** The role enumeration of the User schema. */
  datatype Role = Admin | User {
    /** The stored string, `"admin"` or `"user"`. */
    function Name(): string {
      match this
      case Admin => "admin"
      case User => "user"
    }
  }

  /** Reading a role string against the schema's `enum: ["admin", "user"]`. */
  function ParseRole(s: string): (r: Option<Role>)
    ensures r.Some? <==> s == "admin" || s == "user"
    ensures r.Some? ==> r.value.Name() == s
  {
    if s == "admin" then Some(Admin) else if s == "user" then Some(User) else None
  }

  /** Every role parses back from its stored name. */
  lemma ParseRoleName(r: Role)
    ensures ParseRole(r.Name()) == Some(r)
  {
  }

  datatype User = UserRecord(id: Id, username: string, password: string, role: Role)

  datatype Design = Design(
    id: Id,
    code: string,
    costPrice: Money,
    sellingPrice: Money,
    notes: string,
    image: string,
    createdAt: Time,
    updatedAt: Time)

  datatype Order = Order(
    id: Id,
    customerName: string,
    phone: string,
    abayaCode: string,
    length: string,
    width: string,
    sleeveLength: string,
    deliveryLocation: string,
    price: Money,
    deposit: Money,
    notes: Option<string>,
    isDelivered: bool,
    status: string,
    createdAt: Time)
}
