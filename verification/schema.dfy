/** The Mongoose schemas of backend/models: which fields a new record must
    carry, which it may omit and what an omitted field defaults to. A request
    body is a record of optional fields; building a record from it either
    fails with the list of missing required paths (the `ValidationError` that
    `save()` throws) or yields the stored record. */
module Schema {
  import opened Wrappers
  import opened Records
  import Text

  /** Mongoose's `required` check on a String path: present and non-empty. */
  predicate PresentText(s: Option<string>) {
    s.Some? && s.value != []
  }

  /** The names of the schema paths that failed validation. */
  datatype ValidationError = ValidationError(missing: seq<string>)

  // ---------------------------------------------------------------- Order

  /** The body of `POST /api/orders`, as far as the Order schema reads it. */
  datatype OrderInput = OrderInput(
    customerName: Option<string>,
    phone: Option<string>,
    abayaCode: Option<string>,
    length: Option<string>,
    width: Option<string>,
    sleeveLength: Option<string>,
    deliveryLocation: Option<string>,
    price: Option<Money>,
    deposit: Option<Money>,
    notes: Option<string>,
    isDelivered: Option<bool>,
    status: Option<string>,
    createdAt: Option<Time>)

  /** The required paths of the Order schema that `input` fails, in schema order. */
  function MissingOrderFields(input: OrderInput): (m: seq<string>)
    ensures m == [] <==>
      PresentText(input.customerName) && PresentText(input.phone) && PresentText(input.abayaCode)
      && PresentText(input.length) && PresentText(input.width) && PresentText(input.sleeveLength)
      && PresentText(input.deliveryLocation) && input.price.Some?
    ensures "price" in m <==> input.price.None?
    ensures "customerName" in m <==> !PresentText(input.customerName)
  {
    var texts := Check(PresentText(input.customerName), "customerName")
      + Check(PresentText(input.phone), "phone")
      + Check(PresentText(input.abayaCode), "abayaCode")
      + Check(PresentText(input.length), "length")
      + Check(PresentText(input.width), "width")
      + Check(PresentText(input.sleeveLength), "sleeveLength")
      + Check(PresentText(input.deliveryLocation), "deliveryLocation");
    assert "price" !in texts;
    texts + Check(input.price.Some?, "price")
  }

  /** The failed path a single required-field check contributes. */
  function Check(present: bool, path: string): (r: seq<string>)
    ensures r == [] <==> present
    ensures forall p :: p in r <==> !present && p == path
  {
    if present then [] else [path]
  }

  /** What every stored order satisfies: its required text fields are non-empty. */
  predicate ValidOrder(o: Order) {
    o.customerName != [] && o.phone != [] && o.abayaCode != [] && o.length != []
    && o.width != [] && o.sleeveLength != [] && o.deliveryLocation != []
  }

  /** `new Order(body)` followed by validation, for an order given id `id` at
      time `now`: rejected exactly when a required path is missing; otherwise
      every supplied field is kept as given and the omitted ones take their
      defaults (deposit 0, not delivered, status "New", created now). */
  function NewOrder(input: OrderInput, id: Id, now: Time): (r: Result<Order, ValidationError>)
    ensures r.Err? <==> MissingOrderFields(input) != []
    ensures r.Err? ==> r.error.missing == MissingOrderFields(input)
    ensures r.Ok? ==> ValidOrder(r.value) && r.value.id == id
    ensures r.Ok? ==>
      && Some(r.value.customerName) == input.customerName
      && Some(r.value.phone) == input.phone
      && Some(r.value.abayaCode) == input.abayaCode
      && Some(r.value.length) == input.length
      && Some(r.value.width) == input.width
      && Some(r.value.sleeveLength) == input.sleeveLength
      && Some(r.value.deliveryLocation) == input.deliveryLocation
      && Some(r.value.price) == input.price
      && r.value.notes == input.notes
    ensures r.Ok? ==>
      && (input.deposit.None? ==> r.value.deposit == 0)
      && (input.deposit.Some? ==> r.value.deposit == input.deposit.value)
      && (input.isDelivered.None? ==> !r.value.isDelivered)
      && (input.isDelivered.Some? ==> r.value.isDelivered == input.isDelivered.value)
      && (input.status.None? ==> r.value.status == "New")
      && (input.status.Some? ==> r.value.status == input.status.value)
      && (input.createdAt.None? ==> r.value.createdAt == now)
      && (input.createdAt.Some? ==> r.value.createdAt == input.createdAt.value)
  {
    var missing := MissingOrderFields(input);
    if missing != [] then Err(ValidationError(missing))
    else Ok(Order(
      id,
      input.customerName.value,
      input.phone.value,
      input.abayaCode.value,
      input.length.value,
      input.width.value,
      input.sleeveLength.value,
      input.deliveryLocation.value,
      input.price.value,
      input.deposit.GetOr(0),
      input.notes,
      input.isDelivered.GetOr(false),
      input.status.GetOr("New"),
      input.createdAt.GetOr(now)))
  }

  // ---------------------------------------------------------------- Design

  /** The body of `POST /api/designs`, as far as the Design schema reads it. */
  datatype DesignInput = DesignInput(
    code: Option<string>,
    costPrice: Option<Money>,
    sellingPrice: Option<Money>,
    notes: Option<string>,
    image: Option<string>)

  /** The code after the schema's `trim` setter, which runs before validation. */
  function CastCode(code: Option<string>): (r: Option<string>)
    ensures r.Some? <==> code.Some?
    ensures r.Some? ==> r.value == Text.Trim(code.value)
  {
    match code
    case Some(c) => Some(Text.Trim(c))
    case None => None
  }

  function MissingDesignFields(input: DesignInput): (m: seq<string>)
    ensures m == [] <==>
      PresentText(CastCode(input.code)) && input.costPrice.Some? && input.sellingPrice.Some?
      && PresentText(input.image)
  {
    (if PresentText(CastCode(input.code)) then [] else ["code"])
    + (if input.costPrice.Some? then [] else ["costPrice"])
    + (if input.sellingPrice.Some? then [] else ["sellingPrice"])
    + (if PresentText(input.image) then [] else ["image"])
  }

  /** What every stored design satisfies: a non-empty code with no surrounding
      spaces, and a non-empty image. */
  predicate ValidDesign(d: Design) {
    d.code != [] && Text.IsTrimmed(d.code) && d.image != []
  }

  /** `new Design(body)` followed by validation: the code is trimmed and must
      then be non-empty; both prices and the image are required; notes default
      to the empty string; both timestamps are the creation time. */
  function NewDesign(input: DesignInput, id: Id, now: Time): (r: Result<Design, ValidationError>)
    ensures r.Err? <==> MissingDesignFields(input) != []
    ensures r.Ok? ==> ValidDesign(r.value) && r.value.id == id
    ensures r.Ok? ==>
      && input.code.Some? && r.value.code == Text.Trim(input.code.value)
      && Some(r.value.costPrice) == input.costPrice
      && Some(r.value.sellingPrice) == input.sellingPrice
      && Some(r.value.image) == input.image
      && (input.notes.None? ==> r.value.notes == "")
      && (input.notes.Some? ==> r.value.notes == input.notes.value)
      && r.value.createdAt == now && r.value.updatedAt == now
  {
    var missing := MissingDesignFields(input);
    if missing != [] then Err(ValidationError(missing))
    else
      Text.TrimSpec(input.code.value);
      Ok(Design(
        id,
        CastCode(input.code).value,
        input.costPrice.value,
        input.sellingPrice.value,
        input.notes.GetOr(""),
        input.image.value,
        now,
        now))
  }

  /** A code made only of spaces is rejected, since trimming leaves nothing. */
  lemma BlankCodeRejected(input: DesignInput, id: Id, now: Time)
    requires input.code.Some?
    requires forall k :: 0 <= k < |input.code.value| ==> Text.IsSpace(input.code.value[k])
    ensures NewDesign(input, id, now).Err?
  {
    Text.TrimAllSpaces(input.code.value);
  }

  // ---------------------------------------------------------------- User

  /** The body of `POST /api/register`. */
  datatype UserInput = UserInput(username: string, password: Option<string>, role: Option<string>)

  /** What every stored user satisfies. */
  predicate ValidUser(u: User) {
    u.username != [] && u.password != []
  }

  /** `new User({username, password, role})` followed by validation: the
      username and password are required, the role must be "admin" or "user"
      and defaults to "user". */
  function NewUser(input: UserInput, id: Id): (r: Result<User, ValidationError>)
    ensures r.Ok? <==>
      input.username != [] && PresentText(input.password)
      && (input.role.None? || input.role.value == "admin" || input.role.value == "user")
    ensures r.Ok? ==> ValidUser(r.value)
    ensures r.Ok? ==>
      && r.value == UserRecord(id, input.username, input.password.value, r.value.role)
      && (input.role.None? ==> r.value.role == Role.User)
      && (input.role.Some? ==> r.value.role.Name() == input.role.value)
  {
    var missing :=
      (if input.username != [] then [] else ["username"])
      + (if PresentText(input.password) then [] else ["password"])
      + (if input.role.None? || ParseRole(input.role.value).Some? then [] else ["role"]);
    if missing != [] then Err(ValidationError(missing))
    else Ok(UserRecord(id, input.username, input.password.value,
                       if input.role.None? then Role.User else ParseRole(input.role.value).value))
  }
}
