/** The Express handlers of backend/server.js over the three MongoDB
    collections, modelled as one in-memory store object whose collections the
    handlers update in place. HTTP status codes and messages are part of the
    replies; the transport itself is not modelled. */
module Server {
  import opened Wrappers
  import opened Records
  import opened Seqs
  import opened Schema
  import OrderStatus

  // ---------------------------------------------------------------- replies

  /** Reply of `POST /api/register`: never carries the password. */
  datatype RegisterReply =
    | UserCreated(username: string, role: Role)
    | UsernameTaken
    | RegisterFailed(error: ValidationError)
  {
    function Status(): int {
      match this
      case UserCreated(_, _) => 201
      case UsernameTaken => 400
      case RegisterFailed(_) => 500
    }
    function Message(): string {
      match this
      case UserCreated(_, _) => "User created"
      case UsernameTaken => "Username already exists"
      case RegisterFailed(_) => "Server error"
    }
  }

  /** Reply of `POST /api/login`. An unknown user and a wrong password give
      the same `LoginDenied`, so the reply does not say which was wrong. */
  datatype LoginReply =
    | LoginOk(username: string, role: Role, id: Id)
    | LoginDenied
  {
    function Status(): int {
      if LoginOk? then 200 else 401
    }
    function Message(): Option<string> {
      if LoginOk? then None else Some("Invalid username or password")
    }
  }

  /** Why `save()` of a new design throws: a failed validation, or the unique
      index on `code` (MongoDB's duplicate key error). Both answer 500. */
  datatype CreateError = Invalid(error: ValidationError) | DuplicateKey(key: string)

  // ---------------------------------------------------------------- queries

  /** `User.findOne({ username })`: the first user with that name. */
  function FindUser(users: seq<User>, username: string): (r: Option<User>)
    ensures r.Some? ==> r.value in users && r.value.username == username
    ensures r.None? ==> forall u :: u in users ==> u.username != username
  {
    if users == [] then None
    else if users[0].username == username then Some(users[0])
    else FindUser(users[1..], username)
  }

  /** Appending a user changes `findOne` only for a name nobody had. */
  lemma {:induction false} FindUserAppend(users: seq<User>, u: User, username: string)
    ensures FindUser(users + [u], username) ==
      if FindUser(users, username).Some? then FindUser(users, username)
      else if u.username == username then Some(u) else None
    decreases |users|
  {
    if users == [] {
      assert [] + [u] == [u];
    } else {
      assert (users + [u])[1..] == users[1..] + [u];
      FindUserAppend(users[1..], u, username);
    }
  }

  /** The position of the order with id `id`, if any. */
  function OrderIndex(orders: seq<Order>, id: Id): (r: Option<nat>)
    ensures r.Some? ==> r.value < |orders| && orders[r.value].id == id
    ensures r.None? ==> forall o :: o in orders ==> o.id != id
  {
    if orders == [] then None
    else if orders[|orders| - 1].id == id then Some(|orders| - 1)
    else OrderIndex(orders[..|orders| - 1], id)
  }

  /** The update `findByIdAndUpdate` applies: `isDelivered` when the body
      carries it (Mongoose drops an undefined value from an update), and
      `status` always, from the flag's truthiness. */
  function SetDelivery(o: Order, isDelivered: Option<bool>): (r: Order)
    ensures r.isDelivered == (if isDelivered.Some? then isDelivered.value else o.isDelivered)
    ensures r.status == OrderStatus.WriteTimeStatus(isDelivered == Some(true))
    ensures r == o.(isDelivered := r.isDelivered, status := r.status)
  {
    match isDelivered
    case Some(b) => o.(isDelivered := b, status := OrderStatus.WriteTimeStatus(b))
    case None => o.(status := OrderStatus.WriteTimeStatus(false))
  }

  /** Marking delivered and then undelivered ends at "New", whatever the
      order's age or earlier status (the scenario of backend/test_toggle.js). */
  lemma DeliveryRoundTrip(o: Order)
    ensures SetDelivery(SetDelivery(o, Some(true)), Some(false))
         == o.(isDelivered := false, status := OrderStatus.Label.New.Text())
    ensures SetDelivery(o, Some(true)).status == OrderStatus.Label.Delivered.Text()
  {
  }

  function RemoveOrder(orders: seq<Order>, id: Id): seq<Order> {
    Filter(orders, (o: Order) => o.id != id)
  }

  function RemoveDesign(designs: seq<Design>, id: Id): seq<Design> {
    Filter(designs, (d: Design) => d.id != id)
  }

  /** Deleting by id removes exactly the records with that id, keeps the order
      of the rest, and changes nothing when no record has it. */
  lemma RemoveOrderSpec(orders: seq<Order>, id: Id)
    ensures forall o :: o in RemoveOrder(orders, id) <==> o in orders && o.id != id
    ensures IsSubsequence(RemoveOrder(orders, id), orders)
    ensures (forall o :: o in orders ==> o.id != id) ==> RemoveOrder(orders, id) == orders
  {
    FilterSpec(orders, (o: Order) => o.id != id);
    if forall o :: o in orders ==> o.id != id {
      FilterAll(orders, (o: Order) => o.id != id);
    }
  }

  lemma RemoveDesignSpec(designs: seq<Design>, id: Id)
    ensures forall d :: d in RemoveDesign(designs, id) <==> d in designs && d.id != id
    ensures IsSubsequence(RemoveDesign(designs, id), designs)
    ensures (forall d :: d in designs ==> d.id != id) ==> RemoveDesign(designs, id) == designs
  {
    FilterSpec(designs, (d: Design) => d.id != id);
    if forall d :: d in designs ==> d.id != id {
      FilterAll(designs, (d: Design) => d.id != id);
    }
  }

  // ---------------------------------------------------------------- invariants

  predicate UniqueUsernames(users: seq<User>) {
    forall i, j :: 0 <= i < j < |users| ==> users[i].username != users[j].username
  }

  predicate UniqueCodes(designs: seq<Design>) {
    forall i, j :: 0 <= i < j < |designs| ==> designs[i].code != designs[j].code
  }

  /** `findOne` finds the only user with a given name, so login compares
      against that user's password. */
  lemma FindUserUnique(users: seq<User>, username: string, u: User)
    requires UniqueUsernames(users)
    requires u in users && u.username == username
    ensures FindUser(users, username) == Some(u)
  {
    var r := FindUser(users, username);
    var i :| 0 <= i < |users| && users[i] == u;
    var j :| 0 <= j < |users| && users[j] == r.value;
    assert i == j;
  }

  /** Once a design is deleted no design with its code remains, so orders
      naming that code become orphans. */
  lemma RemoveDesignDropsCode(designs: seq<Design>, d: Design)
    requires UniqueCodes(designs)
    requires d in designs
    ensures forall e :: e in RemoveDesign(designs, d.id) ==> e.code != d.code
  {
    RemoveDesignSpec(designs, d.id);
    forall e | e in RemoveDesign(designs, d.id) ensures e.code != d.code {
      var i :| 0 <= i < |designs| && designs[i] == d;
      var j :| 0 <= j < |designs| && designs[j] == e;
      assert i != j;
    }
  }

  // ---------------------------------------------------------------- the store

  /** The schemas' constraints on every stored record, the unique indexes on
      usernames and design codes, and identifiers that are distinct and below
      the next one to be handed out. */
  ghost predicate StoreInvariant(users: seq<User>, orders: seq<Order>, designs: seq<Design>, nextId: nat) {
    && UniqueUsernames(users)
    && UniqueCodes(designs)
    && (forall u :: u in users ==> ValidUser(u) && u.id < nextId)
    && (forall o :: o in orders ==> ValidOrder(o) && o.id < nextId)
    && (forall d :: d in designs ==> ValidDesign(d) && d.id < nextId)
    && (forall i, j :: 0 <= i < j < |users| ==> users[i].id != users[j].id)
    && (forall i, j :: 0 <= i < j < |orders| ==> orders[i].id != orders[j].id)
    && (forall i, j :: 0 <= i < j < |designs| ==> designs[i].id != designs[j].id)
  }

  /** Appending a valid order under the next identifier keeps the invariant. */
  lemma AppendOrderKeepsInvariant(users: seq<User>, orders: seq<Order>, designs: seq<Design>, nextId: nat, o: Order)
    requires StoreInvariant(users, orders, designs, nextId)
    requires ValidOrder(o) && o.id == nextId
    ensures StoreInvariant(users, orders + [o], designs, nextId + 1)
  {
    var r := orders + [o];
    forall i, j | 0 <= i < j < |r| ensures r[i].id != r[j].id {
      assert r[i] == orders[i] && r[i] in orders;
    }
  }

  class RecordStore {
    var users: seq<User>
    var orders: seq<Order>
    var designs: seq<Design>
    /** The next identifier to hand out (ObjectId generation). */
    var nextId: nat

    /** The schemas' constraints on every stored record, the unique indexes
        on `username` and `code`, and fresh identifiers. */
    ghost predicate Valid()
      reads this
    {
      StoreInvariant(users, orders, designs, nextId)
    }

    constructor ()
      ensures Valid()
      ensures users == [] && orders == [] && designs == [] && nextId == 0
    {
      users, orders, designs, nextId := [], [], [], 0;
    }

    /** `User.findOne({ username })`. */
    method FindUserByName(username: string) returns (r: Option<User>)
      ensures r == FindUser(users, username)
    {
      r := None;
      var i := 0;
      while i < |users|
        invariant 0 <= i <= |users|
        invariant FindUser(users, username) == FindUser(users[i..], username)
      {
        if users[i].username == username {
          assert users[i..][0] == users[i];
          return Some(users[i]);
        }
        assert users[i..][1..] == users[i + 1..];
        i := i + 1;
      }
    }

    /** `new User(input).save()`: validates, enforces the unique username
        index, and appends the user under a fresh id. */
    method SaveUser(input: UserInput) returns (r: Result<User, CreateError>)
      requires Valid()
      modifies this
      ensures Valid()
      ensures orders == old(orders) && designs == old(designs)
      ensures NewUser(input, old(nextId)).Err? ==> r.Err? && users == old(users) && nextId == old(nextId)
      ensures NewUser(input, old(nextId)).Ok? && FindUser(old(users), input.username).Some? ==>
        r.Err? && users == old(users) && nextId == old(nextId)
      ensures NewUser(input, old(nextId)).Ok? && FindUser(old(users), input.username).None? ==>
        r == Ok(NewUser(input, old(nextId)).value) && users == old(users) + [r.value]
        && nextId == old(nextId) + 1
    {
      var built := NewUser(input, nextId);
      if built.Err? {
        return Err(Invalid(built.error));
      }
      var existing := FindUserByName(input.username);
      if existing.Some? {
        return Err(DuplicateKey(input.username));
      }
      users := users + [built.value];
      nextId := nextId + 1;
      r := Ok(built.value);
    }

    /** `POST /api/register`: 400 when the username exists (nothing added),
        500 when validation fails (nothing added), otherwise exactly one user
        is added and the reply carries its username and role. */
    method Register(input: UserInput) returns (reply: RegisterReply)
      requires Valid()
      modifies this
      ensures Valid()
      ensures orders == old(orders) && designs == old(designs)
      ensures FindUser(old(users), input.username).Some? ==>
        reply == UsernameTaken && users == old(users)
      ensures FindUser(old(users), input.username).None? && NewUser(input, old(nextId)).Err? ==>
        reply.RegisterFailed? && users == old(users)
      ensures FindUser(old(users), input.username).None? && NewUser(input, old(nextId)).Ok? ==>
        && users == old(users) + [NewUser(input, old(nextId)).value]
        && reply == UserCreated(input.username, NewUser(input, old(nextId)).value.role)
    {
      var existing := FindUserByName(input.username);
      if existing.Some? {
        return UsernameTaken;
      }
      var saved := SaveUser(input);
      match saved
      case Ok(u) => reply := UserCreated(u.username, u.role);
      case Err(e) =>
        reply := RegisterFailed(if e.Invalid? then e.error else ValidationError(["username"]));
    }

    /** `POST /api/login`: succeeds exactly when a stored user has that
        username and exactly that password, and then answers with that user's
        username, role and id; otherwise the one 401 reply. */
    method Login(username: string, password: string) returns (reply: LoginReply)
      requires Valid()
      ensures reply.LoginOk? <==> exists u :: u in users && u.username == username && u.password == password
      ensures reply.LoginOk? ==>
        exists u :: u in users && reply == LoginOk(u.username, u.role, u.id) && u.password == password
      ensures reply.LoginOk? ==> reply.username == username
    {
      var user := FindUserByName(username);
      if user.None? {
        return LoginDenied;
      }
      if user.value.password != password {
        forall u | u in users && u.username == username ensures u.password != password {
          FindUserUnique(users, username, u);
        }
        return LoginDenied;
      }
      reply := LoginOk(user.value.username, user.value.role, user.value.id);
    }

    /** `GET /api/orders`: every stored order, newest first. */
    method ListOrders() returns (r: seq<Order>)
      ensures multiset(r) == multiset(orders)
      ensures forall i, j :: 0 <= i < j < |r| ==> r[i].createdAt >= r[j].createdAt
    {
      r := SortDesc(orders, (o: Order) => o.createdAt);
    }

    /** `POST /api/orders`: 201 with the stored order, or 500 with nothing
        stored when a required field is missing. */
    method CreateOrder(input: OrderInput, now: Time) returns (r: Result<Order, ValidationError>)
      requires Valid()
      modifies this
      ensures Valid()
      ensures users == old(users) && designs == old(designs)
      ensures r == NewOrder(input, old(nextId), now)
      ensures r.Ok? ==> orders == old(orders) + [r.value] && nextId == old(nextId) + 1
      ensures r.Err? ==> orders == old(orders) && nextId == old(nextId)
    {
      r := NewOrder(input, nextId, now);
      if r.Ok? {
        AppendOrderKeepsInvariant(users, orders, designs, nextId, r.value);
        orders, nextId := orders + [r.value], nextId + 1;
      }
    }

    /** `PUT /api/orders/:id`: changes `isDelivered` and `status` of the order
        with that id and nothing else; an unknown id answers `null` and
        changes nothing. */
    method UpdateOrder(id: Id, isDelivered: Option<bool>) returns (r: Option<Order>)
      requires Valid()
      modifies this
      ensures Valid()
      ensures users == old(users) && designs == old(designs) && nextId == old(nextId)
      ensures OrderIndex(old(orders), id).None? ==> r.None? && orders == old(orders)
      ensures OrderIndex(old(orders), id).Some? ==>
        var i := OrderIndex(old(orders), id).value;
        && orders == old(orders)[i := SetDelivery(old(orders)[i], isDelivered)]
        && r == Some(orders[i])
    {
      var k := OrderIndex(orders, id);
      if k.None? {
        return None;
      }
      var updated := SetDelivery(orders[k.value], isDelivered);
      orders := orders[k.value := updated];
      r := Some(updated);
      forall o | o in orders ensures ValidOrder(o) && o.id < nextId {
        if o != updated { assert o in old(orders); }
        else { assert old(orders)[k.value] in old(orders); }
      }
    }

    /** `DELETE /api/orders/:id`: removes the order with that id, if any, and
        always answers "Order deleted". */
    method DeleteOrder(id: Id) returns (message: string)
      requires Valid()
      modifies this
      ensures Valid()
      ensures users == old(users) && designs == old(designs) && nextId == old(nextId)
      ensures orders == RemoveOrder(old(orders), id)
      ensures message == "Order deleted"
    {
      RemoveOrderSpec(orders, id);
      ghost var before := orders;
      orders := RemoveOrder(orders, id);
      SubsequenceDistinctIds(orders, before);
      message := "Order deleted";
    }

    /** `GET /api/designs`: every stored design, newest first. */
    method ListDesigns() returns (r: seq<Design>)
      ensures multiset(r) == multiset(designs)
      ensures forall i, j :: 0 <= i < j < |r| ==> r[i].createdAt >= r[j].createdAt
    {
      r := SortDesc(designs, (d: Design) => d.createdAt);
    }

    /** `POST /api/designs`: 500 with nothing stored when validation fails or
        when the trimmed code is already taken; otherwise 201 and the design
        is appended. */
    method CreateDesign(input: DesignInput, now: Time) returns (r: Result<Design, CreateError>)
      requires Valid()
      modifies this
      ensures Valid()
      ensures users == old(users) && orders == old(orders)
      ensures NewDesign(input, old(nextId), now).Err? ==> r.Err? && designs == old(designs)
      ensures NewDesign(input, old(nextId), now).Ok? ==>
        var d := NewDesign(input, old(nextId), now).value;
        && ((exists e :: e in old(designs) && e.code == d.code) ==> r == Err(DuplicateKey(d.code)) && designs == old(designs))
        && ((forall e :: e in old(designs) ==> e.code != d.code) ==> r == Ok(d) && designs == old(designs) + [d])
    {
      var built := NewDesign(input, nextId, now);
      if built.Err? {
        return Err(Invalid(built.error));
      }
      var d := built.value;
      var i := 0;
      while i < |designs|
        invariant 0 <= i <= |designs|
        invariant forall k :: 0 <= k < i ==> designs[k].code != d.code
      {
        if designs[i].code == d.code {
          return Err(DuplicateKey(d.code));
        }
        i := i + 1;
      }
      designs := designs + [d];
      nextId := nextId + 1;
      r := Ok(d);
    }

    /** `DELETE /api/designs/:id`: removes the design with that id, if any;
        orders are untouched, even those naming its code. */
    method DeleteDesign(id: Id) returns (message: string)
      requires Valid()
      modifies this
      ensures Valid()
      ensures users == old(users) && orders == old(orders) && nextId == old(nextId)
      ensures designs == RemoveDesign(old(designs), id)
      ensures message == "Design deleted"
    {
      RemoveDesignSpec(designs, id);
      ghost var before := designs;
      designs := RemoveDesign(designs, id);
      SubsequenceDistinctDesigns(designs, before);
      message := "Design deleted";
    }
  }

  /** A subsequence of orders with distinct ids has distinct ids. */
  lemma {:induction false} SubsequenceDistinctIds(sub: seq<Order>, s: seq<Order>)
    requires IsSubsequence(sub, s)
    requires forall i, j :: 0 <= i < j < |s| ==> s[i].id != s[j].id
    ensures forall i, j :: 0 <= i < j < |sub| ==> sub[i].id != sub[j].id
    decreases |s|
  {
    if sub != [] && s != [] {
      if sub[0] == s[0] {
        SubsequenceDistinctIds(sub[1..], s[1..]);
        SubsequenceMembers(sub[1..], s[1..]);
        forall j | 0 < j < |sub| ensures sub[0].id != sub[j].id {
          assert sub[j] == sub[1..][j - 1];
          assert sub[j] in s[1..];
          var k :| 0 <= k < |s[1..]| && s[1..][k] == sub[j];
          assert s[k + 1] == sub[j];
        }
      } else {
        SubsequenceDistinctIds(sub, s[1..]);
      }
    }
  }

  /** A subsequence of designs with distinct ids and codes keeps both distinct. */
  lemma {:induction false} SubsequenceDistinctDesigns(sub: seq<Design>, s: seq<Design>)
    requires IsSubsequence(sub, s)
    requires forall i, j :: 0 <= i < j < |s| ==> s[i].id != s[j].id
    requires UniqueCodes(s)
    ensures forall i, j :: 0 <= i < j < |sub| ==> sub[i].id != sub[j].id
    ensures UniqueCodes(sub)
    decreases |s|
  {
    if sub != [] && s != [] {
      if sub[0] == s[0] {
        SubsequenceDistinctDesigns(sub[1..], s[1..]);
        SubsequenceMembers(sub[1..], s[1..]);
        forall j | 0 < j < |sub| ensures sub[0].id != sub[j].id && sub[0].code != sub[j].code {
          assert sub[j] == sub[1..][j - 1];
          assert sub[j] in s[1..];
          var k :| 0 <= k < |s[1..]| && s[1..][k] == sub[j];
          assert s[k + 1] == sub[j];
        }
      } else {
        SubsequenceDistinctDesigns(sub, s[1..]);
      }
    }
  }

  lemma {:induction false} SubsequenceMembers<T>(sub: seq<T>, s: seq<T>)
    requires IsSubsequence(sub, s)
    ensures forall x :: x in sub ==> x in s
    decreases |s|
  {
    if sub != [] && s != [] {
      if sub[0] == s[0] {
        SubsequenceMembers(sub[1..], s[1..]);
        assert sub == [sub[0]] + sub[1..];
      } else {
        SubsequenceMembers(sub, s[1..]);
      }
    }
  }
}
