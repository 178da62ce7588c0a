/** backend/seed_users.js: make sure an "admin" and a "user" account exist,
    creating each one only if no user has its name. */
module SeedUsers {
  import opened Wrappers
  import opened Records
  import opened Schema
  import opened Server

  /** The two accounts the script seeds. */
  const SeedAccounts: seq<UserInput> := [
    UserInput("admin", Some("123456"), Some("admin")),
    UserInput("user", Some("123456"), Some("user"))
  ]

  lemma SeedAccountsValid(k: nat, id: Id)
    requires k < |SeedAccounts|
    ensures NewUser(SeedAccounts[k], id).Ok?
  {
  }

  /** The stored user was created from seed account `k`. */
  predicate FromSeed(u: User, k: nat)
    requires k < |SeedAccounts|
  {
    && u.username == SeedAccounts[k].username
    && Some(u.password) == SeedAccounts[k].password
    && Some(u.role.Name()) == SeedAccounts[k].role
  }

  /** The user collection and next identifier after the loop has handled the
      first `n` seed accounts, starting from `users` and `next`. */
  function SeedFirst(users: seq<User>, next: nat, n: nat): (seq<User>, nat)
    requires n <= |SeedAccounts|
  {
    if n == 0 then (users, next)
    else
      var (done, id) := SeedFirst(users, next, n - 1);
      var account := SeedAccounts[n - 1];
      if FindUser(done, account.username).Some? then (done, id)
      else
        SeedAccountsValid(n - 1, id);
        (done + [NewUser(account, id).value], id + 1)
  }

  /** How many of the first `n` seed accounts have no user of that name. */
  function Absent(users: seq<User>, n: nat): (c: nat)
    requires n <= |SeedAccounts|
    ensures c <= n
  {
    if n == 0 then 0
    else Absent(users, n - 1) + (if FindUser(users, SeedAccounts[n - 1].username).None? then 1 else 0)
  }

  /** Each step either keeps the collection or appends the seed account. */
  lemma SeedStep(users: seq<User>, next: nat, n: nat)
    requires 0 < n <= |SeedAccounts|
    ensures var (done, id) := SeedFirst(users, next, n - 1);
      var after := SeedFirst(users, next, n).0;
      if FindUser(done, SeedAccounts[n - 1].username).Some? then after == done
      else |after| == |done| + 1 && after[..|done|] == done && FromSeed(after[|done|], n - 1)
  {
    var (done, id) := SeedFirst(users, next, n - 1);
    if FindUser(done, SeedAccounts[n - 1].username).None? {
      SeedAccountsValid(n - 1, id);
    }
  }

  /** The users present before are kept, in place, and one user is added per
      seed name that was missing. */
  lemma {:induction false} SeedKeepsUsers(users: seq<User>, next: nat, n: nat)
    requires n <= |SeedAccounts|
    ensures var after := SeedFirst(users, next, n).0;
      |users| <= |after| && after[..|users|] == users
    decreases n
  {
    if n > 0 {
      SeedKeepsUsers(users, next, n - 1);
      SeedStep(users, next, n);
      var done := SeedFirst(users, next, n - 1).0;
      var after := SeedFirst(users, next, n).0;
      assert after[..|users|] == after[..|done|][..|users|];
    }
  }

  /** Every user of `after` beyond the first `|before|` is one of the first
      `n` seed accounts. */
  predicate AddedAreSeeds(before: seq<User>, after: seq<User>, n: nat)
    requires n <= |SeedAccounts|
  {
    forall i :: |before| <= i < |after| ==> IsSeedUser(after[i], n)
  }

  /** `u` was created from one of the first `n` seed accounts. */
  predicate IsSeedUser(u: User, n: nat)
    requires n <= |SeedAccounts|
  {
    exists k :: 0 <= k < n && FromSeed(u, k)
  }

  /** Every added user is one of the seed accounts. */
  lemma {:induction false} SeedAddsOnlySeeds(users: seq<User>, next: nat, n: nat)
    requires n <= |SeedAccounts|
    ensures AddedAreSeeds(users, SeedFirst(users, next, n).0, n)
    decreases n
  {
    if n == 0 {
      assert SeedFirst(users, next, n).0 == users;
    } else {
      SeedAddsOnlySeeds(users, next, n - 1);
      SeedKeepsUsers(users, next, n - 1);
      SeedStep(users, next, n);
      var done := SeedFirst(users, next, n - 1).0;
      var after := SeedFirst(users, next, n).0;
      forall i | |users| <= i < |after| ensures IsSeedUser(after[i], n) {
        if i < |done| {
          assert after[i] == done[i];
          assert IsSeedUser(done[i], n - 1);
          var k :| 0 <= k < n - 1 && FromSeed(done[i], k);
          assert FromSeed(after[i], k);
        } else {
          assert FromSeed(after[i], n - 1);
        }
      }
    }
  }

  /** Lookups by name: a seed name already handled now finds a user; one that
      existed before, or is not handled yet, finds the same user as before (an
      existing account's password and role are not overwritten). */
  lemma {:induction false} SeedLookups(users: seq<User>, next: nat, n: nat)
    requires n <= |SeedAccounts|
    ensures var after := SeedFirst(users, next, n).0;
      && (forall k :: 0 <= k < n ==> FindUser(after, SeedAccounts[k].username).Some?)
      && (forall k :: 0 <= k < |SeedAccounts| && (k >= n || FindUser(users, SeedAccounts[k].username).Some?) ==>
            FindUser(after, SeedAccounts[k].username) == FindUser(users, SeedAccounts[k].username))
    decreases n
  {
    if n > 0 {
      SeedLookups(users, next, n - 1);
      SeedStep(users, next, n);
      var done := SeedFirst(users, next, n - 1).0;
      var after := SeedFirst(users, next, n).0;
      if FindUser(done, SeedAccounts[n - 1].username).None? {
        var added := after[|done|];
        assert after == done + [added];
        forall k | 0 <= k < |SeedAccounts|
          ensures FindUser(after, SeedAccounts[k].username) ==
            if FindUser(done, SeedAccounts[k].username).Some? then FindUser(done, SeedAccounts[k].username)
            else if added.username == SeedAccounts[k].username then Some(added) else None
        {
          FindUserAppend(done, added, SeedAccounts[k].username);
        }
      }
    }
  }

  /** One user is added per seed name that was missing. */
  lemma {:induction false} SeedCount(users: seq<User>, next: nat, n: nat)
    requires n <= |SeedAccounts|
    ensures |SeedFirst(users, next, n).0| == |users| + Absent(users, n)
    decreases n
  {
    if n > 0 {
      SeedCount(users, next, n - 1);
      SeedLookups(users, next, n - 1);
      SeedStep(users, next, n);
    }
  }

  /** After a run both seed accounts exist, and a second run adds nothing. */
  lemma SeedIdempotent(users: seq<User>, next: nat, next2: nat)
    ensures forall k :: 0 <= k < |SeedAccounts| ==>
      FindUser(SeedFirst(users, next, |SeedAccounts|).0, SeedAccounts[k].username).Some?
    ensures var once := SeedFirst(users, next, |SeedAccounts|).0;
      SeedFirst(once, next2, |SeedAccounts|).0 == once
  {
    SeedLookups(users, next, |SeedAccounts|);
    var once := SeedFirst(users, next, |SeedAccounts|).0;
    SeedLookups(once, next2, |SeedAccounts|);
    SeedCount(once, next2, |SeedAccounts|);
    SeedKeepsUsers(once, next2, |SeedAccounts|);
    assert Absent(once, |SeedAccounts|) == 0 by {
      assert Absent(once, 1) == 0;
    }
  }

  /** The seeding loop over the store: for each seed account, look the name
      up and save the account only when nobody has it. */
  method Seed(store: RecordStore)
    requires store.Valid()
    modifies store
    ensures store.Valid()
    ensures store.orders == old(store.orders) && store.designs == old(store.designs)
    ensures (store.users, store.nextId) == SeedFirst(old(store.users), old(store.nextId), |SeedAccounts|)
  {
    for i := 0 to |SeedAccounts|
      invariant store.Valid()
      invariant store.orders == old(store.orders) && store.designs == old(store.designs)
      invariant (store.users, store.nextId) == SeedFirst(old(store.users), old(store.nextId), i)
    {
      var account := SeedAccounts[i];
      ghost var done, id := store.users, store.nextId;
      SeedAccountsValid(i, id);
      assert SeedFirst(old(store.users), old(store.nextId), i + 1) ==
        if FindUser(done, account.username).Some? then (done, id)
        else (done + [NewUser(account, id).value], id + 1);
      var existing := store.FindUserByName(account.username);
      if existing.None? {
        var saved := store.SaveUser(account);
      }
    }
  }
}
