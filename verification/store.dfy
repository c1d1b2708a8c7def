/** The user repository: user records keyed by their unique email. */
module UserStore {
  import opened Fields

  /** One row of the users table; `password` holds the digest, never the plaintext. */
  datatype User = User(id: nat, name: Option<string>, email: string, password: string)

  /** The table, plus the id the repository will assign to the next row it creates. */
  datatype Store = Store(users: map<string, User>, nextId: nat)

  /** The empty table; auto-assigned ids start at 1. */
  const Empty := Store(map[], 1)

  /** Ids start at 1, every row is filed under its own email, carries an id
      below `nextId`, and no two rows share an id. */
  ghost predicate WellFormed(s: Store) {
    && 1 <= s.nextId
    && (forall e :: e in s.users ==> s.users[e].email == e && 1 <= s.users[e].id < s.nextId)
    && (forall e1, e2 :: e1 in s.users && e2 in s.users && e1 != e2 ==> s.users[e1].id != s.users[e2].id)
  }

  /** `findUnique({where: {email}})`: the row filed under `email`, if any. */
  function FindUnique(s: Store, email: string): (r: Option<User>)
    ensures r.Some? <==> email in s.users
    ensures r.Some? ==> r.value == s.users[email]
    ensures WellFormed(s) && r.Some? ==> r.value.email == email && 1 <= r.value.id < s.nextId
  {
    if email in s.users then Some(s.users[email]) else None
  }

  /** `create({data: {name, email, password}})`: inserts a row with a fresh id.
      The unique index on email refuses a second row for the same email. */
  function Create(s: Store, name: Option<string>, email: string, digest: string): (r: Option<Store>)
    ensures r.None? <==> email in s.users
    ensures r.Some? ==>
      && email in r.value.users
      && r.value.users[email] == User(s.nextId, name, email, digest)
      && r.value.users.Keys == s.users.Keys + {email}
      && (forall e :: e in s.users ==> r.value.users[e] == s.users[e])
      && |r.value.users| == |s.users| + 1
      && r.value.nextId == s.nextId + 1
    ensures r.Some? && WellFormed(s) ==> WellFormed(r.value)
  {
    if email in s.users then None
    else Some(Store(s.users[email := User(s.nextId, name, email, digest)], s.nextId + 1))
  }
}
