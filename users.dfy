/** `UserService`: registering users, reading one, and the filtered, paged listing. */
module Users {
  import opened Base
  import opened Entities
  import opened Db
  import opened Paging
  import opened Text
  import Seqs

  /** A `UserResponseDTO`: the user without the password. */
  datatype UserView = UserView(id: Id, name: string, email: string, role: string, createdAt: Time)

  /** `toResponseDTO(user)`. */
  function ToView(row: (Id, User)): (v: UserView)
    ensures v.id == row.0 && v.name == row.1.name && v.email == row.1.email
    ensures v.role == row.1.role && v.createdAt == row.1.createdAt
  {
    UserView(row.0, row.1.name, row.1.email, row.1.role, row.1.createdAt)
  }

  /** Whether some user already has `email` (the unique `email` column). */
  predicate EmailTaken(users: map<Id, User>, email: string)
  {
    exists u :: u in users && users[u].email == email
  }

  /** Whether the insert would meet a null in one of the three mandatory columns, or a
      value longer than its 255-character column. */
  predicate Incomplete(d: UserDraft)
  {
    d.name.None? || d.email.None? || d.password.None?
    || !FitsColumn(d.name.value) || !FitsColumn(d.email.value) || !FitsColumn(d.password.value)
  }

  /** `createUser(dto)`: a user with the body's name, email and password and the role
      USER, whatever the body says; the `onCreate` hook stamps `createdAt` and keeps
      the role's name. The insert fails on a null or overlong column or an email
      already taken. */
  function CreateUser(db: Db, d: UserDraft, now: Time): (o: Outcome<UserView>)
    ensures o.result.Err? ==> o.db == db && o.result.failure == Crashed
    ensures o.result.Ok? ==>
      && o.result.value.id == db.nextUser && o.result.value.role == USER_ROLE
      && o.db.nextUser == db.nextUser + 1 && o.result.value.id in o.db.users
  {
    if Incomplete(d) then Fail(db, Crashed)
    else if EmailTaken(db.users, d.email.value) then Fail(db, Crashed)
    else
      var user := User(d.name.value, d.email.value, d.password.value, USER_ROLE, now);
      Outcome(db.(users := db.users[db.nextUser := user], nextUser := db.nextUser + 1),
              Ok(ToView((db.nextUser, user))))
  }

  /** `getUserById(id)`: the stored user itself, password included. */
  function GetUser(db: Db, id: Id): (r: Result<User>)
    ensures r.Ok? <==> id in db.users
    ensures r.Err? ==> r.failure == Raised(UserNotFound)
  {
    if id !in db.users then Err(Raised(UserNotFound)) else Ok(db.users[id])
  }

  /** The `name` filter: absent, or contained in the user's name ignoring case. */
  predicate NameMatches(u: User, name: Option<string>)
  {
    name.None? || Contains(Lower(u.name), Lower(name.value))
  }

  /** The `role` filter: absent, or the role's name ignoring case. */
  predicate RoleMatches(u: User, role: Option<string>)
  {
    role.None? || EqualsIgnoreCase(u.role, role.value)
  }

  function ByName(name: Option<string>): ((Id, User)) -> bool
  {
    (row: (Id, User)) => NameMatches(row.1, name)
  }

  function ByRole(role: Option<string>): ((Id, User)) -> bool
  {
    (row: (Id, User)) => RoleMatches(row.1, role)
  }

  /** `findAll` in identity order, then the two filters one after the other. */
  function Filtered(db: Db, name: Option<string>, role: Option<string>): (r: seq<(Id, User)>)
    ensures |r| <= |Seqs.Listing(db.users, db.nextUser)|
  {
    Seqs.Filter(Seqs.Filter(Seqs.Listing(db.users, db.nextUser), ByName(name)), ByRole(role))
  }

  /** `getAllUsers(page, size, name, role)`: the page of the filtered users, as views. */
  function GetAllUsers(db: Db, page: Int32, size: Int32, name: Option<string>, role: Option<string>): (r: Result<Paged<UserView>>)
    ensures r.Err? ==> r.failure == Crashed
    ensures r.Ok? ==> r.value.totalElements == |Filtered(db, name, role)|
  {
    ViewPage(Filtered(db, name, role), page, size)
  }

  /** `PageImpl` over `rows`, each user mapped to its view. */
  function ViewPage(rows: seq<(Id, User)>, page: Int32, size: Int32): Result<Paged<UserView>>
  {
    match Paginate(rows, page, size)
    case Err(f) => Err(f)
    case Ok(p) => Ok(Paged(Seqs.Map(p.content, ToView), p.page, p.size, p.totalElements, p.totalPages))
  }

  // ---------------------------------------------------------------------------
  // Creating and reading

  /** A user is created exactly when the body has every field, each fits its
      255-character column, and the email is new; the role is USER whatever the body
      held, and the new user takes a fresh identity. */
  lemma CreateUserOutcomes(db: Db, d: UserDraft, now: Time)
    requires Counters(db)
    ensures var o := CreateUser(db, d, now);
      (o.result.Ok? <==>
         && d.name.Some? && d.email.Some? && d.password.Some?
         && |d.name.value| <= 255 && |d.email.value| <= 255 && |d.password.value| <= 255
         && !EmailTaken(db.users, d.email.value))
      && (o.result.Err? ==> o.db == db && o.result == Err(Crashed))
    ensures var o := CreateUser(db, d, now);
      o.result.Ok? ==>
        var id := o.result.value.id;
        && id == db.nextUser && id !in db.users
        && o.db.users == db.users[id := User(d.name.value, d.email.value, d.password.value, "USER", now)]
        && o.result.value.role == "USER"
        && o.db == db.(users := o.db.users, nextUser := db.nextUser + 1)
  {
  }

  /** Creating a user keeps every rule, the unique emails included. */
  lemma CreateUserKeepsValid(db: Db, d: UserDraft, now: Time)
    requires Valid(db)
    ensures Valid(CreateUser(db, d, now).db)
  {
    var o := CreateUser(db, d, now);
    if o.result.Ok? {
      NewEmailKeepsUnique(db.users, db.nextUser, o.db.users[db.nextUser]);
      NewUserKeepsValid(db, o.db.users[db.nextUser]);
    }
  }

  lemma NewEmailKeepsUnique(users: map<Id, User>, id: Id, u: User)
    requires EmailsUnique(users) && id !in users && !EmailTaken(users, u.email)
    ensures EmailsUnique(users[id := u])
  {
    var us := users[id := u];
    forall a, b | a in us && b in us && us[a].email == us[b].email
      ensures a == b
    {
      if a != id && b != id {
        assert users[a].email == users[b].email;
      }
    }
  }

  lemma NewUserKeepsValid(db: Db, u: User)
    requires Valid(db) && EmailsUnique(db.users[db.nextUser := u])
    ensures Valid(db.(users := db.users[db.nextUser := u], nextUser := db.nextUser + 1))
  {
  }

  /** An unknown id is NOT_FOUND; a known one yields the stored row. */
  lemma GetUserOutcomes(db: Db, id: Id)
    ensures GetUser(db, id) == Err(Raised(UserNotFound)) <==> id !in db.users
    ensures GetUser(db, id).Ok? ==> id in db.users && GetUser(db, id).value == db.users[id]
  {
  }

  // ---------------------------------------------------------------------------
  // Filtering and paging

  /** A user is listed exactly when it passes both filters. */
  lemma FilteredExact(db: Db, name: Option<string>, role: Option<string>)
    requires IdsBelow(db.users, db.nextUser)
    ensures var rows := Filtered(db, name, role);
      && (forall id :: id in db.users && NameMatches(db.users[id], name) && RoleMatches(db.users[id], role)
                       ==> (id, db.users[id]) in rows)
      && (forall i :: 0 <= i < |rows| ==>
            rows[i].0 in db.users && rows[i].1 == db.users[rows[i].0]
            && NameMatches(rows[i].1, name) && RoleMatches(rows[i].1, role))
  {
    FilteredComplete(db, name, role);
    FilteredSound(db, name, role);
  }

  lemma FilteredComplete(db: Db, name: Option<string>, role: Option<string>)
    requires IdsBelow(db.users, db.nextUser)
    ensures forall id :: id in db.users && NameMatches(db.users[id], name) && RoleMatches(db.users[id], role) ==>
              (id, db.users[id]) in Filtered(db, name, role)
  {
    RowsFilteredExact(db.users, Seqs.Listing(db.users, db.nextUser), ByName(name), ByRole(role));
  }

  lemma FilteredSound(db: Db, name: Option<string>, role: Option<string>)
    ensures var rows := Filtered(db, name, role);
      forall i :: 0 <= i < |rows| ==>
        rows[i].0 in db.users && rows[i].1 == db.users[rows[i].0]
        && NameMatches(rows[i].1, name) && RoleMatches(rows[i].1, role)
  {
    Seqs.FilterFilter(Seqs.Listing(db.users, db.nextUser), ByName(name), ByRole(role));
  }

  /** The filtered users keep the order of `findAll`. */
  lemma FilteredInOrder(db: Db, name: Option<string>, role: Option<string>)
    ensures Seqs.IsSubsequence(Filtered(db, name, role), Seqs.Listing(db.users, db.nextUser))
  {
    Seqs.FilterFilter(Seqs.Listing(db.users, db.nextUser), ByName(name), ByRole(role));
  }

  lemma RowsFilteredExact(users: map<Id, User>, all: seq<(Id, User)>, p: ((Id, User)) -> bool, q: ((Id, User)) -> bool)
    requires forall i :: 0 <= i < |all| ==> all[i].0 in users && users[all[i].0] == all[i].1
    requires forall k :: k in users ==> (k, users[k]) in all
    ensures var rows := Seqs.Filter(Seqs.Filter(all, p), q);
      && (forall k :: k in users && p((k, users[k])) && q((k, users[k])) ==> (k, users[k]) in rows)
      && (forall i :: 0 <= i < |rows| ==> rows[i].0 in users && rows[i].1 == users[rows[i].0] && p(rows[i]) && q(rows[i]))
  {
    Seqs.FilterFilter(all, p, q);
    forall k | k in users && p((k, users[k])) && q((k, users[k]))
      ensures (k, users[k]) in Seqs.Filter(Seqs.Filter(all, p), q)
    {
      var i :| 0 <= i < |all| && all[i] == (k, users[k]);
    }
  }

  /** `getAllUsers` pages the filtered users through `ViewPage`. Without overflow,
      the page is the views of the slice
      `[min(page*size, n), min(page*size+size, n))` of the `n` filtered users, no
      longer than `size` and empty past the end; `totalElements` is `n` and
      `totalPages` the least number of pages holding them all. */
  lemma ViewPageBounds(rows: seq<(Id, User)>, page: Int32, size: Int32)
    requires |rows| <= INT_MAX
    requires 0 <= page && 0 < size && page * size + size <= INT_MAX
    ensures var r := ViewPage(rows, page, size);
      var start := Offset(page, size);
      && r.Ok? && r.value.totalElements == |rows|
      && r.value.content == Seqs.Map(rows[Min(start, |rows|)..Min(start + size, |rows|)], ToView)
      && |r.value.content| <= size
      && (start >= |rows| ==> r.value.content == [])
      && r.value.totalPages * size >= |rows| && (r.value.totalPages == 0 || (r.value.totalPages - 1) * size < |rows|)
  {
    PaginateInRange(rows, page, size);
  }

  /** Without filters every user is counted. */
  lemma UnfilteredCountsAll(db: Db)
    requires Counters(db)
    ensures |Filtered(db, None, None)| == |db.users|
  {
    var all := Seqs.Listing(db.users, db.nextUser);
    FilterAll(all, ByName(None));
    FilterAll(Seqs.Filter(all, ByName(None)), ByRole(None));
    Seqs.ListingAll(db.users, db.nextUser);
  }

  lemma {:induction false} FilterAll<T>(s: seq<T>, p: T -> bool)
    requires forall x :: p(x)
    ensures Seqs.Filter(s, p) == s
  {
    if s != [] {
      FilterAll(s[1..], p);
      assert [s[0]] + s[1..] == s;
    }
  }

  /** Only the name query's lower-case form matters: two queries that agree up to
      ASCII case select the same users, in the same order. */
  lemma NameFilterIgnoresCase(db: Db, f: string, g: string, role: Option<string>)
    requires Lower(f) == Lower(g)
    ensures Filtered(db, Some(f), role) == Filtered(db, Some(g), role)
  {
    Seqs.FilterSame(Seqs.Listing(db.users, db.nextUser), ByName(Some(f)), ByName(Some(g)));
  }

  /** In particular a query selects what its lower-case form selects. */
  lemma NameFilterLowerQuery(db: Db, f: string, role: Option<string>)
    ensures Filtered(db, Some(f), role) == Filtered(db, Some(Lower(f)), role)
  {
    LowerTwice(f);
    NameFilterIgnoresCase(db, f, Lower(f), role);
  }

}
