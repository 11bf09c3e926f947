/** The PostgreSQL store behind the service, as three in-memory tables with serial id counters.
    Each query is a function over the table it reads; each statement that writes is a method of
    Db that reassigns the table it changes and nothing else. */
module Database {
  import opened Errors
  import opened Api

  datatype User = User(
    id: int, email: string, password: string,
    firstname: string, lastname: string, city: string, country: string)

  /** The record GetUser leaves behind when no row matches: every field is Go's zero value. */
  const ZeroUser: User := User(0, "", "", "", "", "", "")

  datatype Token = Token(id: int, userId: int, secret: string, name: string)

  datatype LocationRow = LocationRow(
    id: int, userId: int, tokenId: int, private: bool,
    latitude: Coord, longitude: Coord, time: Timestamp)

  // ---------------------------------------------------------------------------------------
  // What PostgreSQL refuses

  /** The range of PostgreSQL's `integer`, the type of every id and user_id column. */
  const MinInt32: int := -0x8000_0000
  const MaxInt32: int := 0x7FFF_FFFF

  predicate IsInt32(n: int) { MinInt32 <= n <= MaxInt32 }

  /** Text PostgreSQL accepts as a parameter: it cannot hold the character U+0000. */
  predicate Storable(s: string) { forall i :: 0 <= i < |s| ==> s[i] != '\0' }

  predicate AllStorable(fields: seq<string>) { forall i :: 0 <= i < |fields| ==> Storable(fields[i]) }

  // ---------------------------------------------------------------------------------------
  // Table invariants

  /** Ids given by a SERIAL column: positive, never above the sequence's last value, and
      ascending in insertion order (rows are only appended or deleted). */
  ghost predicate UsersSerial(users: seq<User>, last: int)
  {
    && (forall i :: 0 <= i < |users| ==> 1 <= users[i].id <= last)
    && (forall i, j :: 0 <= i < j < |users| ==> users[i].id < users[j].id)
  }

  ghost predicate TokensSerial(tokens: seq<Token>, last: int)
  {
    && (forall i :: 0 <= i < |tokens| ==> 1 <= tokens[i].id <= last)
    && (forall i, j :: 0 <= i < j < |tokens| ==> tokens[i].id < tokens[j].id)
  }

  ghost predicate LocationsSerial(locations: seq<LocationRow>, last: int)
  {
    && (forall i :: 0 <= i < |locations| ==> 1 <= locations[i].id <= last)
    && (forall i, j :: 0 <= i < j < |locations| ==> locations[i].id < locations[j].id)
  }

  ghost predicate EmailsUnique(users: seq<User>)
  {
    forall i, j :: 0 <= i < j < |users| ==> users[i].email != users[j].email
  }

  /** Secret uniqueness is what the service expects of xid; nothing in the store enforces it. */
  ghost predicate SecretsUnique(tokens: seq<Token>)
  {
    forall i, j :: 0 <= i < j < |tokens| ==> tokens[i].secret != tokens[j].secret
  }

  ghost predicate EmailTaken(users: seq<User>, email: string)
  {
    exists i :: 0 <= i < |users| && users[i].email == email
  }

  ghost predicate SecretInUse(tokens: seq<Token>, secret: string)
  {
    exists i :: 0 <= i < |tokens| && tokens[i].secret == secret
  }

  // ---------------------------------------------------------------------------------------
  // Queries

  /** `SELECT ... FROM users WHERE email = $1`, first row. */
  function LookupEmail(users: seq<User>, email: string): (r: Option<User>)
    ensures r.Some? <==> EmailTaken(users, email)
    ensures r.Some? ==> r.value in users && r.value.email == email
  {
    if users == [] then None
    else if users[0].email == email then Some(users[0])
    else
      var r := LookupEmail(users[1..], email);
      assert EmailTaken(users, email) ==> EmailTaken(users[1..], email) by {
        if EmailTaken(users, email) {
          var i :| 0 <= i < |users| && users[i].email == email;
          assert users[1..][i - 1] == users[i];
        }
      }
      r
  }

  /** The WHERE clauses the service puts on the tokens table. */
  datatype Where =
    | OwnerAndSecret(userId: int, secret: string)  // user_id = $1 AND token = $2
    | Secret(secret: string)                       // token = $1
    | OwnerAndId(userId: int, id: int)             // user_id = $1 AND id = $2
  {
    predicate Matches(t: Token)
    {
      match this
      case OwnerAndSecret(u, s) => t.userId == u && t.secret == s
      case Secret(s) => t.secret == s
      case OwnerAndId(u, id) => t.userId == u && t.id == id
    }
  }

  ghost predicate ExactlyOne(tokens: seq<Token>, w: Where)
  {
    && (exists i :: 0 <= i < |tokens| && w.Matches(tokens[i]))
    && (forall i, j :: 0 <= i < |tokens| && 0 <= j < |tokens| && w.Matches(tokens[i]) && w.Matches(tokens[j]) ==> i == j)
  }

  /** `SELECT count(token) FROM tokens WHERE ...` */
  function Count(tokens: seq<Token>, w: Where): (n: nat)
    ensures n <= |tokens|
    ensures n == 0 <==> forall i :: 0 <= i < |tokens| ==> !w.Matches(tokens[i])
  {
    if tokens == [] then 0
    else
      var init := tokens[..|tokens| - 1];
      var n := Count(init, w);
      assert forall i :: 0 <= i < |init| ==> init[i] == tokens[i];
      n + if w.Matches(tokens[|tokens| - 1]) then 1 else 0
  }

  /** `DELETE FROM tokens WHERE ...`: the rows that survive, in their order. */
  function Delete(tokens: seq<Token>, w: Where): (r: seq<Token>)
    ensures |r| == |tokens| - Count(tokens, w)
    ensures forall t :: t in r <==> t in tokens && !w.Matches(t)
  {
    if tokens == [] then []
    else
      var init := tokens[..|tokens| - 1];
      var last := tokens[|tokens| - 1];
      assert tokens == init + [last];
      Delete(init, w) + if w.Matches(last) then [] else [last]
  }

  /** `SELECT id FROM tokens WHERE ...`, first row. */
  function FirstMatch(tokens: seq<Token>, w: Where): (r: Option<Token>)
    ensures r.Some? <==> exists i :: 0 <= i < |tokens| && w.Matches(tokens[i])
    ensures r.Some? ==> r.value in tokens && w.Matches(r.value)
  {
    if tokens == [] then None
    else if w.Matches(tokens[0]) then Some(tokens[0])
    else
      var r := FirstMatch(tokens[1..], w);
      assert forall i :: 1 <= i < |tokens| ==> tokens[1..][i - 1] == tokens[i];
      r
  }

  /** The row of the listing query for one location and one user. */
  function View(l: LocationRow, u: User): Location
  {
    Location(l.time, Position(l.latitude, l.longitude), l.private, u.firstname, u.lastname)
  }

  /** The rows of `FROM locations l, users u WHERE l.user_id = u.id` that belong to one location. */
  function JoinUsers(l: LocationRow, users: seq<User>): (r: seq<Location>)
    ensures forall e :: e in r <==> exists k :: 0 <= k < |users| && users[k].id == l.userId && e == View(l, users[k])
  {
    if users == [] then []
    else
      var init := users[..|users| - 1];
      var last := users[|users| - 1];
      var r := JoinUsers(l, init) + if last.id == l.userId then [View(l, last)] else [];
      assert forall k :: 0 <= k < |init| ==> init[k] == users[k];
      r
  }

  /** The listing query: for each location in table order, its joined rows. Every entry is a
      location viewed with a user whose id is the location's user_id. */
  function Join(locations: seq<LocationRow>, users: seq<User>): (r: seq<Location>)
    ensures forall e :: e in r ==>
      exists j, k :: 0 <= j < |locations| && 0 <= k < |users| && users[k].id == locations[j].userId
                     && e == View(locations[j], users[k])
  {
    if locations == [] then []
    else
      var init := locations[..|locations| - 1];
      var r := Join(init, users) + JoinUsers(locations[|locations| - 1], users);
      assert forall j :: 0 <= j < |init| ==> init[j] == locations[j];
      r
  }

  /** The privacy rule of the listing: a private entry loses its owner's names and nothing else. */
  function Redact(e: Location): (r: Location)
    ensures r.private == e.private && r.position == e.position && r.timestamp == e.timestamp
    ensures r.private ==> r.firstname == "" && r.lastname == ""
    ensures !r.private ==> r == e
  {
    if e.private then e.(firstname := "", lastname := "") else e
  }

  /** What `DELETE FROM tokens WHERE user_id = $1 AND id = $2` reports: an id outside the
      32-bit columns is refused, a delete that removes no row is an error, and otherwise the
      token id comes back. */
  function DeleteOutcome(tokens: seq<Token>, userId: int, tokenId: int): (r: Result<int>)
    ensures r.Ok? <==> IsInt32(userId) && IsInt32(tokenId) && Count(tokens, OwnerAndId(userId, tokenId)) != 0
    ensures r.Ok? ==> r.value == tokenId
    ensures r.Err? && IsInt32(userId) && IsInt32(tokenId) ==> r.error == DeleteTokenFailed
  {
    if !IsInt32(userId) then Err(OutOfRange(userId))
    else if !IsInt32(tokenId) then Err(OutOfRange(tokenId))
    else if Count(tokens, OwnerAndId(userId, tokenId)) == 0 then Err(DeleteTokenFailed)
    else Ok(tokenId)
  }

  // ---------------------------------------------------------------------------------------
  // Lemmas about the queries

  /** `count(...) == 1`, the test CheckUserToken and IsTokenExist apply, means exactly one row matches. */
  lemma {:induction false} CountIsOne(tokens: seq<Token>, w: Where)
    ensures Count(tokens, w) == 1 <==> ExactlyOne(tokens, w)
  {
    if tokens != [] {
      var init := tokens[..|tokens| - 1];
      var last := |tokens| - 1;
      CountIsOne(init, w);
      assert forall i :: 0 <= i < |init| ==> init[i] == tokens[i];
      if w.Matches(tokens[last]) {
        if ExactlyOne(tokens, w) {
          assert forall i :: 0 <= i < |init| ==> !w.Matches(init[i]);
        }
      } else {
        if ExactlyOne(tokens, w) {
          var i :| 0 <= i < |tokens| && w.Matches(tokens[i]);
          assert i < last;
          assert ExactlyOne(init, w);
        }
      }
    }
  }

  /** With serial ids, at most one row carries a given (owner, id): DeleteToken removes one row or none. */
  lemma {:induction false} AtMostOneWithId(tokens: seq<Token>, last: int, userId: int, id: int)
    requires TokensSerial(tokens, last)
    ensures Count(tokens, OwnerAndId(userId, id)) <= 1
  {
    if tokens != [] {
      var init := tokens[..|tokens| - 1];
      assert forall i :: 0 <= i < |init| ==> init[i] == tokens[i];
      assert TokensSerial(init, last);
      AtMostOneWithId(init, last, userId, id);
      if OwnerAndId(userId, id).Matches(tokens[|tokens| - 1]) {
        assert forall i :: 0 <= i < |init| ==> init[i].id < id;
      }
    }
  }

  /** A token whose secret no earlier row uses is the one live row for that secret, and the
      one row of its owner with that secret. */
  lemma FreshSecretIsLive(before: seq<Token>, t: Token)
    requires !SecretInUse(before, t.secret)
    ensures Count(before + [t], Secret(t.secret)) == 1
    ensures Count(before + [t], OwnerAndSecret(t.userId, t.secret)) == 1
  {
    var tokens := before + [t];
    assert tokens[..|tokens| - 1] == before;
    assert Count(before, Secret(t.secret)) == 0;
    assert Count(before, OwnerAndSecret(t.userId, t.secret)) == 0;
  }

  /** Appending a row keeps secrets unique exactly when its secret is not in use. */
  lemma AppendSecretsUnique(before: seq<Token>, t: Token)
    ensures SecretsUnique(before + [t]) <==> SecretsUnique(before) && !SecretInUse(before, t.secret)
  {
    var tokens := before + [t];
    assert forall i :: 0 <= i < |before| ==> tokens[i] == before[i];
    if SecretInUse(before, t.secret) {
      var i :| 0 <= i < |before| && before[i].secret == t.secret;
      assert tokens[i].secret == tokens[|before|].secret;
    }
  }

  /** A row with a larger id than every row before it keeps the serial-id invariant. */
  lemma SerialAppend(tokens: seq<Token>, t: Token, last: int)
    requires TokensSerial(tokens, last) && 1 <= t.id <= last
    requires forall i :: 0 <= i < |tokens| ==> tokens[i].id < t.id
    ensures TokensSerial(tokens + [t], last)
  {
  }

  /** Deleting rows keeps the serial-id invariant. */
  lemma {:induction false} DeleteKeepsSerial(tokens: seq<Token>, w: Where, last: int)
    requires TokensSerial(tokens, last)
    ensures TokensSerial(Delete(tokens, w), last)
  {
    if tokens != [] {
      var init := tokens[..|tokens| - 1];
      var t := tokens[|tokens| - 1];
      assert forall i :: 0 <= i < |init| ==> init[i] == tokens[i];
      assert TokensSerial(init, last);
      DeleteKeepsSerial(init, w, last);
      var d := Delete(init, w);
      if !w.Matches(t) {
        forall i | 0 <= i < |d| ensures d[i].id < t.id {
          assert d[i] in init;
          var k :| 0 <= k < |init| && init[k] == d[i];
          assert tokens[k] == d[i];
        }
        SerialAppend(d, t, last);
      }
    }
  }

  /** Deleting rows keeps secrets unique. */
  lemma DeleteKeepsSecretsUnique(tokens: seq<Token>, w: Where, last: int)
    requires TokensSerial(tokens, last) && SecretsUnique(tokens)
    ensures SecretsUnique(Delete(tokens, w))
  {
    var d := Delete(tokens, w);
    DeleteKeepsSerial(tokens, w, last);
    forall i, j | 0 <= i < j < |d| ensures d[i].secret != d[j].secret {
      assert d[i] in tokens && d[j] in tokens;
      var k :| 0 <= k < |tokens| && tokens[k] == d[i];
      var m :| 0 <= m < |tokens| && tokens[m] == d[j];
      assert d[i].id < d[j].id;
    }
  }

  /** With unique secrets, a token owned by one user is live but not owned by any other user. */
  lemma OwnershipIsNotLiveness(tokens: seq<Token>, i: nat, other: int)
    requires SecretsUnique(tokens)
    requires i < |tokens| && tokens[i].userId != other
    ensures ExactlyOne(tokens, Secret(tokens[i].secret))
    ensures !ExactlyOne(tokens, OwnerAndSecret(other, tokens[i].secret))
    ensures ExactlyOne(tokens, OwnerAndSecret(tokens[i].userId, tokens[i].secret))
  {
  }

  /** Once the row carrying a unique secret is deleted, that secret is no longer live. */
  lemma DeletedSecretIsDead(tokens: seq<Token>, i: nat)
    requires SecretsUnique(tokens) && i < |tokens|
    ensures Count(Delete(tokens, OwnerAndId(tokens[i].userId, tokens[i].id)), Secret(tokens[i].secret)) == 0
  {
    var t := tokens[i];
    var w := OwnerAndId(t.userId, t.id);
    var d := Delete(tokens, w);
    assert w.Matches(t);
    forall k | 0 <= k < |d| ensures !Secret(t.secret).Matches(d[k]) {
      assert d[k] in d;
      OtherRowOtherSecret(tokens, i, d[k]);
    }
  }

  /** With unique secrets, a row other than the i-th does not carry the i-th row's secret. */
  lemma OtherRowOtherSecret(tokens: seq<Token>, i: nat, x: Token)
    requires SecretsUnique(tokens) && i < |tokens|
    requires x in tokens && x != tokens[i]
    ensures x.secret != tokens[i].secret
  {
    var m :| 0 <= m < |tokens| && tokens[m] == x;
    if m < i {
      assert tokens[m].secret != tokens[i].secret;
    } else {
      assert tokens[i].secret != tokens[m].secret;
    }
  }

  /** A DELETE whose WHERE matches nothing leaves the table as it was. */
  lemma {:induction false} NoneDeleted(tokens: seq<Token>, w: Where)
    requires Count(tokens, w) == 0
    ensures Delete(tokens, w) == tokens
  {
    if tokens != [] {
      var init := tokens[..|tokens| - 1];
      assert forall i :: 0 <= i < |init| ==> init[i] == tokens[i];
      var last := tokens[|tokens| - 1];
      assert tokens == init + [last];
      assert !w.Matches(last);
      assert Count(init, w) == 0;
      NoneDeleted(init, w);
      assert Delete(tokens, w) == Delete(init, w) + [last];
    }
  }

  /** A location whose user_id names no user has no entry in the listing. */
  lemma JoinUsersNone(l: LocationRow, users: seq<User>)
    requires forall k :: 0 <= k < |users| ==> users[k].id != l.userId
    ensures JoinUsers(l, users) == []
  {
  }

  /** With serial user ids a location joins exactly one user, its owner, when the owner exists. */
  lemma {:induction false} JoinUsersOwner(l: LocationRow, users: seq<User>, last: int, k: nat)
    requires UsersSerial(users, last)
    requires k < |users| && users[k].id == l.userId
    ensures JoinUsers(l, users) == [View(l, users[k])]
  {
    var init := users[..|users| - 1];
    assert forall i :: 0 <= i < |init| ==> init[i] == users[i];
    if k == |users| - 1 {
      JoinUsersNone(l, init);
    } else {
      assert UsersSerial(init, last);
      JoinUsersOwner(l, init, last, k);
    }
  }

  /** Some registered user owns this location. */
  ghost predicate HasOwner(l: LocationRow, users: seq<User>)
  {
    exists k :: 0 <= k < |users| && users[k].id == l.userId
  }

  /** When every location's owner exists and user ids are serial, the listing has one entry per
      location, in table order, and the j-th entry is the j-th location with its owner's names. */
  lemma {:induction false} JoinOnePerLocation(locations: seq<LocationRow>, users: seq<User>, last: int)
    requires UsersSerial(users, last)
    requires forall j :: 0 <= j < |locations| ==> HasOwner(locations[j], users)
    ensures |Join(locations, users)| == |locations|
    ensures forall j, k :: 0 <= j < |locations| && 0 <= k < |users| && users[k].id == locations[j].userId ==>
      Join(locations, users)[j] == View(locations[j], users[k])
  {
    if locations != [] {
      var n := |locations| - 1;
      var init := locations[..n];
      assert forall j :: 0 <= j < n ==> init[j] == locations[j];
      JoinOnePerLocation(init, users, last);
      assert HasOwner(locations[n], users);
      var owner :| 0 <= owner < |users| && users[owner].id == locations[n].userId;
      JoinUsersOwner(locations[n], users, last, owner);
      var listing := Join(locations, users);
      assert listing == Join(init, users) + [View(locations[n], users[owner])];
      forall j, k | 0 <= j < |locations| && 0 <= k < |users| && users[k].id == locations[j].userId
        ensures listing[j] == View(locations[j], users[k])
      {
        if j == n {
          JoinUsersOwner(locations[n], users, last, k);
        }
      }
    }
  }

  /** A new location adds exactly its own joined entries at the end of the listing. */
  lemma JoinAppend(locations: seq<LocationRow>, l: LocationRow, users: seq<User>)
    ensures Join(locations + [l], users) == Join(locations, users) + JoinUsers(l, users)
  {
    assert (locations + [l])[..|locations|] == locations;
  }

  // ---------------------------------------------------------------------------------------
  // The store

  class Db {
    var users: seq<User>
    var tokens: seq<Token>
    var locations: seq<LocationRow>
    /** The last values of users_id_seq, tokens_id_seq and locations_id_seq: 0 before any insert. */
    var usersLast: nat
    var tokensLast: nat
    var locationsLast: nat

    ghost predicate Valid()
      reads this
    {
      && UsersSerial(users, usersLast)
      && TokensSerial(tokens, tokensLast)
      && LocationsSerial(locations, locationsLast)
      && EmailsUnique(users)
      && usersLast <= MaxInt32 && tokensLast <= MaxInt32 && locationsLast <= MaxInt32
    }

    /** A store whose tables have just been created. */
    constructor ()
      ensures Valid()
      ensures users == [] && tokens == [] && locations == []
      ensures usersLast == 0 && tokensLast == 0 && locationsLast == 0
    {
      users, tokens, locations := [], [], [];
      usersLast, tokensLast, locationsLast := 0, 0, 0;
    }

    /** GetUser: the user with this email, or the zero record (Id 0) and no error when there is
        none; an email the database cannot take as a parameter is an error. */
    function GetUser(email: string): (r: Result<User>)
      reads this`users, this`usersLast
      requires UsersSerial(users, usersLast) && EmailsUnique(users)
      ensures r.Err? <==> !Storable(email)
      ensures r.Err? ==> r.error == NulInText
      ensures r.Ok? ==> (r.value.id != 0 <==> EmailTaken(users, email))
      ensures r.Ok? && r.value.id != 0 ==>
        && r.value in users && r.value.email == email
        && forall i :: 0 <= i < |users| && users[i].email == email ==> users[i] == r.value
      ensures r.Ok? && r.value.id == 0 ==> r.value == ZeroUser
    {
      if !Storable(email) then Err(NulInText)
      else
        match LookupEmail(users, email)
        case None => Ok(ZeroUser)
        case Some(v) => Ok(v)
    }

    /** NewUser: refuse an email that is already registered, otherwise insert one row. */
    method NewUser(email: string, password: string, firstname: string, lastname: string, city: string, country: string)
      returns (r: Result<int>)
      requires Valid()
      modifies this`users, this`usersLast
      ensures Valid()
      ensures r.Err? ==> users == old(users) && usersLast == old(usersLast)
      ensures
        if !Storable(email) then r == Err(NulInText)
        else if EmailTaken(old(users), email) then r == Err(UserEmailAlreadyExist)
        else if !AllStorable([password, firstname, lastname, city, country]) then r == Err(NulInText)
        else if old(usersLast) == MaxInt32 then r == Err(SequenceExhausted)
        else
          && r == Ok(old(usersLast) + 1)
          && usersLast == r.value
          && users == old(users) + [User(r.value, email, password, firstname, lastname, city, country)]
    {
      var u := GetUser(email);
      if u.Err? {
        return Err(u.error);
      }
      if u.value.id != 0 {
        return Err(UserEmailAlreadyExist);
      }
      if !AllStorable([password, firstname, lastname, city, country]) {
        return Err(NulInText);
      }
      if usersLast == MaxInt32 {
        return Err(SequenceExhausted);
      }
      usersLast := usersLast + 1;
      users := users + [User(usersLast, email, password, firstname, lastname, city, country)];
      r := Ok(usersLast);
    }

    /** NewToken: insert one token row and return its serial id, above every id issued before. */
    method NewToken(userId: int, secret: string, name: string) returns (r: Result<int>)
      requires Valid()
      modifies this`tokens, this`tokensLast
      ensures Valid()
      ensures r.Err? ==> tokens == old(tokens) && tokensLast == old(tokensLast)
      ensures
        if !IsInt32(userId) then r == Err(OutOfRange(userId))
        else if !Storable(secret) || !Storable(name) then r == Err(NulInText)
        else if old(tokensLast) == MaxInt32 then r == Err(SequenceExhausted)
        else
          && r == Ok(old(tokensLast) + 1) && tokensLast == r.value
          && tokens == old(tokens) + [Token(r.value, userId, secret, name)]
          && (forall i :: 0 <= i < |old(tokens)| ==> old(tokens)[i].id < r.value)
          && (SecretsUnique(tokens) <==> SecretsUnique(old(tokens)) && !SecretInUse(old(tokens), secret))
          && (!SecretInUse(old(tokens), secret) ==> IsTokenExist(secret) == Ok(true) && CheckUserToken(userId, secret) == Ok(true))
    {
      if !IsInt32(userId) {
        return Err(OutOfRange(userId));
      }
      if !Storable(secret) || !Storable(name) {
        return Err(NulInText);
      }
      if tokensLast == MaxInt32 {
        return Err(SequenceExhausted);
      }
      tokensLast := tokensLast + 1;
      var id := tokensLast;
      ghost var before := tokens;
      AppendSecretsUnique(before, Token(id, userId, secret, name));
      if !SecretInUse(before, secret) {
        FreshSecretIsLive(before, Token(id, userId, secret, name));
      }
      tokens := tokens + [Token(id, userId, secret, name)];
      r := Ok(id);
    }

    /** DeleteToken: remove the row with this owner and this id; fail if no row was removed. */
    method DeleteToken(userId: int, tokenId: int) returns (r: Result<int>)
      requires Valid()
      modifies this`tokens
      ensures Valid()
      ensures r == DeleteOutcome(old(tokens), userId, tokenId)
      ensures tokens == if r.Ok? then Delete(old(tokens), OwnerAndId(userId, tokenId)) else old(tokens)
      ensures r.Ok? ==> |tokens| == |old(tokens)| - 1
      ensures SecretsUnique(old(tokens)) ==> SecretsUnique(tokens)
    {
      if !IsInt32(userId) {
        return Err(OutOfRange(userId));
      }
      if !IsInt32(tokenId) {
        return Err(OutOfRange(tokenId));
      }
      var n := Count(tokens, OwnerAndId(userId, tokenId));
      DeleteKeepsSerial(tokens, OwnerAndId(userId, tokenId), tokensLast);
      AtMostOneWithId(tokens, tokensLast, userId, tokenId);
      if SecretsUnique(tokens) {
        DeleteKeepsSecretsUnique(tokens, OwnerAndId(userId, tokenId), tokensLast);
      }
      ghost var before := tokens;
      tokens := Delete(tokens, OwnerAndId(userId, tokenId));
      if n == 0 {
        NoneDeleted(before, OwnerAndId(userId, tokenId));
        return Err(DeleteTokenFailed);
      }
      r := Ok(tokenId);
    }

    /** GetTokenID: the id of this user's token with this secret, or 0 and no error when none;
        parameters the database refuses are an error. */
    function GetTokenID(userId: int, secret: string): (r: Result<int>)
      reads this`tokens, this`tokensLast
      requires TokensSerial(tokens, tokensLast)
      ensures !IsInt32(userId) ==> r == Err(OutOfRange(userId))
      ensures IsInt32(userId) && !Storable(secret) ==> r == Err(NulInText)
      ensures IsInt32(userId) && Storable(secret) ==> r.Ok?
      ensures r.Ok? ==>
        (r.value != 0 <==> exists i :: 0 <= i < |tokens| && tokens[i].userId == userId && tokens[i].secret == secret)
      ensures r.Ok? && r.value != 0 ==>
        exists i :: 0 <= i < |tokens| && tokens[i] == Token(r.value, userId, secret, tokens[i].name)
      ensures r.Ok? ==> 0 <= r.value <= tokensLast
    {
      if !IsInt32(userId) then Err(OutOfRange(userId))
      else if !Storable(secret) then Err(NulInText)
      else
        match FirstMatch(tokens, OwnerAndSecret(userId, secret))
        case None => Ok(0)
        case Some(t) => Ok(t.id)
    }

    /** CheckUserToken: true exactly when one token row has this owner and this secret;
        parameters the database refuses are an error. */
    function CheckUserToken(userId: int, secret: string): (r: Result<bool>)
      reads this`tokens
      ensures !IsInt32(userId) ==> r == Err(OutOfRange(userId))
      ensures IsInt32(userId) && !Storable(secret) ==> r == Err(NulInText)
      ensures IsInt32(userId) && Storable(secret) ==>
        r.Ok? && (r.value <==> ExactlyOne(tokens, OwnerAndSecret(userId, secret)))
    {
      CountIsOne(tokens, OwnerAndSecret(userId, secret));
      if !IsInt32(userId) then Err(OutOfRange(userId))
      else if !Storable(secret) then Err(NulInText)
      else Ok(Count(tokens, OwnerAndSecret(userId, secret)) == 1)
    }

    /** IsTokenExist: true exactly when one token row has this secret, whoever owns it; a
        secret the database refuses is an error. */
    function IsTokenExist(secret: string): (r: Result<bool>)
      reads this`tokens
      ensures !Storable(secret) ==> r == Err(NulInText)
      ensures Storable(secret) ==> r.Ok? && (r.value <==> ExactlyOne(tokens, Secret(secret)))
    {
      CountIsOne(tokens, Secret(secret));
      if !Storable(secret) then Err(NulInText)
      else Ok(Count(tokens, Secret(secret)) == 1)
    }

    /** NewLocation: insert one location row bound to this user and token, and return its serial id. */
    method NewLocation(userId: int, tokenId: int, timestamp: Timestamp, latitude: Coord, longitude: Coord, private: bool)
      returns (r: Result<int>)
      requires Valid()
      modifies this`locations, this`locationsLast
      ensures Valid()
      ensures r.Err? ==> locations == old(locations) && locationsLast == old(locationsLast)
      ensures
        if !IsInt32(userId) then r == Err(OutOfRange(userId))
        else if !IsInt32(tokenId) then r == Err(OutOfRange(tokenId))
        else if old(locationsLast) == MaxInt32 then r == Err(SequenceExhausted)
        else
          && r == Ok(old(locationsLast) + 1) && locationsLast == r.value
          && locations == old(locations) + [LocationRow(r.value, userId, tokenId, private, latitude, longitude, timestamp)]
          && forall i :: 0 <= i < |old(locations)| ==> old(locations)[i].id < r.value
    {
      if !IsInt32(userId) {
        return Err(OutOfRange(userId));
      }
      if !IsInt32(tokenId) {
        return Err(OutOfRange(tokenId));
      }
      if locationsLast == MaxInt32 {
        return Err(SequenceExhausted);
      }
      locationsLast := locationsLast + 1;
      var id := locationsLast;
      locations := locations + [LocationRow(id, userId, tokenId, private, latitude, longitude, timestamp)];
      r := Ok(id);
    }

    /** GetLocations: every joined row, in order, with the names of private entries blanked. */
    method GetLocations() returns (result: seq<Location>)
      ensures |result| == |Join(locations, users)|
      ensures forall i :: 0 <= i < |result| ==> result[i] == Redact(Join(locations, users)[i])
    {
      var rows := Join(locations, users);
      result := [];
      var i := 0;
      while i < |rows|
        invariant 0 <= i <= |rows|
        invariant |result| == i
        invariant forall k :: 0 <= k < i ==> result[k] == Redact(rows[k])
      {
        var location := rows[i];
        if location.private {
          location := location.(firstname := "", lastname := "");
        }
        result := result + [location];
        i := i + 1;
      }
    }
  }
}
