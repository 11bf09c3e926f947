/** Request sequences run against a freshly created store. Each method's postcondition follows
    from the handlers' contracts alone, so these show the contracts are strong enough to
    predict whole conversations with the service. */
module Scenarios {
  import opened Errors
  import opened Strconv
  import opened Strings
  import opened Api
  import opened Database
  import opened Handlers

  /** A registration whose text fields the database can store, with the hash bcrypt produced. */
  predicate StorableRegistration(req: RegisterRequest, hashed: string)
  {
    Storable(req.email) && AllStorable([hashed, req.firstname, req.lastname, req.city, req.country])
  }

  /** The same email registered twice: created once, then a conflict that adds no second row. */
  method RegisterTwice(req: RegisterRequest, hash1: string, hash2: string)
    returns (first: Response, second: Response, rows: nat)
    requires req.Validate() && StorableRegistration(req, hash1)
    ensures first == Response(StatusCreated, Registered(1))
    ensures second == Response(StatusConflict, NoBody)
    ensures rows == 1
  {
    var db := new Db();
    first := HandleRegister(db, Some(req), Ok(hash1));
    assert db.users[0].email == req.email;
    second := HandleRegister(db, Some(req), Ok(hash2));
    rows := |db.users|;
  }

  /** A store in which one user has registered. */
  method RegisteredStore(req: RegisterRequest, hashed: string) returns (db: Db)
    requires req.Validate() && StorableRegistration(req, hashed)
    ensures fresh(db) && db.Valid()
    ensures db.users == [User(1, req.email, hashed, req.firstname, req.lastname, req.city, req.country)]
    ensures db.GetUser(req.email) == Ok(db.users[0])
    ensures db.tokens == [] && db.tokensLast == 0
    ensures db.locations == [] && db.locationsLast == 0
  {
    db := new Db();
    assert !EmailTaken(db.users, req.email);
    var registered := HandleRegister(db, Some(req), Ok(hashed));
    ghost var owner := User(1, req.email, hashed, req.firstname, req.lastname, req.city, req.country);
    assert db.users == [owner];
    assert db.users[0].email == req.email;
  }

  /** Logging out the only token, by its own id, leaves no token and reports that id. */
  lemma RevokeOnlyToken(t: Token)
    requires IsInt32(t.userId) && IsInt32(t.id)
    ensures Revoke([t], t.userId, [t.id]) == Revocation([], [t.id], None)
  {
    var w := OwnerAndId(t.userId, t.id);
    assert w.Matches(t);
    assert Count([t], w) != 0;
    assert Delete([t], w) == [];
    assert Revoke([], t.userId, []) == Revocation([], [], None);
  }

  /** User 1 logs out the only token of the store, which is theirs. */
  method LogoutOnlyToken(db: Db, secret: string, device: string) returns (logout: Response)
    requires db.Valid() && !AllSpace(secret) && Storable(secret)
    requires db.tokens == [Token(1, 1, secret, device)]
    modifies db`tokens
    ensures db.Valid() && db.tokens == []
    ensures logout == Response(StatusOK, LoggedOut([1]))
  {
    var path := Itoa(1);
    AtoiItoa(1);
    assert Secret(secret).Matches(db.tokens[0]) && OwnerAndSecret(1, secret).Matches(db.tokens[0]);
    assert AuthorizeHeader(db, secret) == Next;
    assert AuthorizeUser(db, path, secret) == Ok(true);
    RevokeOnlyToken(db.tokens[0]);
    logout := HandleLogout(db, path, secret, Some(LogoutRequest([1])));
  }

  /** Log in, then log out the token just issued: the token is live after login and no
      longer live after logout. `verify` accepts the hash bcrypt produced for the password, and
      the xid secret is not blank. */
  method LoginThenLogout(req: RegisterRequest, hashed: string, device: string, secret: string,
                         verify: (string, string) -> bool)
    returns (login: Response, liveAfterLogin: Result<bool>, logout: Response, liveAfterLogout: Result<bool>)
    requires req.Validate() && device != "" && StorableRegistration(req, hashed)
    requires verify(hashed, req.password)
    requires !AllSpace(secret) && Storable(secret) && Storable(device)
    ensures login == Response(StatusOK, LoggedIn(1, secret))
    ensures liveAfterLogin == Ok(true)
    ensures logout == Response(StatusOK, LoggedOut([1]))
    ensures liveAfterLogout == Ok(false)
  {
    var db := RegisteredStore(req, hashed);
    login := HandleLogin(db, Some(LoginRequest(req.email, req.password, device)), verify, secret);
    liveAfterLogin := db.IsTokenExist(secret);
    assert db.tokens == [Token(1, 1, secret, device)];
    logout := LogoutOnlyToken(db, secret, device);
    liveAfterLogout := db.IsTokenExist(secret);
  }

  /** A store in which one user has registered and logged in once. */
  method LoggedInStore(req: RegisterRequest, hashed: string, device: string, secret: string,
                       verify: (string, string) -> bool)
    returns (db: Db)
    requires req.Validate() && device != "" && StorableRegistration(req, hashed)
    requires verify(hashed, req.password)
    requires Storable(secret) && Storable(device)
    ensures fresh(db) && db.Valid()
    ensures db.users == [User(1, req.email, hashed, req.firstname, req.lastname, req.city, req.country)]
    ensures db.tokens == [Token(1, 1, secret, device)] && db.tokensLast == 1
    ensures db.locations == [] && db.locationsLast == 0
  {
    db := RegisteredStore(req, hashed);
    var login := HandleLogin(db, Some(LoginRequest(req.email, req.password, device)), verify, secret);
  }

  /** The listing of a store with one location and its owner. */
  lemma ListingOfOne(row: LocationRow, owner: User)
    requires owner.id == row.userId && owner.id >= 1
    ensures Join([row], [owner]) == [View(row, owner)]
  {
    JoinAppend([], row, [owner]);
    JoinUsersOwner(row, [owner], owner.id, 0);
  }

  /** A private location is listed with its position and time but without its owner's names. */
  method PrivateLocationIsAnonymous(req: RegisterRequest, hashed: string, device: string, secret: string,
                                    verify: (string, string) -> bool, time: Timestamp, latitude: Coord, longitude: Coord)
    returns (added: Response, listing: Response)
    requires req.Validate() && device != "" && StorableRegistration(req, hashed)
    requires verify(hashed, req.password)
    requires !AllSpace(secret) && Storable(secret) && Storable(device)
    requires time != ZeroTime && latitude != 0 && longitude != 0
    ensures added == Response(StatusCreated, LocationAdded(1))
    ensures listing == Response(StatusOK, Locations([Location(time, Position(latitude, longitude), true, "", "")]))
  {
    var db := LoggedInStore(req, hashed, device, secret, verify);
    ghost var owner := db.users[0];
    var path := Itoa(1);
    AtoiItoa(1);
    assert Secret(secret).Matches(db.tokens[0]) && OwnerAndSecret(1, secret).Matches(db.tokens[0]);
    assert AuthorizeHeader(db, secret) == Next;
    assert AuthorizeUser(db, path, secret) == Ok(true);
    var report := AddLocationRequest(time, Position(latitude, longitude), true);
    assert report.Validate();
    assert db.GetTokenID(1, secret) == Ok(1);
    added := HandleAddLocation(db, path, secret, Some(report));
    var row := LocationRow(1, 1, 1, true, latitude, longitude, time);
    assert db.locations == [row];
    ListingOfOne(row, owner);
    listing := HandleGetLocations(db, secret);
  }

  /** A live token cannot record a location under another user's path: the ownership gate
      answers 401 although the token passes the header gate, and no location is stored. */
  method ForeignTokenRejected(req: RegisterRequest, hashed: string, device: string,
                              secret: string, verify: (string, string) -> bool, report: AddLocationRequest)
    returns (added: Response, rows: nat)
    requires req.Validate() && device != "" && StorableRegistration(req, hashed)
    requires verify(hashed, req.password)
    requires !AllSpace(secret) && Storable(secret) && Storable(device)
    ensures added == Response(StatusUnauthorized, NoBody)
    ensures rows == 0
  {
    var db := LoggedInStore(req, hashed, device, secret, verify);
    var path := Itoa(2);
    AtoiItoa(2);
    OwnershipIsNotLiveness(db.tokens, 0, 2);
    assert AuthorizeHeader(db, secret) == Next;
    assert AuthorizeUser(db, path, secret) == Ok(false);
    added := HandleAddLocation(db, path, secret, Some(report));
    rows := |db.locations|;
  }

  /** A path user id beyond the 32-bit user_id column: the ownership query fails, the recovered
      panic answers 500 with the database's refusal, and no location is stored. */
  method OutOfRangeUserId(req: RegisterRequest, hashed: string, device: string,
                          secret: string, verify: (string, string) -> bool, report: AddLocationRequest)
    returns (added: Response, rows: nat)
    requires req.Validate() && device != "" && StorableRegistration(req, hashed)
    requires verify(hashed, req.password)
    requires !AllSpace(secret) && Storable(secret) && Storable(device)
    ensures added == ErrorHandler(OutOfRange(3_000_000_000))
    ensures rows == 0
  {
    var db := LoggedInStore(req, hashed, device, secret, verify);
    var path := Itoa(3_000_000_000);
    AtoiItoa(3_000_000_000);
    assert Secret(secret).Matches(db.tokens[0]);
    assert AuthorizeHeader(db, secret) == Next;
    added := HandleAddLocation(db, path, secret, Some(report));
    rows := |db.locations|;
  }

  /** An email holding U+0000 passes validation but cannot be stored: registration answers 500
      with the database's refusal and no user is created. */
  method NulEmailRegister(req: RegisterRequest, hashed: string) returns (resp: Response, rows: nat)
    requires req.Validate() && '\0' in req.email
    ensures resp == ErrorHandler(NulInText)
    ensures rows == 0
  {
    var db := new Db();
    resp := HandleRegister(db, Some(req), Ok(hashed));
    rows := |db.users|;
  }

  /** A token the database refuses gets past the header gate as written: the lookup panics, the
      panic is recovered, and the listing route runs for a caller who holds no live token. */
  method RecoveredGateReachesListing(db: Db) returns (gate: Gate, listing: Response)
    ensures gate == Recovered(NulInText)
    ensures db.IsTokenExist("\0") == Err(NulInText)
    ensures listing.status == StatusOK && listing.body.Locations?
    ensures |listing.body.entries| == |Join(db.locations, db.users)|
  {
    var token := "\0";
    assert !Storable(token) by {
      assert token[0] == '\0';
    }
    gate := AuthorizeHeader(db, token);
    listing := HandleGetLocations(db, token);
  }

  /** The same request under the intended gate ends with the recovered 500 and reaches no route. */
  method RecoveredGateAborted(db: Db) returns (gate: Gate)
    ensures gate == Abort(StatusInternalServerError)
  {
    var token := "\0";
    assert !Storable(token) by {
      assert token[0] == '\0';
    }
    gate := AuthorizeHeaderAborting(db, token);
  }
}
