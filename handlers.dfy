/** The HTTP handlers of the service: the two authorisation gates and the decision flow of each
    route, run against the store. A request that gin could not bind is `None`; a panic that
    ErrorHandler recovers is a 500 response carrying the error. */
module Handlers {
  import opened Errors
  import opened Strconv
  import opened Strings
  import opened Api
  import opened Database

  const StatusOK := 200
  const StatusCreated := 201
  const StatusBadRequest := 400
  const StatusUnauthorized := 401
  const StatusNotFound := 404
  const StatusConflict := 409
  const StatusInternalServerError := 500

  datatype Body =
    | NoBody
    | WrongJson                          // "Wrong JSON request ..."
    | UserNotFound                       // "user not found"
    | Panicked(error: Error)             // ErrorHandler's message
    | Registered(id: int)                // api.RegisterResponse
    | LoggedIn(id: int, token: string)   // api.LoginResponse
    | LoggedOut(invalidated: seq<int>)   // api.LogoutResponse
    | LocationAdded(id: int)             // api.AddLocationResponse
    | Locations(entries: seq<Location>)

  datatype Response = Response(status: int, body: Body)

  /** ErrorHandler: a recovered panic becomes an internal server error carrying its message. */
  function ErrorHandler(e: Error): (resp: Response)
    ensures resp.status == StatusInternalServerError && resp.body == Panicked(e)
  {
    Response(StatusInternalServerError, Panicked(e))
  }

  /** What the header middleware does with a request: pass it on, abort it with a status, or
      recover from a panic of its lookup. In the last case ErrorHandler has answered 500, but
      the middleware neither aborts nor calls Next, so gin goes on to the route handler. */
  datatype Gate = Next | Abort(status: int) | Recovered(error: Error)

  /** AuthorizeHeader, the liveness gate in front of logout and the location routes: the
      X-Auth-Token header must hold something other than white space, and exactly one token
      row must carry it, whoever owns it. */
  function AuthorizeHeader(db: Db, token: string): (g: Gate)
    reads db`tokens
    ensures g.Abort? ==> g.status == StatusUnauthorized
    ensures g.Recovered? <==> !Storable(token)
    ensures g.Recovered? ==> g.error == NulInText
    ensures g == Next <==> !AllSpace(token) && Storable(token) && ExactlyOne(db.tokens, Secret(token))
  {
    TrimSpaceEmpty(token);
    var blank := TrimSpace(token) == "";
    // No return follows the first Abort, so a blank token is still looked up; a blank token
    // holds no U+0000, so that lookup succeeds, and the request stays aborted.
    var live := db.IsTokenExist(token);
    if live.Err? then Recovered(live.error)
    else if blank || !live.value then Abort(StatusUnauthorized)
    else Next
  }

  /** The header gate as evidently intended: a panic recovered during the lookup ends the request
      with the 500 that ErrorHandler wrote, instead of letting it on to the route. Only a live,
      non-blank token is let through. */
  function AuthorizeHeaderAborting(db: Db, token: string): (g: Gate)
    reads db`tokens
    ensures !g.Recovered?
    ensures g.Abort? ==> g.status == StatusUnauthorized || (g.status == StatusInternalServerError && !Storable(token))
    ensures g == Next <==> !AllSpace(token) && db.IsTokenExist(token) == Ok(true)
    ensures g == Next ==> !AuthorizeHeader(db, token).Abort?
  {
    match AuthorizeHeader(db, token)
    case Recovered(_) => Abort(StatusInternalServerError)
    case Next => Next
    case Abort(status) => Abort(status)
  }

  /** AuthorizeUser, the ownership gate: parse the path user id (an error, before any query,
      when it is not a number), then ask whether the header token belongs to that user. A
      number outside the 32-bit user_id column makes the query itself fail. */
  function AuthorizeUser(db: Db, pathUserId: string, token: string): (r: Result<bool>)
    reads db`tokens, db`tokensLast
    ensures Atoi(pathUserId).Err? ==> r == Err(NumError(pathUserId))
    ensures Atoi(pathUserId).Ok? && !IsInt32(Atoi(pathUserId).value) ==> r == Err(OutOfRange(Atoi(pathUserId).value))
    ensures Atoi(pathUserId).Ok? && IsInt32(Atoi(pathUserId).value) && !Storable(token) ==> r == Err(NulInText)
    ensures Atoi(pathUserId).Ok? && IsInt32(Atoi(pathUserId).value) && Storable(token) ==>
      r.Ok? && (r.value <==> ExactlyOne(db.tokens, OwnerAndSecret(Atoi(pathUserId).value, token)))
    ensures TokensSerial(db.tokens, db.tokensLast) && r == Ok(true) ==>
      var t := db.GetTokenID(Atoi(pathUserId).value, token); t.Ok? && t.value != 0
  {
    match Atoi(pathUserId)
    case Err(e) => Err(e)
    case Ok(id) => db.CheckUserToken(id, token)
  }

  /** HandleRegister: validate, hash the password, insert the user; 409 for a known email. */
  method HandleRegister(db: Db, body: Option<RegisterRequest>, generated: Result<string>) returns (resp: Response)
    requires db.Valid()
    modifies db`users, db`usersLast
    ensures db.Valid()
    ensures match body
      case None => resp == Response(StatusBadRequest, WrongJson) && unchanged(db)
      case Some(req) =>
        if !req.Validate() then resp == Response(StatusBadRequest, NoBody) && unchanged(db)
        else if generated.Err? then resp == ErrorHandler(HashFailed) && unchanged(db)
        else if !Storable(req.email) then resp == ErrorHandler(NulInText) && unchanged(db)
        else if EmailTaken(old(db.users), req.email) then resp == Response(StatusConflict, NoBody) && unchanged(db)
        else if !AllStorable([generated.value, req.firstname, req.lastname, req.city, req.country]) then
          resp == ErrorHandler(NulInText) && unchanged(db)
        else if old(db.usersLast) == MaxInt32 then resp == ErrorHandler(SequenceExhausted) && unchanged(db)
        else
          var id := old(db.usersLast) + 1;
          && resp == Response(StatusCreated, Registered(id))
          && db.usersLast == id
          && db.users == old(db.users) + [User(id, req.email, generated.value, req.firstname, req.lastname, req.city, req.country)]
  {
    if body.None? {
      return Response(StatusBadRequest, WrongJson);
    }
    var req := body.value;
    if !req.Validate() {
      return Response(StatusBadRequest, NoBody);
    }
    var hashing := HashPassword(req, generated);
    if hashing.err.Some? {
      return ErrorHandler(hashing.err.value);
    }
    req := hashing.request;
    var r := db.NewUser(req.email, req.password, req.firstname, req.lastname, req.city, req.country);
    if r.Err? && r.error == UserEmailAlreadyExist {
      return Response(StatusConflict, NoBody);
    }
    if r.Err? {
      return ErrorHandler(r.error);
    }
    resp := Response(StatusCreated, Registered(r.value));
  }

  /** HandleLogin: validate, find the user by email (404), check the password with bcrypt's
      `verify` (401), then issue a token with the fresh `secret` that xid produced. */
  method HandleLogin(db: Db, body: Option<LoginRequest>, verify: (string, string) -> bool, secret: string)
    returns (resp: Response)
    requires db.Valid()
    modifies db`tokens, db`tokensLast
    ensures db.Valid()
    ensures if body.None? || !body.value.Validate() then resp == Response(StatusBadRequest, NoBody) && unchanged(db)
      else
        var req, found := body.value, db.GetUser(body.value.email);
        if found.Err? then resp == ErrorHandler(found.error) && unchanged(db)
        else if found.value.id == 0 then resp == Response(StatusNotFound, UserNotFound) && unchanged(db)
        else if !verify(found.value.password, req.password) then resp == Response(StatusUnauthorized, NoBody) && unchanged(db)
        else if !Storable(secret) || !Storable(req.device) then resp == ErrorHandler(NulInText) && unchanged(db)
        else if old(db.tokensLast) == MaxInt32 then resp == ErrorHandler(SequenceExhausted) && unchanged(db)
        else
          var id := old(db.tokensLast) + 1;
          && resp == Response(StatusOK, LoggedIn(id, secret))
          && db.tokensLast == id
          && db.tokens == old(db.tokens) + [Token(id, found.value.id, secret, req.device)]
  {
    if body.None? || !body.value.Validate() {
      return Response(StatusBadRequest, NoBody);
    }
    var req := body.value;
    var found := db.GetUser(req.email);
    if found.Err? {
      return ErrorHandler(found.error);
    }
    var user := found.value;
    if user.id == 0 {
      return Response(StatusNotFound, UserNotFound);
    }
    if !req.CompareHashAndPassword(user.password, verify) {
      return Response(StatusUnauthorized, NoBody);
    }
    // A registered user's id was issued by users_id_seq, so it fits the user_id column.
    assert 1 <= user.id <= db.usersLast by {
      var i :| 0 <= i < |db.users| && db.users[i] == user;
    }
    var tokenId := db.NewToken(user.id, secret, req.device);
    if tokenId.Err? {
      return ErrorHandler(tokenId.error);
    }
    resp := Response(StatusOK, LoggedIn(tokenId.value, secret));
  }

  /** The effect of logout's loop over the requested ids: the tokens left, the ids reported
      as invalidated, and whether every deletion succeeded. */
  datatype Revocation = Revocation(tokens: seq<Token>, invalidated: seq<int>, failure: Option<Error>)

  /** Delete the requested ids one by one, in request order, stopping at the first deletion
      that fails: an id that names no token of this user, or one the database refuses. */
  function Revoke(tokens: seq<Token>, userId: int, ids: seq<int>): (r: Revocation)
    ensures r.invalidated <= ids
    ensures r.failure.None? <==> r.invalidated == ids
    decreases |ids|
  {
    if ids == [] then Revocation(tokens, [], None)
    else
      match DeleteOutcome(tokens, userId, ids[0])
      case Err(e) => Revocation(tokens, [], Some(e))
      case Ok(_) =>
        var rest := Revoke(Delete(tokens, OwnerAndId(userId, ids[0])), userId, ids[1..]);
        Revocation(rest.tokens, [ids[0]] + rest.invalidated, rest.failure)
  }

  /** Logout deletes exactly the caller's rows with the invalidated ids: no token of another
      user, and no other token of the caller, is removed. */
  lemma {:induction false} RevokeRemovesOnlyOwned(tokens: seq<Token>, userId: int, ids: seq<int>)
    decreases |ids|
    ensures var r := Revoke(tokens, userId, ids);
      forall t :: t in r.tokens <==> t in tokens && !(t.userId == userId && t.id in r.invalidated)
  {
    if ids != [] && DeleteOutcome(tokens, userId, ids[0]).Ok? {
      RevokeRemovesOnlyOwned(Delete(tokens, OwnerAndId(userId, ids[0])), userId, ids[1..]);
    }
  }

  /** Logout fails fast: when it stops early, its failure is the error that deleting the next
      requested id from the remaining tokens gives, so for in-range ids that id names no
      remaining token of the caller. */
  lemma {:induction false} RevokeStopsAtFailure(tokens: seq<Token>, userId: int, ids: seq<int>)
    decreases |ids|
    ensures var r := Revoke(tokens, userId, ids);
      r.failure.Some? ==> DeleteOutcome(r.tokens, userId, ids[|r.invalidated|]) == Err(r.failure.value)
  {
    if ids != [] && DeleteOutcome(tokens, userId, ids[0]).Ok? {
      RevokeStopsAtFailure(Delete(tokens, OwnerAndId(userId, ids[0])), userId, ids[1..]);
    }
  }

  /** Logout keeps the serial-id invariant of the tokens table. */
  lemma {:induction false} RevokeKeepsSerial(tokens: seq<Token>, userId: int, ids: seq<int>, last: int)
    requires TokensSerial(tokens, last)
    ensures TokensSerial(Revoke(tokens, userId, ids).tokens, last)
    decreases |ids|
  {
    if ids != [] && DeleteOutcome(tokens, userId, ids[0]).Ok? {
      DeleteKeepsSerial(tokens, OwnerAndId(userId, ids[0]), last);
      RevokeKeepsSerial(Delete(tokens, OwnerAndId(userId, ids[0])), userId, ids[1..], last);
    }
  }

  /** HandleLogout: after the ownership gate, delete the requested token ids of the path user
      in order; the first failure is a 500 that keeps the deletions already made. */
  method HandleLogout(db: Db, pathUserId: string, token: string, body: Option<LogoutRequest>)
    returns (resp: Response)
    requires db.Valid()
    requires !AuthorizeHeader(db, token).Abort?  // the route sits behind the header gate
    modifies db`tokens
    ensures db.Valid()
    ensures var auth := old(AuthorizeUser(db, pathUserId, token));
      if auth.Err? then resp == ErrorHandler(auth.error) && unchanged(db)
      else if !auth.value then resp == Response(StatusUnauthorized, NoBody) && unchanged(db)
      else if body.None? then resp == Response(StatusBadRequest, NoBody) && unchanged(db)
      else
        var r := Revoke(old(db.tokens), Atoi(pathUserId).value, body.value.tokens);
        && db.tokens == r.tokens
        && resp == if r.failure.None? then Response(StatusOK, LoggedOut(r.invalidated)) else ErrorHandler(r.failure.value)
  {
    var auth := AuthorizeUser(db, pathUserId, token);
    if auth.Err? {
      return ErrorHandler(auth.error);
    }
    if !auth.value {
      return Response(StatusUnauthorized, NoBody);
    }
    // The handler parses the path id a second time; that parse repeats the one above.
    var userId := Atoi(pathUserId).value;
    if body.None? {
      return Response(StatusBadRequest, NoBody);
    }
    var r := InvalidateTokens(db, userId, body.value.tokens);
    if r.Err? {
      return ErrorHandler(r.error);
    }
    resp := Response(StatusOK, LoggedOut(r.value));
  }

  /** Splitting a revocation after i ids, then after one more. */
  lemma SplitOneMore(whole: Revocation, rest: Revocation, tail: Revocation, ids: seq<int>, i: nat)
    requires i < |ids|
    requires whole == Revocation(rest.tokens, ids[..i] + rest.invalidated, rest.failure)
    requires rest == Revocation(tail.tokens, [ids[i]] + tail.invalidated, tail.failure)
    ensures ids[..i + 1] == ids[..i] + [ids[i]]
    ensures whole == Revocation(tail.tokens, ids[..i + 1] + tail.invalidated, tail.failure)
  {
    assert ids[..i + 1] == ids[..i] + [ids[i]];
  }

  /** The whole revocation `whole` is the first i ids, already revoked, followed by revoking
      the rest from `tokens`. */
  ghost predicate RevokedUpTo(whole: Revocation, tokens: seq<Token>, userId: int, ids: seq<int>, i: nat)
    requires i <= |ids|
  {
    var rest := Revoke(tokens, userId, ids[i..]);
    whole == Revocation(rest.tokens, ids[..i] + rest.invalidated, rest.failure)
  }

  /** One iteration of the logout loop: delete the i-th requested id, which is one step of
      Revoke over the ids from the i-th on. */
  method DeleteNext(db: Db, userId: int, ids: seq<int>, i: nat, ghost whole: Revocation) returns (deleted: Result<int>)
    requires db.Valid() && i < |ids|
    requires RevokedUpTo(whole, db.tokens, userId, ids, i)
    modifies db`tokens
    ensures db.Valid()
    ensures deleted.Err? ==> whole.tokens == db.tokens && whole.failure == Some(deleted.error)
    ensures deleted.Ok? ==>
      && deleted.value == ids[i]
      && ids[..i + 1] == ids[..i] + [ids[i]]
      && RevokedUpTo(whole, db.tokens, userId, ids, i + 1)
  {
    assert ids[i..][0] == ids[i] && ids[i..][1..] == ids[i + 1..];
    ghost var current := db.tokens;
    deleted := db.DeleteToken(userId, ids[i]);
    if deleted.Ok? {
      SplitOneMore(whole, Revoke(current, userId, ids[i..]), Revoke(db.tokens, userId, ids[i + 1..]), ids, i);
    }
  }

  /** The loop of HandleLogout: DeleteToken for each requested id in order, collecting the
      returned ids, and giving up at the first error. */
  method InvalidateTokens(db: Db, userId: int, ids: seq<int>) returns (r: Result<seq<int>>)
    requires db.Valid()
    modifies db`tokens
    ensures db.Valid()
    ensures var rev := Revoke(old(db.tokens), userId, ids);
      && db.tokens == rev.tokens
      && r == if rev.failure.None? then Ok(rev.invalidated) else Err(rev.failure.value)
  {
    ghost var whole := Revoke(db.tokens, userId, ids);
    var responseIds: seq<int> := [];
    var i := 0;
    assert ids[i..] == ids && ids[..i] == [];
    while i < |ids|
      invariant 0 <= i <= |ids|
      invariant db.Valid()
      invariant responseIds == ids[..i]
      invariant RevokedUpTo(whole, db.tokens, userId, ids, i)
    {
      var deleted := DeleteNext(db, userId, ids, i, whole);
      if deleted.Err? {
        return Err(deleted.error);
      }
      responseIds := responseIds + [deleted.value];
      i := i + 1;
    }
    assert ids[..i] == ids && ids[i..] == [];
    r := Ok(responseIds);
  }

  /** HandleAddLocation: after the ownership gate and validation, bind the new location to the
      path user and to the id of the header token. */
  method HandleAddLocation(db: Db, pathUserId: string, token: string, body: Option<AddLocationRequest>)
    returns (resp: Response)
    requires db.Valid()
    requires !AuthorizeHeader(db, token).Abort?  // the route sits behind the header gate
    modifies db`locations, db`locationsLast
    ensures db.Valid()
    ensures var auth := AuthorizeUser(db, pathUserId, token);
      if auth.Err? then resp == ErrorHandler(auth.error) && unchanged(db)
      else if !auth.value then resp == Response(StatusUnauthorized, NoBody) && unchanged(db)
      else if body.None? || !body.value.Validate() then resp == Response(StatusBadRequest, NoBody) && unchanged(db)
      else
        var userId, req, id := Atoi(pathUserId).value, body.value, old(db.locationsLast) + 1;
        var tokenId := db.GetTokenID(userId, token);
        && tokenId.Ok? && tokenId.value != 0
        && (exists i :: 0 <= i < |db.tokens| && db.tokens[i] == Token(tokenId.value, userId, token, db.tokens[i].name))
        && if old(db.locationsLast) == MaxInt32 then resp == ErrorHandler(SequenceExhausted) && unchanged(db)
           else
             && resp == Response(StatusCreated, LocationAdded(id))
             && db.locationsLast == id
             && db.locations == old(db.locations)
                  + [LocationRow(id, userId, tokenId.value, req.private, req.position.latitude, req.position.longitude, req.timestamp)]
  {
    var auth := AuthorizeUser(db, pathUserId, token);
    if auth.Err? {
      return ErrorHandler(auth.error);
    }
    if !auth.value {
      return Response(StatusUnauthorized, NoBody);
    }
    if body.None? || !body.value.Validate() {
      return Response(StatusBadRequest, NoBody);
    }
    resp := RecordLocation(db, Atoi(pathUserId).value, token, body.value);
  }

  /** The part of HandleAddLocation after its checks: look up the header token's id, then
      insert the location under it. */
  method RecordLocation(db: Db, userId: int, token: string, req: AddLocationRequest) returns (resp: Response)
    requires db.Valid()
    requires db.GetTokenID(userId, token).Ok? && db.GetTokenID(userId, token).value != 0
    modifies db`locations, db`locationsLast
    ensures db.Valid()
    ensures var tokenId, id := db.GetTokenID(userId, token).value, old(db.locationsLast) + 1;
      if old(db.locationsLast) == MaxInt32 then resp == ErrorHandler(SequenceExhausted) && unchanged(db)
      else
        && resp == Response(StatusCreated, LocationAdded(id))
        && db.locationsLast == id
        && db.locations == old(db.locations)
             + [LocationRow(id, userId, tokenId, req.private, req.position.latitude, req.position.longitude, req.timestamp)]
  {
    var tokenId := db.GetTokenID(userId, token);
    if tokenId.value == 0 {
      return ErrorHandler(TokenIdNotFound);
    }
    var locationId := db.NewLocation(userId, tokenId.value, req.timestamp,
      req.position.latitude, req.position.longitude, req.private);
    if locationId.Err? {
      return ErrorHandler(locationId.error);
    }
    resp := Response(StatusCreated, LocationAdded(locationId.value));
  }

  /** HandleGetLocations: the whole listing, private entries without names. */
  method HandleGetLocations(db: Db, token: string) returns (resp: Response)
    requires !AuthorizeHeader(db, token).Abort?  // the route sits behind the header gate
    ensures resp.status == StatusOK && resp.body.Locations?
    ensures var rows := Join(db.locations, db.users);
      |resp.body.entries| == |rows| && forall i :: 0 <= i < |rows| ==> resp.body.entries[i] == Redact(rows[i])
  {
    var locations := db.GetLocations();
    resp := Response(StatusOK, Locations(locations));
  }
}
