/**
 network_user.cpp and user_repo.cpp. The JSON constructor swallows every exception and leaves the
 fields as far as they had been assigned; the row constructor throws, and the repository turns
 that into an absent user. SHA-256 is the parameter `hash`.
 */
module Users {
  import opened Wrappers

  // A request body: not JSON at all, or an object whose two fields may be missing or not strings.
  datatype Body = Malformed | Parsed(username: Option<string>, password: Option<string>)

  // A row of the users table; None is SQL NULL.
  datatype Row = Row(id: int, username: Option<string>, password: Option<string>)

  datatype Query = Failed | Rows(rows: seq<Row>)

  datatype UserData = UserData(id: int, username: string, password: string)

  // find_user_by_username: an escaping exception, no user, or a validated user.
  datatype Found = Threw | Nobody | Somebody(user: UserData)

  predicate UsernameChar(c: char) {
    'a' <= c <= 'z' || 'A' <= c <= 'Z' || '0' <= c <= '9' || c == '_'
  }

  predicate ValidUsername(name: string) {
    3 <= |name| <= 20 && forall i :: 0 <= i < |name| ==> UsernameChar(name[i])
  }

  /** validate_user does not throw. */
  predicate ValidUser(u: UserData) {
    u.id >= 0 && ValidUsername(u.username) && |u.password| == 64
  }

  class User {
    var id: int
    var username: string
    var password: string

    ghost function View(): UserData
      reads this
    {
      UserData(id, username, password)
    }

    /** The JSON constructor. `unset` is what an id that is never assigned happens to hold. */
    constructor FromJson(hash: string -> string, body: Body, unset: int)
      ensures View() == Supplied(hash, body, unset)
    {
      id, username, password := unset, "", "";
      new;
      if body.Parsed? {
        id := 0;
        if body.username.Some? {
          username := body.username.value;
          if body.password.Some? {
            password := body.password.value;
            HashPassword(hash);
            // validate_user may throw here; the exception is swallowed and the fields stay.
          }
        }
      }
    }

    method HashPassword(hash: string -> string)
      modifies this`password
      ensures password == hash(old(password))
    {
      password := hash(password);
    }
  }

  /** The user a request body gives, valid or not. */
  function Supplied(hash: string -> string, body: Body, unset: int): UserData {
    match body
    case Malformed => UserData(unset, "", "")
    case Parsed(None, _) => UserData(0, "", "")
    case Parsed(Some(name), None) => UserData(0, name, "")
    case Parsed(Some(name), Some(word)) => UserData(0, name, hash(word))
  }

  /** construct_user_from_result on the first row; reading a NULL as a string throws. */
  function FindUser(query: Query): Found {
    if query.Failed? || query.rows == [] then Nobody
    else
      var row := query.rows[0];
      if row.username == None || row.password == None then Threw
      else
        var u := UserData(row.id, row.username.value, row.password.value);
        if ValidUser(u) then Somebody(u) else Nobody
  }

  /** The first row has a NULL where a name or a password hash should be. */
  predicate NullRow(query: Query) {
    query.Rows? && query.rows != [] && (query.rows[0].username == None || query.rows[0].password == None)
  }

  /** The first row is complete and passes validation. */
  predicate GoodRow(query: Query) {
    && query.Rows? && query.rows != []
    && query.rows[0].username.Some? && query.rows[0].password.Some?
    && ValidUser(UserData(query.rows[0].id, query.rows[0].username.value, query.rows[0].password.value))
  }

  /** The query was answered with rows of the user it asked for. */
  predicate Matches(query: Query, name: string) {
    query.Rows? && query.rows != [] ==> query.rows[0].username == Some(name)
  }

  // The part of log_in_user before a session is created.
  datatype Verdict = Error | Denied | Granted(owner: string)

  function CheckCredentials(hash: string -> string, body: Body, unset: int, query: Query): Verdict {
    match FindUser(query)
    case Threw => Error
    case Nobody => Denied
    case Somebody(u) => if Supplied(hash, body, unset).password == u.password then Granted(u.username) else Denied
  }

  /** Login soundness and completeness: credentials are accepted exactly when the body has a username
      and a password, the fetched row passes validation, and its stored hash is the hash of the
      supplied password. The session owner is the name in that row. */
  lemma GrantedExactly(hash: string -> string, body: Body, unset: int, query: Query, owner: string)
    ensures CheckCredentials(hash, body, unset, query) == Granted(owner) <==>
              && body.Parsed? && body.username.Some? && body.password.Some?
              && query.Rows? && query.rows != []
              && query.rows[0].username == Some(owner)
              && query.rows[0].password == Some(hash(body.password.value))
              && ValidUser(UserData(query.rows[0].id, owner, hash(body.password.value)))
  {
    var u := Supplied(hash, body, unset);
    assert u.password == "" ==> |u.password| != 64;
  }

  /** Among accepted logins, the user built from the body passed its own (swallowed) validation exactly
      when the supplied name is a valid one; it is when the row is one of the name asked for. */
  lemma AcceptedUserIsWhole(hash: string -> string, body: Body, unset: int, query: Query, owner: string)
    requires CheckCredentials(hash, body, unset, query) == Granted(owner)
    ensures ValidUser(Supplied(hash, body, unset)) <==> ValidUsername(Supplied(hash, body, unset).username)
    ensures Matches(query, Supplied(hash, body, unset).username) ==>
              ValidUser(Supplied(hash, body, unset)) && owner == body.username.value
  {
    GrantedExactly(hash, body, unset, query, owner);
  }

  /** The user built from a body passes validation if and only if the body has both fields, the name is a
      valid one and its hash has the right length; the name the database is asked for is the supplied
      one also if the password is missing. */
  lemma SuppliedIsValidIff(hash: string -> string, body: Body, unset: int)
    ensures ValidUser(Supplied(hash, body, unset)) <==>
              && body.Parsed? && body.username.Some? && body.password.Some?
              && ValidUsername(body.username.value) && |hash(body.password.value)| == 64
    ensures Supplied(hash, body, unset).username
         == if body.Parsed? && body.username.Some? then body.username.value else ""
  {
    assert Supplied(hash, body, unset).password == "" ==> |Supplied(hash, body, unset).password| != 64;
  }

  /** The assumption on rows is needed: if the database equates names that differ, a user whose
      validation failed and was swallowed can still log in, under the stored name. */
  lemma LooseMatchAdmitsHalfBuiltUser(hash: string -> string, word: string)
    requires |hash(word)| == 64
    ensures var body := Parsed(Some("alice "), Some(word));
            var query := Rows([Row(1, Some("alice"), Some(hash(word)))]);
            && !ValidUser(Supplied(hash, body, 0))
            && CheckCredentials(hash, body, 0, query) == Granted("alice")
  {
    var name := "alice ";
    assert !UsernameChar(name[5]);
    var stored := "alice";
    assert forall i :: 0 <= i < |stored| ==> UsernameChar(stored[i]);
  }
}
