/**
 * Authentication: the `authenticateToken` middleware (bearer-token extraction and
 * verification) and the login handler (look the email up, compare the hash, sign a token).
 */
module Auth {
  import opened Wrappers
  import opened Text
  import opened Records
  import opened Crypto

  const InvalidEmailMessage: string := "Invalid credentials"
  const InvalidPasswordMessage: string := "Invalid credentialsssss"

  /**
   * `authHeader && authHeader.split(' ')[1]`, kept only when truthy: the second
   * space-separated field of the Authorization header, when there is one and it is not empty.
   */
  function BearerToken(header: Option<string>): (r: Option<string>)
    ensures r.Some? ==> header.Some? && IsTokenWord(r.value)
  {
    match header
    case None => None
    case Some(h) =>
      var fields := Split(h, ' ');
      if |fields| >= 2 && fields[1] != [] then Some(fields[1]) else None
  }

  /** `h` is a first word `w`, one space, the word `t`, then nothing or a space and more. */
  ghost predicate WordsOf(h: string, w: string, t: string, rest: string) {
    && ' ' !in w
    && (rest == [] || rest[0] == ' ')
    && h == w + [' '] + t + rest
  }

  /** The join of two or more fields: the first, a separator, the second, then the rest. */
  lemma JoinFirstTwo(f: seq<string>, sep: char)
    requires |f| >= 2
    ensures JoinWith(f, sep) == f[0] + [sep] + f[1] + (if |f| == 2 then [] else [sep] + JoinWith(f[2..], sep))
  {
    var tail := f[1..];
    assert tail[0] == f[1];
    assert JoinWith(f, sep) == f[0] + [sep] + JoinWith(tail, sep);
    if |f| > 2 {
      assert tail[1..] == f[2..];
      assert JoinWith(tail, sep) == f[1] + [sep] + JoinWith(f[2..], sep);
    } else {
      assert JoinWith(tail, sep) == f[1];
    }
  }

  /** A token found in a header stands right after the header's first word and one space. */
  lemma BearerTokenIsSecondWord(h: string)
    requires BearerToken(Some(h)).Some?
    ensures exists w, rest :: WordsOf(h, w, BearerToken(Some(h)).value, rest)
  {
    var f := Split(h, ' ');
    JoinSplit(h, ' ');
    JoinFirstTwo(f, ' ');
    var rest := if |f| == 2 then [] else [' '] + JoinWith(f[2..], ' ');
    assert WordsOf(h, f[0], f[1], rest);
  }

  /** Conversely, the word after the first space is the token, whatever follows it. */
  lemma BearerTokenOfWords(w: string, t: string, rest: string)
    requires ' ' !in w && IsTokenWord(t)
    requires rest == [] || rest[0] == ' '
    ensures BearerToken(Some(w + [' '] + t + rest)) == Some(t)
  {
    var h := w + [' '] + t + rest;
    assert h == w + [' '] + (t + rest);
    SplitAfterWord(w, ' ', t + rest);
    if rest == [] {
      assert t + rest == t;
      SplitNoSeparator(t, ' ');
    } else {
      assert t + rest == t + [' '] + rest[1..];
      SplitAfterWord(t, ' ', rest[1..]);
    }
  }

  /** A header with no space, or no header at all, carries no token. */
  lemma NoTokenWithoutSpace(header: Option<string>)
    requires header.Some? ==> ' ' !in header.value
    ensures BearerToken(header) == None
  {
    if header.Some? {
      SplitNoSeparator(header.value, ' ');
    }
  }

  /**
   * `authenticateToken`: 401 when no token is found, 403 when the token does not verify,
   * otherwise the decoded identity is handed to the route handler.
   */
  function Authenticate(header: Option<string>, signer: TokenSigner): (r: Result<Claims, HttpError>)
    ensures r == Failure(HttpError(401, "Unauthorized")) <==> BearerToken(header).None?
    ensures r == Failure(HttpError(403, "Forbidden")) <==>
      BearerToken(header).Some? && signer.verify(BearerToken(header).value).None?
    ensures r.Success? <==> BearerToken(header).Some? && signer.verify(BearerToken(header).value).Some?
    ensures r.Success? ==> signer.verify(BearerToken(header).value) == Some(r.value)
  {
    match BearerToken(header)
    case None => Failure(HttpError(401, "Unauthorized"))
    case Some(token) =>
      match signer.verify(token)
      case None => Failure(HttpError(403, "Forbidden"))
      case Some(claims) => Success(claims)
  }

  /** A header `Bearer <token>` with a freshly signed token authenticates as the signed identity. */
  lemma IssuedTokenAuthenticates(signer: TokenSigner, claims: Claims)
    requires SignerSound(signer)
    ensures Authenticate(Some("Bearer " + signer.sign(claims)), signer) == Success(claims)
  {
    var t := signer.sign(claims);
    assert "Bearer " + t == "Bearer" + [' '] + t + [];
    BearerTokenOfWords("Bearer", t, []);
  }

  /** `SELECT * FROM users WHERE email = ?`, first row. */
  function FindUserByEmail(users: seq<User>, email: string): (r: Option<User>)
    ensures r.Some? <==> EmailTaken(users, email)
    ensures r.Some? ==> r.value in users && r.value.email == email
    decreases |users|
  {
    if users == [] then None
    else if users[0].email == email then Some(users[0])
    else
      var r := FindUserByEmail(users[1..], email);
      assert EmailTaken(users, email) ==> EmailTaken(users[1..], email) by {
        if EmailTaken(users, email) {
          var k :| 0 <= k < |users| && users[k].email == email;
          assert users[1..][k - 1] == users[k];
        }
      }
      r
  }

  /** With unique emails, the row found is the one row with that email. */
  lemma FindUniqueUser(users: seq<User>, k: nat)
    requires UniqueEmails(users) && k < |users|
    ensures FindUserByEmail(users, users[k].email) == Some(users[k])
  {
    var r := FindUserByEmail(users, users[k].email);
    var j :| 0 <= j < |users| && users[j] == r.value;
    assert j == k;
  }

  /**
   * The login handler: 401 "Invalid credentials" for an unknown email, 401
   * "Invalid credentialsssss" when the hash comparison fails, otherwise a token signed
   * with the row's id and email and the row without its hash.
   */
  function Login(users: seq<User>, email: string, password: string, scheme: PasswordScheme,
                 signer: TokenSigner): (r: Result<Session, HttpError>)
    ensures r.Failure? ==> r.error.status == 401
    ensures !EmailTaken(users, email) <==> r == Failure(HttpError(401, InvalidEmailMessage))
    ensures r.Success? ==>
              exists u ::
                && u in users && u.email == email
                && scheme.compare(password, u.passwordHash)
                && r.value == Session(signer.sign(Claims(u.id, u.email)), ToPublic(u))
  {
    match FindUserByEmail(users, email)
    case None => Failure(HttpError(401, InvalidEmailMessage))
    case Some(u) =>
      if !scheme.compare(password, u.passwordHash) then Failure(HttpError(401, InvalidPasswordMessage))
      else Success(Session(signer.sign(Claims(u.id, u.email)), ToPublic(u)))
  }

  /**
   * Logging in with a stored email and the password its hash was made from succeeds, and the
   * token verifies to that row's id and email.
   */
  lemma LoginWithStoredPassword(users: seq<User>, k: nat, password: string, salt: nat,
                                scheme: PasswordScheme, signer: TokenSigner)
    requires UniqueEmails(users) && k < |users|
    requires users[k].passwordHash == scheme.hash(password, salt)
    requires SchemeSound(scheme) && SignerSound(signer)
    ensures Login(users, users[k].email, password, scheme, signer).Success?
    ensures var s := Login(users, users[k].email, password, scheme, signer).value;
      signer.verify(s.token) == Some(Claims(users[k].id, users[k].email)) && s.user == ToPublic(users[k])
  {
    FindUniqueUser(users, k);
  }

  /** A wrong password for a stored email fails with the second message, not the first. */
  lemma LoginWrongPassword(users: seq<User>, k: nat, password: string, scheme: PasswordScheme,
                           signer: TokenSigner)
    requires UniqueEmails(users) && k < |users|
    requires !scheme.compare(password, users[k].passwordHash)
    ensures Login(users, users[k].email, password, scheme, signer)
      == Failure(HttpError(401, InvalidPasswordMessage))
    ensures InvalidPasswordMessage != InvalidEmailMessage
  {
    FindUniqueUser(users, k);
  }
}
