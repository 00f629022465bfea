/** The validators and the check order of `register` and `login` in
    backend/src/routes/auth.py. */
module Auth {
  import opened Wrappers
  import opened Models

  // ---------------------------------------------------------------------------
  // is_valid_email: re.match(r"^[a-zA-Z0-9._%+-]+@[a-zA-Z0-9.-]+\.[a-zA-Z]{2,}$", email)
  // ---------------------------------------------------------------------------

  predicate Letter(c: char) { 'a' <= c <= 'z' || 'A' <= c <= 'Z' }

  predicate Digit(c: char) { '0' <= c <= '9' }

  /** `[a-zA-Z0-9._%+-]` */
  predicate LocalChar(c: char)
  {
    Letter(c) || Digit(c) || c == '.' || c == '_' || c == '%' || c == '+' || c == '-'
  }

  /** `[a-zA-Z0-9.-]` */
  predicate DomainChar(c: char)
  {
    Letter(c) || Digit(c) || c == '.' || c == '-'
  }

  predicate AllLocal(s: string) { forall i :: 0 <= i < |s| ==> LocalChar(s[i]) }

  predicate AllDomain(s: string) { forall i :: 0 <= i < |s| ==> DomainChar(s[i]) }

  predicate AllLetters(s: string) { forall i :: 0 <= i < |s| ==> Letter(s[i]) }

  /** `s` splits at index `at` (the `@`) and index `dot` (the `.`) into a local
      part of one or more `LocalChar`, a domain of one or more `DomainChar`, and a
      top-level domain of two or more letters. */
  ghost predicate Split(s: string, at: int, dot: int)
  {
    && 1 <= at && at + 2 <= dot && dot + 3 <= |s|
    && s[at] == '@' && s[dot] == '.'
    && AllLocal(s[..at])
    && AllDomain(s[at + 1..dot])
    && AllLetters(s[dot + 1..])
  }

  /** The pattern matches the whole of `s`. Because `+` and `{2,}` backtrack, any
      split of the right shape is a match. */
  ghost predicate WholeMatch(s: string)
  {
    exists at, dot :: Split(s, at, dot)
  }

  /** Python's `$` matches at the very end and also just before a final `\n`. */
  ghost predicate RegexAccepts(s: string)
  {
    WholeMatch(s) || (|s| > 0 && s[|s| - 1] == '\n' && WholeMatch(s[..|s| - 1]))
  }

  /** The first index of `c` in `s`. */
  function IndexOf(s: string, c: char): (r: Option<nat>)
    ensures r.None? ==> forall i :: 0 <= i < |s| ==> s[i] != c
    ensures r.Some? ==> r.value < |s| && s[r.value] == c && forall i :: 0 <= i < r.value ==> s[i] != c
  {
    if s == [] then None
    else if s[0] == c then Some(0)
    else
      var rest := IndexOf(s[1..], c);
      if rest.None? then None else Some(rest.value + 1)
  }

  /** The last index of `c` in `s`. */
  function LastIndexOf(s: string, c: char): (r: Option<nat>)
    ensures r.None? ==> forall i :: 0 <= i < |s| ==> s[i] != c
    ensures r.Some? ==> r.value < |s| && s[r.value] == c && forall i :: r.value < i < |s| ==> s[i] != c
  {
    if s == [] then None
    else if s[|s| - 1] == c then Some(|s| - 1)
    else LastIndexOf(s[..|s| - 1], c)
  }

  /** A direct matcher for the anchored pattern: split at the first `@`, then at
      the last `.` after it. */
  function Shape(s: string): bool
  {
    match IndexOf(s, '@')
    case None => false
    case Some(at) =>
      match LastIndexOf(s[at + 1..], '.')
      case None => false
      case Some(d) =>
        && at >= 1 && d >= 1 && at + d + 4 <= |s|
        && AllLocal(s[..at])
        && AllDomain(s[at + 1..at + 1 + d])
        && AllLetters(s[at + 2 + d..])
  }

  lemma ShapeIsMatch(s: string)
    requires Shape(s)
    ensures WholeMatch(s)
  {
    var at := IndexOf(s, '@').value;
    var d := LastIndexOf(s[at + 1..], '.').value;
    assert s[at + 1..][d] == s[at + 1 + d];
    assert Split(s, at, at + 1 + d);
  }

  lemma MatchIsShape(s: string, at: int, dot: int)
    requires Split(s, at, dot)
    ensures Shape(s)
  {
    var i := IndexOf(s, '@');
    assert i.Some? && i.value == at;
    var domain := s[at + 1..];
    var j := LastIndexOf(domain, '.');
    assert domain[dot - at - 1] == '.';
    assert j.Some? && j.value == dot - at - 1;
  }

  /** The direct matcher agrees with the pattern: no character class admits `@`,
      so the `@` is the first one, and the top-level domain admits no `.`, so the
      separating `.` is the last one. */
  lemma ShapeIsWholeMatch(s: string)
    ensures Shape(s) <==> WholeMatch(s)
  {
    if Shape(s) {
      ShapeIsMatch(s);
    }
    if WholeMatch(s) {
      var at, dot :| Split(s, at, dot);
      MatchIsShape(s, at, dot);
    }
  }

  /** `is_valid_email`. */
  function IsValidEmail(email: string): (ok: bool)
    ensures ok <==> RegexAccepts(email)
  {
    var front := if |email| > 0 then email[..|email| - 1] else email;
    ShapeIsWholeMatch(email);
    ShapeIsWholeMatch(front);
    Shape(email) || (|email| > 0 && email[|email| - 1] == '\n' && Shape(front))
  }

  /** No character class of the pattern admits `@`: the split's `@` is the only one. */
  lemma SplitHasOneAt(s: string, at: int, dot: int)
    requires Split(s, at, dot)
    ensures forall k :: 0 <= k < |s| && s[k] == '@' ==> k == at
  {
  }

  /** A string the pattern accepts holds exactly one `@`, the split's. */
  lemma RegexAcceptedHasOneAt(email: string)
    requires RegexAccepts(email)
    ensures exists i :: 0 <= i < |email| && email[i] == '@' &&
                        forall k :: 0 <= k < |email| && email[k] == '@' ==> k == i
  {
    var whole := WholeMatch(email);
    var s := if whole then email else email[..|email| - 1];
    assert whole || email[|email| - 1] == '\n';
    var at, dot :| Split(s, at, dot);
    SplitHasOneAt(s, at, dot);
    assert email[at] == s[at] == '@';
    forall k | 0 <= k < |email| && email[k] == '@'
      ensures k == at
    {
      if k < |s| {
        assert s[k] == email[k];
      }
    }
  }

  /** An accepted address holds exactly one `@`: the same fact stated for the
      executable validator, through its equivalence with the pattern. */
  lemma AcceptedHasOneAt(email: string)
    requires IsValidEmail(email)
    ensures exists i :: 0 <= i < |email| && email[i] == '@' &&
                        forall k :: 0 <= k < |email| && email[k] == '@' ==> k == i
  {
    RegexAcceptedHasOneAt(email);
  }

  /** `$` lets one trailing newline through: every address the pattern matches is
      also accepted with `\n` appended. */
  lemma TrailingNewlineAccepted(s: string)
    requires WholeMatch(s)
    ensures IsValidEmail(s + "\n")
  {
    assert (s + "\n")[..|s + "\n"| - 1] == s;
  }

  /** `validate_password`: longer than five characters. */
  function ValidatePassword(password: string): (ok: bool)
    ensures ok <==> |password| >= 6
  {
    |password| > 5
  }

  // ---------------------------------------------------------------------------
  // register and login
  // ---------------------------------------------------------------------------

  /** A `User` row; the password is kept only as its hash. */
  datatype User = User(username: string, email: string, passwordHash: string)

  /** Why `register` stopped, or the user it created. */
  datatype RegisterOutcome = MissingField | InvalidEmail | ShortPassword | AlreadyExists | Registered(user: User)
  {
    function Status(): int
    {
      match this
      case MissingField | InvalidEmail | ShortPassword => BAD_REQUEST
      case AlreadyExists => CONFLICT
      case Registered(_) => CREATED
    }
  }

  /** Some user already has the username or the email. */
  predicate Taken(users: seq<User>, username: string, email: string)
  {
    exists i :: 0 <= i < |users| && (users[i].username == username || users[i].email == email)
  }

  /** `register`: a missing field, then the email format, then the password
      length, then a clash with an existing user; only a request passing all four
      creates a user. `hash` stands for the unseen `set_password`. */
  function Register(users: seq<User>, username: Option<string>, email: Option<string>, password: Option<string>,
                    hash: string -> string): (r: RegisterOutcome)
    ensures r == MissingField <==> !Truthy(username) || !Truthy(email) || !Truthy(password)
    ensures r == InvalidEmail <==>
      Truthy(username) && Truthy(email) && Truthy(password) && !IsValidEmail(email.value)
    ensures r == ShortPassword <==>
      Truthy(username) && Truthy(email) && Truthy(password) && IsValidEmail(email.value) && !ValidatePassword(password.value)
    ensures r.Registered? <==>
      && Truthy(username) && Truthy(email) && Truthy(password)
      && IsValidEmail(email.value) && ValidatePassword(password.value)
      && !Taken(users, username.value, email.value)
    ensures r.Registered? ==> r.user == User(username.value, email.value, hash(password.value))
  {
    if !Truthy(username) || !Truthy(email) || !Truthy(password) then MissingField
    else if !IsValidEmail(email.value) then InvalidEmail
    else if !ValidatePassword(password.value) then ShortPassword
    else if Taken(users, username.value, email.value) then AlreadyExists
    else Registered(User(username.value, email.value, hash(password.value)))
  }

  /** No two users share a username or an email. */
  predicate UniqueUsers(users: seq<User>)
  {
    forall i, j :: 0 <= i < j < |users| ==>
      users[i].username != users[j].username && users[i].email != users[j].email
  }

  /** The clash check keeps usernames and emails unique, and every stored email
      is one the validator accepted. */
  lemma RegisterKeepsUsersUnique(users: seq<User>, username: Option<string>, email: Option<string>,
                                 password: Option<string>, hash: string -> string)
    requires UniqueUsers(users)
    requires Register(users, username, email, password, hash).Registered?
    ensures var u := Register(users, username, email, password, hash).user;
      UniqueUsers(users + [u]) && IsValidEmail(u.email) && |password.value| > 5
  {
    var u := Register(users, username, email, password, hash).user;
    forall i, j | 0 <= i < j < |users + [u]|
      ensures (users + [u])[i].username != (users + [u])[j].username
      ensures (users + [u])[i].email != (users + [u])[j].email
    {
      if j == |users| {
        assert (users + [u])[i] == users[i];
      }
    }
  }

  /** Why `login` refused, or the user it let in. */
  datatype LoginOutcome = MissingCredentials | InvalidCredentials | LoggedIn(user: User)
  {
    function Status(): int
    {
      match this
      case MissingCredentials => BAD_REQUEST
      case InvalidCredentials => UNAUTHORIZED
      case LoggedIn(_) => OK
    }
  }

  /** `User.query.filter_by(username=username).first()`. */
  function FirstByUsername(users: seq<User>, username: string): (r: Option<User>)
    ensures r.None? <==> forall i :: 0 <= i < |users| ==> users[i].username != username
    ensures r.Some? ==> r.value.username == username && r.value in users
    ensures r.Some? ==> exists i :: 0 <= i < |users| && users[i] == r.value &&
                                    forall j :: 0 <= j < i ==> users[j].username != username
  {
    if users == [] then None
    else if users[0].username == username then Some(users[0])
    else
      var rest := FirstByUsername(users[1..], username);
      assert forall i :: 1 <= i < |users| ==> users[i] == users[1..][i - 1];
      rest
  }

  /** `login`: 400 for a missing username or password, 401 for an unknown user or
      a password the stored hash rejects; `check` stands for the unseen
      `check_password`. */
  function Login(users: seq<User>, username: Option<string>, password: Option<string>,
                 check: (string, string) -> bool): (r: LoginOutcome)
    ensures r == MissingCredentials <==> !Truthy(username) || !Truthy(password)
    ensures r.LoggedIn? <==>
      && Truthy(username) && Truthy(password)
      && FirstByUsername(users, username.value).Some?
      && check(FirstByUsername(users, username.value).value.passwordHash, password.value)
    ensures r.LoggedIn? ==> r.user in users && r.user.username == username.value
    ensures r.LoggedIn? ==> r.user == FirstByUsername(users, username.value).value
    ensures r.LoggedIn? ==> check(r.user.passwordHash, password.value)
  {
    if !Truthy(username) || !Truthy(password) then MissingCredentials
    else
      var user := FirstByUsername(users, username.value);
      if user.None? || !check(user.value.passwordHash, password.value) then InvalidCredentials
      else LoggedIn(user.value)
  }
}
