/** The in-memory ledger of server.js: a process-wide table of user records
    and the handlers for sign-up, log-in, the current-user lookup, peer
    transfers and the administrators' mint/burn. Each handler is a chain of
    guards followed by an update of one or two balances; here it is a pure
    function from the table (and the request) to the new table or the error
    it replies with. The principal decoded from the bearer token is an input.
 */
module MemoryLedger {
  import opened Basics

  /** One row of the `users` table; every field is always present. */
  datatype User = User(
    id: string,
    username: string,
    password: string,
    fullName: string,
    email: string,
    balance: int,
    role: string)

  /** The claims of a verified token: who is calling, and with which role. */
  datatype Principal = Principal(username: string, role: string)

  const UserRole: string := "user"
  const AdminRole: string := "admin"

  /** The table the server starts with. */
  const InitialUsers: seq<User> := [
    User("1", "testuser", "test1234", "Test User", "test@example.com", 840, UserRole),
    User("2", "Homi", "password123", "Hongming Lin", "xhxhomi@gmail.com", 0, AdminRole),
    User("3", "Admin", "Admin123", "Admin", "30chen_y@aswarsaw.org", 10000000, AdminRole)
  ]

  // ---------------------------------------------------------------------
  // Views of the table and its invariants
  // ---------------------------------------------------------------------

  /** The usernames of the table, in order. */
  function Names(t: seq<User>): (ns: seq<string>)
    ensures |ns| == |t|
    ensures forall k :: 0 <= k < |t| ==> ns[k] == t[k].username
  {
    seq(|t|, k requires 0 <= k < |t| => t[k].username)
  }

  function Balances(t: seq<User>): (bs: seq<int>)
    ensures |bs| == |t|
    ensures forall k :: 0 <= k < |t| ==> bs[k] == t[k].balance
  {
    seq(|t|, k requires 0 <= k < |t| => t[k].balance)
  }

  /** The money supply: the sum of all balances. */
  function Total(t: seq<User>): int
  {
    Sum(Balances(t))
  }

  predicate Registered(t: seq<User>, name: string)
  {
    exists k :: 0 <= k < |t| && t[k].username == name
  }

  predicate UniqueUsernames(t: seq<User>)
  {
    forall i, j :: 0 <= i < j < |t| ==> t[i].username != t[j].username
  }

  predicate NonNegative(t: seq<User>)
  {
    forall k :: 0 <= k < |t| ==> t[k].balance >= 0
  }

  /** The invariant every reachable table keeps. */
  predicate Valid(t: seq<User>)
  {
    UniqueUsernames(t) && NonNegative(t)
  }

  /** `t2` is `t` after moving `a` from record `i` to record `j`; when the two
      are the same record the debit and the credit cancel. */
  predicate Moved(t: seq<User>, t2: seq<User>, i: nat, j: nat, a: int)
  {
    && i < |t| && j < |t| && |t2| == |t|
    && (forall k :: 0 <= k < |t| && k != i && k != j ==> t2[k] == t[k])
    && (i != j ==> (t2[i] == t[i].(balance := t[i].balance - a)
                 && t2[j] == t[j].(balance := t[j].balance + a)))
    && (i == j ==> t2[i] == t[i])
  }

  /** `t2` is `t` after record `i` was credited `a` and then floored at zero:
      its new balance is max(0, old + a), and nothing else differs. */
  predicate ClampedCredit(t: seq<User>, t2: seq<User>, i: nat, a: int)
  {
    && i < |t| && |t2| == |t|
    && (forall k :: 0 <= k < |t| && k != i ==> t2[k] == t[k])
    && t2[i] == t[i].(balance := t2[i].balance)
    && t2[i].balance >= 0
    && t2[i].balance >= t[i].balance + a
    && (t2[i].balance == 0 || t2[i].balance == t[i].balance + a)
  }

  // ---------------------------------------------------------------------
  // Operations
  // ---------------------------------------------------------------------

  /** `findUser`: the position of the first record with this username. */
  function FindUser(t: seq<User>, name: string): (r: Option<nat>)
    ensures r.Some? ==> r.value < |t| && t[r.value].username == name
    ensures r.Some? ==> forall k :: 0 <= k < r.value ==> t[k].username != name
    ensures r.None? <==> !Registered(t, name)
  {
    var r := FirstIndex(Names(t), name);
    assert r.None? ==> forall k :: 0 <= k < |t| ==> Names(t)[k] != name;
    r
  }

  /** The body of a sign-up request. */
  datatype SignupForm = SignupForm(
    username: Option<string>,
    password: Option<string>,
    fullName: Option<string>,
    email: Option<string>)

  predicate Complete(f: SignupForm)
  {
    Truthy(f.username) && Truthy(f.password) && Truthy(f.fullName) && Truthy(f.email)
  }

  /** `/api/signup`. `id` stands for the clock reading the source uses as a
      fresh identifier. */
  function Signup(t: seq<User>, f: SignupForm, id: string): (r: Result<seq<User>>)
    ensures !Complete(f) ==> r == Err(AllFieldsRequired)
    ensures Complete(f) && Registered(t, f.username.value) ==> r == Err(UsernameExists)
    ensures r.Ok? <==> Complete(f) && !Registered(t, f.username.value)
    ensures r.Ok? ==> |r.value| == |t| + 1 && r.value[..|t|] == t
    ensures r.Ok? ==>
              r.value[|t|] == User(id, f.username.value, f.password.value,
                                   f.fullName.value, f.email.value, 0, UserRole)
  {
    if !Truthy(f.username) || !Truthy(f.password) || !Truthy(f.fullName) || !Truthy(f.email) then
      Err(AllFieldsRequired)
    else if FindUser(t, f.username.value).Some? then
      Err(UsernameExists)
    else
      var newUser := User(id, f.username.value, f.password.value,
                          f.fullName.value, f.email.value, 0, UserRole);
      Ok(t + [newUser])
  }

  /** `/api/login`: the caller's record when the password matches. An
      unknown username and a wrong password give the same reply. */
  function Login(t: seq<User>, username: Option<string>, password: Option<string>): (r: Result<User>)
    ensures r.Err? ==> r.error == InvalidLogin
    ensures username.None? || password.None? ==> r.Err?
    ensures username.Some? && !Registered(t, username.value) ==> r.Err?
    ensures r.Ok? ==> r.value in t && r.value.username == username.value
                      && r.value.password == password.value
  {
    if username.None? then Err(InvalidLogin)
    else match FindUser(t, username.value)
      case None => Err(InvalidLogin)
      case Some(i) =>
        if password.None? || t[i].password != password.value then Err(InvalidLogin)
        else Ok(t[i])
  }

  /** `/api/me`: the record of the token's user. */
  function CurrentUser(t: seq<User>, p: Principal): (r: Result<User>)
    ensures r.Ok? <==> Registered(t, p.username)
    ensures r.Ok? ==> r.value in t && r.value.username == p.username
    ensures r.Err? ==> r.error == UserNotFound
  {
    match FindUser(t, p.username)
    case None => Err(UserNotFound)
    case Some(i) => Ok(t[i])
  }

  /** The body of a transfer is acceptable: a non-empty recipient name and a
      positive amount (`!amount` also catches zero). */
  predicate SendParamsOk(to: Option<string>, amount: Option<int>)
  {
    Truthy(to) && amount.Some? && amount.value > 0
  }

  function Credit(t: seq<User>, i: nat, delta: int): seq<User>
    requires i < |t|
  {
    t[i := t[i].(balance := t[i].balance + delta)]
  }

  /** `/api/send`: move `amount` from the caller to `to`. Both records are
      looked up before either balance is touched, and a transfer to oneself
      is not refused. */
  function Send(t: seq<User>, p: Principal, to: Option<string>, amount: Option<int>): (r: Result<seq<User>>)
    ensures !SendParamsOk(to, amount) ==> r == Err(InvalidParameters)
    ensures SendParamsOk(to, amount) && !(Registered(t, p.username) && Registered(t, to.value)) ==>
              r == Err(UserNotFound)
    ensures SendParamsOk(to, amount) && Registered(t, p.username) && Registered(t, to.value) ==>
              (r.Ok? <==> amount.value <= t[FindUser(t, p.username).value].balance)
    ensures SendParamsOk(to, amount) && Registered(t, p.username) && Registered(t, to.value)
            && t[FindUser(t, p.username).value].balance < amount.value ==>
              r == Err(InsufficientBalance)
    ensures r.Err? ==> r.error in {InvalidParameters, UserNotFound, InsufficientBalance}
    ensures r.Ok? ==>
              && SendParamsOk(to, amount) && Registered(t, p.username) && Registered(t, to.value)
              && Moved(t, r.value, FindUser(t, p.username).value, FindUser(t, to.value).value, amount.value)
  {
    if !Truthy(to) || amount.None? || amount.value <= 0 then Err(InvalidParameters)
    else
      var sender := FindUser(t, p.username);
      var recipient := FindUser(t, to.value);
      if sender.None? || recipient.None? then Err(UserNotFound)
      else if t[sender.value].balance < amount.value then Err(InsufficientBalance)
      else
        var debited := Credit(t, sender.value, -amount.value);
        Ok(Credit(debited, recipient.value, amount.value))
  }

  /** The body of an adjustment is acceptable: a non-empty username and a
      non-zero amount (the source tests zero twice, once through `!amount`). */
  predicate AdjustParamsOk(username: Option<string>, amount: Option<int>)
  {
    Truthy(username) && amount.Some? && amount.value != 0
  }

  /** `/api/admin/adjust`: an administrator mints (positive amount) or burns
      (negative amount); a burn past zero leaves the balance at zero. */
  function Adjust(t: seq<User>, p: Principal, username: Option<string>, amount: Option<int>): (r: Result<seq<User>>)
    ensures p.role != AdminRole ==> r == Err(Unauthorized)
    ensures p.role == AdminRole && !AdjustParamsOk(username, amount) ==> r == Err(InvalidParameters)
    ensures p.role == AdminRole && AdjustParamsOk(username, amount) && !Registered(t, username.value) ==>
              r == Err(UserNotFound)
    ensures r.Ok? <==> p.role == AdminRole && AdjustParamsOk(username, amount) && Registered(t, username.value)
    ensures r.Ok? ==>
              && AdjustParamsOk(username, amount) && Registered(t, username.value)
              && ClampedCredit(t, r.value, FindUser(t, username.value).value, amount.value)
  {
    if p.role != AdminRole then Err(Unauthorized)
    else if !Truthy(username) || amount.None? || amount.value == 0 then Err(InvalidParameters)
    else match FindUser(t, username.value)
      case None => Err(UserNotFound)
      case Some(i) =>
        var raised := t[i].balance + amount.value;
        Ok(t[i := t[i].(balance := if raised < 0 then 0 else raised)])
  }

  // ---------------------------------------------------------------------
  // The server as a state machine over the table
  // ---------------------------------------------------------------------

  datatype Request =
    | SignupRequest(form: SignupForm, id: string)
    | LoginRequest(username: Option<string>, password: Option<string>)
    | MeRequest(caller: Principal)
    | SendRequest(caller: Principal, to: Option<string>, amount: Option<int>)
    | AdjustRequest(caller: Principal, target: Option<string>, delta: Option<int>)

  function Commit(t: seq<User>, r: Result<seq<User>>): (seq<User>, Option<Failure>)
  {
    match r
    case Ok(t2) => (t2, None)
    case Err(e) => (t, Some(e))
  }

  function ErrorOf(r: Result<User>): Option<Failure>
  {
    match r
    case Ok(_) => None
    case Err(e) => Some(e)
  }

  /** One request against the table: the table afterwards, and the error
      replied, if any. */
  function Handle(t: seq<User>, req: Request): (r: (seq<User>, Option<Failure>))
    ensures r.1.Some? ==> r.0 == t
    ensures req.LoginRequest? || req.MeRequest? ==> r.0 == t
    ensures req.AdjustRequest? && req.caller.role != AdminRole ==> r == (t, Some(Unauthorized))
    ensures !req.SignupRequest? ==> Names(r.0) == Names(t)
  {
    match req
    case SignupRequest(f, id) => Commit(t, Signup(t, f, id))
    case LoginRequest(u, pw) => (t, ErrorOf(Login(t, u, pw)))
    case MeRequest(p) => (t, ErrorOf(CurrentUser(t, p)))
    case SendRequest(p, to, a) => Commit(t, Send(t, p, to, a))
    case AdjustRequest(p, u, a) => Commit(t, Adjust(t, p, u, a))
  }

  /** The table after a sequence of requests. */
  function Run(t: seq<User>, reqs: seq<Request>): seq<User>
    decreases |reqs|
  {
    if |reqs| == 0 then t else Run(Handle(t, reqs[0]).0, reqs[1..])
  }

  // ---------------------------------------------------------------------
  // Properties
  // ---------------------------------------------------------------------

  lemma TotalUpdate(t: seq<User>, i: nat, u: User)
    requires i < |t|
    ensures Total(t[i := u]) == Total(t) - t[i].balance + u.balance
  {
    assert Balances(t[i := u]) == Balances(t)[i := u.balance];
    SumUpdate(Balances(t), i, u.balance);
  }

  lemma TotalAppend(t: seq<User>, u: User)
    ensures Total(t + [u]) == Total(t) + u.balance
  {
    assert Balances(t + [u]) == Balances(t) + [u.balance];
    SumAppend(Balances(t), u.balance);
  }

  /** With unique usernames, `findUser` finds the one record that has it. */
  lemma FindUserUnique(t: seq<User>, k: nat)
    requires UniqueUsernames(t) && k < |t|
    ensures FindUser(t, t[k].username) == Some(k)
  {
  }

  lemma InitialUsersValid()
    ensures Valid(InitialUsers)
    ensures Total(InitialUsers) == 10000840
  {
    assert Balances(InitialUsers) == [840, 0, 10000000];
    assert [840, 0, 10000000][..2] == [840, 0];
    assert [840, 0][..1] == [840];
    assert [840][..0] == [];
  }

  /** A successful sign-up adds a record with a fresh username, so usernames
      stay unique and balances stay non-negative; the supply is unchanged. */
  lemma SignupPreservesValid(t: seq<User>, f: SignupForm, id: string)
    requires Valid(t) && Signup(t, f, id).Ok?
    ensures Valid(Signup(t, f, id).value)
    ensures Registered(Signup(t, f, id).value, f.username.value)
    ensures Total(Signup(t, f, id).value) == Total(t)
  {
    var t2 := Signup(t, f, id).value;
    assert t2 == t + [t2[|t|]];
    TotalAppend(t, t2[|t|]);
    forall i, j | 0 <= i < j < |t2|
      ensures t2[i].username != t2[j].username
    {
      if j == |t| {
        assert t2[i] == t[i];
      }
    }
  }

  /** Login succeeds exactly for a stored username/password pair. */
  lemma LoginMatchesCredentials(t: seq<User>, username: string, password: string)
    requires UniqueUsernames(t)
    ensures Login(t, Some(username), Some(password)).Ok? <==>
              exists k :: 0 <= k < |t| && t[k].username == username && t[k].password == password
  {
  }

  /** A transfer conserves the money supply. */
  lemma SendConservesTotal(t: seq<User>, p: Principal, to: Option<string>, amount: Option<int>)
    requires Send(t, p, to, amount).Ok?
    ensures Total(Send(t, p, to, amount).value) == Total(t)
  {
    var t2 := Send(t, p, to, amount).value;
    var i := FindUser(t, p.username).value;
    var j := FindUser(t, to.value).value;
    if i == j {
      assert t2 == t;
    } else {
      var d := t[i := t2[i]];
      assert t2 == d[j := t2[j]];
      TotalUpdate(t, i, t2[i]);
      TotalUpdate(d, j, t2[j]);
    }
  }

  /** A transfer keeps usernames unique and every balance non-negative: the
      sender had at least the amount, and the recipient only gains. */
  lemma SendPreservesValid(t: seq<User>, p: Principal, to: Option<string>, amount: Option<int>)
    requires Valid(t) && Send(t, p, to, amount).Ok?
    ensures Valid(Send(t, p, to, amount).value)
  {
  }

  /** Sending to oneself is accepted when the balance covers the amount, and
      then leaves the table exactly as it was. */
  lemma SelfSendKeepsTable(t: seq<User>, p: Principal, a: int)
    requires a > 0 && p.username != "" && Registered(t, p.username)
    requires a <= t[FindUser(t, p.username).value].balance
    ensures Send(t, p, Some(p.username), Some(a)) == Ok(t)
  {
    var t2 := Send(t, p, Some(p.username), Some(a)).value;
    assert t2 == t;
  }

  /** An administrator's adjustment leaves usernames and every other record
      alone, and the target's balance is floored at zero. */
  lemma AdjustPreservesValid(t: seq<User>, p: Principal, username: Option<string>, amount: Option<int>)
    requires Valid(t) && Adjust(t, p, username, amount).Ok?
    ensures Valid(Adjust(t, p, username, amount).value)
  {
  }

  /** The supply moves by what was actually applied to the target. A mint adds
      the whole amount; a burn of a non-negative balance removes the smaller
      of the balance and the amount burnt. */
  lemma AdjustAppliedAmount(t: seq<User>, p: Principal, username: Option<string>, amount: Option<int>)
    requires Adjust(t, p, username, amount).Ok?
    ensures var i := FindUser(t, username.value).value;
            var a := amount.value;
            var t2 := Adjust(t, p, username, amount).value;
            && Total(t2) == Total(t) - t[i].balance + t2[i].balance
            && (a > 0 && t[i].balance >= 0 ==> Total(t2) == Total(t) + a)
            && (a < 0 && t[i].balance >= 0 ==>
                  Total(t) - Total(t2) == if t[i].balance < -a then t[i].balance else -a)
  {
    var i := FindUser(t, username.value).value;
    var t2 := Adjust(t, p, username, amount).value;
    assert t2 == t[i := t2[i]];
    TotalUpdate(t, i, t2[i]);
  }

  /** Every request keeps the table valid; a rejected one changes nothing. */
  lemma HandlePreservesValid(t: seq<User>, req: Request)
    requires Valid(t)
    ensures Valid(Handle(t, req).0)
  {
    match req
    case SignupRequest(f, id) =>
      if Signup(t, f, id).Ok? { SignupPreservesValid(t, f, id); }
    case LoginRequest(_, _) =>
    case MeRequest(_) =>
    case SendRequest(p, to, a) =>
      if Send(t, p, to, a).Ok? { SendPreservesValid(t, p, to, a); }
    case AdjustRequest(p, u, a) =>
      if Adjust(t, p, u, a).Ok? { AdjustPreservesValid(t, p, u, a); }
  }

  lemma {:induction false} RunPreservesValid(t: seq<User>, reqs: seq<Request>)
    requires Valid(t)
    ensures Valid(Run(t, reqs))
    decreases |reqs|
  {
    if |reqs| > 0 {
      HandlePreservesValid(t, reqs[0]);
      RunPreservesValid(Handle(t, reqs[0]).0, reqs[1..]);
    }
  }

  /** Every table the server can reach from its start has unique usernames
      and no negative balance. */
  lemma ReachableTablesValid(reqs: seq<Request>)
    ensures Valid(Run(InitialUsers, reqs))
  {
    InitialUsersValid();
    RunPreservesValid(InitialUsers, reqs);
  }

  /** Only an administrator's adjustment changes the money supply. */
  lemma HandleConservesUnlessAdmin(t: seq<User>, req: Request)
    requires !(req.AdjustRequest? && req.caller.role == AdminRole)
    ensures Total(Handle(t, req).0) == Total(t)
  {
    match req
    case SignupRequest(f, id) =>
      if Signup(t, f, id).Ok? {
        var t2 := Signup(t, f, id).value;
        assert t2 == t + [t2[|t|]];
        TotalAppend(t, t2[|t|]);
      }
    case LoginRequest(_, _) =>
    case MeRequest(_) =>
    case SendRequest(p, to, a) =>
      if Send(t, p, to, a).Ok? { SendConservesTotal(t, p, to, a); }
    case AdjustRequest(p, u, a) =>
  }

  /** Without administrators' adjustments, any sequence of requests leaves
      the money supply where it was. */
  lemma {:induction false} RunConservesUnlessAdmin(t: seq<User>, reqs: seq<Request>)
    requires forall k :: 0 <= k < |reqs| ==> !(reqs[k].AdjustRequest? && reqs[k].caller.role == AdminRole)
    ensures Total(Run(t, reqs)) == Total(t)
    decreases |reqs|
  {
    if |reqs| > 0 {
      HandleConservesUnlessAdmin(t, reqs[0]);
      RunConservesUnlessAdmin(Handle(t, reqs[0]).0, reqs[1..]);
    }
  }
}
