/** The file-backed ledger of node.js. Each request reads the whole user list
    from disk, changes it and writes it all back; here the parsed list is the
    input and the returned list is what gets written. This variant has no
    principal, no role gate, no sign or zero check on the amount and no
    clamping, and a record may lack a balance.

    A stored balance is a number, `null`, or absent (`undefined`). The
    handlers read `null` and `undefined` alike through `balance || 0`, but
    `balance -= a` tells them apart: `null` counts as 0 and gives `-a`, while
    `undefined` gives `NaN`, which the file then holds as `null`.
 */
module FileLedger {
  import opened Basics

  /** A stored balance: a number, JSON `null`, or no `balance` key at all. */
  datatype Balance = Num(n: int) | Null | Undefined

  /** One record of the stored list. Only `username` and `balance` are read;
      the other fields are carried through unchanged. */
  datatype StoredUser = StoredUser(
    id: string,
    username: string,
    password: string,
    fullName: string,
    email: string,
    balance: Balance,
    role: string)

  /** `balance || 0`: `null` and a missing balance read as zero. */
  function Or0(b: Balance): int
  {
    if b.Num? then b.n else 0
  }

  /** `balance -= a`, as written back to the file: `null` is 0 in arithmetic,
      and `undefined - a` is `NaN`, which is saved as `null`. */
  function Debit(b: Balance, a: int): Balance
  {
    match b
    case Num(v) => Num(v - a)
    case Null => Num(-a)
    case Undefined => Null
  }

  /** The usernames of the stored list; the in-memory table has its own
      `MemoryLedger.Names`, as its records are of another type. */
  function StoredNames(users: seq<StoredUser>): (ns: seq<string>)
    ensures |ns| == |users|
    ensures forall k :: 0 <= k < |users| ==> ns[k] == users[k].username
  {
    seq(|users|, k requires 0 <= k < |users| => users[k].username)
  }

  function ReadBalances(users: seq<StoredUser>): (bs: seq<int>)
    ensures |bs| == |users|
    ensures forall k :: 0 <= k < |users| ==> bs[k] == Or0(users[k].balance)
  {
    seq(|users|, k requires 0 <= k < |users| => Or0(users[k].balance))
  }

  /** The supply as the handlers read it, missing balances counting zero. */
  function FileTotal(users: seq<StoredUser>): int
  {
    Sum(ReadBalances(users))
  }

  /** Some record carries the requested username. Every record has a
      username, so a missing one in the request matches nothing. */
  predicate Present(users: seq<StoredUser>, name: Option<string>)
  {
    name.Some? && exists k :: 0 <= k < |users| && users[k].username == name.value
  }

  /** `users.find(u => u.username === name)`, as a position. */
  function Find(users: seq<StoredUser>, name: Option<string>): (r: Option<nat>)
    ensures r.Some? ==> name.Some? && r.value < |users| && users[r.value].username == name.value
    ensures r.Some? ==> forall k :: 0 <= k < r.value ==> users[k].username != name.value
    ensures r.None? <==> !Present(users, name)
  {
    match name
    case None => None
    case Some(n) =>
      var r := FirstIndex(StoredNames(users), n);
      assert r.None? ==> forall k :: 0 <= k < |users| ==> StoredNames(users)[k] != n;
      r
  }

  /** `u2` is `u` with `a` added to record `i`'s balance read as `|| 0`, and
      nothing else changed: there is no floor, so the result may be negative. */
  predicate Credited(u: seq<StoredUser>, u2: seq<StoredUser>, i: nat, a: int)
  {
    && i < |u| && |u2| == |u|
    && (forall k :: 0 <= k < |u| && k != i ==> u2[k] == u[k])
    && u2[i] == u[i].(balance := u2[i].balance)
    && u2[i].balance.Num?
    && u2[i].balance.n - Or0(u[i].balance) == a
  }

  /** `u2` is `u` after the sender `i` was debited `a` and the recipient `j`
      then credited `a`, the second step reading the first step's result.
      When both are one record, a number is kept, `null` ends at 0 (`-a`
      read back and `a` added), and a missing balance ends at `a` (`NaN`
      read as 0). */
  predicate FileMoved(u: seq<StoredUser>, u2: seq<StoredUser>, i: nat, j: nat, a: int)
  {
    && i < |u| && j < |u| && |u2| == |u|
    && (forall k :: 0 <= k < |u| && k != i && k != j ==> u2[k] == u[k])
    && (i != j ==> (u2[i] == u[i].(balance := Debit(u[i].balance, a))
                 && u2[j] == u[j].(balance := Num(Or0(u[j].balance) + a))))
    && (i == j ==> u2[i] == u[i].(balance := Num(match u[i].balance
                                                  case Num(b) => b
                                                  case Null => 0
                                                  case Undefined => a)))
  }

  /** `/api/admin/adjust` of the file-backed server. */
  function Adjust(users: seq<StoredUser>, username: Option<string>, amount: int): (r: Result<seq<StoredUser>>)
    ensures r.Err? <==> !Present(users, username)
    ensures r.Err? ==> r.error == UserNotFound
    ensures r.Ok? ==> Present(users, username) && Credited(users, r.value, Find(users, username).value, amount)
  {
    match Find(users, username)
    case None => Err(UserNotFound)
    case Some(i) =>
      Ok(users[i := users[i].(balance := Num(Or0(users[i].balance) + amount))])
  }

  /** `/api/send` of the file-backed server. Sender and recipient come from
      the request body, and the amount's sign is not checked. */
  function Send(users: seq<StoredUser>, from: Option<string>, to: Option<string>, amount: int): (r: Result<seq<StoredUser>>)
    ensures !(Present(users, from) && Present(users, to)) ==> r == Err(UserNotFound)
    ensures Present(users, from) && Present(users, to) ==>
              (r.Ok? <==> amount <= Or0(users[Find(users, from).value].balance))
    ensures Present(users, from) && Present(users, to) && Or0(users[Find(users, from).value].balance) < amount ==>
              r == Err(InsufficientBalance)
    ensures r.Err? ==> r.error in {UserNotFound, InsufficientBalance}
    ensures r.Ok? ==>
              && Present(users, from) && Present(users, to)
              && FileMoved(users, r.value, Find(users, from).value, Find(users, to).value, amount)
  {
    var fromIndex := Find(users, from);
    var toIndex := Find(users, to);
    if fromIndex.None? || toIndex.None? then Err(UserNotFound)
    else
      var i := fromIndex.value;
      var j := toIndex.value;
      if Or0(users[i].balance) < amount then Err(InsufficientBalance)
      else
        var debited := users[i := users[i].(balance := Debit(users[i].balance, amount))];
        Ok(debited[j := debited[j].(balance := Num(Or0(debited[j].balance) + amount))])
  }

  // ---------------------------------------------------------------------
  // Properties
  // ---------------------------------------------------------------------

  lemma FileTotalUpdate(u: seq<StoredUser>, i: nat, x: StoredUser)
    requires i < |u|
    ensures FileTotal(u[i := x]) == FileTotal(u) - Or0(u[i].balance) + Or0(x.balance)
  {
    assert ReadBalances(u[i := x]) == ReadBalances(u)[i := Or0(x.balance)];
    SumUpdate(ReadBalances(u), i, Or0(x.balance));
  }

  /** Neither handler changes the usernames. */
  lemma FileOpsKeepNames(users: seq<StoredUser>, from: Option<string>, to: Option<string>, amount: int)
    ensures Adjust(users, to, amount).Ok? ==> StoredNames(Adjust(users, to, amount).value) == StoredNames(users)
    ensures Send(users, from, to, amount).Ok? ==> StoredNames(Send(users, from, to, amount).value) == StoredNames(users)
  {
  }

  /** An adjustment moves the supply by exactly the requested amount. */
  lemma AdjustMovesTotal(users: seq<StoredUser>, username: Option<string>, amount: int)
    requires Adjust(users, username, amount).Ok?
    ensures FileTotal(Adjust(users, username, amount).value) == FileTotal(users) + amount
  {
    var u2 := Adjust(users, username, amount).value;
    var i := Find(users, username).value;
    assert u2 == users[i := u2[i]];
    FileTotalUpdate(users, i, u2[i]);
  }

  /** Unless the sender's record has no `balance` key, a transfer conserves
      the supply; a `null` sender balance is debited from zero. */
  lemma SendConservesTotal(users: seq<StoredUser>, from: Option<string>, to: Option<string>, amount: int)
    requires Send(users, from, to, amount).Ok?
    requires !users[Find(users, from).value].balance.Undefined?
    ensures FileTotal(Send(users, from, to, amount).value) == FileTotal(users)
  {
    var u2 := Send(users, from, to, amount).value;
    var i := Find(users, from).value;
    var j := Find(users, to).value;
    if i == j {
      assert u2 == users[i := u2[i]];
      FileTotalUpdate(users, i, u2[i]);
    } else {
      var d := users[i := u2[i]];
      assert u2 == d[j := u2[j]];
      FileTotalUpdate(users, i, u2[i]);
      FileTotalUpdate(d, j, u2[j]);
    }
  }

  /** A `null` sender balance is debited from zero: the sender is saved as
      `-amount` and the recipient gains `amount`, so the supply is unchanged. */
  lemma SendFromNullBalance(users: seq<StoredUser>, from: Option<string>, to: Option<string>, amount: int)
    requires Send(users, from, to, amount).Ok?
    requires users[Find(users, from).value].balance.Null?
    requires Find(users, from) != Find(users, to)
    ensures amount <= 0
    ensures Send(users, from, to, amount).value[Find(users, from).value].balance == Num(-amount)
    ensures FileTotal(Send(users, from, to, amount).value) == FileTotal(users)
  {
    SendConservesTotal(users, from, to, amount);
  }

  /** A sender without a `balance` key passes the funds check only for an
      amount of at most zero; its balance is saved as `null` (still read as
      0) while the recipient is still credited, so between two distinct
      records the supply moves by `amount`. */
  lemma SendFromMissingBalance(users: seq<StoredUser>, from: Option<string>, to: Option<string>, amount: int)
    requires Send(users, from, to, amount).Ok?
    requires users[Find(users, from).value].balance.Undefined?
    requires Find(users, from) != Find(users, to)
    ensures amount <= 0
    ensures Send(users, from, to, amount).value[Find(users, from).value].balance.Null?
    ensures FileTotal(Send(users, from, to, amount).value) == FileTotal(users) + amount
  {
    var u2 := Send(users, from, to, amount).value;
    var i := Find(users, from).value;
    var j := Find(users, to).value;
    var d := users[i := u2[i]];
    assert u2 == d[j := u2[j]];
    FileTotalUpdate(users, i, u2[i]);
    FileTotalUpdate(d, j, u2[j]);
  }

  /** A negative amount is accepted whenever the sender's balance reads as
      non-negative, and then moves value from the recipient to the sender:
      the recipient ends below zero when its balance was under |amount|. */
  lemma SendNegativeAmountDrainsRecipient(users: seq<StoredUser>, from: Option<string>, to: Option<string>, amount: int)
    requires Present(users, from) && Present(users, to)
    requires Find(users, from) != Find(users, to)
    requires amount < 0 && Or0(users[Find(users, from).value].balance) >= 0
    ensures Send(users, from, to, amount).Ok?
    ensures var j := Find(users, to).value;
            var u2 := Send(users, from, to, amount).value;
            && u2[j].balance == Num(Or0(users[j].balance) + amount)
            && u2[j].balance.n < Or0(users[j].balance)
            && (Or0(users[j].balance) < -amount ==> u2[j].balance.n < 0)
  {
  }
}
