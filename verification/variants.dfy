/** Where the two servers agree and where they part. A record of the
    in-memory table is stored as the same record with its balance present;
    on such lists the file-backed handlers are compared with the in-memory
    ones.
 */
module Variants {
  import opened Basics
  import M = MemoryLedger
  import F = FileLedger

  function Stored(u: M.User): F.StoredUser
  {
    F.StoredUser(u.id, u.username, u.password, u.fullName, u.email, F.Num(u.balance), u.role)
  }

  function StoreAll(t: seq<M.User>): (s: seq<F.StoredUser>)
    ensures |s| == |t|
    ensures forall k :: 0 <= k < |t| ==> s[k] == Stored(t[k])
  {
    seq(|t|, k requires 0 <= k < |t| => Stored(t[k]))
  }

  /** Both servers find the same record for a username. */
  lemma FindAgrees(t: seq<M.User>, name: string)
    ensures F.Find(StoreAll(t), Some(name)) == M.FindUser(t, name)
  {
  }

  /** For a positive amount and a non-empty recipient, the file-backed
      transfer from the caller's own account does exactly what the in-memory
      one does: the same error, or the same new balances. */
  lemma SendVariantsAgree(t: seq<M.User>, p: M.Principal, to: Option<string>, a: int)
    requires a > 0 && Truthy(to)
    ensures var m := M.Send(t, p, to, Some(a));
            var f := F.Send(StoreAll(t), Some(p.username), to, a);
            && (m.Ok? <==> f.Ok?)
            && (m.Err? ==> f == Err(m.error))
            && (m.Ok? ==> f.value == StoreAll(m.value))
  {
    FindAgrees(t, p.username);
    FindAgrees(t, to.value);
    var m := M.Send(t, p, to, Some(a));
    var f := F.Send(StoreAll(t), Some(p.username), to, a);
    if m.Ok? {
      var i := M.FindUser(t, p.username).value;
      var j := M.FindUser(t, to.value).value;
      MovedStored(t, m.value, f.value, i, j, a);
    }
  }

  /** The two descriptions of a transfer coincide on stored tables. */
  lemma MovedStored(t: seq<M.User>, t2: seq<M.User>, u2: seq<F.StoredUser>, i: nat, j: nat, a: int)
    requires M.Moved(t, t2, i, j, a) && F.FileMoved(StoreAll(t), u2, i, j, a)
    ensures u2 == StoreAll(t2)
  {
  }

  /** A transfer of zero or less is refused by the in-memory server but
      accepted by the file-backed one whenever both users exist. */
  lemma SendVariantsDiverge(t: seq<M.User>, p: M.Principal, to: Option<string>, a: int)
    requires a <= 0 && Truthy(to)
    requires M.NonNegative(t) && M.Registered(t, p.username) && M.Registered(t, to.value)
    ensures M.Send(t, p, to, Some(a)) == Err(InvalidParameters)
    ensures F.Send(StoreAll(t), Some(p.username), to, a).Ok?
  {
  }

  /** When the in-memory floor at zero does not bite, an administrator's
      adjustment and the file-backed one agree. */
  lemma AdjustVariantsAgree(t: seq<M.User>, p: M.Principal, username: Option<string>, a: int)
    requires p.role == M.AdminRole && a != 0 && Truthy(username)
    requires M.Registered(t, username.value) ==> t[M.FindUser(t, username.value).value].balance + a >= 0
    ensures var m := M.Adjust(t, p, username, Some(a));
            var f := F.Adjust(StoreAll(t), username, a);
            && (m.Ok? <==> f.Ok?)
            && (m.Err? ==> f == Err(m.error))
            && (m.Ok? ==> f.value == StoreAll(m.value))
  {
  }

  /** A burn past zero: the in-memory server leaves the balance at zero, the
      file-backed one writes the negative sum. */
  lemma AdjustVariantsDiverge(t: seq<M.User>, p: M.Principal, username: Option<string>, a: int)
    requires p.role == M.AdminRole && a != 0 && Truthy(username) && M.Registered(t, username.value)
    requires t[M.FindUser(t, username.value).value].balance + a < 0
    ensures var i := M.FindUser(t, username.value).value;
            && M.Adjust(t, p, username, Some(a)).value[i].balance == 0
            && F.Adjust(StoreAll(t), username, a).value[i].balance == F.Num(t[i].balance + a)
            && t[i].balance + a < 0
  {
    FindAgrees(t, username.value);
  }

  /** The in-memory server's guards on an adjustment have no counterpart in
      the file-backed one: a non-administrator or a zero amount is refused by
      the first and accepted by the second, where a zero amount leaves a list
      with recorded balances exactly as it was. */
  lemma AdjustGuardsOnlyInMemory(t: seq<M.User>, p: M.Principal, username: Option<string>, a: int)
    requires Truthy(username) && M.Registered(t, username.value)
    requires p.role != M.AdminRole || a == 0
    ensures M.Adjust(t, p, username, Some(a)).Err?
    ensures F.Adjust(StoreAll(t), username, a).Ok?
    ensures a == 0 ==> F.Adjust(StoreAll(t), username, a).value == StoreAll(t)
  {
  }
}
