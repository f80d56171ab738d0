/** `capabilities_permit`: the local permission check made before every
    privileged request. It either permits or refuses; a refusal carries the
    error the source raises. Denial is the default: anything short of a
    resolved record that lists the action is refused. */
module PermissionGate {
  import opened JsonValues
  import opened Flattener
  import opened Resolver

  const ActionPrefix := "terminus:"

  /** The two exceptions the source raises. */
  datatype PermitError =
    | AccessDenied(action: string, dbid: Option<string>, account: Option<string>)
    | InvalidArguments

  datatype Decision = Permitted | Refused(error: PermitError)

  /** The record lists `actionName` in its `terminus:authority` list. */
  predicate Authorizes(rec: Json, actionName: string)
  {
    match Field(rec, AuthorityKey)
    case Some(JList(auths)) => JStr(actionName) in auths
    case _ => false
  }

  /** Lines 92-98: permit when a record was found that authorizes the action. */
  function Decide(rec: Option<Json>, action: string, dbid: Option<string>, account: Option<string>): Decision
  {
    if rec.Some? && Authorizes(rec.value, ActionPrefix + action) then Permitted
    else Refused(AccessDenied(action, dbid, account))
  }

  /** The decision `capabilities_permit` reaches on registry `reg`;
      `createDatabase` is the client's CREATE_DATABASE action name. */
  function Permission(reg: Fields, createDatabase: string, action: string,
                      dbid: Option<string>, account: Option<string>): (d: Decision)
    requires DistinctKeys(reg)
    ensures d == Refused(InvalidArguments) <==> action != createDatabase && dbid.None?
    ensures d.Refused? && d.error.AccessDenied? ==> d.error == AccessDenied(action, dbid, account)
  {
    if action == createDatabase then Decide(ServerRecord(reg), action, dbid, account)
    else if dbid.Some? then Decide(DbRecord(reg, dbid.value, account), action, dbid, account)
    else Refused(InvalidArguments)
  }

  /** Creating a database is permitted exactly when the first server record
      in the registry lists the action. */
  lemma CreatePermittedIff(reg: Fields, createDatabase: string, dbid: Option<string>, account: Option<string>)
    requires DistinctKeys(reg)
    ensures Permission(reg, createDatabase, createDatabase, dbid, account) == Permitted <==>
            exists i :: 0 <= i < |reg| && IsServer(reg[i].1) &&
                        (forall j :: 0 <= j < i ==> !IsServer(reg[j].1)) &&
                        Authorizes(reg[i].1, ActionPrefix + createDatabase)
  {
    var name := ActionPrefix + createDatabase;
    match FirstWhere(reg, IsServer)
    case None =>
    case Some(k) =>
      forall i | 0 <= i < |reg| && IsServer(reg[i].1) && (forall j :: 0 <= j < i ==> !IsServer(reg[j].1))
        ensures i == k
      {
        assert !(i < k) && !(k < i);
      }
  }

  /** Any other action on a named database is permitted exactly when the first
      record carrying that database's resource name lists it. */
  lemma DbPermittedIff(reg: Fields, createDatabase: string, action: string, dbid: string, account: Option<string>)
    requires DistinctKeys(reg)
    requires action != createDatabase
    ensures Permission(reg, createDatabase, action, Some(dbid), account) == Permitted <==>
            var name := FormResourceName(dbid, account);
            exists i :: 0 <= i < |reg| && Named(reg[i].1, name) &&
                        (forall j :: 0 <= j < i ==> !Named(reg[j].1, name)) &&
                        Authorizes(reg[i].1, ActionPrefix + action)
  {
    var name := FormResourceName(dbid, account);
    var rec := DbRecord(reg, dbid, account);
    assert Permission(reg, createDatabase, action, Some(dbid), account) == Decide(rec, action, Some(dbid), account);
    if rec.Some? {
      var k := FirstNamed(reg, name).value;
      forall i | 0 <= i < |reg| && Named(reg[i].1, name) && (forall j :: 0 <= j < i ==> !Named(reg[j].1, name))
        ensures i == k
      {
        FirstNamedAt(reg, name, i);
      }
      assert Named(reg[k].1, name) && forall j :: 0 <= j < k ==> !Named(reg[j].1, name);
    }
  }

  /** Fail closed: a permit always rests on a record in the registry that lists the action. */
  lemma PermittedHasGrant(reg: Fields, createDatabase: string, action: string,
                          dbid: Option<string>, account: Option<string>)
    requires DistinctKeys(reg)
    requires Permission(reg, createDatabase, action, dbid, account) == Permitted
    ensures exists i :: 0 <= i < |reg| && Authorizes(reg[i].1, ActionPrefix + action)
  {
    if action == createDatabase {
      CreatePermittedIff(reg, createDatabase, dbid, account);
    } else {
      DbPermittedIff(reg, createDatabase, action, dbid.value, account);
    }
  }
}
