/** The client-side capability registry, `ConnectionCapabilities`: one ordered
    dictionary, `connection`, rebuilt from the server's capability document by
    `SetCapabilities`, queried by the resolution, metadata and permission
    methods, and edited in place by `GetJsonContext` and `RemoveDb`.
    Each method is proved against the specification functions of the modules
    it imports. */
module Capabilities {
  import opened JsonValues
  import opened Flattener
  import opened Resolver
  import opened MetadataExtractor
  import opened PermissionGate

  const ContextKey := "@context"
  const ScmKey := "scm"
  const ScmIri := "http://my.old.man/is/a/walrus#"

  class ConnectionCapabilities {
    var connection: Fields

    /** A Python dict: no key twice. */
    ghost predicate Valid()
      reads this
    {
      DistinctKeys(connection)
    }

    constructor ()
      ensures Valid() && connection == []
    {
      connection := [];
    }

    /** `_action_to_array`: the `@id` of every action object, in order; `[]`
        when `actions` is not a list. */
    method ActionToArray(actions: Json) returns (actionList: seq<Json>)
      requires WellFormedActions(actions)
      ensures !actions.JList? ==> actionList == []
      ensures actions.JList? ==> |actionList| == |actions.items| &&
                                 forall k :: 0 <= k < |actionList| ==> actionList[k] == ActionId(actions.items[k])
      ensures actionList == ActionIds(actions)
    {
      if !actions.JList? {
        return [];
      }
      actionList := [];
      var i := 0;
      while i < |actions.items|
        invariant 0 <= i <= |actions.items|
        invariant |actionList| == i
        invariant forall k :: 0 <= k < i ==> actionList[k] == ActionId(actions.items[k])
      {
        actionList := actionList + [ActionId(actions.items[i])];
        i := i + 1;
      }
    }

    /** `set_capabilities`: discard the registry and rebuild it from `capabilities`.
        The result depends on the document alone, so a second call with the
        same document changes nothing and `None` leaves the registry empty. */
    method SetCapabilities(capabilities: Option<Fields>)
      requires WellFormedDoc(capabilities)
      modifies this
      ensures Valid()
      ensures connection == Flatten(capabilities)
    {
      connection := [];
      var preds: Fields := if capabilities.Some? then capabilities.value else [];
      var i := 0;
      while i < |preds|
        invariant 0 <= i <= |preds|
        invariant capabilities.Some? ==> FlattenFrom(connection, preds[i..]) == Flatten(capabilities)
        invariant capabilities.None? ==> connection == []
      {
        var pred := preds[i].0;
        GetAtIndex(preds, i);
        var value := Get(preds, pred).value;
        FlattenFromStep(connection, preds, i);
        if pred == AuthorityKey {
          var auths := if value.JList? then value.items else [value];
          GrantAuthorities(auths);
        } else {
          connection := Put(connection, pred, value);
        }
        i := i + 1;
      }
    }

    /** The `terminus:authority` branch of `set_capabilities` (lines 42-59):
        every grant of the entry, in order. */
    method GrantAuthorities(auths: seq<Json>)
      requires WellFormedGrants(auths)
      modifies this
      ensures connection == ApplyGrants(old(connection), auths)
    {
      ghost var before := connection;
      var j := 0;
      assert auths[j..] == auths;
      while j < |auths|
        invariant 0 <= j <= |auths|
        invariant ApplyGrants(connection, auths[j..]) == ApplyGrants(before, auths)
      {
        ApplyGrantsStep(connection, auths, j);
        ApplyGrant(auths[j]);
        j := j + 1;
      }
      assert auths[j..] == [];
    }

    /** One grant (lines 47-59): each scope record is stored under its `@id`
        unless one is there already, and the stored record's
        `terminus:authority` becomes the grant's action ids. */
    method ApplyGrant(item: Json)
      requires WellFormedGrant(item)
      modifies this
      ensures connection == ApplyScopes(old(connection), Scopes(item), GrantActions(item))
    {
      var access := Field(item, AccessKey).value;
      var scope := Field(access, ScopeKey).value;
      var actions := Field(access, ActionKey).value;
      var scopes := if scope.JList? then scope.items else [scope];
      var actionArr := ActionToArray(actions);
      assert scopes == Scopes(item) && actionArr == GrantActions(item);
      ghost var start := connection;
      var n := 0;
      assert scopes[n..] == scopes;
      while n < |scopes|
        invariant 0 <= n <= |scopes|
        invariant ApplyScopes(connection, scopes[n..], actionArr) == ApplyScopes(start, scopes, actionArr)
      {
        ApplyScopesStep(connection, scopes, actionArr, n);
        var nrec := scopes[n];
        var id := IdOf(nrec);
        ghost var prev := connection;
        if id !in Keys(connection) {
          connection := Put(connection, id, nrec);
        }
        var rec := Get(connection, id).value;
        connection := Put(connection, id, SetField(rec, AuthorityKey, JList(actionArr)));
        PutPut(prev, id, nrec, SetField(rec, AuthorityKey, JList(actionArr)));
        n := n + 1;
      }
      assert scopes[n..] == [];
    }

    /** `find_resource_document_id`: the first key, in registry order, whose
        record carries the resource name formed from (`dbid`, `account`). */
    method FindResourceDocumentId(dbid: string, account: Option<string>) returns (r: Option<string>)
      requires Valid()
      ensures r == ResourceDocumentId(connection, dbid, account)
    {
      var testrn := FormResourceName(dbid, account);
      var i := 0;
      while i < |connection|
        invariant 0 <= i <= |connection|
        invariant forall j :: 0 <= j < i ==> !Named(connection[j].1, testrn)
      {
        var pred := connection[i].0;
        GetAtIndex(connection, i);
        var rec := Get(connection, pred).value;
        if Named(rec, testrn) {
          ghost var k := FirstNamed(connection, testrn).value;
          assert !(k < i) && !(i < k);
          return Some(pred);
        }
        i := i + 1;
      }
      return None;
    }

    /** `get_json_context`: the stored `@context` object, with its `scm` entry
        set in the registry as well; an empty object when there is none. */
    method GetJsonContext() returns (ctxt: Json)
      requires Valid()
      requires ContextKey in Keys(connection) ==> Get(connection, ContextKey).value.JObj?
      modifies this
      ensures Valid()
      ensures ContextKey !in Keys(old(connection)) ==> ctxt == JObj([]) && connection == old(connection)
      ensures ContextKey in Keys(old(connection)) ==>
                ctxt == SetField(Get(old(connection), ContextKey).value, ScmKey, JStr(ScmIri)) &&
                connection == Put(old(connection), ContextKey, ctxt)
    {
      if ContextKey in Keys(connection) {
        ctxt := Get(connection, ContextKey).value;
        ctxt := SetField(ctxt, ScmKey, JStr(ScmIri));
        connection := Put(connection, ContextKey, ctxt);
      } else {
        ctxt := JObj([]);
      }
    }

    /** `capabilities_permit`: the permission decision; the registry is only read. */
    method CapabilitiesPermit(createDatabase: string, action: string,
                              dbid: Option<string>, account: Option<string>) returns (d: Decision)
      requires Valid()
      ensures d == Permission(connection, createDatabase, action, dbid, account)
    {
      var rec: Option<Json>;
      if action == createDatabase {
        rec := GetServerRecord();
      } else if dbid.Some? {
        rec := GetDbRecord(dbid.value, account);
      } else {
        return Refused(InvalidArguments);
      }
      if rec.Some? {
        var auths := Field(rec.value, AuthorityKey);
        var terminusActionName := ActionPrefix + action;
        if auths.Some? && auths.value.JList? && JStr(terminusActionName) in auths.value.items {
          return Permitted;
        }
      }
      return Refused(AccessDenied(action, dbid, account));
    }

    /** `_get_server_record`: the first record, in registry order, typed `terminus:Server`. */
    method GetServerRecord() returns (r: Option<Json>)
      ensures r == ServerRecord(connection)
    {
      var i := 0;
      while i < |connection|
        invariant 0 <= i <= |connection|
        invariant forall j :: 0 <= j < i ==> !IsServer(connection[j].1)
      {
        var obj := connection[i].1;
        if IsServer(obj) {
          ghost var k := FirstWhere(connection, IsServer).value;
          assert !(k < i) && !(i < k);
          return Some(obj);
        }
        i := i + 1;
      }
      return None;
    }

    /** `_get_db_record`: the record of the database (`dbid`, `account`), if the registry has one. */
    method GetDbRecord(dbid: string, account: Option<string>) returns (r: Option<Json>)
      requires Valid()
      ensures r == DbRecord(connection, dbid, account)
    {
      var docid := FindResourceDocumentId(dbid, account);
      if docid.Some? {
        return Get(connection, docid.value);
      }
      return None;
    }

    /** `_get_db_metadata`: the metadata of the database's record, if any; it
        gives back the database id and account it was asked for. */
    method GetDbMetadata(dbid: string, account: Option<string>) returns (m: Option<Metadata>)
      requires Valid()
      ensures m.None? <==> DbRecord(connection, dbid, account).None?
      ensures m.Some? ==> m.value == ExtractMetadata(DbRecord(connection, dbid, account).value)
      ensures m.Some? && Separator !in dbid && Separator !in Show(account) ==>
                m.value.db == dbid && m.value.account == (if dbid == ServerName then "" else Show(account))
    {
      var dbrec := GetDbRecord(dbid, account);
      if dbrec.Some? {
        if Separator !in dbid && Separator !in Show(account) {
          MetadataRoundTrip(dbrec.value, dbid, account);
        }
        return Some(ExtractMetadata(dbrec.value));
      }
      return None;
    }

    /** `remove_db`: delete the entry the pair resolves to; nothing when it resolves to none. */
    method RemoveDb(dbid: string, account: Option<string>)
      requires Valid()
      modifies this
      ensures Valid()
      ensures connection == Removed(old(connection), dbid, account)
    {
      var docid := FindResourceDocumentId(dbid, account);
      if docid.Some? {
        connection := Delete(connection, docid.value);
      }
    }
  }
}
