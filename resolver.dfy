/** Resolution of a (database id, account) pair to a registry key, the
    lookups of the server record and of a database record, and removal of a
    database's entry: the specification functions behind
    `find_resource_document_id`, `_get_server_record`, `_get_db_record` and
    `remove_db`. */
module Resolver {
  import opened JsonValues

  const ServerName := "terminus"
  const ResourceNameKey := "terminus:resource_name"
  const ValueKey := "@value"
  const TypeKey := "@type"
  const ServerType := "terminus:Server"
  const DocPrefix := "doc:"

  /** How Python formats an optional string in an f-string: `None` prints as "None". */
  function Show(s: Option<string>): string
  {
    match s
    case Some(v) => v
    case None => "None"
  }

  /** `_form_resource_name`: the server's own name, or "account|dbid". */
  function FormResourceName(dbid: string, account: Option<string>): (r: string)
    ensures r == ServerName <==> dbid == ServerName
    ensures dbid != ServerName ==> |r| > |Show(account)| && r[|Show(account)|] == '|'
  {
    if dbid == ServerName then ServerName
    else
      var r := Show(account) + "|" + dbid;
      assert r[|Show(account)|] == '|';
      assert '|' !in ServerName;
      r
  }

  /** `_db_capability_id`: the registry id of a database's capability record. */
  function DbCapabilityId(dbid: string): (r: string)
    ensures |r| == |DocPrefix| + |dbid|
    ensures r[..|DocPrefix|] == DocPrefix && r[|DocPrefix|..] == dbid
  {
    DocPrefix + dbid
  }

  /** Distinct databases get distinct capability ids. */
  lemma DbCapabilityIdInjective(a: string, b: string)
    ensures DbCapabilityId(a) == DbCapabilityId(b) <==> a == b
  {
    if DbCapabilityId(a) == DbCapabilityId(b) {
      assert a == DbCapabilityId(a)[|DocPrefix|..];
    }
  }

  /** `rec['terminus:resource_name']['@value']` when both levels are present. */
  function NameOf(rec: Json): Option<Json>
  {
    match Field(rec, ResourceNameKey)
    case None => None
    case Some(rn) => Field(rn, ValueKey)
  }

  predicate Named(rec: Json, name: string)
  {
    NameOf(rec) == Some(JStr(name))
  }

  /** `isinstance(obj, dict) and obj.get("@type") == 'terminus:Server'`. */
  predicate IsServer(rec: Json)
  {
    rec.JObj? && Field(rec, TypeKey) == Some(JStr(ServerType))
  }

  /** Position of the first entry, in registry order, whose record satisfies `p`:
      the scan that `find_resource_document_id` and `_get_server_record` share. */
  function FirstWhere(reg: Fields, p: Json -> bool): (r: Option<nat>)
    ensures r.None? <==> forall i :: 0 <= i < |reg| ==> !p(reg[i].1)
    ensures r.Some? ==> r.value < |reg| && p(reg[r.value].1)
    ensures r.Some? ==> forall j :: 0 <= j < r.value ==> !p(reg[j].1)
  {
    if |reg| == 0 then None
    else if p(reg[0].1) then Some(0)
    else
      var rest := FirstWhere(reg[1..], p);
      assert forall i :: 0 < i < |reg| ==> reg[i] == reg[1..][i - 1];
      if rest.None? then None else Some(rest.value + 1)
  }

  function FirstNamed(reg: Fields, name: string): Option<nat>
  {
    FirstWhere(reg, rec => Named(rec, name))
  }

  /** An index with the name and no earlier one bearing it is the first match. */
  lemma FirstNamedAt(reg: Fields, name: string, i: nat)
    requires i < |reg| && Named(reg[i].1, name)
    requires forall j :: 0 <= j < i ==> !Named(reg[j].1, name)
    ensures FirstNamed(reg, name) == Some(i)
  {
    var k := FirstNamed(reg, name).value;
    assert !(i < k) && !(k < i);
  }

  /** The registry key of the first record whose resource name is the one
      formed from (`dbid`, `account`); `None` when no record has it. */
  function ResourceDocumentId(reg: Fields, dbid: string, account: Option<string>): (r: Option<string>)
    ensures r.None? <==> forall i :: 0 <= i < |reg| ==> !Named(reg[i].1, FormResourceName(dbid, account))
    ensures r.Some? ==> r.value in Keys(reg)
    ensures r.Some? ==> exists i :: 0 <= i < |reg| && reg[i].0 == r.value &&
                                    Named(reg[i].1, FormResourceName(dbid, account)) &&
                                    forall j :: 0 <= j < i ==> !Named(reg[j].1, FormResourceName(dbid, account))
  {
    match FirstNamed(reg, FormResourceName(dbid, account))
    case None => None
    case Some(i) => Some(reg[i].0)
  }

  /** The first server record in registry order, if any. */
  function ServerRecord(reg: Fields): (r: Option<Json>)
    ensures r.None? <==> forall i :: 0 <= i < |reg| ==> !IsServer(reg[i].1)
    ensures r.Some? ==> IsServer(r.value)
    ensures r.Some? ==> exists i :: 0 <= i < |reg| && reg[i].1 == r.value &&
                                    forall j :: 0 <= j < i ==> !IsServer(reg[j].1)
  {
    match FirstWhere(reg, IsServer)
    case None => None
    case Some(i) => Some(reg[i].1)
  }

  /** `_get_db_record`: the record stored under the resolved key. */
  function DbRecord(reg: Fields, dbid: string, account: Option<string>): (r: Option<Json>)
    requires DistinctKeys(reg)
    ensures r.None? <==> forall i :: 0 <= i < |reg| ==> !Named(reg[i].1, FormResourceName(dbid, account))
    ensures r.Some? ==> Named(r.value, FormResourceName(dbid, account))
    ensures r.Some? ==> var first := FirstNamed(reg, FormResourceName(dbid, account));
                        first.Some? && first.value < |reg| && r.value == reg[first.value].1
  {
    match ResourceDocumentId(reg, dbid, account)
    case None => None
    case Some(k) =>
      var i := FirstNamed(reg, FormResourceName(dbid, account)).value;
      GetAtIndex(reg, i);
      Get(reg, k)
  }

  /** `remove_db`: the registry without the resolved entry, or unchanged when nothing resolves. */
  function Removed(reg: Fields, dbid: string, account: Option<string>): (r: Fields)
    ensures var id := ResourceDocumentId(reg, dbid, account);
            (id.None? ==> r == reg) &&
            (id.Some? ==> Keys(r) == Keys(reg) - {id.value} &&
                          forall k :: k != id.value ==> Get(r, k) == Get(reg, k))
    ensures DistinctKeys(reg) ==> DistinctKeys(r)
  {
    match ResourceDocumentId(reg, dbid, account)
    case None => reg
    case Some(k) => Delete(reg, k)
  }

  /** With distinct keys, removal cuts out the first record bearing the name
      and keeps the entries before and after it in their order, so later
      first-match scans see the same registry minus that one entry. */
  lemma RemovedKeepsOrder(reg: Fields, dbid: string, account: Option<string>)
    requires DistinctKeys(reg)
    requires ResourceDocumentId(reg, dbid, account).Some?
    ensures FirstNamed(reg, FormResourceName(dbid, account)).Some?
    ensures var i := FirstNamed(reg, FormResourceName(dbid, account)).value;
            i < |reg| && Removed(reg, dbid, account) == reg[..i] + reg[i + 1..]
  {
    var i := FirstNamed(reg, FormResourceName(dbid, account)).value;
    assert ResourceDocumentId(reg, dbid, account) == Some(reg[i].0);
    DeleteAt(reg, i);
  }

  /** At most one record carries resource name `name`. */
  predicate UniquelyNamed(reg: Fields, name: string)
  {
    forall i, j :: 0 <= i < |reg| && 0 <= j < |reg| && Named(reg[i].1, name) && Named(reg[j].1, name) ==> i == j
  }

  /** When resource names are unique, the pair no longer resolves after removal. */
  lemma RemovedThenAbsent(reg: Fields, dbid: string, account: Option<string>)
    requires UniquelyNamed(reg, FormResourceName(dbid, account))
    ensures ResourceDocumentId(Removed(reg, dbid, account), dbid, account).None?
  {
    var name := FormResourceName(dbid, account);
    var r := Removed(reg, dbid, account);
    match FirstNamed(reg, name)
    case None =>
    case Some(i0) =>
      forall i | 0 <= i < |r| ensures !Named(r[i].1, name) {
        assert r[i] in r;
        var j :| 0 <= j < |reg| && reg[j] == r[i];
        assert r[i].0 != reg[i0].0;
        assert j != i0;
      }
  }

  /** When resource names are unique, removing twice is removing once. */
  lemma RemovedTwice(reg: Fields, dbid: string, account: Option<string>)
    requires UniquelyNamed(reg, FormResourceName(dbid, account))
    ensures Removed(Removed(reg, dbid, account), dbid, account) == Removed(reg, dbid, account)
  {
    RemovedThenAbsent(reg, dbid, account);
  }

  /** `remove_db` as written: `del self.connection['docid']` removes the
      entry keyed by the literal string "docid", whatever key was resolved,
      and raises `KeyError` (`None` here) when there is no such entry. */
  function RemovedAsWritten(reg: Fields, dbid: string, account: Option<string>): (r: Option<Fields>)
    ensures r.None? <==> ResourceDocumentId(reg, dbid, account).Some? && "docid" !in Keys(reg)
    ensures ResourceDocumentId(reg, dbid, account).None? ==> r == Some(reg)
    ensures ResourceDocumentId(reg, dbid, account).Some? && r.Some? ==> Keys(r.value) == Keys(reg) - {"docid"}
  {
    match ResourceDocumentId(reg, dbid, account)
    case None => Some(reg)
    case Some(_) => if "docid" in Keys(reg) then Some(Delete(reg, "docid")) else None
  }

  /** As written, removing a database whose entry is keyed anything but
      "docid" either raises or leaves the database resolvable. */
  lemma RemovedAsWrittenKeepsDb(reg: Fields, dbid: string, account: Option<string>)
    requires ResourceDocumentId(reg, dbid, account).Some?
    requires ResourceDocumentId(reg, dbid, account).value != "docid"
    ensures var r := RemovedAsWritten(reg, dbid, account);
            r.None? || ResourceDocumentId(r.value, dbid, account).Some?
  {
    var name := FormResourceName(dbid, account);
    var i := FirstNamed(reg, name).value;
    var r := RemovedAsWritten(reg, dbid, account);
    if r.Some? {
      assert reg[i] in r.value;
      var j :| 0 <= j < |r.value| && r.value[j] == reg[i];
      assert Named(r.value[j].1, name);
    }
  }
}
