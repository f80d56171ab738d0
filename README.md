# Connection capabilities registry

This project models the connection capabilities registry of the TerminusDB
Python client (`woqlclient/connectionCapabilities.py`). After `connect`, the
server returns a capabilities document. `set_capabilities` flattens that
document into a per-client registry. The registry maps each resource
document id (the server record, each database record, `@context`, ...) to
its JSON record. The record of every resource named in an authority grant
carries that grant's action ids under `terminus:authority`. The remaining
operations read this registry:

- finding the entry for a `(dbid, account)` pair by its `terminus:resource_name`;
- fetching the server or database record;
- extracting database metadata from a record;
- deciding whether an action is permitted;
- returning the JSON-LD context;
- removing a database entry.

The Dafny modules follow the structure of the class:

- `JsonValues` (`json.dfy`) holds JSON values and Python dictionaries.
  A dictionary is an insertion-ordered association list with `Get`, `Put`
  (overwrite in place or append) and `Delete`.
- `Flattener` (`flattener.dfy`) is the specification of `set_capabilities`.
  `Flatten` is the registry the loop builds. Lemmas characterise that
  registry key by key.
- `Resolver` (`resolver.dfy`) covers resource names and the lookups by
  resource name or by server type. It also specifies removal.
- `MetadataExtractor` (`metadata.dfy`) covers `_extract_metadata`,
  including splitting `account|dbid` on `|`.
- `PermissionGate` (`permission.dfy`) covers `capabilities_permit`.
- `Capabilities` (`registry.dfy`) holds the class `ConnectionCapabilities`.
  It has a mutable `connection` field. Its methods loop and update the
  field as the Python methods do. Each method is proved against the
  specification functions above.

The model follows the evidently intended code where the source crashes or
refers to undefined names. Each such place is listed under "## Left out".
One defect, at line 162, would remain even with those crashes fixed. It is
listed under "## Findings".

## Model

| member | source | states |
|---|---|---|
| JsonValues.PutPosition | woqlclient/connectionCapabilities.py:57-59 | assigning a new key appends it; assigning an existing key keeps its position and every other entry's |
| JsonValues.DeleteAt | woqlclient/connectionCapabilities.py:162 | with distinct keys, deleting a key removes exactly its entry and keeps the others in order |
| Capabilities.ConnectionCapabilities.constructor | woqlclient/connectionCapabilities.py:21-22 | a new registry is empty (and has distinct keys) |
| Capabilities.ConnectionCapabilities.ActionToArray | woqlclient/connectionCapabilities.py:24-31 | a non-list yields no actions; a list yields, in order and one for one, the `@id` of each action |
| Capabilities.ConnectionCapabilities.SetCapabilities | woqlclient/connectionCapabilities.py:33-61 | the registry is rebuilt from scratch and equals `Flatten` of the document, in which a single authority counts as a one-element list; keys stay distinct |
| Capabilities.ConnectionCapabilities.GrantAuthorities | woqlclient/connectionCapabilities.py:46-59 | the grants are applied in list order: the new registry is `ApplyGrants` of the old one |
| Capabilities.ConnectionCapabilities.ApplyGrant | woqlclient/connectionCapabilities.py:46-59 | each scope of one grant is added if absent, then has its authority set to the grant's action ids |
| Capabilities.ConnectionCapabilities.FindResourceDocumentId | woqlclient/connectionCapabilities.py:68-76 | returns the key of the first record in registry order whose resource name `@value` is the formed name, or nothing |
| Capabilities.ConnectionCapabilities.GetJsonContext | woqlclient/connectionCapabilities.py:78-83 | with no `@context` entry, returns `{}` and leaves the registry alone; otherwise stores and returns the context with `scm` set, other fields kept |
| Capabilities.ConnectionCapabilities.CapabilitiesPermit | woqlclient/connectionCapabilities.py:85-98 | the decision equals the `Permission` specification |
| Capabilities.ConnectionCapabilities.GetServerRecord | woqlclient/connectionCapabilities.py:100-109 | returns the first record, in registry order, typed `terminus:Server`, or nothing |
| Capabilities.ConnectionCapabilities.GetDbRecord | woqlclient/connectionCapabilities.py:111-119 | returns the record of the resolved entry, or nothing when the pair resolves to no entry |
| Capabilities.ConnectionCapabilities.GetDbMetadata | woqlclient/connectionCapabilities.py:145-148 | metadata exists iff a record resolves; it is that record's metadata; for names without `\|` it recovers the queried dbid and account |
| Capabilities.ConnectionCapabilities.RemoveDb | woqlclient/connectionCapabilities.py:153-162 | the registry afterwards is `Removed` of the registry before, and keeps distinct keys |
| Flattener.Flatten | woqlclient/connectionCapabilities.py:33-61 | no document gives an empty registry; keys are always distinct |
| Flattener.FlattenKeys | woqlclient/connectionCapabilities.py:40-61 | registry keys are the document keys other than `terminus:authority`, plus every scope id granted |
| Flattener.FlattenTopLevel | woqlclient/connectionCapabilities.py:60-61 | a document key that no grant scopes maps to the document's own value |
| Flattener.FlattenScopeRecord | woqlclient/connectionCapabilities.py:46-59 | a scope id not in the document maps to its first scope record; that record's authority is the action list of the last grant naming it; no other field changes |
| Flattener.ApplyGrantsAt | woqlclient/connectionCapabilities.py:46-59 | after a sequence of grants, each key's value equals the closed form `GrantedAt` |
| Flattener.ApplyScopesAt | woqlclient/connectionCapabilities.py:56-59 | after one grant's scopes, a scoped key holds its existing or first record, with the authority overwritten; other keys are unchanged |
| Flattener.ApplyScopes | woqlclient/connectionCapabilities.py:56-59 | keys grow by exactly the scope ids; distinct keys are preserved |
| Flattener.ApplyGrants | woqlclient/connectionCapabilities.py:46-59 | keys grow by exactly the granted scope ids; distinct keys are preserved |
| Flattener.FlattenFrom | woqlclient/connectionCapabilities.py:40-61 | keys are the existing ones plus non-authority predicates plus granted scope ids |
| Flattener.LastGrantIsLast | woqlclient/connectionCapabilities.py:46-59 | the grant whose action list survives scopes the id, and no later grant does |
| Flattener.FirstScopeIsFirst | woqlclient/connectionCapabilities.py:46-58 | the record stored for a new id is the first entry with that id in the first grant that scopes it |
| Flattener.FirstInIsFirst | woqlclient/connectionCapabilities.py:56-58 | the record stored for a new id is the first scope with that id |
| Flattener.PredScopeIdsAreGrantIds | woqlclient/connectionCapabilities.py:40-45 | with distinct document keys, the ids scoped by the loop are those of the single authority entry |
| Resolver.FormResourceName | woqlclient/connectionCapabilities.py:63-66 | the name is `terminus` iff the dbid is; otherwise the character at the account text's length is `\|` (`FormResourceNameInjective` gives what the name determines) |
| MetadataExtractor.FormResourceNameInjective | woqlclient/connectionCapabilities.py:63-66 | for separator-free parts, two pairs get the same name iff their dbids agree and, unless the dbid is `terminus`, so do their accounts |
| Resolver.DbCapabilityIdInjective | woqlclient/connectionCapabilities.py:150-151 | two dbids get the same capability id iff they are equal |
| Resolver.FirstWhere | woqlclient/connectionCapabilities.py:70-76 | returns the first index whose record satisfies the test, or nothing iff none does |
| Resolver.ResourceDocumentId | woqlclient/connectionCapabilities.py:68-76 | nothing iff no record bears the formed name; otherwise a registry key whose record bears it, with no earlier record bearing it |
| Resolver.ServerRecord | woqlclient/connectionCapabilities.py:100-109 | nothing iff no record is a server record; otherwise the first server record |
| Resolver.DbRecord | woqlclient/connectionCapabilities.py:111-119 | nothing iff no record bears the formed name; otherwise the record at the first index bearing it, which is the resolved entry |
| Resolver.Removed | woqlclient/connectionCapabilities.py:153-162 | an unresolved pair leaves the registry unchanged; a resolved key disappears and every other key keeps its value |
| Resolver.RemovedKeepsOrder | woqlclient/connectionCapabilities.py:160-162 | removal cuts out the first record bearing the name; the entries before and after it keep their order |
| Resolver.RemovedThenAbsent | woqlclient/connectionCapabilities.py:153-162 | with unique resource names, the pair no longer resolves after removal |
| Resolver.RemovedTwice | woqlclient/connectionCapabilities.py:153-162 | with unique resource names, removal is idempotent |
| Resolver.RemovedAsWritten | woqlclient/connectionCapabilities.py:160-162 | as written, a resolved pair raises unless a `docid` key exists, and only that key is removed |
| Resolver.RemovedAsWrittenKeepsDb | woqlclient/connectionCapabilities.py:160-162 | as written, removal raises or leaves the database resolvable whenever its key is not `docid` |
| MetadataExtractor.Split | woqlclient/connectionCapabilities.py:131 | the parts contain no separator and join back to the input; there is one part iff the input has no separator |
| MetadataExtractor.SplitJoin | woqlclient/connectionCapabilities.py:131 | splitting a join of separator-free parts gives the parts back |
| MetadataExtractor.ExtractMetadata | woqlclient/connectionCapabilities.py:121-143 | title is empty; `terminus` gives db `terminus`; a name without `\|` is the db; otherwise account and db are the first and second parts of `Split`; the description is the `@value` of the first `rdfs:label` entry when the label is a list, else of `rdfs:comment`, else empty |
| MetadataExtractor.MetadataRoundTrip | woqlclient/connectionCapabilities.py:126-136 | metadata of a record bearing a formed name recovers the dbid, and the account unless the db is `terminus` |
| PermissionGate.Permission | woqlclient/connectionCapabilities.py:85-98 | invalid arguments iff the action is not database creation and no dbid is given; a denial carries the action, dbid and account |
| PermissionGate.CreatePermittedIff | woqlclient/connectionCapabilities.py:86-87 | database creation is permitted iff the server record's authority list holds `terminus:` + the action |
| PermissionGate.DbPermittedIff | woqlclient/connectionCapabilities.py:88-96 | any other action is permitted iff the database record's authority list holds `terminus:` + the action |
| PermissionGate.PermittedHasGrant | woqlclient/connectionCapabilities.py:92-96 | a permitted action is backed by a registry record authorizing it |

## Left out

- The model uses value semantics, so it does not capture aliasing at lines 57-59 and 80-81. In the source, the registry stores the very scope object from the document; setting its authority edits the input document, and two entries can share one object. `get_json_context` likewise hands out the stored context object. In the model, the registry holds a modified copy.
- `set_capabilities` also records the document's keys in an attribute, `capabilitiesKeys`. Nothing outside `set_capabilities`' own loop (line 40) reads it; the model iterates the document's keys directly.
- SetCapabilities: the Python loop is split into `GrantAuthorities` and `ApplyGrant`, one method per loop level. The statements and their order are unchanged.
- SetCapabilities: malformed documents are excluded by `WellFormedDoc` rather than modelled. Python raises `KeyError` or `TypeError` for a grant without `terminus:access`, a scope without `@id`, or an action that is not a dict.
- SetCapabilities: `WellFormedDoc` also requires every scope `@id` to be a string, because the registry is keyed by strings. Python would store a scope whose `@id` is a number, boolean or null under that non-string key, without raising. The model does not cover such documents.
- Python's `in` on a string is a substring test; on a dict it tests keys. The model tests only fields of JSON objects. A record, resource name, label or authority that is a string is treated as having no fields. A record that is a number, boolean or null raises `TypeError` at line 72; the model treats it as having no fields too.
- GetJsonContext: requires the `@context` entry to be an object. On a string or list context, line 81 raises `TypeError`; the model does not represent that error.
- Flattener.ApplyScopesAt: a scope stored under an `@id` whose value is not an object is modelled as replaced by an object holding only the authority. In Python, item assignment on such a value raises.
- MetadataExtractor.ExtractMetadata: a `rdfs:label` list that is empty, or a missing `rdfs:comment`, gives an empty description. In Python these raise `IndexError` and `KeyError`.
- PermissionGate.Permission: an authority that is not a JSON list denies. In Python, `in` on a string authority would do a substring match.
- The error message text built by `ErrorMessage.getAccessDeniedMessage` is not modelled. A denial carries the action, dbid and account it would be formatted from.
- `const.CREATE_DATABASE` comes from a module that is not part of this model. It is a parameter, `createDatabase`.
- `remove_db` defaults `dbid` to `None` and takes an unused `srvr`. The model takes a dbid and an account, as `find_resource_document_id` needs.
- Resolver.RemovedThenAbsent and Resolver.RemovedTwice assume that at most one record bears a given resource name. With duplicates, only the first match is removed, as in the source.
- Lines 117 and 160 call `this.find_resource_document_id` and line 160 passes an undefined `account`. Both raise `NameError` as written; the model uses `self` and an `account` parameter.
- Line 89 calls `_get_server_record(dbid, account)`, which takes no such arguments and raises `TypeError`. The model uses `_get_db_record(dbid, account)`, the evident intent.
- Line 91 refers to an undefined `server` and raises `NameError` before the `ValueError`. The model returns an invalid-arguments refusal.
- Line 132 reads `bits.length`, which raises `AttributeError` for every name other than `terminus`. The model uses the number of parts, the evident intent.
- `_extract_metadata` never returns `meta` (it returns `None`). The model returns the metadata it builds.

## Findings

| source | as written | input that shows it | evidently intended | confidence | as-written member | corrected member |
|---|---|---|---|---|---|---|
| woqlclient/connectionCapabilities.py:162 | `del self.connection['docid']` deletes the entry keyed by the literal string `docid` | with line 160 fixed (`self`, an `account` parameter): a registry where `a\|db` resolves to key `doc:db`; after `remove_db` it still resolves, or `KeyError` is raised when no `docid` key exists. As written, line 160 raises `NameError` first | delete the resolved key `docid` | high, not executed | Resolver.RemovedAsWrittenKeepsDb | Resolver.RemovedThenAbsent |
