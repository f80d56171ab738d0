/** The flattening performed by `set_capabilities`: the server's capability
    document, whose `terminus:authority` grants each name a scope of resources
    and a list of actions, becomes one registry entry per resource carrying its
    own `terminus:authority` action list; every other top-level entry of the
    document is copied as it is. These are the specification functions; the
    loops that compute them are `ConnectionCapabilities.SetCapabilities`. */
module Flattener {
  import opened JsonValues

  const AuthorityKey := "terminus:authority"
  const AccessKey := "terminus:access"
  const ScopeKey := "terminus:authority_scope"
  const ActionKey := "terminus:action"
  const IdKey := "@id"

  /** A value that may be given singly or as a list, as a list. */
  function AsList(v: Json): seq<Json>
  {
    if v.JList? then v.items else [v]
  }

  /** An action object: `item['@id']` exists. */
  predicate HasId(a: Json)
  {
    Field(a, IdKey).Some?
  }

  function ActionId(a: Json): Json
    requires HasId(a)
  {
    Field(a, IdKey).value
  }

  /** A scope entry: an object whose `@id` is a string, usable as a registry key. */
  predicate IsResource(s: Json)
  {
    Field(s, IdKey).Some? && Field(s, IdKey).value.JStr?
  }

  function IdOf(s: Json): string
    requires IsResource(s)
  {
    Field(s, IdKey).value.s
  }

  predicate WellFormedActions(actions: Json)
  {
    actions.JList? ==> forall a <- actions.items :: HasId(a)
  }

  /** `[obj['@id'] for obj in actions]` for a list, `[]` for anything else. */
  function ActionIds(actions: Json): seq<Json>
    requires WellFormedActions(actions)
  {
    if actions.JList? then
      seq(|actions.items|, k requires 0 <= k < |actions.items| => ActionId(actions.items[k]))
    else []
  }

  /** A grant whose `terminus:access` object has a scope and an action entry,
      every scope entry has a string `@id` and every listed action an `@id`.
      A missing entry makes the source raise `KeyError` or `TypeError`; a
      scope `@id` that is a number, boolean or null the source would store as
      a non-string key, which the string-keyed registry here excludes. */
  predicate WellFormedGrant(g: Json)
  {
    Field(g, AccessKey).Some? &&
    var access := Field(g, AccessKey).value;
    Field(access, ScopeKey).Some? && Field(access, ActionKey).Some? &&
    (forall s <- AsList(Field(access, ScopeKey).value) :: IsResource(s)) &&
    WellFormedActions(Field(access, ActionKey).value)
  }

  predicate WellFormedGrants(grants: seq<Json>)
  {
    forall g <- grants :: WellFormedGrant(g)
  }

  function Scopes(g: Json): (r: seq<Json>)
    requires WellFormedGrant(g)
    ensures forall s <- r :: IsResource(s)
  {
    AsList(Field(Field(g, AccessKey).value, ScopeKey).value)
  }

  function GrantActions(g: Json): seq<Json>
    requires WellFormedGrant(g)
  {
    ActionIds(Field(Field(g, AccessKey).value, ActionKey).value)
  }

  predicate WellFormedPreds(preds: Fields)
  {
    forall p <- preds | p.0 == AuthorityKey :: WellFormedGrants(AsList(p.1))
  }

  /** A dict (distinct keys) whose grants are well formed, or no document at
      all: the documents the source flattens without raising into a registry
      keyed by strings. */
  predicate WellFormedDoc(capabilities: Option<Fields>)
  {
    capabilities.Some? ==> DistinctKeys(capabilities.value) && WellFormedPreds(capabilities.value)
  }

  function IdsOf(scopes: seq<Json>): set<string>
    requires forall s <- scopes :: IsResource(s)
  {
    if |scopes| == 0 then {} else {IdOf(scopes[0])} + IdsOf(scopes[1..])
  }

  function GrantIds(grants: seq<Json>): set<string>
    requires WellFormedGrants(grants)
  {
    if |grants| == 0 then {} else IdsOf(Scopes(grants[0])) + GrantIds(grants[1..])
  }

  /** The scope ids of every `terminus:authority` entry among `preds`. */
  function PredScopeIds(preds: Fields): set<string>
    requires WellFormedPreds(preds)
  {
    if |preds| == 0 then {}
    else (if preds[0].0 == AuthorityKey then GrantIds(AsList(preds[0].1)) else {}) + PredScopeIds(preds[1..])
  }

  /** The grants of the document's `terminus:authority` entry, a single grant as a list. */
  function AuthorityGrants(d: Fields): (r: seq<Json>)
    requires WellFormedPreds(d)
    ensures WellFormedGrants(r)
  {
    match Get(d, AuthorityKey)
    case None => []
    case Some(v) => AsList(v)
  }

  /** Position of the first scope entry whose `@id` is `x`. */
  function FirstIn(scopes: seq<Json>, x: string): (i: nat)
    requires forall s <- scopes :: IsResource(s)
    requires x in IdsOf(scopes)
    ensures i < |scopes| && IdOf(scopes[i]) == x
  {
    if IdOf(scopes[0]) == x then 0
    else
      var i := FirstIn(scopes[1..], x);
      assert scopes[1 + i] == scopes[1..][i];
      1 + i
  }

  /** No scope entry before `FirstIn` has `@id` `x`. */
  lemma {:induction false} FirstInIsFirst(scopes: seq<Json>, x: string)
    requires forall s <- scopes :: IsResource(s)
    requires x in IdsOf(scopes)
    ensures forall j :: 0 <= j < FirstIn(scopes, x) ==> IdOf(scopes[j]) != x
    decreases |scopes|
  {
    if IdOf(scopes[0]) != x {
      FirstInIsFirst(scopes[1..], x);
      assert forall j :: 0 < j < |scopes| ==> scopes[j] == scopes[1..][j - 1];
    }
  }

  /** Position of the last grant that scopes `x`. */
  function LastGrant(grants: seq<Json>, x: string): (i: nat)
    requires WellFormedGrants(grants)
    requires x in GrantIds(grants)
    ensures i < |grants|
  {
    if x in GrantIds(grants[1..]) then 1 + LastGrant(grants[1..], x) else 0
  }

  /** `LastGrant` scopes `x` and no grant after it does: its actions are the ones that stay. */
  lemma {:induction false} LastGrantIsLast(grants: seq<Json>, x: string)
    requires WellFormedGrants(grants)
    requires x in GrantIds(grants)
    ensures x in IdsOf(Scopes(grants[LastGrant(grants, x)]))
    ensures forall j :: LastGrant(grants, x) < j < |grants| ==> x !in IdsOf(Scopes(grants[j]))
    decreases |grants|
  {
    assert forall j :: 0 < j < |grants| ==> grants[j] == grants[1..][j - 1];
    if x in GrantIds(grants[1..]) {
      LastGrantIsLast(grants[1..], x);
    } else {
      GrantIdsCover(grants[1..]);
    }
  }

  /** Every grant's scope ids are among the grants' ids. */
  lemma {:induction false} GrantIdsCover(grants: seq<Json>)
    requires WellFormedGrants(grants)
    ensures forall j :: 0 <= j < |grants| ==> IdsOf(Scopes(grants[j])) <= GrantIds(grants)
    decreases |grants|
  {
    if |grants| > 0 {
      GrantIdsCover(grants[1..]);
      assert forall j :: 0 < j < |grants| ==> grants[j] == grants[1..][j - 1];
    }
  }

  /** The first scope entry, over all grants in order, whose `@id` is `x`:
      the record the scope loop stores when `x` is not yet a key. */
  function FirstScope(grants: seq<Json>, x: string): (r: Json)
    requires WellFormedGrants(grants)
    requires x in GrantIds(grants)
    ensures IsResource(r) && IdOf(r) == x
  {
    var scopes := Scopes(grants[0]);
    if x in IdsOf(scopes) then scopes[FirstIn(scopes, x)]
    else FirstScope(grants[1..], x)
  }

  /** `FirstScope` is the scope entry for `x` in the first grant that scopes
      `x`: the first grant's own first entry with that `@id`. */
  lemma {:induction false} FirstScopeIsFirst(grants: seq<Json>, x: string, g: nat)
    requires WellFormedGrants(grants) && x in GrantIds(grants)
    requires g < |grants| && x in IdsOf(Scopes(grants[g]))
    requires forall j :: 0 <= j < g ==> x !in IdsOf(Scopes(grants[j]))
    ensures FirstScope(grants, x) == Scopes(grants[g])[FirstIn(Scopes(grants[g]), x)]
  {
    if g > 0 {
      assert x !in IdsOf(Scopes(grants[0]));
      GrantShift(grants, x);
      assert grants[1..][g - 1] == grants[g];
      forall j | 0 <= j < g - 1 ensures x !in IdsOf(Scopes(grants[1..][j])) {
        assert grants[1..][j] == grants[j + 1];
      }
      FirstScopeIsFirst(grants[1..], x, g - 1);
    }
  }

  /** The innermost loop (lines 56-59): store each scope entry under its `@id`
      unless that key is taken, then overwrite its `terminus:authority`. */
  function ApplyScopes(reg: Fields, scopes: seq<Json>, acts: seq<Json>): (r: Fields)
    requires forall s <- scopes :: IsResource(s)
    ensures Keys(r) == Keys(reg) + IdsOf(scopes)
    ensures DistinctKeys(reg) ==> DistinctKeys(r)
    decreases |scopes|
  {
    if |scopes| == 0 then reg
    else
      var id := IdOf(scopes[0]);
      var base := if id in Keys(reg) then Get(reg, id).value else scopes[0];
      ApplyScopes(Put(reg, id, SetField(base, AuthorityKey, JList(acts))), scopes[1..], acts)
  }

  /** The loop over grants (lines 46-59). */
  function ApplyGrants(reg: Fields, grants: seq<Json>): (r: Fields)
    requires WellFormedGrants(grants)
    ensures Keys(r) == Keys(reg) + GrantIds(grants)
    ensures DistinctKeys(reg) ==> DistinctKeys(r)
    decreases |grants|
  {
    if |grants| == 0 then reg
    else ApplyGrants(ApplyScopes(reg, Scopes(grants[0]), GrantActions(grants[0])), grants[1..])
  }

  /** The loop over the document's keys (lines 40-61), continuing from `reg`. */
  function FlattenFrom(reg: Fields, preds: Fields): (r: Fields)
    requires WellFormedPreds(preds)
    ensures Keys(r) == Keys(reg) + (Keys(preds) - {AuthorityKey}) + PredScopeIds(preds)
    ensures DistinctKeys(reg) ==> DistinctKeys(r)
    decreases |preds|
  {
    if |preds| == 0 then reg
    else
      KeysTail(preds);
      var pred := preds[0].0;
      var value := preds[0].1;
      assert Keys(preds) - {AuthorityKey} ==
        (if pred == AuthorityKey then {} else {pred}) + (Keys(preds[1..]) - {AuthorityKey});
      var next := if pred == AuthorityKey then ApplyGrants(reg, AsList(value)) else Put(reg, pred, value);
      FlattenFrom(next, preds[1..])
  }

  /** The registry `set_capabilities` builds from `capabilities`, starting from nothing. */
  function Flatten(capabilities: Option<Fields>): (r: Fields)
    requires WellFormedDoc(capabilities)
    ensures DistinctKeys(r)
    ensures capabilities.None? ==> r == []
  {
    match capabilities
    case None => []
    case Some(d) => FlattenFrom([], d)
  }

  // ---------------------------------------------------------------------
  // One iteration of each loop of `set_capabilities`

  lemma FlattenFromStep(reg: Fields, preds: Fields, i: nat)
    requires WellFormedPreds(preds) && i < |preds|
    ensures WellFormedPreds(preds[i..]) && WellFormedPreds(preds[i + 1..])
    ensures preds[i].0 == AuthorityKey ==> WellFormedGrants(AsList(preds[i].1))
    ensures FlattenFrom(reg, preds[i..]) ==
      FlattenFrom(if preds[i].0 == AuthorityKey then ApplyGrants(reg, AsList(preds[i].1))
                  else Put(reg, preds[i].0, preds[i].1), preds[i + 1..])
  {
    assert preds[i..][0] == preds[i] && preds[i..][1..] == preds[i + 1..];
    assert preds[i] in preds;
  }

  lemma ApplyGrantsStep(reg: Fields, grants: seq<Json>, j: nat)
    requires WellFormedGrants(grants) && j < |grants|
    ensures WellFormedGrant(grants[j]) && WellFormedGrants(grants[j..]) && WellFormedGrants(grants[j + 1..])
    ensures ApplyGrants(reg, grants[j..]) ==
      ApplyGrants(ApplyScopes(reg, Scopes(grants[j]), GrantActions(grants[j])), grants[j + 1..])
  {
    assert grants[j] in grants;
    assert grants[j..][0] == grants[j] && grants[j..][1..] == grants[j + 1..];
  }

  lemma ApplyScopesStep(reg: Fields, scopes: seq<Json>, acts: seq<Json>, n: nat)
    requires (forall s <- scopes :: IsResource(s)) && n < |scopes|
    ensures IsResource(scopes[n])
    ensures var id := IdOf(scopes[n]);
            var base := if id in Keys(reg) then Get(reg, id).value else scopes[n];
            ApplyScopes(reg, scopes[n..], acts) ==
            ApplyScopes(Put(reg, id, SetField(base, AuthorityKey, JList(acts))), scopes[n + 1..], acts)
  {
    assert scopes[n] in scopes;
    assert scopes[n..][0] == scopes[n] && scopes[n..][1..] == scopes[n + 1..];
  }

  // ---------------------------------------------------------------------
  // Where each key ends up

  lemma {:induction false} ApplyScopesAt(reg: Fields, scopes: seq<Json>, acts: seq<Json>, x: string)
    requires forall s <- scopes :: IsResource(s)
    ensures Get(ApplyScopes(reg, scopes, acts), x) ==
      if x in IdsOf(scopes) then
        Some(SetField(if x in Keys(reg) then Get(reg, x).value else scopes[FirstIn(scopes, x)],
                      AuthorityKey, JList(acts)))
      else Get(reg, x)
    decreases |scopes|
  {
    if |scopes| > 0 {
      var id := IdOf(scopes[0]);
      var base := if id in Keys(reg) then Get(reg, id).value else scopes[0];
      var next := Put(reg, id, SetField(base, AuthorityKey, JList(acts)));
      ApplyScopesAt(next, scopes[1..], acts, x);
      if x == id {
        SetFieldTwice(base, AuthorityKey, JList(acts), JList(acts));
      } else if x in IdsOf(scopes[1..]) {
        assert FirstIn(scopes, x) == 1 + FirstIn(scopes[1..], x);
      }
    }
  }

  /** Where the grants leave key `x`: a scoped key holds its existing record,
      or else the first scope entry naming it, with `terminus:authority` set to
      the action ids of the last grant scoping it; any other key is untouched. */
  function GrantedAt(reg: Fields, grants: seq<Json>, x: string): Option<Json>
    requires WellFormedGrants(grants)
  {
    if x in GrantIds(grants) then
      Some(SetField(if x in Keys(reg) then Get(reg, x).value else FirstScope(grants, x),
                    AuthorityKey, JList(GrantActions(grants[LastGrant(grants, x)]))))
    else Get(reg, x)
  }

  lemma {:induction false} ApplyGrantsAt(reg: Fields, grants: seq<Json>, x: string)
    requires WellFormedGrants(grants)
    ensures Get(ApplyGrants(reg, grants), x) == GrantedAt(reg, grants, x)
    decreases |grants|
  {
    if |grants| > 0 {
      var next := ApplyScopes(reg, Scopes(grants[0]), GrantActions(grants[0]));
      assert ApplyGrants(reg, grants) == ApplyGrants(next, grants[1..]);
      ApplyGrantsAt(next, grants[1..], x);
      if x in IdsOf(Scopes(grants[0])) {
        GrantedAtScopedHead(reg, grants, x);
      } else {
        GrantedAtUnscopedHead(reg, grants, x);
      }
    }
  }

  /** The first grant scopes `x`: it stores the record, and a later grant may
      only overwrite its `terminus:authority`. */
  lemma GrantedAtScopedHead(reg: Fields, grants: seq<Json>, x: string)
    requires WellFormedGrants(grants) && |grants| > 0
    requires x in IdsOf(Scopes(grants[0]))
    ensures GrantedAt(ApplyScopes(reg, Scopes(grants[0]), GrantActions(grants[0])), grants[1..], x) ==
            GrantedAt(reg, grants, x)
  {
    var g, rest := grants[0], grants[1..];
    var acts := GrantActions(g);
    var next := ApplyScopes(reg, Scopes(g), acts);
    ApplyScopesAt(reg, Scopes(g), acts, x);
    var base := if x in Keys(reg) then Get(reg, x).value else Scopes(g)[FirstIn(Scopes(g), x)];
    assert FirstScope(grants, x) == Scopes(g)[FirstIn(Scopes(g), x)];
    assert Get(next, x) == Some(SetField(base, AuthorityKey, JList(acts)));
    if x in GrantIds(rest) {
      GrantShift(grants, x);
      SetFieldTwice(base, AuthorityKey, JList(acts), JList(GrantActions(rest[LastGrant(rest, x)])));
    } else {
      assert LastGrant(grants, x) == 0;
    }
  }

  /** The first grant does not scope `x`: it leaves `x` as it was. */
  lemma GrantedAtUnscopedHead(reg: Fields, grants: seq<Json>, x: string)
    requires WellFormedGrants(grants) && |grants| > 0
    requires x !in IdsOf(Scopes(grants[0]))
    ensures GrantedAt(ApplyScopes(reg, Scopes(grants[0]), GrantActions(grants[0])), grants[1..], x) ==
            GrantedAt(reg, grants, x)
  {
    var g := grants[0];
    var next := ApplyScopes(reg, Scopes(g), GrantActions(g));
    ApplyScopesAt(reg, Scopes(g), GrantActions(g), x);
    assert Get(next, x) == Get(reg, x);
    assert x in Keys(next) <==> x in Keys(reg);
    if x in GrantIds(grants[1..]) {
      GrantShift(grants, x);
    }
  }

  /** Dropping the first grant shifts the last grant scoping `x` by one, and
      leaves the first scope entry for `x` alone when the first grant does not scope it. */
  lemma GrantShift(grants: seq<Json>, x: string)
    requires WellFormedGrants(grants) && |grants| > 0
    requires x in GrantIds(grants[1..])
    ensures LastGrant(grants, x) == 1 + LastGrant(grants[1..], x)
    ensures grants[LastGrant(grants, x)] == grants[1..][LastGrant(grants[1..], x)]
    ensures x !in IdsOf(Scopes(grants[0])) ==> FirstScope(grants, x) == FirstScope(grants[1..], x)
  {
  }

  lemma {:induction false} NoAuthorityNoScopes(preds: Fields)
    requires WellFormedPreds(preds)
    requires AuthorityKey !in Keys(preds)
    ensures PredScopeIds(preds) == {}
    decreases |preds|
  {
    if |preds| > 0 {
      KeysTail(preds);
      NoAuthorityNoScopes(preds[1..]);
    }
  }

  /** In a dict there is one `terminus:authority` entry, so the scope ids are its grants'. */
  lemma {:induction false} PredScopeIdsAreGrantIds(preds: Fields)
    requires WellFormedPreds(preds) && DistinctKeys(preds)
    ensures PredScopeIds(preds) == GrantIds(AuthorityGrants(preds))
    decreases |preds|
  {
    if |preds| > 0 {
      DistinctTail(preds);
      if preds[0].0 == AuthorityKey {
        NoAuthorityNoScopes(preds[1..]);
      } else {
        PredScopeIdsAreGrantIds(preds[1..]);
      }
    }
  }

  /** A key that no grant scopes is left alone by grants and copied verbatim if top-level. */
  lemma {:induction false} FlattenFromVerbatim(reg: Fields, preds: Fields, x: string)
    requires WellFormedPreds(preds) && DistinctKeys(preds)
    requires x !in PredScopeIds(preds)
    ensures Get(FlattenFrom(reg, preds), x) ==
      if x in Keys(preds) && x != AuthorityKey then Get(preds, x) else Get(reg, x)
    decreases |preds|
  {
    if |preds| > 0 {
      KeysTail(preds);
      DistinctTail(preds);
      var (pred, value) := preds[0];
      if pred == AuthorityKey {
        ApplyGrantsAt(reg, AsList(value), x);
        FlattenFromVerbatim(ApplyGrants(reg, AsList(value)), preds[1..], x);
      } else {
        FlattenFromVerbatim(Put(reg, pred, value), preds[1..], x);
      }
    }
  }

  lemma {:induction false} FlattenFromAt(reg: Fields, preds: Fields, x: string)
    requires WellFormedPreds(preds) && DistinctKeys(preds)
    requires x !in Keys(preds) && x !in Keys(reg)
    requires x in GrantIds(AuthorityGrants(preds))
    ensures Get(FlattenFrom(reg, preds), x) ==
      var grants := AuthorityGrants(preds);
      Some(SetField(FirstScope(grants, x), AuthorityKey, JList(GrantActions(grants[LastGrant(grants, x)]))))
    decreases |preds|
  {
    KeysTail(preds);
    DistinctTail(preds);
    var (pred, value) := preds[0];
    if pred == AuthorityKey {
      ApplyGrantsAt(reg, AsList(value), x);
      NoAuthorityNoScopes(preds[1..]);
      FlattenFromVerbatim(ApplyGrants(reg, AsList(value)), preds[1..], x);
    } else {
      FlattenFromAt(Put(reg, pred, value), preds[1..], x);
    }
  }

  // ---------------------------------------------------------------------
  // What set_capabilities promises

  /** The registry holds exactly the document's keys other than
      `terminus:authority`, and the `@id` of every scope entry of every grant. */
  lemma FlattenKeys(d: Fields)
    requires WellFormedDoc(Some(d))
    ensures Keys(Flatten(Some(d))) == (Keys(d) - {AuthorityKey}) + GrantIds(AuthorityGrants(d))
  {
    PredScopeIdsAreGrantIds(d);
  }

  /** A resource that is not also a top-level key is stored as the first scope
      entry that named it, with `terminus:authority` overwritten by the action
      ids of the last grant that scoped it (last write wins); its other fields
      are untouched. */
  lemma FlattenScopeRecord(d: Fields, x: string)
    requires WellFormedDoc(Some(d))
    requires x !in Keys(d)
    requires x in GrantIds(AuthorityGrants(d))
    ensures Get(Flatten(Some(d)), x).Some?
    ensures var grants := AuthorityGrants(d);
            var rec := Get(Flatten(Some(d)), x).value;
            var i := LastGrant(grants, x);
            x in IdsOf(Scopes(grants[i])) &&
            (forall j :: i < j < |grants| ==> x !in IdsOf(Scopes(grants[j]))) &&
            Field(rec, AuthorityKey) == Some(JList(GrantActions(grants[i]))) &&
            IdOf(FirstScope(grants, x)) == x &&
            forall f :: f != AuthorityKey ==> Field(rec, f) == Field(FirstScope(grants, x), f)
  {
    FlattenFromAt([], d, x);
    LastGrantIsLast(AuthorityGrants(d), x);
  }

  /** A top-level entry that is not a resource id is stored verbatim. */
  lemma FlattenTopLevel(d: Fields, x: string)
    requires WellFormedDoc(Some(d))
    requires x in Keys(d) && x != AuthorityKey
    requires x !in GrantIds(AuthorityGrants(d))
    ensures Get(Flatten(Some(d)), x) == Get(d, x)
  {
    PredScopeIdsAreGrantIds(d);
    FlattenFromVerbatim([], d, x);
  }
}
