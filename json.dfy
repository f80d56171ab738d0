/** JSON values as the Python client holds them after decoding a server response,
    and the ordered dictionaries (association lists) it stores them in.
    A Python dict keeps insertion order, assigning to an existing key keeps
    its position, and `del` removes the entry; `Put` and `Delete` model that. */
module JsonValues {

  datatype Option<T> = None | Some(value: T)

  datatype Json =
    | JNull
    | JBool(b: bool)
    | JNum(n: int)
    | JStr(s: string)
    | JList(items: seq<Json>)
    | JObj(fields: seq<(string, Json)>)

  /** An ordered string-keyed dictionary of JSON values. */
  type Fields = seq<(string, Json)>

  function Keys<V>(kvs: seq<(string, V)>): set<string>
  {
    set i | 0 <= i < |kvs| :: kvs[i].0
  }

  lemma KeysTail<V>(kvs: seq<(string, V)>)
    requires |kvs| > 0
    ensures Keys(kvs) == {kvs[0].0} + Keys(kvs[1..])
  {
    forall k | k in Keys(kvs) ensures k in {kvs[0].0} + Keys(kvs[1..]) {
      var i :| 0 <= i < |kvs| && kvs[i].0 == k;
      if i > 0 { assert kvs[1..][i - 1] == kvs[i]; }
    }
    forall k | k in Keys(kvs[1..]) ensures k in Keys(kvs) {
      var i :| 0 <= i < |kvs[1..]| && kvs[1..][i].0 == k;
      assert kvs[i + 1] == kvs[1..][i];
    }
  }

  /** No key occurs twice: the shape of every Python dict. */
  predicate DistinctKeys<V>(kvs: seq<(string, V)>)
  {
    forall i, j :: 0 <= i < j < |kvs| ==> kvs[i].0 != kvs[j].0
  }

  lemma DistinctTail<V>(kvs: seq<(string, V)>)
    requires |kvs| > 0 && DistinctKeys(kvs)
    ensures DistinctKeys(kvs[1..]) && kvs[0].0 !in Keys(kvs[1..])
  {
    forall i | 0 <= i < |kvs[1..]| ensures kvs[1..][i].0 != kvs[0].0 {
      assert kvs[1..][i] == kvs[i + 1];
    }
  }

  /** The value stored under `k` (`d[k]` / `d.get(k)`): the first entry with that key. */
  function Get<V>(kvs: seq<(string, V)>, k: string): (r: Option<V>)
    ensures r.None? <==> k !in Keys(kvs)
    ensures r.Some? ==> (k, r.value) in kvs
  {
    if |kvs| == 0 then None
    else
      KeysTail(kvs);
      if kvs[0].0 == k then Some(kvs[0].1) else Get(kvs[1..], k)
  }

  lemma {:induction false} GetAtIndex<V>(kvs: seq<(string, V)>, i: nat)
    requires DistinctKeys(kvs) && i < |kvs|
    ensures Get(kvs, kvs[i].0) == Some(kvs[i].1)
  {
    if i > 0 {
      DistinctTail(kvs);
      assert kvs[1..][i - 1] == kvs[i];
      GetAtIndex(kvs[1..], i - 1);
    }
  }

  /** `d[k] = v`: overwrite in place when `k` is present, append otherwise. */
  function Put<V>(kvs: seq<(string, V)>, k: string, v: V): (r: seq<(string, V)>)
    ensures Keys(r) == Keys(kvs) + {k}
    ensures Get(r, k) == Some(v)
    ensures forall j :: j != k ==> Get(r, j) == Get(kvs, j)
    ensures DistinctKeys(kvs) ==> DistinctKeys(r)
  {
    if |kvs| == 0 then
      KeysTail([(k, v)]);
      [(k, v)]
    else
      KeysTail(kvs);
      if kvs[0].0 == k then
        var r := [(k, v)] + kvs[1..];
        assert r[1..] == kvs[1..];
        KeysTail(r);
        r
      else
        var rest := Put(kvs[1..], k, v);
        var r := [kvs[0]] + rest;
        assert r[1..] == rest;
        KeysTail(r);
        assert DistinctKeys(kvs) ==> DistinctKeys(r) by {
          if DistinctKeys(kvs) {
            DistinctTail(kvs);
            forall i, j | 0 <= i < j < |r| ensures r[i].0 != r[j].0 {
              if i == 0 { assert r[j] == rest[j - 1] && rest[j - 1].0 in Keys(rest); }
              else { assert r[i] == rest[i - 1] && r[j] == rest[j - 1]; }
            }
          }
        }
        r
  }

  /** Where `Put` leaves the entries: a new key goes at the end; an existing
      key keeps its position and every other entry stays where it was. */
  lemma {:induction false} PutPosition<V>(kvs: seq<(string, V)>, k: string, v: V)
    ensures k !in Keys(kvs) ==> Put(kvs, k, v) == kvs + [(k, v)]
    ensures k in Keys(kvs) ==> |Put(kvs, k, v)| == |kvs| &&
                               forall i :: 0 <= i < |kvs| && kvs[i].0 != k ==> Put(kvs, k, v)[i] == kvs[i]
  {
    if |kvs| > 0 {
      KeysTail(kvs);
      if kvs[0].0 != k {
        PutPosition(kvs[1..], k, v);
        var r := Put(kvs, k, v);
        assert r == [kvs[0]] + Put(kvs[1..], k, v);
        if k !in Keys(kvs) {
          assert kvs == [kvs[0]] + kvs[1..];
        } else {
          forall i | 0 < i < |kvs| && kvs[i].0 != k ensures r[i] == kvs[i] {
            assert kvs[1..][i - 1] == kvs[i];
          }
        }
      }
    }
  }

  /** Assigning the same key twice leaves only the second value. */
  lemma {:induction false} PutPut<V>(kvs: seq<(string, V)>, k: string, a: V, b: V)
    ensures Put(Put(kvs, k, a), k, b) == Put(kvs, k, b)
  {
    if |kvs| > 0 && kvs[0].0 != k {
      PutPut(kvs[1..], k, a, b);
      assert Put(kvs, k, a)[1..] == Put(kvs[1..], k, a);
    }
  }

  /** `del d[k]`: every entry with key `k` goes, the others keep their order. */
  function Delete<V(!new)>(kvs: seq<(string, V)>, k: string): (r: seq<(string, V)>)
    ensures forall e :: e in r <==> e in kvs && e.0 != k
    ensures Keys(r) == Keys(kvs) - {k}
    ensures forall j :: j != k ==> Get(r, j) == Get(kvs, j)
    ensures DistinctKeys(kvs) ==> DistinctKeys(r)
  {
    if |kvs| == 0 then []
    else
      KeysTail(kvs);
      var rest := Delete(kvs[1..], k);
      if kvs[0].0 == k then rest
      else
        var r := [kvs[0]] + rest;
        assert r[1..] == rest;
        KeysTail(r);
        assert DistinctKeys(kvs) ==> DistinctKeys(r) by {
          if DistinctKeys(kvs) {
            DistinctTail(kvs);
            forall i, j | 0 <= i < j < |r| ensures r[i].0 != r[j].0 {
              if i == 0 { assert r[j] == rest[j - 1] && rest[j - 1].0 in Keys(rest); }
              else { assert r[i] == rest[i - 1] && r[j] == rest[j - 1]; }
            }
          }
        }
        r
  }

  /** With distinct keys, deleting the key at position `i` cuts out exactly
      that entry: the entries before and after it keep their order. */
  lemma {:induction false} DeleteAt<V(!new)>(kvs: seq<(string, V)>, i: nat)
    requires DistinctKeys(kvs) && i < |kvs|
    ensures Delete(kvs, kvs[i].0) == kvs[..i] + kvs[i + 1..]
  {
    DistinctTail(kvs);
    if i == 0 {
      assert kvs[0].0 !in Keys(kvs[1..]);
      DeleteAbsent(kvs[1..], kvs[0].0);
    } else {
      assert kvs[1..][i - 1] == kvs[i];
      DeleteAt(kvs[1..], i - 1);
      assert kvs[0].0 != kvs[i].0;
      assert kvs[..i] == [kvs[0]] + kvs[1..][..i - 1];
      assert kvs[i + 1..] == kvs[1..][i..];
    }
  }

  /** Deleting an absent key changes nothing. */
  lemma {:induction false} DeleteAbsent<V(!new)>(kvs: seq<(string, V)>, k: string)
    requires k !in Keys(kvs)
    ensures Delete(kvs, k) == kvs
  {
    if |kvs| > 0 {
      KeysTail(kvs);
      assert kvs[0].0 != k && k !in Keys(kvs[1..]);
      DeleteAbsent(kvs[1..], k);
      calc {
        Delete(kvs, k);
        [kvs[0]] + Delete(kvs[1..], k);
        [kvs[0]] + kvs[1..];
        kvs;
      }
    }
  }

  /** The entries of a JSON object; any other value has none. */
  function ObjectFields(o: Json): Fields
  {
    if o.JObj? then o.fields else []
  }

  /** `o.get(k)` on a dict; `None` for a missing key or a value that is not an object. */
  function Field(o: Json, k: string): Option<Json>
  {
    Get(ObjectFields(o), k)
  }

  /** `o[k] = v` on a dict. */
  function SetField(o: Json, k: string, v: Json): (r: Json)
    ensures r.JObj?
    ensures Field(r, k) == Some(v)
    ensures forall j :: j != k ==> Field(r, j) == Field(o, j)
  {
    JObj(Put(ObjectFields(o), k, v))
  }

  lemma SetFieldTwice(o: Json, k: string, a: Json, b: Json)
    ensures SetField(SetField(o, k, a), k, b) == SetField(o, k, b)
  {
    PutPut(ObjectFields(o), k, a, b);
  }
}
