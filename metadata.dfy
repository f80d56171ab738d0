/** `_extract_metadata`: display metadata (account, database id, title,
    description) read off a resource record. The resource name "account|dbid"
    is taken apart with Python's `str.split("|")`, modelled by `Split`. */
module MetadataExtractor {
  import opened JsonValues
  import opened Resolver

  const Separator := '|'
  const LabelKey := "rdfs:label"
  const CommentKey := "rdfs:comment"

  datatype Metadata = Metadata(db: string, account: string, title: string, description: Json)

  /** Position of the first `c` in `s`. */
  function IndexOf(s: string, c: char): (i: nat)
    requires c in s
    ensures i < |s| && s[i] == c && c !in s[..i]
  {
    if s[0] == c then 0 else 1 + IndexOf(s[1..], c)
  }

  /** `sep.join(parts)`. */
  function Join(parts: seq<string>, sep: char): string
    requires |parts| >= 1
  {
    if |parts| == 1 then parts[0] else parts[0] + [sep] + Join(parts[1..], sep)
  }

  lemma {:induction false} JoinStartsWith(parts: seq<string>, sep: char)
    requires |parts| >= 1
    ensures parts[0] <= Join(parts, sep)
  {
  }

  /** `s.split(sep)`: the pieces between separators, which put back together give `s`. */
  function Split(s: string, sep: char): (parts: seq<string>)
    ensures |parts| >= 1
    ensures forall p <- parts :: sep !in p
    ensures Join(parts, sep) == s
    ensures |parts| == 1 <==> sep !in s
    decreases |s|
  {
    if sep !in s then [s]
    else
      var i := IndexOf(s, sep);
      var rest := Split(s[i + 1..], sep);
      var parts := [s[..i]] + rest;
      assert parts[1..] == rest;
      assert s == s[..i] + [sep] + s[i + 1..];
      parts
  }

  /** Splitting a joined list of separator-free pieces gives the pieces back. */
  lemma {:induction false} SplitJoin(parts: seq<string>, sep: char)
    requires |parts| >= 1
    requires forall p <- parts :: sep !in p
    ensures Split(Join(parts, sep), sep) == parts
    decreases |parts|
  {
    if |parts| > 1 {
      var s := Join(parts, sep);
      var tail := Join(parts[1..], sep);
      assert s == parts[0] + [sep] + tail;
      assert s[|parts[0]|] == sep;
      var i := IndexOf(s, sep);
      assert forall k :: 0 <= k < i ==> s[k] == s[..i][k] != sep;
      assert parts[0] in parts;
      assert forall k :: 0 <= k < |parts[0]| ==> parts[0][k] != sep;
      assert forall k :: 0 <= k < |parts[0]| ==> s[k] == parts[0][k];
      assert i == |parts[0]|;
      assert s[..i] == parts[0] && s[i + 1..] == tail;
      SplitJoin(parts[1..], sep);
    }
  }

  /** (db, account) as lines 126-136 derive them from the resource name. */
  function NameParts(rn: Option<Json>): (string, string)
  {
    match rn
    case Some(JStr(s)) =>
      if s == ServerName then (s, "")
      else if s != "" then
        var bits := Split(s, Separator);
        if |bits| == 1 then (s, "") else (bits[1], bits[0])
      else ("", "")
    case _ => ("", "")
  }

  /** The first two pieces, with the separator between them, begin the joined string. */
  lemma JoinPrefix(parts: seq<string>, sep: char)
    requires |parts| >= 2
    ensures parts[0] + [sep] + parts[1] <= Join(parts, sep)
  {
    var head := parts[0] + [sep];
    var rest := Join(parts[1..], sep);
    JoinStartsWith(parts[1..], sep);
    assert Join(parts, sep) == head + rest;
    assert rest[..|parts[1]|] == parts[1];
    assert (head + rest)[..|head| + |parts[1]|] == head + parts[1];
  }

  /** For a name holding the separator, the account is the text before the
      first separator and the database id the text up to the next one. */
  lemma NamePartsSplit(rn: Option<Json>)
    ensures rn.Some? && rn.value.JStr? && Separator in rn.value.s ==>
            var (db, account) := NameParts(rn);
            Separator !in account && Separator !in db && account + [Separator] + db <= rn.value.s
  {
    if rn.Some? && rn.value.JStr? && Separator in rn.value.s {
      var s := rn.value.s;
      var bits := Split(s, Separator);
      assert s != ServerName by {
        assert Separator !in ServerName;
      }
      assert NameParts(rn) == (bits[1], bits[0]);
      JoinPrefix(bits, Separator);
      assert bits[0] in bits && bits[1] in bits;
    }
  }

  /** The label object chosen at lines 137-141: the first `rdfs:label` when it
      is a list, otherwise `rdfs:comment`. */
  function LabelObject(dbrec: Json): Option<Json>
  {
    match Field(dbrec, LabelKey)
    case None => None
    case Some(JList(labels)) => if |labels| > 0 then Some(labels[0]) else None
    case Some(_) => Field(dbrec, CommentKey)
  }

  function Description(dbrec: Json): Json
  {
    match LabelObject(dbrec)
    case Some(obj) => (if Field(obj, ValueKey).Some? then Field(obj, ValueKey).value else JStr(""))
    case None => JStr("")
  }

  /** `_extract_metadata`, returning the dictionary it builds. */
  function ExtractMetadata(dbrec: Json): (m: Metadata)
    ensures m.title == ""
    ensures NameOf(dbrec) == Some(JStr(ServerName)) ==> m.db == ServerName && m.account == ""
    ensures var rn := NameOf(dbrec);
            rn.Some? && rn.value.JStr? && rn.value.s != "" && Separator !in rn.value.s ==>
              m.db == rn.value.s && m.account == ""
    ensures var rn := NameOf(dbrec);
            rn.Some? && rn.value.JStr? && Separator in rn.value.s ==>
              Separator !in m.account && Separator !in m.db &&
              m.account + [Separator] + m.db <= rn.value.s
    ensures var rn := NameOf(dbrec);
            !(rn.Some? && rn.value.JStr? && rn.value.s != "") ==> m.db == "" && m.account == ""
    ensures var rn := NameOf(dbrec);
            rn.Some? && rn.value.JStr? && Separator in rn.value.s ==>
              var bits := Split(rn.value.s, Separator);
              |bits| >= 2 && m.account == bits[0] && m.db == bits[1]
    ensures Field(dbrec, LabelKey).None? ==> m.description == JStr("")
    ensures Field(dbrec, LabelKey) == Some(JList([])) ==> m.description == JStr("")
    ensures match Field(dbrec, LabelKey)
            case Some(JList(labels)) =>
              |labels| > 0 ==>
                m.description == (if Field(labels[0], ValueKey).Some? then Field(labels[0], ValueKey).value else JStr(""))
            case Some(_) =>
              var comment := Field(dbrec, CommentKey);
              m.description == (if comment.Some? && Field(comment.value, ValueKey).Some?
                                then Field(comment.value, ValueKey).value else JStr(""))
            case None => true
  {
    var rn := NameOf(dbrec);
    NamePartsSplit(rn);
    var (db, account) := NameParts(rn);
    Metadata(db, account, "", Description(dbrec))
  }

  /** `_form_resource_name` gives distinct names to distinct pairs whose
      parts are free of the separator: the server's own name is shared by
      every account, and otherwise the name fixes both the account and the
      database id. */
  lemma FormResourceNameInjective(dbid1: string, account1: Option<string>, dbid2: string, account2: Option<string>)
    requires Separator !in dbid1 && Separator !in Show(account1)
    requires Separator !in dbid2 && Separator !in Show(account2)
    ensures FormResourceName(dbid1, account1) == FormResourceName(dbid2, account2) <==>
            dbid1 == dbid2 && (dbid1 == ServerName || Show(account1) == Show(account2))
  {
    if FormResourceName(dbid1, account1) == FormResourceName(dbid2, account2) && dbid1 != ServerName {
      var parts1 := [Show(account1), dbid1];
      var parts2 := [Show(account2), dbid2];
      assert Join(parts1, Separator) == FormResourceName(dbid1, account1);
      assert Join(parts2, Separator) == FormResourceName(dbid2, account2);
      SplitJoin(parts1, Separator);
      SplitJoin(parts2, Separator);
      assert parts1 == parts2;
    }
  }

  /** A record named by `_form_resource_name(dbid, account)` yields that
      database id and account back, when neither contains the separator. */
  lemma MetadataRoundTrip(rec: Json, dbid: string, account: Option<string>)
    requires Named(rec, FormResourceName(dbid, account))
    requires Separator !in dbid && Separator !in Show(account)
    ensures ExtractMetadata(rec).db == dbid
    ensures ExtractMetadata(rec).account == if dbid == ServerName then "" else Show(account)
  {
    if dbid != ServerName {
      var parts := [Show(account), dbid];
      assert Join(parts, Separator) == FormResourceName(dbid, account);
      SplitJoin(parts, Separator);
    }
  }
}
