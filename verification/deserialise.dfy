/**
 The property-set operation: one `key=value` pair read back from the settings
 file, routed to the credential list.
 */
module Deserialise {
  import opened Optional
  import opened CredentialEntry
  import opened Decimal
  import opened CredentialStore
  import Serialise

  /** `%31s`: at most this many characters of the property name are kept. */
  const PropertyWidth := 31

  /** What `sscanf(key, "credential_%d_%31s", ...)` stores when both conversions succeed. */
  datatype ParsedKey = ParsedKey(index: int, property: string)

  /** `strncmp(key, "credential_", 11) == 0`. */
  predicate HasKeyPrefix(key: string) {
    |key| >= |Serialise.KeyPrefix| && key[..|Serialise.KeyPrefix|] == Serialise.KeyPrefix
  }

  /**
   `sscanf(key, "credential_%d_%31s", &index, property) == 2`: the literal
   prefix, a `%d` conversion, a literal `_`, then white space skipped and a
   run of 1 to 31 non-space characters. None when fewer than two conversions
   succeed.
   */
  function ScanKey(key: string): (r: Option<ParsedKey>)
    ensures r.Some? ==> HasKeyPrefix(key)
    ensures r.Some? ==> 1 <= |r.value.property| <= PropertyWidth
    ensures r.Some? ==> forall k | 0 <= k < |r.value.property| :: !IsSpace(r.value.property[k])
  {
    if !HasKeyPrefix(key) then None
    else
      var rest := key[|Serialise.KeyPrefix|..];
      match ScanInt(rest)
      case None => None
      case Some((index, used)) =>
        match ScanProperty(rest[used..])
        case None => None
        case Some(property) => Some(ParsedKey(index, property))
  }

  /**
   The part of the format after `%d`: a literal `_`, then `%31s`, which skips
   white space and keeps at most 31 characters of the following non-space run.
   None when the `_` is missing or no non-space character follows.
   */
  function ScanProperty(t: string): (r: Option<string>)
    ensures r.Some? ==> 1 <= |r.value| <= PropertyWidth
    ensures r.Some? ==> forall k | 0 <= k < |r.value| :: !IsSpace(r.value[k])
  {
    if |t| == 0 || t[0] != '_' then None
    else
      var u := t[1..];
      var v := u[Span(u, Space)..];
      var run := Span(v, NonSpace);
      if run == 0 then None
      else
        var width := if run < PropertyWidth then run else PropertyWidth;
        Some(v[..width])
  }

  /**
   The keys `SetProperty` is defined on: a parsed credential key with a
   negative index makes the C growth loop run forever (index -1) or append
   billions of records, because the index is compared as an unsigned number.
   */
  predicate Loadable(key: string) {
    match ScanKey(key)
    case Some(p) => p.index >= 0
    case None => true
  }

  /** `n` blank records. */
  function Blanks(n: nat): (r: seq<Credential>)
    ensures |r| == n
    ensures forall j | 0 <= j < n :: r[j] == Blank
  {
    if n == 0 then [] else Blanks(n - 1) + [Blank]
  }

  /** The list lengthened with blank records until it has at least `n` of them. */
  function Grow(credentials: seq<Credential>, n: nat): (r: seq<Credential>)
    ensures |r| == if |credentials| < n then n else |credentials|
    ensures r[..|credentials|] == credentials
    ensures forall j | |credentials| <= j < |r| :: r[j] == Blank
  {
    if |credentials| < n then credentials + Blanks(n - |credentials|) else credentials
  }

  /** A record with the named field set to `value`; an unknown name changes nothing. */
  function Assign(e: Credential, property: string, value: string): Credential {
    if property == "username" then e.(username := value)
    else if property == "password" then e.(password := value)
    else if property == "description" then e.(description := value)
    else e
  }

  /**
   Applies one persisted pair. A credential key `credential_<i>_<property>`
   first grows the list to at least `i + 1` records with blank ones, then sets
   the named field of record `i`, and is consumed (1). The key `count` is
   consumed and changes nothing. Any other key, including a key with the
   credential prefix that does not scan, is refused (0) and changes nothing.
   The unsaved-changes flag and the notification count are never touched.
   */
  function SetProperty(s: Store, key: string, value: string): (r: (Store, int))
    requires Loadable(key)
    ensures FlagsKept(s, r.0)
    ensures r.1 == 0 || r.1 == 1
  {
    if HasKeyPrefix(key) then
      match ScanKey(key)
      case Some(p) =>
        var grown := Grow(s.credentials, p.index + 1);
        assert p.index < |grown|;
        assert forall j | 0 <= j < |s.credentials| :: grown[j] == grown[..|s.credentials|][j];
        (s.(credentials := grown[p.index := Assign(grown[p.index], p.property, value)]), 1)
      case None => (s, 0)
    else if key == "count" then
      (s, 1)
    else
      (s, 0)
  }

  /**
   The outcome of `SetProperty`: a credential key that scans, or `count`, is
   consumed (1) and anything else is refused (0); a refused key and `count`
   leave the store alone. A scanned key for record `i` grows the list with
   blank records to cover `i`, keeps every other record, and sets just the
   named field of record `i`.
   */
  lemma SetPropertyEffect(s: Store, key: string, value: string)
    requires Loadable(key)
    ensures SetProperty(s, key, value).1 == 1 <==> ScanKey(key).Some? || key == "count"
    ensures SetProperty(s, key, value).1 == 0 <==> !(ScanKey(key).Some? || key == "count")
    ensures SetProperty(s, key, value).1 == 0 || key == "count" ==> SetProperty(s, key, value).0 == s
    ensures ScanKey(key).Some? ==>
      var r := SetProperty(s, key, value).0;
      var i := ScanKey(key).value.index;
      var property := ScanKey(key).value.property;
      var old_ := if i < |s.credentials| then s.credentials[i] else Blank;
      && |r.credentials| == (if i < |s.credentials| then |s.credentials| else i + 1)
      && (forall j | 0 <= j < |s.credentials| && j != i :: r.credentials[j] == s.credentials[j])
      && (forall j | |s.credentials| <= j < |r.credentials| && j != i :: r.credentials[j] == Blank)
      && r.credentials[i].username == (if property == "username" then value else old_.username)
      && r.credentials[i].password == (if property == "password" then value else old_.password)
      && r.credentials[i].description == (if property == "description" then value else old_.description)
  {
  }

  /**
   A key that scans to the index one past the end appends one record: a blank
   record with the named field set.
   */
  lemma SetPropertyOnNext(s: Store, key: string, value: string, i: nat, property: string)
    requires Loadable(key) && i == |s.credentials|
    ensures ScanKey(key) == Some(ParsedKey(i, property)) ==>
      && SetProperty(s, key, value).0 == s.(credentials := s.credentials + [Assign(Blank, property, value)])
      && SetProperty(s, key, value).1 == 1
  {
    if ScanKey(key) == Some(ParsedKey(i, property)) {
      var e := Assign(Blank, property, value);
      GrowByOne(s.credentials);
      assert (s.credentials + [Blank])[i := e] == s.credentials + [e];
    }
  }

  /** Growing to one past the end appends exactly one blank record. */
  lemma GrowByOne(credentials: seq<Credential>)
    ensures Grow(credentials, |credentials| + 1) == credentials + [Blank]
  {
    assert Blanks(1) == [] + [Blank];
  }

  /** A key that scans to an index inside the list sets the named field of that record and nothing else. */
  lemma SetPropertyOnExisting(s: Store, key: string, value: string, i: nat, property: string)
    requires Loadable(key) && i < |s.credentials|
    ensures ScanKey(key) == Some(ParsedKey(i, property)) ==>
      && SetProperty(s, key, value).0 == s.(credentials := s.credentials[i := Assign(s.credentials[i], property, value)])
      && SetProperty(s, key, value).1 == 1
  {
  }

  /**
   A key that scans to the index of the last record sets the named field of
   that record and leaves the records before it alone.
   */
  lemma SetPropertyOnLast(s: Store, e: Credential, key: string, value: string, i: nat, property: string)
    requires Loadable(key) && i == |s.credentials|
    ensures ScanKey(key) == Some(ParsedKey(i, property)) ==>
      && SetProperty(s.(credentials := s.credentials + [e]), key, value).0
           == s.(credentials := s.credentials + [Assign(e, property, value)])
      && SetProperty(s.(credentials := s.credentials + [e]), key, value).1 == 1
  {
    if ScanKey(key) == Some(ParsedKey(i, property)) {
      var before := s.(credentials := s.credentials + [e]);
      SetPropertyOnExisting(before, key, value, i, property);
      assert before.credentials[i := Assign(e, property, value)] == s.credentials + [Assign(e, property, value)];
    }
  }

  /** The three property names save writes select the matching field. */
  lemma AssignNamed(e: Credential, value: string)
    ensures Assign(e, "username", value) == e.(username := value)
    ensures Assign(e, "password", value) == e.(password := value)
    ensures Assign(e, "description", value) == e.(description := value)
  {
  }

  /** A short name without white space follows its `_` unchanged through `%31s`. */
  lemma ScanPropertyName(property: string)
    requires 1 <= |property| <= PropertyWidth
    requires forall k | 0 <= k < |property| :: IsNonSpace(property[k])
    ensures ScanProperty("_" + property) == Some(property)
  {
    var u := ("_" + property)[1..];
    assert u == property;
    assert Span(u, Space) == 0;
    assert u[0..] == u;
    assert Span(u, NonSpace) == |u|;
    assert u[..|u|] == u;
  }

  /**
   Every key `credential_<index>_<property>` with a short property name free
   of white space (as all three names save writes are) scans back to its index
   and property name.
   */
  lemma ScanSavedKey(index: nat, property: string)
    requires 1 <= |property| <= PropertyWidth
    requires forall k | 0 <= k < |property| :: IsNonSpace(property[k])
    ensures ScanKey(Serialise.Key(index, property)) == Some(ParsedKey(index, property))
  {
    var key := Serialise.Key(index, property);
    var f := FormatNat(index);
    var rest := key[|Serialise.KeyPrefix|..];
    KeyAfterPrefix(index, property);
    ScanFormatted(index, "_" + property);
    assert rest[|f|..] == "_" + property;
    ScanPropertyName(property);
  }

  /** A saved key carries the credential prefix, then the index digits, `_` and the name. */
  lemma KeyAfterPrefix(index: nat, property: string)
    ensures HasKeyPrefix(Serialise.Key(index, property))
    ensures Serialise.Key(index, property)[|Serialise.KeyPrefix|..] == FormatNat(index) + ("_" + property)
  {
    var p, f := Serialise.KeyPrefix, FormatNat(index);
    var key := Serialise.Key(index, property);
    assert key == p + (f + ("_" + property));
    assert key[..|p|] == p;
  }

  /** The `count` key is consumed and never reaches the credential list. */
  lemma CountKeyIgnored(s: Store, value: string)
    ensures SetProperty(s, "count", value).0 == s && SetProperty(s, "count", value).1 == 1
  {
  }

  /**
   Reading a username for record `n` into an empty store gives `n` blank
   records followed by one holding just that username.
   */
  lemma LoadUsernameIntoEmpty(cb: bool, n: nat, value: string)
    ensures Loadable(Serialise.Key(n, "username"))
    ensures var r := SetProperty(CreateStore(cb), Serialise.Key(n, "username"), value);
      r.1 == 1 && r.0.credentials == Blanks(n) + [Credential(value, "", "")]
  {
    ScanSavedKey(n, "username");
    SetPropertyIntoEmpty(CreateStore(cb), Serialise.Key(n, "username"), value, n, "username");
    AssignNamed(Blank, value);
  }

  /**
   A key for record `i` read into a store with an empty list gives `i` blank
   records followed by a blank record with the named field set.
   */
  lemma SetPropertyIntoEmpty(s: Store, key: string, value: string, i: nat, property: string)
    requires Loadable(key) && |s.credentials| == 0
    ensures ScanKey(key) == Some(ParsedKey(i, property)) ==>
      && SetProperty(s, key, value).0.credentials == Blanks(i) + [Assign(Blank, property, value)]
      && SetProperty(s, key, value).1 == 1
  {
    if ScanKey(key) == Some(ParsedKey(i, property)) {
      var grown := Grow(s.credentials, i + 1);
      assert grown == [] + Blanks(i + 1);
      assert grown[i := Assign(Blank, property, value)] == Blanks(i) + [Assign(Blank, property, value)];
    }
  }
}
