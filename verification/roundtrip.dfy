/**
 Loading persisted settings: the external settings reader hands each saved
 `key=value` pair to the property-set operation in file order. The theorem
 of this module is that feeding back what save wrote, into a store with an
 empty list, rebuilds the records save wrote, in order.
 */
module RoundTrip {
  import opened Optional
  import opened CredentialEntry
  import opened CredentialStore
  import opened Serialise
  import opened Deserialise

  /** Every key of `pairs` may be handed to `SetProperty`. */
  predicate AllLoadable(pairs: seq<(string, string)>)
    decreases |pairs|
  {
    |pairs| == 0 || (Loadable(pairs[0].0) && AllLoadable(pairs[1..]))
  }

  /**
   Hands the pairs to `SetProperty` one after another, in order. The result is
   the final store and how many of the pairs were consumed.
   */
  function FeedAll(s: Store, pairs: seq<(string, string)>): (r: (Store, nat))
    requires AllLoadable(pairs)
    ensures FlagsKept(s, r.0)
    ensures r.1 <= |pairs|
    decreases |pairs|
  {
    if |pairs| == 0 then (s, 0)
    else
      var step := SetProperty(s, pairs[0].0, pairs[0].1);
      var rest := FeedAll(step.0, pairs[1..]);
      (rest.0, rest.1 + step.1)
  }

  /** Feeding a pair in front of others is applying it, then feeding the others. */
  lemma FeedCons(s: Store, k: string, v: string, rest: seq<(string, string)>)
    requires Loadable(k) && AllLoadable(rest)
    ensures AllLoadable([(k, v)] + rest)
    ensures var step := SetProperty(s, k, v);
      && FeedAll(s, [(k, v)] + rest).0 == FeedAll(step.0, rest).0
      && FeedAll(s, [(k, v)] + rest).1 == step.1 + FeedAll(step.0, rest).1
  {
    assert ([(k, v)] + rest)[1..] == rest;
  }

  /**
   Three pairs, each consumed, in front of others: they act one after another
   and the others are fed to the store they leave.
   */
  lemma FeedThreeThen(s: Store, k1: string, v1: string, k2: string, v2: string, k3: string, v3: string,
                      s1: Store, s2: Store, s3: Store, rest: seq<(string, string)>)
    requires Loadable(k1) && Loadable(k2) && Loadable(k3) && AllLoadable(rest)
    requires SetProperty(s, k1, v1).0 == s1 && SetProperty(s, k1, v1).1 == 1
    requires SetProperty(s1, k2, v2).0 == s2 && SetProperty(s1, k2, v2).1 == 1
    requires SetProperty(s2, k3, v3).0 == s3 && SetProperty(s2, k3, v3).1 == 1
    ensures AllLoadable([(k1, v1), (k2, v2), (k3, v3)] + rest)
    ensures FeedAll(s, [(k1, v1), (k2, v2), (k3, v3)] + rest).0 == FeedAll(s3, rest).0
    ensures FeedAll(s, [(k1, v1), (k2, v2), (k3, v3)] + rest).1 == FeedAll(s3, rest).1 + 3
  {
    FeedCons(s2, k3, v3, rest);
    FeedCons(s1, k2, v2, [(k3, v3)] + rest);
    FeedCons(s, k1, v1, [(k2, v2)] + ([(k3, v3)] + rest));
    assert [(k1, v1), (k2, v2), (k3, v3)] + rest == [(k1, v1)] + ([(k2, v2)] + ([(k3, v3)] + rest));
  }

  /** The username line of record `index`, read into a store of `index` records, appends it. */
  lemma UsernameStep(s: Store, index: nat, username: string)
    requires |s.credentials| == index
    ensures Loadable(Key(index, "username"))
    ensures SetProperty(s, Key(index, "username"), username).0
      == s.(credentials := s.credentials + [Credential(username, "", "")])
    ensures SetProperty(s, Key(index, "username"), username).1 == 1
  {
    ScanSavedKey(index, "username");
    SetPropertyOnNext(s, Key(index, "username"), username, index, "username");
    AssignNamed(Blank, username);
  }

  /** The password line of record `index` then sets that record's password. */
  lemma PasswordStep(s: Store, index: nat, username: string, password: string)
    requires |s.credentials| == index
    ensures Loadable(Key(index, "password"))
    ensures var before := s.(credentials := s.credentials + [Credential(username, "", "")]);
      && SetProperty(before, Key(index, "password"), password).0
           == s.(credentials := s.credentials + [Credential(username, password, "")])
      && SetProperty(before, Key(index, "password"), password).1 == 1
  {
    ScanSavedKey(index, "password");
    SetPropertyOnLast(s, Credential(username, "", ""), Key(index, "password"), password, index, "password");
    AssignNamed(Credential(username, "", ""), password);
  }

  /** The description line of record `index` then sets that record's description. */
  lemma DescriptionStep(s: Store, index: nat, e: Credential)
    requires |s.credentials| == index
    ensures Loadable(Key(index, "description"))
    ensures var before := s.(credentials := s.credentials + [Credential(e.username, e.password, "")]);
      && SetProperty(before, Key(index, "description"), e.description).0 == s.(credentials := s.credentials + [e])
      && SetProperty(before, Key(index, "description"), e.description).1 == 1
  {
    ScanSavedKey(index, "description");
    SetPropertyOnLast(s, Credential(e.username, e.password, ""), Key(index, "description"), e.description,
                      index, "description");
    AssignNamed(Credential(e.username, e.password, ""), e.description);
  }

  /**
   The three pairs of record `index`, fed to a store holding exactly `index`
   records and followed by any other pairs, append that record and then feed
   the others.
   */
  lemma FeedEntryThen(s: Store, index: nat, e: Credential, rest: seq<(string, string)>)
    requires |s.credentials| == index && AllLoadable(rest)
    ensures AllLoadable(EntryPairs(index, e) + rest)
    ensures var next := s.(credentials := s.credentials + [e]);
      && FeedAll(s, EntryPairs(index, e) + rest).0 == FeedAll(next, rest).0
      && FeedAll(s, EntryPairs(index, e) + rest).1 == FeedAll(next, rest).1 + 3
  {
    var s1 := s.(credentials := s.credentials + [Credential(e.username, "", "")]);
    var s2 := s.(credentials := s.credentials + [Credential(e.username, e.password, "")]);
    var s3 := s.(credentials := s.credentials + [e]);
    UsernameStep(s, index, e.username);
    PasswordStep(s, index, e.username, e.password);
    DescriptionStep(s, index, e);
    FeedThreeThen(s, Key(index, "username"), e.username, Key(index, "password"), e.password,
                  Key(index, "description"), e.description, s1, s2, s3, rest);
  }

  /**
   Feeding the pairs of records `i` to `n - 1`, followed by any other pairs,
   into a store holding the first `i` records rebuilds the first `n` records,
   consuming three pairs per record, and then feeds the others.
   */
  lemma {:induction false} FeedEntriesThen(s: Store, credentials: seq<Credential>, i: nat, n: nat,
                                           tail: seq<(string, string)>)
    requires i <= n <= |credentials| && s.credentials == credentials[..i] && AllLoadable(tail)
    ensures AllLoadable(SavedFrom(credentials, i, n, tail))
    ensures var loaded := s.(credentials := credentials[..n]);
      && FeedAll(s, SavedFrom(credentials, i, n, tail)).0 == FeedAll(loaded, tail).0
      && FeedAll(s, SavedFrom(credentials, i, n, tail)).1 == FeedAll(loaded, tail).1 + 3 * (n - i)
    decreases n - i
  {
    if i < n {
      var next := s.(credentials := credentials[..i + 1]);
      var rest := SavedFrom(credentials, i + 1, n, tail);
      assert s.credentials + [credentials[i]] == credentials[..i + 1];
      FeedEntriesThen(next, credentials, i + 1, n, tail);
      FeedEntryThen(s, i, credentials[i], rest);
    }
  }

  /**
   Round trip: every pair save produces is consumed, and loading them into a
   store with an empty list reproduces exactly the records save wrote, in list
   order (all of them whenever the text stays under the limit), leaving the
   unsaved-changes flag and the notification count as they were.
   */
  lemma SaveThenLoad(s: Store, credentials: seq<Credential>)
    requires |s.credentials| == 0
    ensures AllLoadable(SavePairs(credentials))
    ensures FeedAll(s, SavePairs(credentials)).0 == s.(credentials := credentials[..Written(credentials)])
    ensures FeedAll(s, SavePairs(credentials)).1 == |SavePairs(credentials)|
  {
    var n := Written(credentials);
    var f := Decimal.FormatNat(n);
    var count := [("count", f)];
    var loaded := s.(credentials := credentials[..n]);
    EntriesPairsFront(credentials, n, count);
    assert FeedAll(loaded, count).0 == loaded && FeedAll(loaded, count).1 == 1 && AllLoadable(count) by {
      CountKeyIgnored(loaded, f);
      FeedCons(loaded, "count", f, []);
      assert [("count", f)] + [] == count;
    }
    assert s.credentials == credentials[..0];
    FeedEntriesThen(s, credentials, 0, n, count);
  }

  /** When nothing was cut off, loading what save wrote gives back the whole list. */
  lemma SaveThenLoadWhole(cb: bool, credentials: seq<Credential>)
    requires forall j | 0 < j <= |credentials| :: Offset(credentials, j) < Limit
    ensures AllLoadable(SavePairs(credentials))
    ensures FeedAll(CreateStore(cb), SavePairs(credentials)).0.credentials == credentials
  {
    SaveThenLoad(CreateStore(cb), credentials);
    SmallListsSavedWhole(credentials);
  }

  /**
   Loading saved settings after a reset leaves the store clean: the
   property-set path never marks it dirty nor notifies.
   */
  lemma LoadAfterResetIsClean(s: Store, credentials: seq<Credential>)
    ensures AllLoadable(SavePairs(credentials))
    ensures var r := FeedAll(ClearCredentials(Reset(s)), SavePairs(credentials)).0;
      GetState(r) == 0 && r.notified == s.notified
  {
    SaveThenLoad(ClearCredentials(Reset(s)), credentials);
  }
}
