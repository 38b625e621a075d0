/**
 The credential-list manager without its widgets: an ordered list of
 credential records, the unsaved-changes flag, and the change notification
 sent to the owner. Every operation is a pure function from the old store to
 the new one.
 */
module CredentialStore {
  import opened Optional
  import opened CredentialEntry

  /** The name of the settings section this component owns. */
  const Category := "credentials"

  /**
   `credentials` is the list in display and persisted order; `hasChanges` is the
   unsaved-changes flag; `hasCallback` records whether the owner registered a
   state-changed callback; `notified` counts how many times that callback has
   been invoked.
   */
  datatype Store = Store(credentials: seq<Credential>, hasChanges: bool, hasCallback: bool, notified: nat)

  /** The outcome the dialog reports: confirmed with "OK", or closed any other way. */
  datatype Response = Confirmed | Dismissed

  /** The number of callback invocations one state-changed dispatch costs. */
  function Calls(s: Store): nat {
    if s.hasCallback then 1 else 0
  }

  /** `r` keeps the callback registration of `s` and records one more dispatch. */
  predicate Dispatched(s: Store, r: Store) {
    r.hasChanges && r.hasCallback == s.hasCallback && r.notified == s.notified + Calls(s)
  }

  /** `r` differs from `s` at most in its list: flag, callback and count untouched. */
  predicate FlagsKept(s: Store, r: Store) {
    r.hasChanges == s.hasChanges && r.hasCallback == s.hasCallback && r.notified == s.notified
  }

  /** A new, empty, clean store; `hasCallback` says whether a callback was given. */
  function CreateStore(hasCallback: bool): (s: Store)
    ensures |s.credentials| == 0 && !s.hasChanges
    ensures s.hasCallback == hasCallback && s.notified == 0
  {
    Store([], false, hasCallback, 0)
  }

  /** Marks the store dirty, then invokes the callback if one is registered. */
  function DispatchStateChanged(s: Store): (r: Store)
    ensures r.credentials == s.credentials
    ensures Dispatched(s, r)
    ensures GetState(r) == 1
  {
    s.(hasChanges := true, notified := s.notified + Calls(s))
  }

  /** 1 while there are unsaved changes, 0 otherwise. */
  function GetState(s: Store): (state: int)
    ensures state == 0 || state == 1
    ensures state == 1 <==> s.hasChanges
  {
    if s.hasChanges then 1 else 0
  }

  /**
   State 0 acknowledges a save and clears the unsaved-changes flag; any other
   state leaves the store as it is (it only re-enables the widgets).
   */
  function SetState(s: Store, state: int): (r: Store)
    ensures state == 0 ==> GetState(r) == 0
    ensures state != 0 ==> r == s
    ensures r.credentials == s.credentials && r.hasCallback == s.hasCallback && r.notified == s.notified
  {
    if state == 0 then s.(hasChanges := false) else s
  }

  /** Redraws from the current list (left out) and forgets unsaved changes; the list stays. */
  function Reset(s: Store): (r: Store)
    ensures GetState(r) == 0
    ensures r.credentials == s.credentials && r.hasCallback == s.hasCallback && r.notified == s.notified
  {
    s.(hasChanges := false)
  }

  /** Appends a record built from the possibly-NULL strings, marks dirty and notifies. */
  function AddCredential(s: Store, username: Option<string>, password: Option<string>, description: Option<string>): (r: Store)
    ensures GetCredentialCount(r) == GetCredentialCount(s) + 1
    ensures forall i | 0 <= i < |s.credentials| :: GetCredential(r, i) == GetCredential(s, i)
    ensures GetCredential(r, |s.credentials|) == Some(Create(username, password, description))
    ensures Dispatched(s, r) && GetState(r) == 1
  {
    DispatchStateChanged(s.(credentials := s.credentials + [Create(username, password, description)]))
  }

  /**
   Deletes the record at `index` when `0 <= index < count`: the records before
   it keep their positions, the ones after it move down by one, and the store
   is marked dirty and notified. Any other index changes nothing at all.
   */
  function RemoveCredential(s: Store, index: int): (r: Store)
    ensures !(0 <= index < |s.credentials|) ==> r == s
    ensures 0 <= index < |s.credentials| ==>
      && GetCredentialCount(r) == GetCredentialCount(s) - 1
      && (forall i | 0 <= i < index :: GetCredential(r, i) == GetCredential(s, i))
      && (forall i | index <= i < |r.credentials| :: GetCredential(r, i) == GetCredential(s, i + 1))
      && Dispatched(s, r)
  {
    if 0 <= index < |s.credentials| then
      DispatchStateChanged(s.(credentials := s.credentials[..index] + s.credentials[index + 1..]))
    else
      s
  }

  /**
   The "OK" branch of the add/edit dialog. With an empty username, or when the
   dialog is dismissed, nothing changes. Otherwise, when editing the record at
   `editing`, all three of its fields are replaced and no other record is
   touched; when adding, a new record is appended. Either way the store is
   then marked dirty and notified.
   */
  function Commit(s: Store, response: Response, editing: Option<nat>,
                  username: string, password: string, description: string): (r: Store)
    requires editing.Some? ==> editing.value < |s.credentials|
    ensures response == Dismissed || |username| == 0 ==> r == s
    ensures response == Confirmed && |username| > 0 ==> Dispatched(s, r)
    ensures response == Confirmed && |username| > 0 && editing.Some? ==>
      && GetCredentialCount(r) == GetCredentialCount(s)
      && GetCredential(r, editing.value) == Some(Credential(username, password, description))
      && forall i | 0 <= i < |s.credentials| && i != editing.value :: GetCredential(r, i) == GetCredential(s, i)
    ensures response == Confirmed && |username| > 0 && editing.None? ==>
      && GetCredentialCount(r) == GetCredentialCount(s) + 1
      && GetCredential(r, |s.credentials|) == Some(Credential(username, password, description))
      && forall i | 0 <= i < |s.credentials| :: GetCredential(r, i) == GetCredential(s, i)
  {
    if response == Confirmed && |username| > 0 then
      var credentials :=
        match editing
        case Some(i) => s.credentials[i := Credential(username, password, description)]
        case None => s.credentials + [Create(Some(username), Some(password), Some(description))];
      DispatchStateChanged(s.(credentials := credentials))
    else
      s
  }

  /** Drops every record; neither the flag nor the callback is touched. */
  function ClearCredentials(s: Store): (r: Store)
    ensures GetCredentialCount(r) == 0
    ensures FlagsKept(s, r)
  {
    s.(credentials := [])
  }

  /** The number of records in the list. */
  function GetCredentialCount(s: Store): (n: int)
    ensures n >= 0
    ensures n == |s.credentials|
  {
    |s.credentials|
  }

  /** The record at `index`, or NULL when `index` is negative or past the end. */
  function GetCredential(s: Store, index: int): (e: Option<Credential>)
    ensures e.Some? <==> 0 <= index < |s.credentials|
    ensures e.Some? ==> e.value == s.credentials[index]
  {
    if 0 <= index < |s.credentials| then Some(s.credentials[index]) else None
  }

  /**
   Removing the record that was just added restores the previous list; only
   the flag and the notification count remember that anything happened.
   */
  lemma RemoveUndoesAdd(s: Store, username: Option<string>, password: Option<string>, description: Option<string>)
    ensures RemoveCredential(AddCredential(s, username, password, description), |s.credentials|).credentials == s.credentials
    ensures RemoveCredential(AddCredential(s, username, password, description), |s.credentials|).notified
      == s.notified + 2 * Calls(s)
  {
    var a := AddCredential(s, username, password, description);
    assert a.credentials[..|s.credentials|] == s.credentials;
    assert a.credentials[|s.credentials| + 1..] == [];
  }

  /**
   Removal at a valid index loses exactly one record: putting it back at the
   same position gives the original list.
   */
  lemma RemoveThenReinsert(s: Store, index: int)
    requires 0 <= index < |s.credentials|
    ensures var r := RemoveCredential(s, index);
      r.credentials[..index] + [s.credentials[index]] + r.credentials[index..] == s.credentials
  {
    var r := RemoveCredential(s, index);
    assert r.credentials[..index] == s.credentials[..index];
    assert r.credentials[index..] == s.credentials[index + 1..];
    assert s.credentials == s.credentials[..index] + [s.credentials[index]] + s.credentials[index + 1..];
  }

  /** Confirming the dialog for a new record is the same as `AddCredential` with those strings. */
  lemma CommitAddIsAdd(s: Store, username: string, password: string, description: string)
    requires |username| > 0
    ensures Commit(s, Confirmed, None, username, password, description)
      == AddCredential(s, Some(username), Some(password), Some(description))
  {
  }

  /**
   Confirming an edit without changing any field leaves the list as it was,
   but still marks the store dirty and notifies.
   */
  lemma CommitUnchangedEdit(s: Store, index: nat)
    requires index < |s.credentials| && |s.credentials[index].username| > 0
    ensures var e := s.credentials[index];
      var r := Commit(s, Confirmed, Some(index), e.username, e.password, e.description);
      r.credentials == s.credentials && Dispatched(s, r)
  {
  }

  /** Acknowledging a save, or resetting, clears the flag whatever its previous value, and is idempotent. */
  lemma AcknowledgeIdempotent(s: Store)
    ensures SetState(SetState(s, 0), 0) == SetState(s, 0) == Reset(s) == Reset(Reset(s))
  {
  }

  /** Clearing the list twice is clearing it once. */
  lemma ClearIdempotent(s: Store)
    ensures ClearCredentials(ClearCredentials(s)) == ClearCredentials(s)
  {
  }
}
