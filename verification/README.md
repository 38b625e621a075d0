# Credential settings: a verified model

This project models the credential-list manager of the application's settings
dialog. The component keeps an ordered list of credential records. Each record
holds a username, a password and a description. The component also keeps an
"unsaved changes" flag and can notify its owner through a state-changed
callback.

It persists the list as a `[credentials]` settings section made of
`credential_<i>_<field>=<value>` lines and a closing `count=<n>` line. It loads
the list back one `key=value` pair at a time, through its property-set entry
point.

The widgets are not modelled. The model keeps the list, the flag, the callback
registration, and a count of how many times the callback fired. Every operation
is a pure function from the old store to the new one, except save. Save is a
method that follows the C loop.

Modules:

- `Optional` and `CredentialEntry` (entry.dfy): the record, its constructor
  from possibly-NULL strings, and its getters.
- `CredentialStore` (store.dfy): the store, the state-changed dispatch, the
  flag operations, add, remove, clear, the lookups, and the commit logic of the
  add/edit dialog.
- `Decimal` (decimal.dfy): `%d` as `snprintf` writes it and as `sscanf` reads
  it, plus the `isspace` character classes.
- `Serialise` (serialise.dfy): save, together with a declarative description
  of the text it produces and of where its loop stops.
- `Deserialise` (deserialise.dfy): the property-set operation. This includes
  the `strncmp` prefix test, the `sscanf("credential_%d_%31s")` scan, the
  growth of the list with blank records, and the field update.
- `RoundTrip` (roundtrip.dfy): loading a sequence of pairs, and the main
  theorem. Feeding the pairs that save writes back through the property-set
  operation, into a store with an empty list, rebuilds exactly the records
  that were written. Every pair is consumed, and the flag and the notification
  count do not move.

## Model

| member | source | states |
|---|---|---|
| CredentialEntry.Create | src/app/settings/app_settings_credentials.c:21-27 | A NULL field becomes the empty string; a given field is copied verbatim, field by field |
| CredentialEntry.GetUsername | src/app/settings/app_settings_credentials.c:38-40 | NULL exactly when the record is NULL, otherwise the record's username |
| CredentialEntry.GetPassword | src/app/settings/app_settings_credentials.c:42-44 | NULL exactly when the record is NULL, otherwise the record's password |
| CredentialEntry.GetDescription | src/app/settings/app_settings_credentials.c:46-48 | NULL exactly when the record is NULL, otherwise the record's description |
| CredentialEntry.CreateThenGet | src/app/settings/app_settings_credentials.c:21-48 | Reading a created record back through the getters returns the strings it was built from, with NULL read as ""; three NULLs build the blank record |
| CredentialStore.CreateStore | src/app/settings/app_settings_credentials.c:294-307 | A new component has an empty list, no unsaved changes, and has not notified |
| CredentialStore.DispatchStateChanged | src/app/settings/app_settings_credentials.c:51-56 | Sets the unsaved-changes flag and fires the callback exactly once if one is registered; the list is untouched |
| CredentialStore.GetState | src/app/settings/app_settings_credentials.c:321-323 | The state is 0 or 1, and 1 exactly when there are unsaved changes |
| CredentialStore.SetState | src/app/settings/app_settings_credentials.c:325-331 | State 0 clears the unsaved-changes flag; any other state changes nothing; the list and callback are never touched |
| CredentialStore.Reset | src/app/settings/app_settings_credentials.c:401-405 | Clears the unsaved-changes flag and keeps the loaded list as it is |
| CredentialStore.AddCredential | src/app/settings/app_settings_credentials.c:408-413 | The count grows by one, every old index reads the same record, the new last index reads the created record, and the store is marked dirty and notified |
| CredentialStore.RemoveCredential | src/app/settings/app_settings_credentials.c:415-423 | At a valid index, earlier records stay put, later ones move down by one, the count drops by one, and the store is notified; a negative or too-large index changes nothing |
| CredentialStore.Commit | src/app/settings/app_settings_credentials.c:209-235 | A dismissed dialog or an empty username changes nothing; otherwise an edit replaces all three fields of that record and touches no other, an add appends, and either way the store is notified |
| CredentialStore.ClearCredentials | src/app/settings/app_settings_credentials.c:425-431 | The list becomes empty; the flag and the notification count are not touched |
| CredentialStore.GetCredentialCount | src/app/settings/app_settings_credentials.c:433-435 | The number of records in the list |
| CredentialStore.GetCredential | src/app/settings/app_settings_credentials.c:437-439 | NULL exactly when the index is negative or past the end, otherwise the record at that position |
| CredentialStore.RemoveUndoesAdd | src/app/settings/app_settings_credentials.c:408-423 | Removing the record just added restores the previous list, at the price of two notifications when a callback is registered (none otherwise) |
| CredentialStore.RemoveThenReinsert | src/app/settings/app_settings_credentials.c:415-423 | Removal loses exactly the one record: putting it back at its index gives the original list |
| CredentialStore.CommitAddIsAdd | src/app/settings/app_settings_credentials.c:226-229 | Confirming the dialog for a new record is the same as adding a record with those strings |
| CredentialStore.CommitUnchangedEdit | src/app/settings/app_settings_credentials.c:218-233 | Confirming an edit with unchanged fields keeps the list but still marks the store dirty and notifies |
| CredentialStore.AcknowledgeIdempotent | src/app/settings/app_settings_credentials.c:325-331 | Acknowledging a save (state 0) is idempotent and has the same effect as reset |
| CredentialStore.ClearIdempotent | src/app/settings/app_settings_credentials.c:425-431 | Clearing twice is clearing once |
| Decimal.FormatNat | src/app/settings/app_settings_credentials.c:346-358 | `%d` of a record index or count is a non-empty string of decimal digits with no leading zero |
| Decimal.FormatNatValue | src/app/settings/app_settings_credentials.c:346-358 | The digits `%d` writes for a record index or count denote that number |
| Decimal.FormatNatInjective | src/app/settings/app_settings_credentials.c:346-351 | Distinct indices are written as distinct digit strings, so distinct records get distinct keys |
| Decimal.ScanInt | src/app/settings/app_settings_credentials.c:368 | A `%d` match consumes at least one character, ends on a digit, and is followed by a non-digit or the end |
| Decimal.ScanFormatted | src/app/settings/app_settings_credentials.c:368 | `%d` reads back exactly the number and the width `%d` wrote, when a non-digit follows |
| Serialise.Save | src/app/settings/app_settings_credentials.c:337-361 | The loop's text equals the declarative saved text: the header, then the lines of the written records in list order, then `count=` with the number written |
| Serialise.Written | src/app/settings/app_settings_credentials.c:343-356 | At least one record is written when there is any; writing stops only at the end of the list or right after the record whose lines bring the text to the limit |
| Serialise.WrittenUnique | src/app/settings/app_settings_credentials.c:343-356 | The stopping rule alone determines how many records are written |
| Serialise.SaveTextFormat | src/app/settings/app_settings_credentials.c:339-358 | The saved text is `[credentials]`, then the record lines, then `count=<n>` |
| Serialise.SaveShape | src/app/settings/app_settings_credentials.c:343-358 | Save produces 3n+1 pairs: record i's username, password and description at positions 3i to 3i+2, then `count` with n |
| Serialise.EntriesPairsSlice | src/app/settings/app_settings_credentials.c:346-351 | The three pairs of record i sit at positions 3i, 3i+1 and 3i+2 |
| Serialise.LongRecordPassesBuffer | src/app/settings/app_settings_credentials.c:343-356 | The margin is checked only after a whole record, so one record whose username fills the buffer is still written and the offset passes 4096 before the `count` line |
| Serialise.SmallListsSavedWhole | src/app/settings/app_settings_credentials.c:355 | When every prefix of the list stays under the limit, every record is written |
| Serialise.EntriesPairsFront | src/app/settings/app_settings_credentials.c:343-353 | The pairs built the way save appends them equal the pairs listed from the front, the order a reader consumes them |
| Deserialise.ScanKey | src/app/settings/app_settings_credentials.c:364-368 | A key scans only when it passes the `strncmp` prefix test (`HasKeyPrefix`); a scanned key has the `credential_` prefix and a property name of 1 to 31 characters without white space |
| Deserialise.ScanProperty | src/app/settings/app_settings_credentials.c:368 | `_%31s` yields 1 to 31 characters without white space, or fails |
| Deserialise.Grow | src/app/settings/app_settings_credentials.c:370-373 | The list length becomes the larger of its old length and n; the old records are kept and the padding is blank records |
| Deserialise.SetProperty | src/app/settings/app_settings_credentials.c:363-399 | Setting a property never touches the unsaved-changes flag or the callback, and returns 0 or 1 |
| Deserialise.SetPropertyEffect | src/app/settings/app_settings_credentials.c:363-399 | The key is consumed exactly when it scans or is `count`; a refused key or `count` changes nothing; a scanned key for record i pads the list with blank records up to i, keeps every other record, and sets only the named field of record i |
| Deserialise.SetPropertyOnNext | src/app/settings/app_settings_credentials.c:370-389 | A key for the index one past the end appends one blank record with the named field set |
| Deserialise.SetPropertyOnExisting | src/app/settings/app_settings_credentials.c:375-389 | A key for an existing index updates that record only and does not grow the list |
| Deserialise.SetPropertyIntoEmpty | src/app/settings/app_settings_credentials.c:370-389 | A key for record i, read into an empty list, gives i blank records followed by one with the named field set |
| Deserialise.AssignNamed | src/app/settings/app_settings_credentials.c:377-388 | The `strcmp` chain of `Assign`: the names `username`, `password` and `description` select the matching field |
| Deserialise.ScanSavedKey | src/app/settings/app_settings_credentials.c:346-368 | Every key save writes scans back to its index and property name |
| Deserialise.CountKeyIgnored | src/app/settings/app_settings_credentials.c:392-395 | The `count` key is consumed and changes nothing |
| Deserialise.LoadUsernameIntoEmpty | src/app/settings/app_settings_credentials.c:370-380 | A username for record n, read into an empty store, gives n blank records and then one holding just that username |
| RoundTrip.FeedAll | src/app/settings/app_settings_credentials.c:363-399 | Loading any sequence of pairs keeps the flag and the callback and consumes at most all the pairs |
| RoundTrip.FeedEntryThen | src/app/settings/app_settings_credentials.c:346-389 | The three saved pairs of record i, read into a store of i records, append that record and consume three pairs |
| RoundTrip.FeedEntriesThen | src/app/settings/app_settings_credentials.c:343-389 | The saved pairs of records i to n-1, read into a store holding the first i records, rebuild the first n records, three pairs each |
| RoundTrip.SaveThenLoad | src/app/settings/app_settings_credentials.c:337-399 | Feeding everything save wrote back into an empty list rebuilds exactly the written records in order, consumes every pair, and keeps the flag and count |
| RoundTrip.SaveThenLoadWhole | src/app/settings/app_settings_credentials.c:337-399 | When the list stays under the limit, save followed by load gives back the whole list |
| RoundTrip.LoadAfterResetIsClean | src/app/settings/app_settings_credentials.c:401-405 | Loading saved settings after reset and clear leaves the component without unsaved changes and without new notifications |

## Left out

- Widgets are not modelled: the list box, its rows and selection, the buttons, the dialog, `refresh_listbox`, `update_button_states`, `get_widget` and `create_ui`. `set_state` also sets the widgets' sensitivity, which is left out for the same reason.
- The dialog identifies the record being edited by a pointer. The model identifies it by its index.
- Memory management is not modelled: `malloc`/`free`, `strdup`, `CredentialEntry__destroy` and the component's `destroy`. Strings are values, and `destroy` only clears the list and frees.
- `get_category` returns the constant `credentials`. The model keeps it as the constant `CredentialStore.Category`, used in the header line.
- Serialise.Save: the 4096-byte static buffer is not modelled. `snprintf` truncation is not modelled, and neither are the writes past the buffer's end once `offset` exceeds 4096. The loop lets that happen because it checks the margin only after a whole record (`Serialise.LongRecordPassesBuffer` exhibits it). The model's text is the untruncated concatenation. Its length is the value the C `offset` accumulates, so the stopping rule is exact for ASCII text.
- Lengths are counted in characters, not UTF-8 bytes. Embedded NUL characters and a `=` or newline inside a value are not modelled. Splitting the settings file into `key=value` pairs belongs to the external settings reader, which is not part of this model. The round trip is therefore stated at the level of pairs.
- Deserialise.SetProperty: requires that a scanned key does not carry a negative index. The C growth loop compares the length with `(guint)index`: for index -1 that is `UINT_MAX`, which every `guint` length satisfies, so the loop never ends; any other negative index makes it append between 2^31+1 and 2^32-1 blank records. Neither is meaningfully modelled.
- Decimal.ScanInt: values outside the range of a C `int` are not narrowed, since `sscanf`'s behaviour for them is undefined. `%d` values written by save are non-negative and are never narrowed either.
- RoundTrip.SaveThenLoad: the C buffer holds the modelled text only while that text stays under 4096 bytes. When save stops early, the last record written is the one that took the text past 3996 characters; the part of it beyond 3996, plus the `count` line, must fit in the last 100 bytes of the buffer, which leaves about 90 bytes for the record. Beyond that the C output is truncated, and the round trip is not promised for it.
- The state-changed callback is modelled only by counting its calls: whatever the callback itself does, including any call from it back into the component, is not modelled.
- `count` and `index` are C `int`s. Overflow past `INT_MAX` records is not modelled.
