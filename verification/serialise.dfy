/**
 The save operation: the credential list written as a `[credentials]` section
 of `key=value` lines, three lines per record and a closing `count=` line.
 */
module Serialise {
  import opened CredentialEntry
  import opened Decimal
  import CredentialStore

  /** Size of the static output buffer. */
  const BufferSize := 4096
  /** Headroom the loop keeps free: it stops once the text reaches `BufferSize - SafetyMargin`. */
  const SafetyMargin := 100
  const Limit := BufferSize - SafetyMargin

  /** The literal that starts every per-record key. */
  const KeyPrefix := "credential_"

  /** The key `credential_<index>_<property>`. */
  function Key(index: nat, property: string): string {
    KeyPrefix + FormatNat(index) + "_" + property
  }

  /** One `key=value` line. */
  function Line(key: string, value: string): string {
    key + "=" + value + "\n"
  }

  /** The section header line `[credentials]`. */
  function Header(): string {
    "[" + CredentialStore.Category + "]\n"
  }

  /** The three pairs one record is saved as, username first and description last. */
  function EntryPairs(index: nat, e: Credential): seq<(string, string)> {
    [(Key(index, "username"), e.username),
     (Key(index, "password"), e.password),
     (Key(index, "description"), e.description)]
  }

  /** The pairs of the first `n` records, in list order. */
  function EntriesPairs(credentials: seq<Credential>, n: nat): (pairs: seq<(string, string)>)
    requires n <= |credentials|
    ensures |pairs| == 3 * n
    decreases n
  {
    if n == 0 then [] else EntriesPairs(credentials, n - 1) + EntryPairs(n - 1, credentials[n - 1])
  }

  /**
   The pairs of records `i` to `n - 1`, in list order, followed by `tail`;
   built from the front, the order in which they are read back.
   */
  function SavedFrom(credentials: seq<Credential>, i: nat, n: nat, tail: seq<(string, string)>): (pairs: seq<(string, string)>)
    requires i <= n <= |credentials|
    ensures |pairs| == 3 * (n - i) + |tail|
    decreases n - i
  {
    if i == n then tail else EntryPairs(i, credentials[i]) + SavedFrom(credentials, i + 1, n, tail)
  }

  /** The last record's pairs can be moved from the listed records into the tail. */
  lemma {:induction false} SavedFromSnoc(credentials: seq<Credential>, i: nat, n: nat, tail: seq<(string, string)>)
    requires i < n <= |credentials|
    ensures SavedFrom(credentials, i, n, tail)
      == SavedFrom(credentials, i, n - 1, EntryPairs(n - 1, credentials[n - 1]) + tail)
    decreases n - i
  {
    if i < n - 1 {
      SavedFromSnoc(credentials, i + 1, n, tail);
    }
  }

  /** Building from the back, as save does, and from the front list the same pairs. */
  lemma {:induction false} EntriesPairsFront(credentials: seq<Credential>, n: nat, tail: seq<(string, string)>)
    requires n <= |credentials|
    ensures EntriesPairs(credentials, n) + tail == SavedFrom(credentials, 0, n, tail)
    decreases n
  {
    if n == 0 {
      assert [] + tail == tail;
    } else {
      var last := EntryPairs(n - 1, credentials[n - 1]);
      EntriesPairsFront(credentials, n - 1, last + tail);
      SavedFromSnoc(credentials, 0, n, tail);
      assert (EntriesPairs(credentials, n - 1) + last) + tail == EntriesPairs(credentials, n - 1) + (last + tail);
    }
  }

  /** A sequence of pairs as consecutive lines. */
  function Render(pairs: seq<(string, string)>): string
    decreases |pairs|
  {
    if |pairs| == 0 then "" else Line(pairs[0].0, pairs[0].1) + Render(pairs[1..])
  }

  /** Rendering distributes over concatenation of pair sequences. */
  lemma {:induction false} RenderAppend(a: seq<(string, string)>, b: seq<(string, string)>)
    ensures Render(a + b) == Render(a) + Render(b)
    decreases |a|
  {
    if |a| > 0 {
      assert (a + b)[1..] == a[1..] + b;
      RenderAppend(a[1..], b);
    } else {
      assert a + b == b;
    }
  }

  /** A single pair renders as its one line. */
  lemma RenderSingle(key: string, value: string)
    ensures Render([(key, value)]) == Line(key, value)
  {
    assert [(key, value)][1..] == [];
  }

  /** The three lines of one record, in the order save writes them. */
  lemma RenderEntry(index: nat, e: Credential)
    ensures Render(EntryPairs(index, e))
      == Line(Key(index, "username"), e.username)
       + Line(Key(index, "password"), e.password)
       + Line(Key(index, "description"), e.description)
  {
    var pairs := EntryPairs(index, e);
    assert pairs[1..][1..][1..] == [];
    assert Render(pairs[1..][1..]) == Line(Key(index, "description"), e.description);
  }

  /**
   The value the C loop's `offset` holds after the header and the first `n`
   records: the length of the text written so far.
   */
  function Offset(credentials: seq<Credential>, n: nat): nat
    requires n <= |credentials|
  {
    |Header() + Render(EntriesPairs(credentials, n))|
  }

  /**
   How many records, counting from record `from`, save writes before it
   stops: it always writes the next record, and stops after it once the
   offset has reached `Limit`, or at the end of the list.
   */
  function WrittenFrom(credentials: seq<Credential>, from: nat): (n: nat)
    requires from <= |credentials|
    ensures from <= n <= |credentials|
    ensures from < |credentials| ==> from < n
    ensures n == |credentials| || Offset(credentials, n) >= Limit
    ensures forall j | from < j < n :: Offset(credentials, j) < Limit
    decreases |credentials| - from
  {
    if from == |credentials| then from
    else if Offset(credentials, from + 1) >= Limit then from + 1
    else WrittenFrom(credentials, from + 1)
  }

  /** The number of records save writes, which is also the value of its `count=` line. */
  function Written(credentials: seq<Credential>): (n: nat)
    ensures n <= |credentials|
    ensures |credentials| > 0 ==> n > 0
    ensures n == |credentials| || Offset(credentials, n) >= Limit
    ensures forall j | 0 < j < n :: Offset(credentials, j) < Limit
  {
    WrittenFrom(credentials, 0)
  }

  /**
   The written count is pinned down by the stopping rule alone: any `n` that
   stops at the end of the list or at the first offset reaching `Limit` is it.
   */
  lemma WrittenUnique(credentials: seq<Credential>, n: nat)
    requires n <= |credentials|
    requires n == |credentials| || (n > 0 && Offset(credentials, n) >= Limit)
    requires forall j | 0 < j < n :: Offset(credentials, j) < Limit
    ensures n == Written(credentials)
  {
    var w := Written(credentials);
    assert n == |credentials| || Offset(credentials, n) >= Limit;
    assert w == |credentials| || Offset(credentials, w) >= Limit;
  }

  /** Everything save produces, as pairs: the written records, then `count`. */
  function SavePairs(credentials: seq<Credential>): seq<(string, string)> {
    var n := Written(credentials);
    EntriesPairs(credentials, n) + [("count", FormatNat(n))]
  }

  /** The saved text: the header line followed by the lines of `SavePairs`. */
  function SaveText(credentials: seq<Credential>): string {
    Header() + Render(SavePairs(credentials))
  }

  /**
   Save, following the C loop: the header, then for each record in
   list order its username, password and description lines, stopping early
   once the text has reached `Limit` characters, and finally the count of
   records written. The text is not cut at `BufferSize`.
   */
  method Save(s: CredentialStore.Store) returns (text: string)
    ensures text == SaveText(s.credentials)
  {
    var credentials := s.credentials;
    text := "[" + CredentialStore.Category + "]\n";
    var count: nat := 0;
    while count < |credentials|
      invariant count <= |credentials|
      invariant text == Header() + Render(EntriesPairs(credentials, count))
      invariant forall j | 0 < j <= count :: Offset(credentials, j) < Limit
    {
      var entry := credentials[count];
      var lines := Line(Key(count, "username"), entry.username)
                 + Line(Key(count, "password"), entry.password)
                 + Line(Key(count, "description"), entry.description);
      EntryStep(credentials, count, text);
      text := text + lines;
      count := count + 1;
      if |text| >= Limit {
        break;
      }
    }
    WrittenUnique(credentials, count);
    CountStep(credentials, count, text);
    text := text + Line("count", FormatNat(count));
  }

  /** The rendered pairs of one more record are the old ones followed by that record's lines. */
  lemma RenderNext(credentials: seq<Credential>, count: nat)
    requires count < |credentials|
    ensures Render(EntriesPairs(credentials, count + 1))
      == Render(EntriesPairs(credentials, count)) + Render(EntryPairs(count, credentials[count]))
  {
    var e := credentials[count];
    assert EntriesPairs(credentials, count + 1) == EntriesPairs(credentials, count) + EntryPairs(count, e);
    RenderAppend(EntriesPairs(credentials, count), EntryPairs(count, e));
  }

  /** One turn of the save loop extends the text by the record's three lines. */
  lemma EntryStep(credentials: seq<Credential>, count: nat, text: string)
    requires count < |credentials|
    requires text == Header() + Render(EntriesPairs(credentials, count))
    ensures var e := credentials[count];
      text + (Line(Key(count, "username"), e.username)
            + Line(Key(count, "password"), e.password)
            + Line(Key(count, "description"), e.description))
      == Header() + Render(EntriesPairs(credentials, count + 1))
  {
    var e := credentials[count];
    var lines := Render(EntryPairs(count, e));
    RenderNext(credentials, count);
    RenderEntry(count, e);
    Concat3(Header(), Render(EntriesPairs(credentials, count)), lines);
  }

  /** The closing line completes the saved text. */
  lemma CountStep(credentials: seq<Credential>, count: nat, text: string)
    requires count == Written(credentials)
    requires text == Header() + Render(EntriesPairs(credentials, count))
    ensures text + Line("count", FormatNat(count)) == SaveText(credentials)
  {
    var pairs := EntriesPairs(credentials, count);
    var last := [("count", FormatNat(count))];
    assert SavePairs(credentials) == pairs + last;
    RenderAppend(pairs, last);
    RenderSingle("count", FormatNat(count));
    Concat3(Header(), Render(pairs), Line("count", FormatNat(count)));
  }

  /**
   The saved text starts with the section header, has the written records'
   lines next, and ends with `count=<n>` for the number `n` of records written.
   */
  lemma SaveTextFormat(credentials: seq<Credential>)
    ensures var n := Written(credentials);
      SaveText(credentials) == "[credentials]\n" + Render(EntriesPairs(credentials, n)) + "count=" + FormatNat(n) + "\n"
  {
    var n := Written(credentials);
    var f := FormatNat(n);
    var text := Header() + Render(EntriesPairs(credentials, n));
    CountStep(credentials, n, text);
    HeaderText();
    CountLine(f);
    Concat3(text, "count=" + f, "\n");
    Concat3(text, "count=", f);
  }

  /** The header names the credentials category. */
  lemma HeaderText()
    ensures Header() == "[credentials]\n"
  {
  }

  /** The closing line spelled out. */
  lemma CountLine(f: string)
    ensures Line("count", f) == "count=" + f + "\n"
  {
    assert "count" + "=" == "count=";
  }

  /** String concatenation regroups freely. */
  lemma Concat3(a: string, b: string, c: string)
    ensures a + (b + c) == (a + b) + c
  {
  }

  /**
   The text is the concatenation of the pairs' lines; no record lines appear
   after the `count` line, and the count is at most the list length.
   */
  lemma SaveShape(credentials: seq<Credential>)
    ensures var n := Written(credentials);
      && n <= |credentials|
      && |SavePairs(credentials)| == 3 * n + 1
      && SavePairs(credentials)[3 * n] == ("count", FormatNat(n))
      && forall i | 0 <= i < n ::
           SavePairs(credentials)[3 * i .. 3 * i + 3] == EntryPairs(i, credentials[i])
  {
    var n := Written(credentials);
    forall i | 0 <= i < n
      ensures SavePairs(credentials)[3 * i .. 3 * i + 3] == EntryPairs(i, credentials[i])
    {
      EntriesPairsSlice(credentials, n, i);
    }
  }

  /** Record `i`'s three pairs sit at positions `3i`, `3i+1`, `3i+2`. */
  lemma {:induction false} EntriesPairsSlice(credentials: seq<Credential>, n: nat, i: nat)
    requires i < n <= |credentials|
    ensures EntriesPairs(credentials, n)[3 * i .. 3 * i + 3] == EntryPairs(i, credentials[i])
    decreases n
  {
    if i < n - 1 {
      EntriesPairsSlice(credentials, n - 1, i);
      assert EntriesPairs(credentials, n)[3 * i .. 3 * i + 3] == EntriesPairs(credentials, n - 1)[3 * i .. 3 * i + 3];
    }
  }

  /**
   The margin is checked only after a whole record: one record whose username
   alone fills the buffer is still written, so the text, and the `offset` the
   loop keeps, run past `BufferSize` before the `count` line is added.
   */
  lemma LongRecordPassesBuffer(e: Credential)
    requires |e.username| >= BufferSize
    ensures Written([e]) == 1
    ensures Offset([e], 1) > BufferSize
  {
    var lines := Line(Key(0, "username"), e.username)
               + Line(Key(0, "password"), e.password)
               + Line(Key(0, "description"), e.description);
    assert EntriesPairs([e], 1) == [] + EntryPairs(0, e);
    RenderEntry(0, e);
    assert |lines| > |e.username|;
  }

  /** When the whole list fits under the limit, every record is written. */
  lemma SmallListsSavedWhole(credentials: seq<Credential>)
    requires forall j | 0 < j <= |credentials| :: Offset(credentials, j) < Limit
    ensures Written(credentials) == |credentials|
  {
    WrittenUnique(credentials, |credentials|);
  }
}
