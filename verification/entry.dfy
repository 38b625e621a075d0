/** An optional value; `None` stands for a NULL pointer of the C interface. */
module Optional {

  datatype Option<+T> = None | Some(value: T) {

    /** The carried value, or `default` when there is none. */
    function GetOr(default: T): (r: T)
      ensures Some? ==> r == value
      ensures None? ==> r == default
    {
      match this
      case Some(v) => v
      case None => default
    }
  }
}

/**
 The credential record: a username, a password and a free-text description.
 Strings are owned copies; the model never shares or mutates them in place.
 */
module CredentialEntry {
  import opened Optional

  datatype Credential = Credential(username: string, password: string, description: string)

  /** The record that every field-less creation produces. */
  const Blank := Credential("", "", "")

  /**
   Builds a record from three possibly-NULL strings. A NULL field becomes the
   empty string; a given field is copied verbatim (no trimming, no case change).
   */
  function Create(username: Option<string>, password: Option<string>, description: Option<string>): (e: Credential)
    ensures username.None? ==> e.username == ""
    ensures password.None? ==> e.password == ""
    ensures description.None? ==> e.description == ""
    ensures username.Some? ==> e.username == username.value
    ensures password.Some? ==> e.password == password.value
    ensures description.Some? ==> e.description == description.value
  {
    Credential(username.GetOr(""), password.GetOr(""), description.GetOr(""))
  }

  /** The username of a record, or NULL when asked about a NULL record. */
  function GetUsername(e: Option<Credential>): (r: Option<string>)
    ensures r.Some? <==> e.Some?
    ensures e.Some? ==> r.value == e.value.username
  {
    match e
    case Some(c) => Some(c.username)
    case None => None
  }

  /** The password of a record, or NULL when asked about a NULL record. */
  function GetPassword(e: Option<Credential>): (r: Option<string>)
    ensures r.Some? <==> e.Some?
    ensures e.Some? ==> r.value == e.value.password
  {
    match e
    case Some(c) => Some(c.password)
    case None => None
  }

  /** The description of a record, or NULL when asked about a NULL record. */
  function GetDescription(e: Option<Credential>): (r: Option<string>)
    ensures r.Some? <==> e.Some?
    ensures e.Some? ==> r.value == e.value.description
  {
    match e
    case Some(c) => Some(c.description)
    case None => None
  }

  /**
   Reading back a freshly created record through the getters yields exactly the
   strings it was created from, with NULL read back as the empty string, and a
   record created from three NULLs is the blank record.
   */
  lemma CreateThenGet(username: Option<string>, password: Option<string>, description: Option<string>)
    ensures GetUsername(Some(Create(username, password, description))) == Some(username.GetOr(""))
    ensures GetPassword(Some(Create(username, password, description))) == Some(password.GetOr(""))
    ensures GetDescription(Some(Create(username, password, description))) == Some(description.GetOr(""))
    ensures Create(None, None, None) == Blank
    ensures Create(Some(""), Some(""), Some("")) == Blank
  {
  }
}
