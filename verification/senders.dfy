/** The sender a message is credited to: the `from.user` object's display
    name, else its id, else "Unknown". A JSON null, an absent key and an
    empty string all read as absent, as Python's `or` chain treats them. */
module Senders {
  import opened Results

  /** The `user` entry of a message's `from` object. */
  datatype UserField =
    | NoUser                                                   // no `user` key
    | NullUser                                                 // `"user": null`
    | UserObject(displayName: Option<string>, id: Option<string>)

  /** A message's `from` entry; `NoFrom` covers an absent key and a null. */
  datatype From = NoFrom | FromObject(user: UserField)

  const Unknown: string := "Unknown"

  /** Python's truthiness of an optional string. */
  predicate Present(v: Option<string>) {
    v.Some? && v.value != ""
  }

  /** The lookup as the script writes it: `sender_info.get('user', {})`
      returns None for a null user, and `.get('displayName')` on None raises
      AttributeError. */
  function SenderAsWritten(f: From): (r: Result<string>)
    ensures r.Err? ==> r.error == UserIsNull
  {
    match f
    case NoFrom => Ok(Unknown)
    case FromObject(NoUser) => Ok(Unknown)
    case FromObject(NullUser) => Err(UserIsNull)
    case FromObject(UserObject(name, id)) =>
      Ok(if Present(name) then name.value else if Present(id) then id.value else Unknown)
  }

  /** The lookup with a null user read as no user: it never fails. */
  function Sender(f: From): (r: string)
    ensures r != ""
    ensures f.FromObject? && f.user.UserObject? && Present(f.user.displayName)
      ==> r == f.user.displayName.value
    ensures f.FromObject? && f.user.UserObject? && !Present(f.user.displayName) && Present(f.user.id)
      ==> r == f.user.id.value
    ensures !(f.FromObject? && f.user.UserObject? && (Present(f.user.displayName) || Present(f.user.id)))
      ==> r == Unknown
  {
    match f
    case FromObject(UserObject(name, id)) =>
      if Present(name) then name.value else if Present(id) then id.value else Unknown
    case _ => Unknown
  }

  /** The two lookups agree wherever the script's own lookup succeeds, and it
      fails exactly on a null user. */
  lemma SenderCorrection(f: From)
    ensures SenderAsWritten(f).Err? <==> f == FromObject(NullUser)
    ensures SenderAsWritten(f).Ok? ==> SenderAsWritten(f).value == Sender(f)
  {
  }

  /** The message an application posts carries `"from": {"user": null, ...}`:
      the script's lookup raises on it, the corrected one credits "Unknown". */
  lemma NullUserRaises()
    ensures SenderAsWritten(FromObject(NullUser)) == Err(UserIsNull)
    ensures Sender(FromObject(NullUser)) == Unknown
  {
  }
}
