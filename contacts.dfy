/** The Contact record, the consolidated view returned to callers, and the
    way the service reads optional request values. */
module Contacts {

  datatype Option<+T> = None | Some(value: T)

  datatype LinkPrecedence = Primary | Secondary

  /** One stored identity fragment. `createdAt` and `deletedAt` are ticks of
      the store's clock rather than wall-clock dates; `updatedAt` is not kept. */
  datatype Contact = Contact(
    id: int,
    email: Option<string>,
    phoneNumber: Option<string>,
    linkedId: Option<int>,
    linkPrecedence: LinkPrecedence,
    createdAt: int,
    deletedAt: Option<int>)

  /** The response body; the field name `primaryContatctId` is kept as the
      external contract spells it. */
  datatype ConsolidatedContact = ConsolidatedContact(
    primaryContatctId: int,
    emails: seq<string>,
    phoneNumbers: seq<string>,
    secondaryContactIds: seq<int>)

  /** JavaScript truthiness of an optional string: null, undefined and the
      empty string are all falsy. */
  predicate Present(v: Option<string>) {
    v.Some? && v.value != ""
  }

  /** `value || null`: an empty string is read as an absent value, any other
      value is kept as it is. */
  function Normalize(v: Option<string>): (r: Option<string>)
    ensures r.Some? <==> Present(v)
    ensures r.Some? ==> r == v
  {
    if Present(v) then v else None
  }

  /** Soft-deleted records (`deletedAt` set) are invisible to every query. */
  predicate Live(c: Contact) {
    c.deletedAt.None?
  }

  /** Some member of the cluster stores exactly this email. */
  predicate SomeEmail(cluster: seq<Contact>, email: Option<string>) {
    exists c :: c in cluster && c.email == email
  }

  /** Some member of the cluster stores exactly this phone number. */
  predicate SomePhone(cluster: seq<Contact>, phone: Option<string>) {
    exists c :: c in cluster && c.phoneNumber == phone
  }
}
