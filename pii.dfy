/** Personally identifying information read from a PII document (src/pii.rs). */
module Pii {
  import opened Wrappers

  datatype Pii = Pii(
    legalName: Option<string>,
    email: Option<string>,
    phone: Option<string>,
    address1: Option<string>,
    address2: Option<string>,
    city: Option<string>,
    state: Option<string>,
    postalCode: Option<string>,
    country: Option<string>,
    affiliations: Option<seq<string>>)

  /** The PII of a document whose front matter could not be parsed. */
  const EMPTY_PII: Pii := Pii(None, None, None, None, None, None, None, None, None, None)
}
