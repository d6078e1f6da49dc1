/** The front-matter fields of a manuscript fragment (src/metadata.rs). */
module Metadata {
  import opened Wrappers

  /** Every field is optional; an absent `include` makes the document standalone
      and an absent `heading` means no section heading is emitted for it. */
  datatype Metadata = Metadata(
    contentWarnings: Option<seq<string>>,
    includes: Option<seq<string>>,  // the `include` manifest
    shortTitle: Option<string>,
    shortAuthor: Option<string>,
    title: Option<string>,
    author: Option<string>,
    heading: Option<string>)

  /** The metadata of a document with no (or unparsable) front matter. */
  const EMPTY_METADATA: Metadata := Metadata(None, None, None, None, None, None, None)
}
