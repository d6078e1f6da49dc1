/** The boundary to the YAML front-matter parser (the `yaml_front_matter` crate).
    The parser itself is not modelled: callers pass it in as a function from the
    raw text to either the parsed metadata and the body, or nothing on failure. */
module FrontMatter {
  import opened Wrappers

  /** `yaml_front_matter::Document<M>`: parsed metadata and the remaining body. */
  datatype Document<M> = Document(metadata: M, content: string)

  /** `YamlFrontMatter::parse::<M>`, with `Err` collapsed to `None`. */
  type Parser<M> = string -> Option<(M, string)>
}
