/** The JSON-LD keywords the flattening step consumes, and blank node labels. */
module Keywords {
  const ID := "@id"
  const TYPE := "@type"
  const VALUE := "@value"
  const LIST := "@list"
  const SET := "@set"
  const REVERSE := "@reverse"
  const GRAPH := "@graph"
  const INDEX := "@index"
  const INCLUDED := "@included"
  const DEFAULT := "@default"

  /** `BlankNode.hasPrefix`: the label starts with `_:`. */
  predicate HasBlankPrefix(s: string) {
    |s| >= 2 && s[0] == '_' && s[1] == ':'
  }
}
