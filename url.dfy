/** The part of the WHATWG `URL` parser the system relies on. Parsing itself is
    left to the caller: a `UrlParser` stands for `new URL(value)` and yields
    `None` where the constructor throws. */
module WebUrl {
  import opened Wrappers

  /** The two properties of a parsed URL that the system reads. */
  datatype UrlParts = UrlParts(protocol: string, hostname: string)

  type UrlParser = string -> Option<UrlParts>

  predicate IsHttpProtocol(protocol: string) {
    protocol == "http:" || protocol == "https:"
  }
}
