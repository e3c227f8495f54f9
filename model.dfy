/** The value types every finder and report shares. */
module Model {

  /**
   * One discovered resource (`Resource` in both programs). `kind` is the
   * source's `type` field ("Lambda" or "Deployment").
   */
  datatype Resource = Resource(kind: string, name: string, version: string)

  /** The version reported when none can be determined. */
  const NotAvailable: string := "N/A"

  const LambdaKind: string := "Lambda"

  const DeploymentKind: string := "Deployment"

  datatype Option<T> = None | Some(value: T)

  /**
   * What one point lookup against a cloud or cluster API gives: the item, a
   * not-found error, another error of the API's own kind (a non-404
   * `ApiException`, an `SdkException`, a Kubernetes `StatusError` with another
   * reason), or an error of any other kind.
   */
  datatype Lookup<T> = Found(value: T) | NotFound | ApiError | OtherError

  /**
   * What a finder hands back: its resources, an error (returned in Go, thrown
   * in Java), or the end of the process (Go's `log.Fatal`).
   */
  datatype Outcome<T> = Ok(value: T) | Error | Fatal

  /**
   * A regex engine as the finders use it, left abstract: whether a pattern
   * compiles, and whether a pattern matches a name. In the Java model
   * `matches` is `Matcher.matches()` (the whole name); in the Go model it is
   * `Regexp.MatchString` (somewhere in the name).
   */
  datatype RegexEngine = RegexEngine(compiles: string -> bool, matches: (string, string) -> bool)

  /** One entry of a tag filter: a key and the values it accepts. */
  datatype Tag = Tag(key: string, values: seq<string>)

  /**
   * `ResourceConfig` (Java): the selection for one resource kind. A null field
   * is `None`; `tags` lists the entries of the map in its iteration order.
   */
  datatype ResourceConfig = ResourceConfig(
    namespace: Option<string>,
    tags: Option<seq<Tag>>,
    exclude: Option<seq<string>>,
    includes: Option<seq<string>>)

  /** Name lookup is chosen exactly when the include list is present and not empty. */
  predicate UsesInclude(config: ResourceConfig) {
    config.includes.Some? && config.includes.value != []
  }
}
