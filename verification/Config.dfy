/** The configuration model (src/config/models.rs). */
module Config {
  import opened Basics
  import opened Http

  datatype TlsConfig = TlsConfig(certPath: string, keyPath: string)

  datatype FailureMode = Closed | Open

  datatype ForwardAuthConfig = ForwardAuthConfig(
    endpoint: Uri,
    requestHeaders: seq<string>,
    responseHeaders: seq<string>,
    failureMode: FailureMode,
    timeoutSecs: nat)

  /** One `header_up` operation; no value means removal. */
  datatype HeaderDirective = HeaderDirective(name: string, value: Option<string>)

  datatype Directive =
    | ReverseProxy(to: string, connectTimeout: Option<nat>, readTimeout: Option<nat>, headerUp: seq<HeaderDirective>)
    | HandlePath(pattern: string, directives: seq<Directive>)
    | UriReplace(find: string, replace: string)
    | Header(name: string, value: Option<string>)
    | Method(methods: seq<string>, directives: seq<Directive>)
    | StripPrefix(prefix: string)
    | Redirect(status: nat, url: string)
    | Respond(status: nat, body: string)
    | ForwardAuth(auth: ForwardAuthConfig)

  datatype SiteConfig = SiteConfig(address: string, directives: seq<Directive>, tls: Option<TlsConfig>)

  type Sites = map<string, SiteConfig>

  const DEFAULT_REQUEST_HEADERS: seq<string> := ["authorization", "cookie"]
  const DEFAULT_AUTH_TIMEOUT := 5
}
