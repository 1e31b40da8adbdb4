/** Header names and the header multimap (`http::HeaderName`, `http::HeaderMap`). */
module Http {
  import opened Basics

  const MAX_NAME_LENGTH := 65535

  predicate IsTokenChar(c: char) {
    'a' <= c <= 'z' || 'A' <= c <= 'Z' || '0' <= c <= '9' || c in "!#$%&'*+-.^_`|~"
  }

  /** A name as it is stored: valid and already in lower case. */
  predicate ValidName(n: string) {
    && 0 < |n| <= MAX_NAME_LENGTH
    && (forall c :: c in n ==> IsTokenChar(c))
    && Lower(n) == n
  }

  /** `HeaderName::from_bytes`: token characters only, stored in lower case. */
  function HeaderName(s: string): (r: Option<string>)
    ensures r.Some? ==> ValidName(r.value)
  {
    if 0 < |s| <= MAX_NAME_LENGTH && (forall c :: c in s ==> IsTokenChar(c)) then
      Some(Lower(s))
    else
      None
  }

  lemma ValidNameParses(n: string)
    requires ValidName(n)
    ensures HeaderName(n) == Some(n)
  {
  }

  /** All values of each (lower-case) name, in arrival order. */
  type HeaderMap = map<string, seq<string>>

  /** `headers.get(name)`: the first value. */
  function Get(h: HeaderMap, name: string): Option<string> {
    if name in h && h[name] != [] then Some(h[name][0]) else None
  }

  /** Every value of the name, if it is there at all. */
  function AllValues(h: HeaderMap, name: string): Option<seq<string>> {
    if name in h then Some(h[name]) else None
  }

  /** The values of a name that was inserted once, or not at all. */
  function Sole(value: Option<string>): Option<seq<string>> {
    if value.Some? then Some([value.value]) else None
  }

  /** A value that is dropped unless it passes the test: a valid header value, or plain text. */
  function OnlyIf(test: string -> bool, value: Option<string>): Option<string> {
    if value.Some? && test(value.value) then value else None
  }

  /** `headers.insert(name, value)`: replaces every earlier value. */
  function Insert(h: HeaderMap, name: string, value: string): HeaderMap {
    h[name := [value]]
  }

  function Remove(h: HeaderMap, name: string): HeaderMap {
    h - {name}
  }

  /** `headers.get("Name")` with a string that need not be a valid name. */
  function GetByText(h: HeaderMap, text: string): Option<string> {
    var name := HeaderName(text);
    if name.Some? then Get(h, name.value) else None
  }

  const HOST := "host"
  const CONNECTION := "connection"
  const ACCEPT_ENCODING := "accept-encoding"
  const WWW_AUTHENTICATE := "www-authenticate"
  const X_REQUEST_ID := "x-request-id"
  const X_ORIGINAL_URI := "x-original-uri"
  const X_ORIGINAL_METHOD := "x-original-method"
  const X_FORWARDED_FOR := "x-forwarded-for"
  const X_FORWARDED_HOST := "x-forwarded-host"
  const X_FORWARDED_PROTO := "x-forwarded-proto"

  /** A parsed URI; parsing itself is library code and is a parameter where it is needed. */
  datatype Uri = Uri(scheme: Option<string>, authority: Option<string>, pathAndQuery: Option<string>)

  /** The request object that the pipeline changes in place. */
  class Request {
    var headers: HeaderMap
    const verb: string

    constructor (verb: string, headers: HeaderMap)
      ensures this.verb == verb && this.headers == headers
    {
      this.verb, this.headers := verb, headers;
    }
  }
}
