# tiny-proxy: a Dafny model

This project models the request pipeline, the configuration parser, the listener planning and two shared-state
protocols of tiny-proxy, and states what holds of them for every configuration, request and outside world.
`dafny verify dfyconfig.toml` checks all of it.

## How the model is built

| files | what they model |
|---|---|
| `Basics`, `Text`, `Http`, `Config` | strings, words and lines, header names and the header multimap, the configuration types |
| `Characters` | the string and header operations said character by character: case, order, numbers, replacement, names |
| `Paths`, `ForwardAuth`, `Handler` | path rewriting, the auth subrequest, the directive interpreter |
| `Rules` | what each directive does, in terms of characters, numbers and header values |
| `Chains`, `AuthSafety`, `Backend` | which directives a request executes, what every run keeps, the request sent to a backend |
| `Substitution`, `Templates`, `Termination` | the placeholder rewriting loops, what they mean on templates, and when they end |
| `Iteration`, `Graphs` | loops that may not end, and chains of names that refer to names |
| `HeaderTexts` | the interpreter and the backend stage joined with the code's own substitution |
| `Listen`, `SiteLookup` | addresses, the socket validator, listener groups, SNI tables, site lookup |
| `Parser`, `ParserLoop`, `Printer`, `RoundTrip`, `Image`, `Conservation` | the configuration parser as a function and as a loop, a canonical printer, and the laws between them |
| `Grammar` | what single lines and the settings of a block mean, whatever stands around them |
| `Permits`, `Reload` | connection permits and hot reload as step machines |
| `Startup` | from a text to a listener plan, and from requests to answers while the configuration is exchanged |

Code that changes things in place is imperative here too (the `Request` and `Outside` objects, the parser's
variables, every loop) and is proved against a function on values; the theorems are about those functions.

The outside world enters as arbitrary functions, so every theorem is for all of them:

- the auth service is a function of all subrequests sent so far in the request (it may keep state) to a response with
  status, headers and body frames, or a client error, or a timeout;
- UUIDs are drawn from an arbitrary supply; environment variables, header-value validity, `Uri` and `SocketAddr`
  parsing and certificate loading are arbitrary functions;
- the interpreter takes substitution as an arbitrary function too, because the code's own need not return (see
  `HeaderLoopEndsExactly`); `HeaderTexts.LikeCode` says that it answers as the code does wherever the code returns, and
  `LikeCodeExists` that there are such worlds;
- the iteration order of a hash map is an arbitrary enumeration of its keys.

Header maps are multimaps from lower-case names to all values; 64-bit wrap-around of durations and the 16-bit and
64-bit limits of number parsing are explicit.

## Main results

1. **Flattening.** A router that sees only tree, path and method reduces any nested configuration to a straight line of
   header and auth operations with the same effect (`FlatteningPreservesMeaning`); the line is the unique chain of
   directives in front of the first match on each level (`RouteFollowsChain`, `ChainIsUnique`). `Rules` gives one rule
   per directive that names none of the interpreter's own functions; together they determine every run.
2. **Auth safety over whole runs.** The gate (`AuthGate`, `PassesExactly`), provenance of every value of an identity
   header (`IdentityProvenance`), independence from spoofed headers (`SpoofedHeadersDoNotMatter`,
   `LiteralsHideSpoofing`, `UnreadHeadersDoNotMatter`) and its limits (`CopiedValueReturns`, `UnnamedValueReturns`),
   monotonicity in the failure mode (`ClosingOnlyAdds503`), and the way of an identity header to the backend
   (`IdentityReachesBackend`).
3. **The parser.** A configuration is the result of some text exactly when it is `Expressible`, and the canonical text
   of such a configuration parses back to it (`ExpressibleExactly`, `PrintThenParseConfig`); accepted directives are
   conserved in source order exactly when no reverse_proxy block is closed over nested directives
   (`SourceOrderConserved`); no `expect` and no "internal error" is reachable (`ParserIsSafe`). `Grammar` says which lines
   and settings are accepted and what they write, and that blank lines and comments change nothing anywhere.
4. **Listeners.** The validator accepts exactly the sound site maps in every iteration order, the planner refuses exactly
   unresolvable and mixed ones, each site gets its own certificate, and host lookup agrees with certificate selection
   (`PlanServesSite`, `LookupAgreesWithSni`).
5. **Substitution.** A rewriting loop ends if and only if no name that it can reach refers back to itself through the
   values (`EndsExactlyUnlessCircular`, `HeaderLoopEndsExactly`). When no value that a template names contains `{`, the
   passes end and equal simultaneous replacement (`SubstitutionIsSimultaneous`); with a `{` they may end with another
   text (`UriIsReadAgain`) or not end at all (`SelfReferenceNeverEnds`).
6. **Protocols.** Permits are conserved per semaphore in every interleaving. Every logged answer is what the
   configuration in force at its load makes of its request, never a stale one, and one kept connection sees both
   configurations (`AnswerUsesItsLoad`, `NoStaleAnswer`, `KeptConnectionSeesUpdate`, `AnswersFollowReload`).

## Where code and documentation disagree

The model follows the code.

- Site lookup: the comment at `src/proxy/handler.rs:639-643` says a bare host on a non-default TLS port is not found;
  step 3 of the code finds it when the hostname is unambiguous (`FindSiteIsFirstMatch`).
- `set_max_concurrency` (`src/proxy/proxy.rs:562-570`) says new connections use the new limit; a listener that is already
  running keeps the old semaphore (`NewLimitMissesListeners`).
- `update_config` (`src/proxy/proxy.rs:572-575`) says in-flight connections keep their snapshot; the snapshot belongs to
  a request, so the next request on a kept connection sees the new configuration (`NoStaleAnswer`).
- `tls_redirect_port` (`src/config/address.rs:35-40`) documents `tls_port - 443 + 80`; below port 443 the subtraction
  saturates (`RedirectsClashExactly`).
- Durations: `value * multiplier` at `src/config/parser.rs:71` is unchecked and wraps in a release build
  (`DurationExact`).
- "A client can never inject trusted identity headers" (`src/proxy/forward_auth.rs:29-31`) holds of the forward_auth step
  itself; a configuration that copies such a header away before and back after it hands the client's value to the
  backend (`CopiedValueReturns`), and so does one that copies another header in which the client sends a reference
  (`UnnamedValueReturns`). `IdentityProvenance` names the one operation that put the value there.
  `SpoofedHeadersDoNotMatter`, `LiteralsHideSpoofing` and `UnreadHeadersDoNotMatter` give conditions on the directives in
  front of the forward_auth under which the client's identity headers have no effect whatever.
- The redirect listener of a TLS socket is bound after the listeners, and a plain site may already be there; the source
  then only logs a warning (`src/proxy/proxy.rs:383-399`). `RedirectMeetsPlainExactly` says when.

## Model

| member | source | states |
|---|---|---|
| `Paths.MatchExactly` | src/proxy/handler.rs:608-621 | a pattern ending in slash and star matches exactly when the path is the text before them followed by the rest, with no segment boundary; any other pattern must be the path and leaves `/` |
| `Paths.StripPrefixExactly` | src/proxy/directives.rs:147-156 | what follows the prefix is kept as it is when it starts with `/`, and gets a `/` in front otherwise |
| `Paths.QueryConservedExactly` | src/proxy/handler.rs:394-400 | splitting the forwarded target at its first `?` gives back path and client query if and only if the rewritten path has no `?`; with one, the target is the path alone |
| `Paths.MovesAddNothing` | src/proxy/directives.rs:140-156 | along any sequence of rewrites only a replacement text can bring a new character into the path |
| `ForwardAuth.ScrubIdentityHeaders` | src/proxy/forward_auth.rs:92-98 | afterwards no configured identity name is left and every other header is untouched |
| `ForwardAuth.ApplyIdentityHeaders` | src/proxy/forward_auth.rs:103-108 | every iteration order of the identity map gives the request headers overwritten by the identity |
| `ForwardAuth.OverwrittenExactly` | src/proxy/forward_auth.rs:103-108 | under each name of the identity its last value alone is left, and no other name changes |
| `ForwardAuth.BuildAuthRequest` | src/proxy/forward_auth.rs:135-195 | the loop and the system headers build the specified subrequest |
| `ForwardAuth.SubrequestHeaders` | src/proxy/forward_auth.rs:144-195 | the subrequest has the configured endpoint and timeout; under each name it has one value, the system's valid one, else the client's first if the name is listed; else none |
| `ForwardAuth.DrainBody` | src/proxy/forward_auth.rs:245-256 | no error exactly when every frame is data; else the error of the first broken frame |
| `ForwardAuth.ClassifyExact` | src/proxy/forward_auth.rs:261-295 | Allowed exactly for a drained 2xx, Denied exactly for 4xx with its status and challenge, Failed for everything else, whatever the directive; the identity is the listed headers of the response |
| `ForwardAuth.VerdictByStatus` | src/proxy/forward_auth.rs:261-295 | by the numbers: 200 to 299 with an unbroken body is Allowed, 400 to 499 is Denied, every other response is a server error with its status, a broken 2xx body and a client error keep their message, an elapsed timeout is Timeout |
| `ForwardAuth.ResolveAuth` | src/proxy/forward_auth.rs:202-313 | sends exactly one subrequest, built from the current headers, and returns its classification |
| `Handler.HandleHeader` | src/proxy/directives.rs:56-82 | the request after a `header` directive, every error leaving the headers unchanged |
| `Handler.RunForwardAuth` | src/proxy/handler.rs:143-176 | scrub, ask, then apply, deny or follow the failure mode, as one step of the run |
| `Handler.ProcessDirectives` | src/proxy/handler.rs:64-184 | the in-place loop with its recursion computes the interpreter function on values |
| `Rules.MethodRule` | src/proxy/directives.rs:158-163 | a `method` block is entered, with the current path, exactly when some word equals the request method character by character up to ASCII case; otherwise the run goes on behind it |
| `Rules.WildcardRule` | src/proxy/handler.rs:88-102 | a wildcard block is entered with what follows its prefix, and passed by when the path does not begin with it |
| `Rules.ExactRule` | src/proxy/handler.rs:88-102 | any other pattern is compared with the whole path, and its block is entered with `/` |
| `Rules.StripRule` | src/proxy/directives.rs:147-156 | the path after `strip_prefix`, in a run |
| `Rules.ReplaceRule` | src/proxy/directives.rs:140-144 | after `uri_replace` the path is cut at the leftmost occurrences and glued together with the new text |
| `Rules.RemovalRule` | src/proxy/directives.rs:56-82 | `header -Name` removes all values of the name and nothing else |
| `Rules.SettingRule` | src/proxy/directives.rs:56-82 | `header Name text` leaves one value, the substituted text, if that is valid, and draws one UUID per substitution |
| `Rules.ActionRule` | src/proxy/handler.rs:103-141 | each action ends the run with its own fields and the current path; without one the entry path is reported |
| `Rules.AuthRule` | src/proxy/handler.rs:143-176 | scrub, one subrequest, then by the numbers: go on with the first value of each identity header, deny with status and challenge, or 503 under closed and go on without identity under open |
| `Handler.FlatteningPreservesMeaning` | src/proxy/handler.rs:64-184 | for every tree, request and world, running the routed straight line gives the same answer, headers, subrequests and UUID draws |
| `Chains.RouteFollowsChain` | src/proxy/handler.rs:72-141 | the routed operations are the header and auth directives in front of the first non-passed directive of each nesting level |
| `Chains.ChainIsUnique` | src/proxy/handler.rs:88-141 | a request has exactly one executed chain |
| `AuthSafety.PassesExactly` | src/proxy/handler.rs:148-175 | a forward_auth lets a request through if and only if the service approved, or gave no decision and the mode is open; otherwise its action is the preserved denial or 503 |
| `AuthSafety.AuthGate` | src/proxy/handler.rs:64-184 | either every forward_auth of the chain was asked in order and passed and the answer is the chain's end, or the answer is the denial of the first one that blocked and no subrequest follows it |
| `AuthSafety.GateByStatus` | src/proxy/handler.rs:143-176 | where no denial is the answer, every forward_auth on the chain got 200 to 299 with an unbroken body, or says open and did not get 400 to 499 |
| `AuthSafety.IdentityProvenance` | src/proxy/handler.rs:143-176 | when a run hands on, a listed identity name is absent, or holds a single value, since some operation at or after its forward_auth: what a drained 2xx response or a later `header` directive put there |
| `AuthSafety.SpoofedHeadersDoNotMatter` | src/proxy/forward_auth.rs:87-98 | two requests that differ only in the identity headers of the first forward_auth give the same answer, headers and subrequests, if only path, method and routing directives and header removals run before it |
| `AuthSafety.ClosingOnlyAdds503` | src/proxy/handler.rs:161-175 | closing any set of directives changes nothing, or gives 503 without a challenge, with a last subrequest that got no decision; it asks a prefix of the subrequests, and changes nothing if every subrequest got a decision |
| `AuthSafety.PathConserved` | src/proxy/handler.rs:88-102 | along wildcard blocks the stripped prefixes followed by the path sent are the client's path |
| `AuthSafety.QueryConserved` | src/proxy/handler.rs:391-400 | if no executed `uri_replace` brings in a `?`, the forwarded target reads back as rewritten path and client query |
| `Backend.DefaultStage` | src/proxy/handler.rs:423-455 | all values of each default header, the removal of Connection and Accept-Encoding, and every other header untouched |
| `Backend.ApplyHeaderUp` | src/proxy/directives.rs:87-137 | the loop applies the operations one after the other |
| `Backend.LastHeaderUpWins` | src/proxy/directives.rs:96-136 | the last operation that does something to a name, in the state left by the earlier ones, decides it; with none it is as it was |
| `Backend.PrepareForBackend` | src/proxy/handler.rs:423-463 | the in-place rewriting stage computes the outgoing headers |
| `Backend.BackendHeaders` | src/proxy/handler.rs:453-463 | hop-by-hop headers leave only if `header_up` sets them; a name that no `header_up` mentions keeps its default-stage value |
| `Backend.IdentityReachesBackend` | src/proxy/forward_auth.rs:100-108 | an identity name that nothing later mentions arrives at the backend with exactly the one value that the approving response said, or not at all |
| `Substitution.RewriteShrinks` | src/auth/headers.rs:42-75 | each rewrite strictly lowers the count of `{` (or of `}`) when no value contains that brace |
| `Substitution.TameEnds` | src/auth/headers.rs:42-75 | a loop then ends on every text |
| `Substitution.RewriteLoop` | src/auth/headers.rs:42-56 | wherever it ends, a rewriting loop gives all references replaced, or an error for an unclosed one |
| `Substitution.ProcessHeaderSubstitution` | src/auth/headers.rs:38-81 | the two loops and the UUID pass in their order, wherever the source returns |
| `Substitution.ProcessUpstreamSubstitution` | src/auth/headers.rs:95-110 | the base passes, then upstream host, request URI and remote IP, wherever the source returns |
| `Templates.LoopFillsReferences` | src/auth/headers.rs:42-75 | on a template whose named values begin no reference a loop ends and fills exactly the placeholders of its keyword |
| `Templates.UnclosedIsRefused` | src/auth/headers.rs:43-46 | a reference that is never closed makes the loop fail |
| `Templates.UnclosedFails` | src/auth/headers.rs:43-63 | an unclosed header or environment reference makes the whole substitution fail |
| `Templates.SubstitutionIsSimultaneous` | src/auth/headers.rs:83-110 | if no value that the template names contains `{`, the six passes end and equal replacing every placeholder at once |
| `Templates.HeaderSubstitutionIsSimultaneous` | src/auth/headers.rs:8-81 | the same for `header` directives |
| `Templates.UriIsReadAgain` | src/auth/headers.rs:105-107 | a request URI that spells a later placeholder is substituted again, whatever the headers and the environment |
| `Termination.EndsExactlyWhenShallow` | src/auth/headers.rs:42-75 | a loop ends if and only if the references that can be followed through the values have bounded depth |
| `Termination.EndsExactlyUnlessCircular` | src/auth/headers.rs:42-75 | where the values refer to finitely many names, it ends if and only if no name that can be reached reaches itself |
| `Termination.HeaderLoopEndsExactly` | src/auth/headers.rs:42-56 | so the header loop on a request ends if and only if no header reaches itself through header values |
| `Termination.TemplateValuesAreNeat` | src/auth/headers.rs:42-75 | the three results apply whenever the values are templates of clean text and closed placeholders |
| `Termination.SelfReferenceNeverEnds` | src/auth/headers.rs:42-56 | a value that refers to itself leaves a closed reference after any number of rewrites, whatever follows |
| `HeaderTexts.LikeCodeExists` | src/auth/headers.rs:38-110 | for every environment, service, UUID supply and value test there are worlds that substitute as the code does |
| `HeaderTexts.NamedValue` | src/auth/headers.rs:48-50 | a reference reads the first value of the header it names in any letter case, if that is plain text |
| `HeaderTexts.HeaderDirectiveMeans` | src/proxy/directives.rs:53-74 | a `header` directive sets its header to its template with all placeholders replaced at once |
| `HeaderTexts.HeaderUpMeans` | src/proxy/directives.rs:96-136 | a `header_up` directive does so with all six kinds of placeholder |
| `HeaderTexts.CopiedValueReturns` | src/proxy/forward_auth.rs:29-31 | with the code's substitution, a copy made before and restored after a passed forward_auth hands the client's own value to the backend, for every name, every value without `{`, and every answer of the service that lets the request through |
| `HeaderTexts.UnnamedValueReturns` | src/auth/headers.rs:42-56 | the same although the template in front names another header only, in which the client sends a reference |
| `HeaderTexts.LiteralsHideSpoofing` | src/proxy/forward_auth.rs:87-98 | behind templates without `{header.` two requests that differ only in identity headers have the same run, whatever else the client sends |
| `HeaderTexts.UnreadHeadersDoNotMatter` | src/proxy/forward_auth.rs:87-98 | the same behind templates that name only headers outside the identity set, if the named headers arrive without `{` |
| `Startup.LoadAndPlan` | src/proxy/proxy.rs:280-353 | every text that parses has a listener plan, and the plan is for exactly its sites |
| `Listen.ResolvesToPort` | src/config/address.rs:7-19 | `host:port` listens on that port of all interfaces |
| `Listen.ResolvesExactly` | src/config/address.rs:7-19 | a socket address listens where it says; any other address on all interfaces at the port behind its last colon; it is refused exactly when neither applies |
| `Listen.HostnameExactly` | src/config/address.rs:26-33 | the hostname is what the brackets enclose, else the text in front of the first colon |
| `Listen.NamedByHost` | src/config/address.rs:26-33 | the hostname of `host:port` is the host |
| `Listen.NamedInsideBrackets` | src/config/address.rs:26-33 | the hostname of a bracketed address is what the brackets enclose |
| `Listen.RedirectsClashExactly` | src/config/address.rs:35-40 | two TLS sockets share a redirect socket if and only if they are on one interface and both at most 443; the documented formula holds if and only if the port is at least 443 |
| `Listen.ValidateListenSockets` | src/config/parser.rs:586-623 | in every iteration order it accepts exactly the maps whose addresses resolve, whose sites on one socket agree on TLS, and whose TLS sites on one socket have hostnames that differ by more than letter case; its error is true of the map |
| `Listen.GroupBySocket` | src/proxy/proxy.rs:283-289 | one group per resolved socket holding its sites in iteration order; fails exactly on an unresolvable address |
| `Listen.BuildTlsAcceptor` | src/proxy/tls.rs:121-177 | the SNI table of the group, with the certificate of the least name as fallback |
| `Listen.SniEntriesExactly` | src/proxy/tls.rs:132-159 | with distinct names the table has one entry per site, each with that site's certificate |
| `Listen.LastSiteOfName` | src/proxy/tls.rs:132-159 | with a repeated name the last site has the entry |
| `Listen.ResolveExactly` | src/proxy/tls.rs:95-104 | a name gets the entry it equals up to letter case; an unknown name, and none, get the fallback |
| `Listen.BuildListeners` | src/proxy/proxy.rs:296-380 | refuses exactly when some socket mixes TLS and plain sites; else one listener of the right kind per socket |
| `Listen.PlanListeners` | src/proxy/proxy.rs:280-380 | succeeds if and only if all addresses resolve and no socket has TLS and plain sites; the plan then has a listener for each group |
| `Listen.RedirectMeetsPlainExactly` | src/proxy/proxy.rs:349-383 | a redirect listener and a plain listener share a socket if and only if a plain site is on the same interface at port 80 below a TLS port up to 443, or 363 below a higher one |
| `SiteLookup.PlanServesSite` | src/proxy/proxy.rs:283-353 | each site is in exactly one listener, of its own kind; a TLS listener has one entry per site and presents a site's certificate for its name in any letter case |
| `SiteLookup.ServedWhereItSays` | src/config/address.rs:7-10 | a site whose address is a socket address is in the listener of exactly that address |
| `SiteLookup.PlanServesOnlySites` | src/proxy/proxy.rs:283-289 | no listener serves anything that is not configured |
| `SiteLookup.FindSiteIsFirstMatch` | src/proxy/handler.rs:644-699 | in every iteration order: exact key; with a port, the key without it; else the key with `:443` for TLS or `:80`; else the only TLS site whose hostname is the host up to letter case |
| `SiteLookup.HostSplitsExactly` | src/proxy/handler.rs:653-664 | a host has a port behind its closing bracket, or behind its last colon, and what is left is the bare name |
| `SiteLookup.LookupAgreesWithSni` | src/proxy/tls.rs:95-104 | a bare TLS host is found if and only if one TLS site bears the name, and that site's listener presents that site's certificate for it |
| `Text.WordsOfJoin` | src/config/parser.rs:161-161 | words joined by blanks split into the same words |
| `Text.LinesOfPrint` | src/config/parser.rs:153-161 | printed lines read back as the same words |
| `Text.LastLine` | src/config/parser.rs:153-153 | the last line needs no end, and an end adds no line |
| `Text.WordsSplit` | src/config/parser.rs:161-161 | white space anywhere separates words |
| `Text.BlanksExactly` | src/config/parser.rs:154-161 | white space is the 25 code points of the Unicode property |
| `Characters.LowerSameText` | src/proxy/directives.rs:159-163 | comparison without case is comparison of characters up to the 26 letter pairs |
| `Characters.LexExactly` | src/proxy/tls.rs:161-168 | names are ordered by beginning, else by the first different character |
| `Characters.ParsesExactly` | src/config/parser.rs:49-52 | a number is decimal digits behind any zeros, with or without a plus sign, below the limit of its type |
| `Characters.ReplaceGlues` | src/proxy/directives.rs:140-144 | replacement cuts at the leftmost occurrences, or around every character for an empty text, and glues |
| `Characters.HeaderNameExactly` | src/config/parser.rs:98-111 | a header name is name characters, stored in lower case |
| `Characters.MultimapLaws` | src/proxy/directives.rs:62-79 | get reads the first value, insert leaves one, remove none, and no other name changes |
| `Parser.DurationExact` | src/config/parser.rs:40-72 | a plain number is seconds; a number with suffix m, h or d is number times 60, 3600 or 86400 if and only if the product fits 64 bits |
| `Grammar.DurationRule` | src/config/parser.rs:40-72 | exactly which texts are durations, and of how many seconds modulo 2^64 |
| `Parser.StepIsSafe` | src/config/parser.rs:146-299 | every line keeps the stack invariant, or fails with an error that is no bug |
| `Parser.ParserIsSafe` | src/config/parser.rs:145-582 | on every text the directive stack is one longer than the block stack, an open block implies an open site, forward_auth state exists iff the block is forward_auth, sites are keyed by address, and neither an `expect` nor an internal error is reachable |
| `ParserLoop.ParserState.Open` | src/config/parser.rs:159-196 | the parser's variables after a line that ends in a brace |
| `ParserLoop.ParserState.Close` | src/config/parser.rs:198-278 | the variables after a closing brace; neither pop can fail |
| `ParserLoop.ParserState.Plain` | src/config/parser.rs:280-576 | the variables after a setting, a tls line or a directive |
| `ParserLoop.ParserState.ParseLine` | src/config/parser.rs:153-577 | one iteration of the loop is one step of the machine and keeps its invariant |
| `ParserLoop.FromStr` | src/config/parser.rs:145-582 | the loop followed by the validator computes the parse result, and its error is never a bug |
| `Grammar.NothingSaid` | src/config/parser.rs:154-157 | a blank or comment line can be put anywhere in any configuration, accepted or refused, without effect |
| `Grammar.CommentsChangeNothing` | src/config/parser.rs:153-157 | the same in a text: white space, or `#` and anything behind white space, on a line of its own |
| `Grammar.OpeningRule` | src/config/parser.rs:159-196 | an opening line names a site outside of one, and inside pushes a block with its words except lone braces |
| `Grammar.ClosingRule` | src/config/parser.rs:198-252 | what each kind of block becomes when it closes, for any arguments; an unknown kind is refused; a brace with nothing open is ignored |
| `Grammar.SiteClosingRule` | src/config/parser.rs:253-276 | a site is stored under its address with all that was collected, unless the address is taken |
| `Grammar.UnclosedSiteIsDropped` | src/config/parser.rs:145-582 | a site that is not closed again leaves nothing behind |
| `Grammar.DirectiveRule` | src/config/parser.rs:476-571 | exactly which lines write which directive |
| `Grammar.DirectiveLineRule` | src/config/parser.rs:476-576 | such a line adds its directive to the innermost list, and a line that writes none is refused |
| `Grammar.TlsRule` | src/config/parser.rs:449-474 | tls is accepted once per site, outside of blocks |
| `Grammar.AuthSettingsRule` | src/config/parser.rs:289-372 | the lines of a forward_auth block are accepted exactly when each is a setting with a usable value, and the last of each kind counts |
| `Grammar.AuthBlockRule` | src/config/parser.rs:74-133 | exactly which settings make which configuration, with the documented defaults |
| `Grammar.EndpointRule` | src/config/models.rs:158-177 | an endpoint is http or https with a host; without a path it gets `/` |
| `Grammar.NamesRule` | src/config/parser.rs:98-111 | header names are taken one by one and refused together |
| `Grammar.ProxySettingsRule` | src/config/parser.rs:374-447 | the lines of a reverse_proxy block are accepted exactly when each is a setting with a usable value; the last timeout and every header operation count |
| `Grammar.HeaderUpRule` | src/config/parser.rs:404-437 | exactly which words write which header operation |
| `Grammar.JoinRule` | src/config/parser.rs:423-423 | the words of a value are joined by single blanks |
| `RoundTrip.DirectivesLead` | src/config/parser.rs:159-277 | printed directives of any depth are added in order to the innermost open block |
| `RoundTrip.AuthDefaults` | src/config/models.rs:140-151 | a forward_auth block with only an endpoint forwards authorization and cookie, takes over nothing, fails closed and waits five seconds |
| `RoundTrip.RedirectDefault` | src/config/parser.rs:553-562 | a redirect with a target only has status 301 |
| `RoundTrip.NestingInAuthRefused` | src/config/parser.rs:227-233 | a block nested in a forward_auth block is an error, whatever it holds |
| `RoundTrip.RepeatedSiteRefused` | src/config/parser.rs:255-265 | a second site with the same address is an error, whatever it holds |
| `RoundTrip.PrintThenParseConfig` | src/config/parser.rs:145-582 | the canonical text of every expressible configuration, in any site order, parses to exactly that configuration |
| `Image.ParsedIsExpressible` | src/config/parser.rs:145-582 | every parsed configuration is expressible |
| `Image.ExpressibleExactly` | src/config/parser.rs:145-582 | a configuration is the result of some text if and only if it is expressible |
| `Image.ReprintingIsStable` | src/config/parser.rs:145-582 | printing a parsed configuration and parsing it again changes nothing |
| `Image.ParsedAuthIsUsable` | src/config/parser.rs:74-133 | every forward_auth anywhere in a parsed configuration has an http or https endpoint with host and path, and valid header names |
| `Conservation.StepConserves` | src/config/parser.rs:153-277 | per line, what was pending and what the line completes is afterwards closed or pending in the same order, unless leaves are dropped, and dropped leaves are missing |
| `Conservation.SourceOrderConserved` | src/config/parser.rs:145-582 | closed sites in closing order and then the stack hold the accepted directives in source order under their enclosing blocks, if and only if nothing was dropped |
| `Conservation.ClosedSitesAreStored` | src/config/parser.rs:253-276 | the closed sites are exactly the entries added to the site map |
| `Conservation.NothingDropped` | src/config/parser.rs:218-226 | nothing is dropped if no block is opened directly inside a reverse_proxy block |
| `Conservation.NestedBlockDisappears` | src/config/parser.rs:218-226 | a block inside a reverse_proxy block vanishes whatever it holds |
| `Permits.PermitsConserved` | src/proxy/proxy.rs:454-489 | in every interleaving free permits and live tasks add up to the limit of each semaphore, and a connection is rejected exactly when its listener's semaphore is at its limit |
| `Permits.StepConserves` | src/proxy/tls.rs:220-270 | accept, reject, failed and successful handshake, connection end, new listener and new limit each keep that balance |
| `Permits.StepsMovePermits` | src/proxy/proxy.rs:463-486 | a connection becomes a task with a permit exactly when one is free, and gives it back when its handshake fails or it ends |
| `Permits.NewListenerHasNewLimit` | src/proxy/proxy.rs:566-570 | a listener started after a change of the limit has room for exactly the new limit |
| `Permits.InitiallyConserved` | src/proxy/proxy.rs:117-117 | a fresh semaphore starts in balance |
| `Permits.NewLimitMissesListeners` | src/proxy/proxy.rs:566-570 | a new limit leaves every running listener's decisions as they were |
| `Reload.ConfigIsInForce` | src/api/endpoints.rs:67-131 | the shared configuration is always the last one stored by an update or an accepted POST |
| `Reload.PostRule` | src/api/endpoints.rs:67-131 | 200 and the new configuration exactly for a body that is read, decoded and parsed; else 400 and no change |
| `Reload.AnswerUsesItsLoad` | src/proxy/proxy.rs:466-474 | in every interleaving each logged answer is computed from its request and the one configuration in force at its own load, on a connection that is open from load to answer |
| `Reload.NoStaleAnswer` | src/proxy/proxy.rs:584-587 | a request loaded after a store is answered from that configuration or a later one; a refused POST stores nothing |
| `Reload.ClosedConnectionAnswersNothing` | src/proxy/proxy.rs:466-480 | a closed connection takes its waiting requests with it and no others |
| `Reload.KeptConnectionSeesUpdate` | src/proxy/proxy.rs:572-587 | on one kept connection a request in flight is answered from the old configuration and the next one from the new |
| `Startup.AnswersFollowReload` | src/proxy/handler.rs:218-267 | every logged answer is the run of the directives of the site found by host in that one configuration, in any iteration order |
| `Startup.HostRule` | src/proxy/handler.rs:218-222 | the site is looked up by the first Host value if it is plain text, else by `localhost` |
| `Startup.ServeRule` | src/proxy/handler.rs:236-267 | a request is run on its site with its own headers, path and method; without a site it is not found |
| `Startup.ReloadChangesAnswers` | src/proxy/proxy.rs:466-474 | two real configurations give two different answers to the same request on one connection |

## Left out

- Substitution.RewriteLoop: asks that the source loop ends on the text; where it does not there is no result to state, and `Termination` says when that is.
- Substitution.ProcessHeaderSubstitution: asks the same of its two loops.
- Substitution.ProcessUpstreamSubstitution: asks the same of the two loops it starts with.
- Termination.HeaderLoopEndsExactly: asks that the texts within reach are neat; where a reference is unclosed or encloses another brace, what the loop reads next depends on how fragments of values join up.
- Templates.SubstitutionIsSimultaneous: is not an equivalence; the exact set of values on which the passes agree depends on how literals and values meet in a template.
- HeaderTexts.UnreadHeadersDoNotMatter: is not an equivalence; a template in front of the forward_auth may read an identity header and still have no visible effect.
- The error branch of `build_auth_request`: building a request from a parsed URI and a fixed method does not fail.
- `X-Request-ID` generation, the responses built for each action, and what the backend answers: side effects and formatting.
- The computation of `upstream_host`, `request.uri` and `remote_ip`: they are parameters of the backend stage.
- `Uri`, `SocketAddr` and header-value parsing, PEM loading, TLS handshakes, TCP and HTTP serving: library code behind parameters.
- The redirect listeners themselves: only their sockets are modelled.
- The panic of a debug build on the product at `src/config/parser.rs:71`: the model has the wrap-around of a release build.
- The JSON form of the configuration, the rest of the management API, metrics, access logs, the command line and `src/auth/validator.rs`: wrappers or single branches that would add only easy members.
- The message texts and line numbers of parse errors: errors are kinds.
