# libhttpserver: a verified model

libhttpserver puts its own C++ logic on top of libmicrohttpd. This project models that logic in
Dafny and proves what it promises: routing behind a cache, registration, hooks, the life of a
request, who closes a descriptor, WebSocket sessions, and the text formats. Regex matching, MHD,
sockets, clocks and user callbacks are parameters; every theorem is for all of their behaviours.

`dafny verify dfyconfig.toml` checks everything. One module per component:

- `Text`, `Paths`, `AuthSkip`: splitting, path normalisation, the route key, auth-skip entries.
- `Ipv6Text`, `IpParser`, `IpRepresentation`, `IpMeaning`, `Ipv6RoundTrip`, `IpOrder`, `IpAccess`: the
  RFC 5952 printer, the address parser and what an entry means, the order of addresses and the deny
  and allow lists.
- `CookieHeader`, `SetCookie`: both directions of RFC 6265 text.
- `SegmentTrie`, `TrieLookup`, `Endpoint`, `Routes`, `RouteCache`, `RouteTable`, `RouteLaws`,
  `RouteAnswers`, `RouteWitness`, `RouteCacheRaces`: the three-tier route table, its LRU cache,
  sequentially and under interleaving.
- `HookBus`, `HookHandles`, `HookFiring`: registration, ownership and firing of hooks.
- `Materializer`, `RequestLifecycle`, `ResponseOwnership`, `WebSocketSession`: one request, its
  response, an upgrade.

Each object the library updates in place is a class whose methods are proved equal to functions on
values; the laws are lemmas about those functions and about runs of them. Objects made of many
parts (the trie, the set of handles, the set of responses) are values inside those runs.

## Where the code and a promise part

Each of these has a lemma with an input that shows it, and the exact condition next to it.

- A registration whose `{name|regex}` constraint does not compile throws after the trie was changed.
  It is the only refused registration that changes the table (`RegisterAllOrNothing`), and it takes
  away the answers of exactly the requests that step onto a literal node it made beside a wildcard
  (`TornExactly`, `TornTail`). Since only accepted calls clear the cache, a cached answer can outlive
  it (`StaleAnswer`), but only for those requests (`RouteTable.Run`; under interleaving `StaleOnlyWhen`). The comments at
  src/webserver.cpp:612-617 say the table is in its prior state. With every constraint compiling it
  cannot happen (`CompiledPatternsAreSafe`).
- "/a//b" as a path and "/a/b" as a prefix are both accepted (`DoubledSlashIsMissed`), so an exact key
  and a prefix terminus have the same segments: the guard compares key texts, the trie segments.
  `PrefixStaysApart` is the exact condition.
- on_get, on_post and route on a path with parameters look for an existing entry by using the
  pattern as a request. It misses a route whose own text fails its constraint
  (`ConstraintHidesItsOwnRoute`), or finds another route and writes to its slots
  (`ProbeFindsAnotherRoute`). `OnPatternKeepsHandlers` says exactly when the earlier handlers survive,
  and `OnPatternAllOrNothing` exactly when a refused call leaves nothing behind.
- Gated firing differs from ungated firing exactly when hooks of the route are missed
  (`GatesAreInvisible`): they came while their own phase was firing (`ArmedMeanwhileHappens`), or,
  for handler_exception and request_completed, the resource got its first hook table after it was
  looked up (`WhyMissed`, `LateTableIsMissed`, `LateTableMissesCompletion`).
- `ip_representation::operator<` is documented as a strict weak ordering and is not one in general
  (`MappedFormsBreakTheOrder`, `SumsCollide`). On full addresses it is one exactly when at most one of
  their pairs of octets 10 and 11 is made of 0 and 255 (`StrictWeakExactly`).
- Adding a wider entry to a list takes over from the narrower ones it overlaps exactly when there is
  one at most (`WiderEntryTakesOver`): denying 10.0.0.1, 10.0.0.2 and then 10.0.0.* leaves only
  10.0.0.2 denied (`WiderEntryIsLost`).
- The policy comment says an allow entry overrides a deny entry; under the REJECT policy the code
  refuses a peer that is on both lists (`ClassifyDecision`).
- A token of NULs lets the IPv6 parser leave two octets unwritten (`NulTokenLeavesTwoOctets`);
  without NUL it never does (`Ipv6CoverageWithoutNul`).
- The upgrader is asked before a short circuit is honoured, so a hook's early response is queued only
  when the upgrader declines, and a malformed handshake is answered with its 400 even where no
  WebSocket handler is registered (`Connection.Finalize`).
- A user page for missing routes that throws while no route was found throws out of the callback: no
  response is queued and after_handler does not fire (`Connection.Finalize` says exactly when).
- For an empty path registration reads one character before the text. Whatever it reads, the key is
  the one lookup uses (`SameKey`), so no result here excludes the empty path.

## Model

| member | source | states |
|---|---|---|
| Text.StringSplit | src/string_utilities.cpp:46-72 | the scanning loop returns the fields between separators, without a trailing empty one and, when collapsing, without any empty one |
| Text.FieldsOfJoin | src/string_utilities.cpp:46-72 | splitting the join of separator-free fields gives the fields back |
| Text.JoinOfFields | src/string_utilities.cpp:46-72 | joining the fields of a text gives the text back |
| Paths.NormalizePath | src/detail/webserver_callbacks.cpp:626-654 | the buffer with its stack of offsets ends as the slash-join of the segments left after dropping empty and dot segments and popping on dot-dot |
| Paths.NormalizeIdempotent | src/detail/webserver_callbacks.cpp:626-654 | normalising twice is normalising once |
| Paths.SegmentsOfRender | src/detail/webserver_callbacks.cpp:626-654 | rendering clean segments and resolving the text gives the segments back |
| Paths.NormalizedBySegments | src/detail/webserver_callbacks.cpp:626-654 | two paths normalise alike exactly when they come down to the same segments |
| Paths.SegmentsMore | src/detail/webserver_callbacks.cpp:626-654 | one more segment: an empty or dot one changes nothing, dot-dot takes the last one away, and on nothing stays on nothing, any other is added |
| Paths.DotDotUndoes | src/detail/webserver_callbacks.cpp:626-654 | a segment followed by dot-dot is as if neither were there, and dot-dot at the root stays at the root |
| Paths.StandardizeUrl | src/http_utils.cpp:225-238 | the in-place clean-up collapses runs of slashes and drops one trailing slash |
| Paths.StandardizedShape | src/http_utils.cpp:225-238 | the result has no doubled slash and no trailing one but the root, starts as the URL does, has the same tokens, and cleaning it again changes nothing |
| Paths.StandardizeThenNormalize | src/detail/webserver_callbacks.cpp:840-855 | cleaning slashes first changes no segment and no normalised path |
| Paths.SameKey | src/detail/http_endpoint.cpp:45-52 | registration and lookup use the same canonical key for every path, the empty one included whatever character stands before it |
| Paths.KeyIgnoresOuterSlashes | src/detail/route_table.cpp:99-124 | with or without a slash at either end a path has the key with one in front and none behind; the empty path and the root share one |
| Paths.KeyTokens | src/detail/route_table.cpp:99-124 | making a path canonical changes none of its tokens |
| Paths.NormalizedIsKey | src/detail/route_table.cpp:99-124 | a normalised path is its own lookup key |
| AuthSkip.NormalizeEntry | src/detail/webserver_callbacks.cpp:674-714 | an entry, wildcard suffix and all, is stored as its normalised path |
| AuthSkip.NormalizeAuthSkipPaths | src/detail/webserver_callbacks.cpp:674-714 | the list is refused exactly when an entry has a percent sign, and is otherwise normalised entry by entry |
| AuthSkip.ShouldSkipAuth | src/detail/webserver_callbacks.cpp:716-750 | skips exactly when some stored entry matches the normalised path as text |
| AuthSkip.TextMatchIsSegments | src/detail/webserver_callbacks.cpp:716-750 | text matching is segment matching: equal segments, or a star after a proper prefix of them |
| AuthSkip.SkipDecision | src/detail/webserver_callbacks.cpp:674-750 | from raw entries to decision: skipped exactly when some entry covers the path's segments |
| AuthSkip.AuthAndRoutingAgree | src/detail/webserver_callbacks.cpp:840-855 | the path tested for skipping is the route key, and standardising the URL first changes no decision |
| Ipv6Text.AssembleGroups | src/peer_address.cpp:51-57 | eight groups from sixteen bytes, high byte first |
| Ipv6Text.FindLongestZeroRun | src/peer_address.cpp:85-110 | the leftmost longest run of at least two zero groups, or none |
| Ipv6Text.CollapseIsUnique | src/peer_address.cpp:85-110 | there is only one such run |
| Ipv6Text.EmitCanonical | src/peer_address.cpp:114-145 | the character buffer holds the groups in lower-case hexadecimal with that run collapsed, in at most 39 characters |
| Ipv6Text.Ipv6Canonical | src/peer_address.cpp:160-164 | the text is the form of sections 4 and 5 of RFC 5952 and at most 39 characters long |
| Ipv6Text.CanonicalShape | src/peer_address.cpp:114-164 | the dotted form is used exactly for ::ffff:0:0/96; any other text holds only lower-case hexadecimal digits and colons |
| Ipv6Text.HexShape | src/peer_address.cpp:114-145 | a group has no leading zero |
| Ipv6RoundTrip.RoundTrip | src/detail/ip_representation.cpp:192-317 | for every sixteen bytes, parsing the canonical text gives them back with a full mask |
| Ipv6RoundTrip.CanonicalIsInjective | src/peer_address.cpp:160-164 | two addresses are equal exactly when their canonical texts are |
| IpParser.OmissionWeight | src/detail/ip_representation.cpp:192-216 | the omitted-group count fills up to eight groups, seven when a leading double colon meets a dotted last token |
| IpParser.PartsWrite | src/detail/ip_representation.cpp:245-294 | the tokens write positions 0 to their end once each, in order |
| IpParser.PartsKeep | src/detail/ip_representation.cpp:245-294 | no octet or mask bit past the end is touched |
| IpParser.Ipv6Coverage | src/detail/ip_representation.cpp:192-307 | an accepted text writes a prefix of the sixteen positions once each and, with an empty token, all of them exactly unless a leading double colon meets a short dotted token |
| IpParser.ShortDottedRejected | src/detail/ip_representation.cpp:245-294 | a short dotted token without NUL is refused |
| IpParser.Ipv6CoverageWithoutNul | src/detail/ip_representation.cpp:192-307 | so without NUL an empty token means all sixteen positions are written once |
| IpParser.NulTokenLeavesTwoOctets | src/detail/ip_representation.cpp:245-294 | with NUL a text is accepted with fourteen positions written |
| IpMeaning.StrtolReads | src/detail/ip_representation.cpp:152-190 | the number read is that of the blanks, sign and longest run of digits the text starts with, and nothing else of it |
| IpMeaning.DottedMeans | src/detail/ip_representation.cpp:152-190 | a text without a colon is accepted exactly with four parts, each a star or a number up to 255; a star clears its mask bit and a number becomes its octet under a set one |
| IpMeaning.DottedCovers | src/detail/ip_representation.cpp:152-190 | and the entry overlaps exactly the plain addresses that agree with it in the parts that are not stars |
| IpMeaning.ColonMeans | src/detail/ip_representation.cpp:192-307 | in an accepted text with colons every token stands at the position the tokens before it leave: a star clears two mask bits, a group gives its two octets, an empty one zeros, a dotted one its quad |
| IpMeaning.StarGroupCovers | src/detail/ip_representation.cpp:192-307 | a star group covers every value of its two octets: changing them in an address changes no overlap |
| IpMeaning.HexGroupMeans | src/detail/ip_representation.cpp:245-294 | the two octets of a hexadecimal group are the high and the low byte of its number |
| IpMeaning.ShortTokensAccepted | src/detail/ip_representation.cpp:245-294 | tokens of at most four characters are accepted exactly when each is empty, a star, or a group of which every character belongs to the numbers of its padded halves |
| IpMeaning.DottedLastAccepted | src/detail/ip_representation.cpp:218-294 | a longer last token is accepted exactly when it is a dotted quad of fitting parts at octet 12 after ten zero octets and two that are 0 or 255 |
| IpMeaning.ColonAccepted | src/detail/ip_representation.cpp:192-307 | a text with colons is accepted exactly when it has at most eight tokens, one empty one at most or two in front, weighs at most eight groups and every token is accepted |
| IpRepresentation.IpAddress.WriteQuad | src/detail/ip_representation.cpp:218-243 | a nested quad writes octets 12 to 15, or clears their mask bits for a star, as specified and as `IpMeaning` reads it |
| IpRepresentation.IpAddress.ParseIpv4 | src/detail/ip_representation.cpp:152-190 | in place, the dotted form is parsed or refused as specified |
| IpRepresentation.IpAddress.ComputeOmitted | src/detail/ip_representation.cpp:192-216 | counts omitted groups and drops the extra leading empty token, or refuses |
| IpRepresentation.IpAddress.ApplyIpv6Part | src/detail/ip_representation.cpp:245-294 | one token in place: zeros, wildcard, group or nested quad |
| IpRepresentation.IpAddress.ParseColonForm | src/detail/ip_representation.cpp:296-307 | the token loop leaves the octets, mask and written positions of the specification |
| IpRepresentation.IpAddress.Parse | src/detail/ip_representation.cpp:309-317 | a text with a colon is parsed as IPv6, any other as IPv4 |
| IpOrder.Compare | src/detail/ip_representation.cpp:369-387 | the accumulating loop decides the order of the weighted sums over commonly masked octets, with the mapped-prefix rule |
| IpOrder.Asymmetric | src/detail/ip_representation.cpp:369-387 | irreflexive and asymmetric for all pairs |
| IpOrder.EquivalentExactly | src/detail/ip_representation.cpp:339-387 | neither is less exactly when the sums agree, or agree apart from mapped prefixes |
| IpOrder.WildcardCovers | src/detail/ip_representation.cpp:324-387 | a wildcard entry is equivalent to every address it covers |
| IpOrder.MappedFormsAgree | src/detail/ip_representation.cpp:339-387 | a v4-mapped address is equivalent to its plain form |
| IpOrder.ClassOrder | src/detail/ip_representation.cpp:369-387 | on full addresses with at most one mapped pair in octets 10 and 11 the order is that of the weighted octet sum |
| IpOrder.StrictWeakExactly | src/detail/ip_representation.cpp:345-387 | on a class of full addresses given by those pairs it is a strict weak order exactly when at most one pair is mapped |
| IpOrder.PlainStrictWeak | src/detail/ip_representation.cpp:345-387 | so it is one on plain addresses, those with both octets zero |
| IpOrder.MappedRuleBreaksTheOrder | src/detail/ip_representation.cpp:345-387 | whenever two equivalent full addresses differ in their mapped prefix, a third lies strictly between them |
| IpOrder.MappedFormsBreakTheOrder | src/detail/ip_representation.cpp:345-387 | it happens for ::5 and ::ffff:0.0.0.5 |
| IpOrder.SumsCollide | src/detail/ip_representation.cpp:324-337 | 10.0.1.0 and 10.0.0.2 are equivalent |
| IpAccess.LowerBound | src/detail/ip_access_control.cpp:36-43 | descending a search tree of any shape ends at an entry not below the key, the first one when the list is partitioned by the key |
| IpAccess.UpperBound | src/detail/ip_access_control.cpp:50-63 | and at the first entry above it |
| IpAccess.AddressSet.Find | src/detail/ip_access_control.cpp:36-43 | what is found is equivalent to the key; on a partitioned list an equivalent entry is found exactly when there is one |
| IpAccess.AddressSet.InsertWildcardAware | src/detail/ip_access_control.cpp:36-43 | for any list and address something equivalent is there afterwards; on a partitioned list one narrower equivalent entry gives way to the wider one |
| IpAccess.WiderEntryTakesOver | src/detail/ip_access_control.cpp:36-43 | a wider entry is in the list afterwards exactly when it overlapped one narrower entry at most |
| IpAccess.FewerBitsWeighLess | src/detail/ip_access_control.cpp:36-43 | a mask inside another has at most its number of bits, and as many exactly when they are equal |
| IpAccess.WiderEntryIsLost | src/detail/ip_access_control.cpp:36-43 | after two narrower entries the wider one is dropped, together with the first of them |
| IpAccess.WildcardAlone | src/detail/ip_access_control.cpp:65-70 | a list of one wildcard entry holds every address it covers |
| IpAccess.AddressSet.Erase | src/detail/ip_access_control.cpp:50-63 | on a partitioned list every equivalent entry goes and no other |
| IpAccess.AddressSet.Contains | src/detail/ip_access_control.cpp:65-70 | never true without an equivalent entry; on a partitioned list true exactly with one |
| IpAccess.ClassifyDecision | src/detail/webserver_callbacks.cpp:143-153 | by default accept: refused when denied and not allowed; by default reject: accepted when allowed and not denied; denied is the reason exactly when the peer is denied and no allow entry helps |
| IpAccess.RunThenClassify | src/detail/ip_access_control.cpp:45-70 | after any edits, wildcards included, that meet partitioned lists the decision is the policy on equivalent entries of the two lists |
| IpAccess.ClassDecision | src/detail/ip_access_control.cpp:45-70 | on every class of addresses with a strict weak order all edits do, and the lists follow the last edit at the peer's sum |
| CookieHeader.TrimWs | src/cookie.cpp:159-168 | strips spaces and tabs from both ends and nothing else: what is left starts and ends with neither and stood between blanks |
| CookieHeader.ParseCookieToken | src/cookie.cpp:191-218 | splits at the first equals sign, trims and unquotes byte for byte; refuses only a blank token, a missing equals sign and an empty name |
| CookieHeader.DroppedExactly | src/cookie.cpp:191-218 | a token is dropped exactly when it has no equals sign or only blanks before the first one |
| CookieHeader.BlanksAroundName | src/cookie.cpp:191-218 | blanks before and after the name and after the value are not part of either |
| CookieHeader.ParseCookieHeader | src/cookie.cpp:413-444 | the walker returns the accepted pairs of the header in order |
| CookieHeader.HeaderArrives | src/cookie.cpp:413-444 | what a header built from settable pairs arrives as, pair by pair |
| CookieHeader.ValueArrives | src/cookie.cpp:191-218 | a value arrives unchanged exactly when it does not end in blank and is not quoted |
| CookieHeader.HeaderRoundTrip | src/cookie.cpp:191-218 | the pairs of section 4.2.1 of RFC 6265 text come back in order exactly when every value survives |
| SetCookie.CookieObject.With | src/cookie.cpp:225-337 | an accepted setter leaves its argument in its own field; no other field changes, and none when it is refused |
| SetCookie.CookieObject.SendAs | src/cookie.cpp:225-404 | after any run of setters on one object the header is refused exactly without a name and otherwise decodes to the object's fields |
| SetCookie.BuiltIsValid | src/cookie.cpp:56-115 | after any run of setters every field is valid |
| SetCookie.FieldByKind | src/cookie.cpp:225-337 | each field depends on the setters of its own kind alone |
| SetCookie.SetterOrderIsIrrelevant | src/cookie.cpp:225-337 | runs that agree kind by kind build the same cookie |
| SetCookie.IntTextRoundTrip | src/cookie.cpp:372-381 | the decimal text of every integer reads back as it |
| SetCookie.ToSetCookieHeader | src/cookie.cpp:339-404 | refuses an invalid name or value and otherwise renders the attributes in the fixed order of section 4.1 of RFC 6265 |
| SetCookie.FullHeader | src/cookie.cpp:330-404 | with every attribute set: the whole header, in the documented order |
| SetCookie.HeaderDecodes | src/cookie.cpp:339-404 | splitting on semicolons recovers name, value, expiry text, max-age, domain, path, HttpOnly, the SameSite mode, and Secure, which is there when set or when SameSite is None |
| SetCookie.SiteReadsBack | src/cookie.cpp:171-178 | each SameSite text reads back as its mode |
| SetCookie.AcceptedBytes | src/cookie.cpp:56-115 | exactly which bytes each setter accepts |
| SetCookie.HeaderIsOneLine | src/cookie.cpp:56-115 | so after any run of setters the header holds no CR, LF or NUL, given a date text without them |
| SetCookie.BuiltCookieDecodes | src/cookie.cpp:339-404 | so for every run of setters |
| SegmentTrie.InsertedAt | src/httpserver/detail/segment_trie.hpp:118-130 | insertion updates one pattern shape and one kind of terminus, and an insertion that throws none |
| SegmentTrie.RemovedAt | src/httpserver/detail/segment_trie.hpp:288-306 | removal takes out exactly that one |
| SegmentTrie.InsertedShaped | src/httpserver/detail/segment_trie.hpp:364-392 | wildcard segments never become literal children |
| SegmentTrie.WildcardMade | src/httpserver/detail/segment_trie.hpp:364-392 | a new wildcard takes its name and constraint from the segment that made it |
| SegmentTrie.WildcardKept | src/httpserver/detail/segment_trie.hpp:364-392 | and keeps them whatever is inserted later |
| SegmentTrie.FailedInsertChanges | src/httpserver/detail/segment_trie.hpp:364-392 | an insertion that throws has changed the trie by then |
| SegmentTrie.TornExactly | src/httpserver/detail/segment_trie.hpp:364-392 | it changes the answer of a request exactly when the request steps onto a literal node it made beside a wildcard that had an answer, and then for the worse |
| SegmentTrie.Find | src/httpserver/detail/segment_trie.hpp:162-201 | one walk from the root finds the exact terminus at the end of the request, else the deepest prefix terminus on the way, with its captures |
| SegmentTrie.WalkStuck | src/httpserver/detail/segment_trie.hpp:180-196 | when a segment has no child, the deepest prefix so far is the answer |
| SegmentTrie.SearchFromFront | src/httpserver/detail/segment_trie.hpp:162-201 | the walk with its memory of the best prefix equals a search by recursion on the request |
| TrieLookup.SearchIsDeepest | src/httpserver/detail/segment_trie.hpp:162-201 | the answer is the terminus of the pattern the whole request follows, if it has one, else the prefix terminus of the longest part that follows a pattern with one, with the captures of that pattern; there is none exactly when there is neither |
| TrieLookup.FollowsReach | src/httpserver/detail/segment_trie.hpp:180-196 | a request that follows a pattern segment by segment, literal before wildcard, ends on its node and captures what stands at its wildcards |
| TrieLookup.FollowsOnce | src/httpserver/detail/segment_trie.hpp:180-196 | it follows one pattern at most |
| TrieLookup.SegmentsOfRequest | src/httpserver/detail/segment_trie.hpp:162-178 | one slash at either end of a request is ignored, empty segments inside are not |
| TrieLookup.WildSegments | src/httpserver/detail/segment_trie.hpp:364-392 | a wildcard segment is a name and, after a bar, a constraint |
| SegmentTrie.PrefixCovers | src/httpserver/detail/segment_trie.hpp:162-201 | no request at or below a literal prefix route goes unanswered, whatever else is registered |
| Endpoint.ProcessPart | src/detail/http_endpoint.cpp:60-99 | one URL part grows the regex text, names and positions, or is refused as malformed |
| Endpoint.ProcessParts | src/detail/http_endpoint.cpp:128-132 | the loop yields the names and positions of all parameters and the joined pattern, exactly for well-formed URLs |
| Endpoint.ParamsExactly | src/detail/http_endpoint.cpp:60-99 | the names and positions list each parameter once, in order, and nothing else |
| Endpoint.PatternsMean | src/detail/http_endpoint.cpp:60-99 | a literal stands for itself, a parameter for one segment of any text, a constrained one for its constraint |
| Endpoint.MakeEndpoint | src/detail/http_endpoint.cpp:112-134 | the constructor's result: canonical key, pattern, parameters, or refusal when the regex does not compile |
| Endpoint.LiteralEndpoint | src/detail/http_endpoint.cpp:112-134 | a path of literals is its own pattern, anchored at both ends when it is compiled, unless it brings its own anchor; it has no parameters |
| RouteCache.Lru.Find | src/httpserver/detail/route_cache.hpp:126-161 | a hit returns the stored value and moves it to the front; a miss changes nothing |
| RouteCache.Lru.Insert | src/httpserver/detail/route_cache.hpp:165-181 | stores or replaces at the front, keeps keys distinct and drops the last item when one too many |
| RouteCache.Lru.Clear | src/httpserver/detail/route_cache.hpp:185-189 | leaves nothing |
| RouteCache.KeepsMostRecent | src/httpserver/detail/route_cache.hpp:92-104 | after any history of uses the cache holds the most recently used keys, latest first |
| RouteTable.CollectRequested | src/detail/webserver_impl.cpp:82-88 | the buffer holds exactly the requested valid methods |
| RouteTable.CommitHandlers | src/detail/webserver_impl.cpp:228-252 | every requested slot gets the handler, the last one by move, and other slots keep theirs |
| RouteTable.RouteTable.ScanRegex | src/detail/route_table.cpp:198-207 | nothing exactly when no route matches, else the first in order of registration whose regex matches |
| Routes.FirstRegexIs | src/detail/route_table.cpp:198-207 | the regex tier answers with the first route in order of registration that matches, and with nothing exactly when none does |
| Routes.AnswerByTier | src/detail/route_table.cpp:154-219 | an exact key answers first, then the trie, then the first matching regex route |
| Routes.LaterRegexRoute | src/detail/route_table.cpp:198-207 | a regex route added later changes no answer there was, and answers what it matches of the rest |
| RouteTable.RouteTable.Lookup | src/detail/route_table.cpp:126-219 | the answer of an exact, then radix, then regex search without a cache, unless the request was lost to a torn registration; the cache stays coherent |
| RouteTable.RouteTable.Evict | src/httpserver/detail/route_cache.hpp:176-180 | losing any cached item keeps the cache coherent |
| RouteTable.RouteTable.RegisterRoute | src/detail/route_table.cpp:485-527 | guards first, then one tier is written |
| RouteTable.RouteTable.Register | src/webserver.cpp:605-627 | validates, registers and clears the cache when accepted; the cache stays coherent but for requests the call lost |
| RouteTable.StillCoherent | src/webserver.cpp:605-627 | whatever a call does, accepted, refused or torn, the cache is coherent for all requests but those lost |
| RouteTable.RouteTable.SweepRegex | src/detail/route_table.cpp:529-537 | every regex route with the key goes, the others keep their order |
| RouteTable.RouteTable.Unregister | src/webserver.cpp:644-664 | removes by kind of path, then clears |
| RouteTable.RouteTable.UnregisterResource | src/webserver.cpp:674-697 | sweeps every tier, then clears |
| RouteTable.RouteTable.UpdateRegex | src/detail/route_table.cpp:410-418 | merges into the first route with the lambda resource |
| RouteTable.RouteTable.OnPlainRoute | src/detail/route_table.cpp:357-449 | a parameterless lambda route: refuse, write the slots, then merge into the entry found or insert a fresh one, which may throw |
| RouteTable.RouteTable.InsertFreshRoute | src/detail/route_table.cpp:357-384 | a fresh entry is refused when the other kind has the key, and otherwise goes to the exact or the regex tier |
| RouteTable.RouteTable.OnPatternRoute | src/detail/route_table.cpp:326-345 | a lambda route with parameters: the slots are written before the insertion can throw |
| RouteTable.RouteTable.OnMethods | src/webserver.cpp:756-783 | validates, performs the call and clears the cache when accepted |
| RouteTable.RouteTable.Run | src/detail/route_table.cpp:126-229 | in every run of registrations, unregistrations, lookups and evictions every lookup answers as without a cache unless the request was lost to a call that tore since the last accepted one |
| RouteTable.WholeRuns | src/detail/route_table.cpp:126-229 | so in a run without a torn call all answers are those of the table without a cache |
| Routes.RefusedKeepsTiers | src/webserver.cpp:605-627 | a refused call that does not tear leaves every tier as it was |
| Routes.TornPerform | src/detail/route_table.cpp:485-527 | a call that tears leaves its half-made pattern in the trie and every other tier as it was |
| Routes.TornTail | src/detail/route_table.cpp:154-219 | it changes the radix and regex answer of exactly the requests lost to it |
| RouteLaws.RegisterAllOrNothing | src/detail/route_table.cpp:485-527 | a refused registration leaves the table untouched exactly when a guard refused it |
| RouteLaws.CompiledPatternsAreSafe | src/httpserver/detail/segment_trie.hpp:364-392 | when every constraint in the pattern compiles the insertion cannot throw |
| RouteLaws.RegisterFillsOnePlace | src/detail/route_table.cpp:455-527 | an accepted registration finds its place empty, fills it, and changes no other place and no lambda resource |
| RouteAnswers.CheckedInputs | src/webserver.cpp:756-783 | which calls are refused before the table is looked at |
| RouteAnswers.RegisterAcceptedExactly | src/detail/route_table.cpp:485-527 | a registration is accepted exactly when its place is empty, the other kind is not there and its pattern can be inserted |
| RouteAnswers.OnPlainAcceptedExactly | src/detail/route_table.cpp:357-449 | a parameterless lambda call is accepted exactly when the entry there is a lambda resource with the slots free, or there is none and no prefix stands there |
| RouteAnswers.OnPatternAcceptedExactly | src/detail/route_table.cpp:326-345 | one with parameters exactly when what the probe finds has the slots free, no prefix stands there and its pattern can be inserted |
| RouteAnswers.RegisteredPathAnswers | src/detail/route_table.cpp:154-219 | after an accepted registration without parameters its path is answered with that resource |
| RouteAnswers.RegisteredPatternAnswers | src/detail/route_table.cpp:175-196 | after one with parameters every request that follows it is, with its captures |
| RouteAnswers.RegisteredPrefixAnswers | src/detail/route_table.cpp:175-196 | after a prefix every request below it is, unless a route ends on the request or a deeper prefix stands on the way |
| RouteAnswers.LaterRegexRegistration | src/detail/route_table.cpp:198-207 | a registration on the regex tier changes no answer there was and answers what it matches of the rest |
| RouteLaws.UnregisterEmptiesItsPlaces | src/webserver.cpp:644-664 | unregistering empties the places of its key and no other |
| RouteLaws.UnregisterResourceEmptiesAll | src/webserver.cpp:674-697 | all four places of the key are emptied and no other |
| RouteLaws.RefusedPlainIsFresh | src/detail/route_table.cpp:357-384 | the slots are written before the last guard, but only a call that made a new lambda resource can fail there |
| RouteLaws.OnPlainAllOrNothing | src/webserver.cpp:756-783 | so a refused parameterless lambda call changes no tier and no slot |
| RouteLaws.OnPlainFillsSlots | src/detail/webserver_impl.cpp:197-252 | an accepted one fills every requested slot, keeps earlier ones and all other lambda resources, and its place dispatches there with the earlier methods and the new ones |
| RouteLaws.OnPlainKeepsOtherPlaces | src/detail/route_table.cpp:357-449 | no other place changes |
| RouteLaws.MergeRegexAt | src/detail/route_table.cpp:386-419 | updating by identity of the lambda resource updates the entry found by key |
| RouteLaws.AlwaysOwned | src/detail/route_table.cpp:386-419 | in every reachable table the lambda resources behind entries of all three tiers exist and no two regex routes share one |
| RouteLaws.ReachableLambdasExist | src/detail/route_table.cpp:249-283 | so in every reachable table the lambda resource a probe finds or a pattern has is there |
| RouteLaws.InsertApart | src/detail/route_table.cpp:285-324 | one more terminus keeps exact and prefix apart exactly when the other kind is not there |
| RouteLaws.PrefixStaysApart | src/detail/route_table.cpp:285-324 | an accepted prefix keeps them apart exactly when no exact route has the same segments |
| RouteLaws.KindsStayApart | src/detail/route_table.cpp:285-324 | after any calls on paths without empty segments no key is both an exact and a prefix route |
| RouteWitness.DoubledSlashIsMissed | src/detail/route_table.cpp:285-324 | registering /a//b as a path and then /a/b as a prefix is accepted, and the exact key and the prefix terminus have the same segments |
| RouteWitness.SecondLoses | src/httpserver/detail/segment_trie.hpp:364-392 | after /a/{x} was registered, a refused registration below /a/b whose constraint does not compile takes the answer of /a/b away |
| RouteWitness.StaleAnswer | src/webserver.cpp:605-627 | a server that was asked for /a/b before still answers it from the cache |
| RouteLaws.OnPatternWrites | src/detail/route_table.cpp:326-345 | what an accepted call on a path with parameters writes: one place, with the probed methods and the new ones, and the slots of the probed or a new lambda resource |
| RouteLaws.OnPatternAllOrNothing | src/webserver.cpp:756-783 | a refused one leaves the table as it was exactly when the lambda resource refused it or the probe found nothing and a prefix stands at its place |
| RouteLaws.OnPatternKeepsHandlers | src/detail/route_table.cpp:249-283 | whatever the probe finds, the earlier handlers of the place survive exactly when each is in the probed slots and not replaced, or is the one the call brings |
| RouteLaws.OnPatternKeepsItsOwn | src/detail/route_table.cpp:249-283 | so all survive when the probe finds the place itself, and when it finds nothing only what the call brings again |
| RouteLaws.ConstraintHidesItsOwnRoute | src/detail/route_table.cpp:253-272 | a pattern that fails its own constraint does not find its route |
| RouteLaws.ProbeFindsAnotherRoute | src/detail/route_table.cpp:253-272 | a pattern with a literal segment can find a wildcard route |
| RouteCacheRaces.StepKeeps | src/detail/route_table.cpp:154-229 | every walk, install, call, clear and eviction keeps: a cached value is some version's answer, and after a call accepted since its install a clear is pending |
| RouteCacheRaces.StaleOnlyWhen | src/detail/route_table.cpp:154-229 | in every interleaving a cached value that is not the current answer has a clear pending, a call accepted between its walk and its install, or its request lost to a torn registration since the walk |
| RouteCacheRaces.QuietCacheIsCoherent | src/detail/route_table.cpp:222-229 | with no clear pending, no call between a walk and its install and none that tore, the cache is coherent |
| RouteCacheRaces.FreshInstall | src/detail/route_table.cpp:175-219 | a walk and its install with nothing between them caches the current answer and changes nothing else |
| RouteCacheRaces.Forgetting | src/httpserver/detail/route_cache.hpp:176-189 | an eviction forgets its key alone and a clear all keys; neither touches the table or a walk under way |
| RouteCacheRaces.StaleWithNothingPending | src/detail/route_table.cpp:175-219 | the second case happens: an accepted call and its clear fall between a walk and its install |
| RouteCacheRaces.StaleAfterTear | src/webserver.cpp:605-627 | so does the third: a torn registration leaves the answer it took away in the cache, with no clear to come |
| HookBus.HookTable.Add | src/detail/hook_bus.cpp:53-80 | a mismatched phase or empty callable registers nothing; else a new id at the end of the vector, gate open, and nothing else changes |
| HookBus.HookTable.Remove | src/detail/hook_bus.cpp:207-241 | erases the slot, and closes the gate when the vector empties with no alias wired |
| HookBus.HookTable.RemoveSlot | src/resource_hook_table.cpp:204-248 | a resource's table ends in the same state |
| HookBus.HookTable.SetExceptionAlias | src/detail/hook_bus.cpp:246-254 | wires the internal error handler and opens its gate |
| HookBus.HookTable.SetAccessAlias | src/detail/hook_bus.cpp:256-261 | wires the access log and leaves the gate |
| HookBus.AddedSound | src/resource_hook_table.cpp:61-78 | adding keeps ids unique and gates right |
| HookBus.RemovedSound | src/detail/hook_bus.cpp:207-241 | so does removing |
| HookBus.RemovedLive | src/detail/hook_bus.cpp:207-241 | removal takes out its own slot and no other, in any phase |
| HookBus.RemovedExactly | src/detail/hook_bus.cpp:207-241 | the first slot with the id goes, the others keep their order, and the gate closes exactly when it was the last and no alias is wired |
| HookBus.LiveOnce | src/detail/hook_bus.cpp:64-66 | an id is below the counter and lives in one phase only |
| HookHandles.HookHandle.Move | src/hook_handle.cpp:51-61 | the new handle takes everything over and the source is disarmed |
| HookHandles.HookHandle.Assign | src/hook_handle.cpp:63-79 | erases what it owned, takes over, and does nothing on itself |
| HookHandles.HookHandle.Remove | src/hook_handle.cpp:104-133 | erases the owned registration once and disarms |
| HookHandles.HookHandle.Detach | src/hook_handle.cpp:135-154 | both handles are disarmed and nothing is erased |
| HookHandles.UnregisteredOnly | src/hook_handle.cpp:94-133 | removal erases its own registration and no other, on the server or any resource |
| HookHandles.NextKeeps | src/hook_handle.cpp:51-154 | every add, move, assignment, removal, detachment and destruction, and resources coming and going, keep the ownership invariant |
| HookHandles.RegistrationsAreOwnedOnce | src/hook_handle.cpp:51-154 | after any run each registration has exactly one armed handle or was detached, and its id is unique |
| HookHandles.DetachedStays | src/hook_handle.cpp:104-154 | what a handle owns or was detached is registered as long as the server or resource it is on lives |
| HookHandles.EveryBusIsSound | src/detail/hook_bus.cpp:207-241 | and on every bus alive, with hooks or without, every gate is right and no id occurs twice in a vector or in two phases |
| HookFiring.FirstResponder | src/detail/hook_bus.cpp:395-406 | the first hook of the snapshot whose reaction, in the state its predecessors leave, is a response |
| HookFiring.ChainExactly | src/detail/hook_bus.cpp:379-415 | without a responder all run and there is no response; else those up to the first responder run, and its response is the result |
| HookFiring.ServerComesFirst | src/detail/hook_dispatcher.cpp:148-189 | the route's hooks run exactly when no server-wide hook responded, in the state those left, and their response is then the result |
| HookFiring.RouteSeesTheReplacement | src/detail/hook_dispatcher.cpp:193-223 | the route's after_handler hook is shown the response the server-wide one put in, and its own wins |
| HookFiring.ReplacementStands | src/detail/hook_dispatcher.cpp:193-223 | a replacement by a server-wide hook stands when the route's hooks pass, and those all run |
| HookFiring.ObserversRun | src/detail/hook_dispatcher.cpp:227-319 | all server-wide observers run, then for response_sent the access log when wired, then the route's when its gate is open |
| HookFiring.HookRunner.RunShortCircuit | src/detail/hook_bus.cpp:379-415 | runs the snapshot in order up to and including the first responder, throwers counted as pass, whatever the hooks add or remove |
| HookFiring.HookRunner.RunObserving | src/detail/hook_bus.cpp:342-374 | runs the whole snapshot in order |
| HookFiring.HookRunner.FireServer | src/detail/hook_bus.cpp:479-525 | handler_exception ends in the alias when no hook responded |
| HookFiring.HookRunner.FireGated | src/detail/hook_dispatcher.cpp:148-189 | server-wide hooks, then the route's unless they responded, by the gates as they were at the start and, for handler_exception, the reference stamped at lookup |
| HookFiring.HookRunner.FireAfterHandlerGated | src/detail/hook_dispatcher.cpp:193-223 | the route's hooks always run and see the replaced response |
| HookFiring.HookRunner.FireObserverGated | src/detail/hook_dispatcher.cpp:227-319 | server-wide observers, the access log, then the route's, which request_completed reaches only through the reference stamped at lookup while the resource lives |
| HookFiring.GatesAreInvisible | src/detail/hook_dispatcher.cpp:148-189 | gated firing equals ungated firing exactly when the server responded or no hook of the route was missed |
| HookFiring.WhyMissed | src/detail/request_dispatcher.cpp:113-135 | hooks are missed exactly when the route has some by then and its vector was empty at the start or the resource was not reachable |
| HookFiring.AfterGatesAreInvisible | src/detail/hook_dispatcher.cpp:193-223 | the same for after_handler |
| HookFiring.ObserveGatesAreInvisible | src/detail/hook_dispatcher.cpp:227-319 | the same for response_sent and request_completed |
| HookFiring.ArmedMeanwhileHappens | src/detail/hook_dispatcher.cpp:148-189 | one server-wide hook that adds the route's first hook shows the difference |
| HookFiring.LateTableIsMissed | src/detail/request_dispatcher.cpp:113-135 | a handler_exception hook on a table that came after the lookup never runs |
| HookFiring.LateTableMissesCompletion | src/detail/hook_dispatcher.cpp:285-289 | nor does a request_completed hook on one |
| HookFiring.InternalErrorHandlerIsLast | src/detail/request_dispatcher.cpp:113-158 | in one firing of handler_exception the internal error handler runs at most once, after every server-wide hook, and only if none responded; if its response cannot be materialised, src/detail/response_materializer.cpp:95-97 calls it again for the error page, outside any chain |
| HookFiring.InternalErrorHandlerRuns | src/detail/hook_bus.cpp:479-525 | the internal error handler runs exactly when it is wired and no server-wide hook responded, right after them; when it responds, that is the firing's response and no hook of the route runs |
| HookFiring.FiringKeepsSound | src/resource_hook_table.cpp:84-122 | whatever hooks do while firing, ids stay unique and gates right |
| RequestLifecycle.ResolveMethod | src/detail/webserver_callbacks.cpp:764-807 | the nine wire tokens resolve to their own methods with the matching callback, a body for POST, PUT, DELETE and PATCH alone; any other token to the out-of-range method and no callback |
| RequestLifecycle.TokenResolves | src/httpserver/http_method.hpp:132-151 | each method is what its own RFC 9110 token resolves to |
| RequestLifecycle.MaskAfter | src/httpserver/http_resource.hpp:183-204 | a resource starts with all nine methods; each edit adds, removes, fills or empties |
| RequestLifecycle.AllowMask.SetAllowing | src/httpserver/http_resource.hpp:183-190 | the mask stays the one the edits so far amount to, method by method; the sentinel is never settable |
| RequestLifecycle.AllowMask.Run | src/httpserver/http_resource.hpp:183-204 | so after any run of edits: a method is in the mask exactly when it is valid and the last edit that concerns it allows it |
| RequestLifecycle.AllowMask.IsAllowed | src/httpserver/http_resource.hpp:213-215 | the test is that of the edits so far, and no invalid method passes it |
| RequestLifecycle.Connection.FirstStep | src/detail/request_pipeline.cpp:110-157 | a responding request_received hook fills the slot and skips the handler |
| RequestLifecycle.Connection.BodyData | src/detail/request_pipeline.cpp:159-207 | after a short circuit no chunk fires anything; a responding hook fills the slot |
| Materializer.ChainShape | src/detail/response_materializer.cpp:78-124 | four attempts at most; all but the last failed, and the last succeeded or was the empty 500 |
| Materializer.RefusedExactly | src/detail/response_materializer.cpp:78-246 | nothing can be queued exactly when the response, the pages its failures call for and the empty 500 all fail; the response itself goes out exactly when its first attempt succeeds |
| Materializer.FallbackPages | src/detail/response_materializer.cpp:78-124 | which page stands in after which failure: the 404 page after std::invalid_argument, else the error page, then the empty 500 |
| RequestLifecycle.Connection.RawResponse | src/detail/response_materializer.cpp:78-124 | the attempts made are those the failures call for, in order; it succeeds exactly when the last did, and otherwise only the empty 500 is left |
| RequestLifecycle.Connection.RawOrEmpty | src/detail/response_materializer.cpp:206-231 | with the empty 500 it fails exactly when every fallback fails |
| RequestLifecycle.Connection.MaterializeAndQueue | src/detail/response_materializer.cpp:206-246 | queues the response of the first successful attempt, or refuses exactly when all of them fail; response_sent fires right after a queued one when its gate is open, and not otherwise |
| RequestLifecycle.Connection.HandleException | src/detail/request_dispatcher.cpp:113-158 | fills the slot from the chain, with the empty 500 when the chain has no response, or with the error page when there is no chain |
| RequestLifecycle.Connection.Dispatch | src/detail/request_dispatcher.cpp:162-209 | calls the handler exactly for an allowed method, through a callback that is not null, notes nothing else but handler_exception when it throws, and fills the slot with its response, an error page for the sentinel, or the 405 page |
| RequestLifecycle.Connection.Route | src/detail/request_dispatcher.cpp:246-280 | looks the route up once and fires route_resolved when its gate is open |
| RequestLifecycle.Connection.BeforeHandlerHooks | src/detail/request_dispatcher.cpp:282-290 | a response cuts the request short and fills the slot |
| RequestLifecycle.Connection.AfterHandlerHooks | src/detail/request_dispatcher.cpp:298-302 | fires only when nothing was cut short, and may replace the response |
| RequestLifecycle.Connection.RouteAndHandle | src/detail/request_dispatcher.cpp:262-302 | what is noted is exactly what the lookup, the gates and the hooks call for; the slot ends as the answer specified for these hooks, handler and pages, or in an exception exactly when the 404 page throws |
| RequestLifecycle.PassingHooksChangeNothing | src/detail/request_dispatcher.cpp:262-302 | hooks that pass, gated or not, leave a handler's response as the answer |
| RequestLifecycle.HandlerCalledExactly | src/detail/request_dispatcher.cpp:262-302 | the handler is called exactly when a route is found, before_handler passes and the route allows the method |
| RequestLifecycle.AnswersByPage | src/detail/request_dispatcher.cpp:162-302 | without a response from hooks: the 404 page, the 405 page, the handler's response, the error page for a sentinel, and after a throw the error page or, behind a chain, the empty 500 |
| RequestLifecycle.AnswersByHook | src/detail/request_dispatcher.cpp:113-302 | a before_handler response is the answer, a handler_exception one stands in for a throwing handler, an after_handler one replaces any other |
| RequestLifecycle.EveryPhaseFires | src/detail/request_dispatcher.cpp:246-302 | when every phase is listened to and nobody responds, the phases fire in the documented order: which ones for a missing route, a method not allowed, a handler that returns and one that throws |
| RequestLifecycle.SentIsReported | src/detail/response_materializer.cpp:206-246 | what is queued is reported by response_sent, what is refused is not |
| RequestLifecycle.HeardByAll | src/detail/request_pipeline.cpp:110-207 | request_received fires once, then body_chunk once for each chunk of a body, up to the first hook that responds |
| RequestLifecycle.UpgradeAnswers | src/detail/websocket_upgrader.cpp:132-260 | 400 exactly for an upgrade request without a proper handshake, 101 exactly for one with a handler and a response that could be made, else no answer |
| RequestLifecycle.Connection.Finalize | src/detail/request_dispatcher.cpp:246-308 | all that is noted from the complete request to its outcome: the upgrader's own 101 or 400 and nothing else, or the events of the answer and then an escaped exception, a queued response or a refusal; the attempts are those of the slot, which after a short circuit is the hook's response |
| RequestLifecycle.EndMeans | src/detail/request_dispatcher.cpp:246-308 | those events hold an outcome: an exception exactly when there is no answer, a refusal exactly when every fallback fails, else the response of the last attempt |
| RequestLifecycle.Connection.Receive | src/detail/request_pipeline.cpp:110-207 | the first callback and any chunks fire what the gates and the responses so far call for, and the slot then holds the response of the hook that cut the request short, if one did |
| RequestLifecycle.Connection.Serve | src/detail/request_pipeline.cpp:110-221 | every run of the callbacks leaves exactly the firings of the request coming in, the events of its end if it was completed, and request_completed when its gate is open, unless an exception escaped; that trace is in phase order, a handler in it is that of the token sent, and it has an outcome exactly when the request was completed |
| RequestLifecycle.OncePerRequest | src/detail/request_dispatcher.cpp:246-308 | at most one outcome, one handler call and one firing of each phase but body_chunk, response_sent after the outcome |
| ResponseOwnership.OpenFileBody | src/detail/response_body.cpp:112-144 | a file that cannot be served is closed at once, any other is held |
| ResponseOwnership.DestroyBodyObject | src/detail/response_body.cpp:146-152 | closes the descriptor unless it was handed over or moved away |
| ResponseOwnership.HttpResponse.DestroyBody | src/http_response.cpp:81-93 | closes what is held, frees a heap body and leaves no body |
| ResponseOwnership.HttpResponse.AdoptBodyFrom | src/http_response.cpp:95-117 | the body changes owner, inline or heap, and nothing is closed |
| ResponseOwnership.HttpResponse.Assign | src/http_response.cpp:159-173 | destroys the old body, adopts the new one, and does nothing on itself |
| ResponseOwnership.HttpResponse.Materialize | src/detail/response_body.cpp:166-228 | hands the descriptor over exactly when the backend took it with content, closes that of an empty file, keeps it when the backend refuses, and gives nothing for a pipe without one |
| ResponseOwnership.NextKeeps | src/http_response.cpp:81-173 | every creation, move, assignment, materialisation and destruction conserves descriptors and heap bodies |
| ResponseOwnership.EveryDescriptorOnce | src/detail/response_body.cpp:112-228 | in every run a descriptor is closed or handed over at most once, and is held by exactly one response until then |
| ResponseOwnership.HandedOverExactly | src/detail/response_body.cpp:112-228 | a descriptor was handed over exactly when a response holding it was materialised with success and content, and closed exactly when it was not and no response holds it any more |
| ResponseOwnership.NothingLeaks | src/http_response.cpp:81-173 | when all responses are gone every descriptor was closed or handed over exactly once and every heap body freed once |
| ResponseOwnership.TwiceMaterializedIsHandedTwice | src/detail/response_body.cpp:166-185 | materialising again after a success would hand the descriptor over again |
| WebSocketSession.Session.SendAll | src/websocket_handler.cpp:65-73 | sends until all bytes went out or one send fails, and succeeds exactly when all did |
| WebSocketSession.Session.SendFrame | src/websocket_handler.cpp:75-134 | a valid session sends the encoded frame of that kind and payload; an invalid one sends nothing; a frame cut short invalidates it |
| WebSocketSession.FrameGoesOut | src/websocket_handler.cpp:65-145 | over a socket that takes all it is given, a valid session sends exactly the frame asked for, whole, and a close ends it |
| WebSocketSession.Session.Close | src/websocket_handler.cpp:136-145 | a valid session becomes invalid and sends one close frame with code and reason; an invalid one does nothing |
| WebSocketSession.Session.Call | src/detail/websocket_upgrader.cpp:75-106 | a callback is one more callback, and its sends and closes act on the session in order |
| WebSocketSession.Session.HandleClose | src/detail/websocket_upgrader.cpp:58-73 | on_close once with the code and reason of the payload, then the echo of both unless the handler closed already |
| WebSocketSession.ClosePayloadRoundTrip | src/detail/websocket_upgrader.cpp:58-73 | code and reason of a close payload are those it was made of; without a payload 1000 and none |
| WebSocketSession.Session.Dispatch | src/detail/websocket_upgrader.cpp:75-106 | text, binary, ping and close frames give their own callback with the payload; too little data gives none; a protocol error gives none and closes with 1002 |
| WebSocketSession.Session.DecodeBuffer | src/detail/websocket_upgrader.cpp:108-129 | the callbacks made are exactly those of the outcomes decoded, one after the other, up to the end of the buffer, a decode that takes no byte or the end of the session; an invalid session decodes nothing |
| WebSocketSession.EveryFrameIsDelivered | src/detail/websocket_upgrader.cpp:75-129 | each decoded frame adds its own callback with its payload after those of the frames before it |
| WebSocketSession.Session.Run | src/detail/websocket_upgrader.cpp:200-239 | on_open, then exactly the callbacks of all frames decoded from the buffers received, in order; every buffer is decoded while the session is valid, and the wire and callback rules hold at the end |
| WebSocketSession.BuffersExactly | src/detail/websocket_upgrader.cpp:225-236 | the buffers are the initial data, if any, and what was received up to the first end of stream or error |
| WebSocketSession.ReceivedExactly | src/detail/websocket_upgrader.cpp:231-236 | receiving stops at the first result that is not positive and nowhere else |
| WebSocketSession.NothingAfterClose | src/websocket_handler.cpp:136-145 | at most one close frame, nothing after it, and nothing after a frame cut short (section 5.5.1 of RFC 6455) |
| WebSocketSession.OnCloseOnce | src/detail/websocket_upgrader.cpp:58-73 | on_close at most once and as the last callback |

## Left out

- MHD options and flags, daemon start and stop, the event loop: I/O plumbing.
- TLS, certificates, PSK, basic and digest authentication: calls into GnuTLS and MHD.
- File uploads, temporary file names, reading files: file-system effects.
- The semantics of std::regex: compiling and matching are parameters.
- The date text in Expires: any text without a semicolon.
- Percent-decoding: paths are taken already unescaped.
- The case-insensitive build: keys keep their case.
- Request argument and header caches, the response's cookie list and its lazy mirror, the builder, logging, redaction: they would add easy members.
- Memory ordering, the gates' relaxed loads and the thread-local snapshot buffers: gates are plain sets and snapshots local sequences.
- Update in place of trie nodes, and aliasing between them: the trie is a value that the table's field holds; std::map ordering and hash buckets are not modelled, except that a bucket probe may miss.
- Wrap-around of the 64-bit slot counter.
- Edits a hook makes inside a response it is shown, other than replacing it.
- Endpoint.MakeEndpoint: models registration only; the endpoint built for matching a request is not used by the lookup.
- IpAccess.AddressSet.InsertWildcardAware: the new list is given when the old one is partitioned by the address; on others a search tree finds whatever its shape makes it find.
- IpAccess.AddressSet.Erase: the same.
- IpAccess.AddressSet.Contains: a miss is decided on partitioned lists only, for the same reason.
- IpAccess.RunThenClassify: the decision is given for runs that meet partitioned lists, for the same reason.
- Cookies that cannot be rendered while a response is decorated, and a last attempt that throws instead of failing.
- RequestLifecycle.Connection.Serve: hooks are the environment's choice here; what a chain does is in HookFiring.
- ResponseOwnership.NothingLeaks: for runs in which no response is materialised again after the backend took its descriptor.
