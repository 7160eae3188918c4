# Trickster routing engine in Dafny

Trickster is an HTTP mock server. A user configures routes: a request method, a path pattern,
optional authentication, and a list of canned responses. The server answers each incoming
request with one response of the first route that matches. This project models the
route-matching and response-selection engine of both generations of the server and proves
properties of it.

- **FastAPI generation** (`trickster/router.py`):
  - module `PathPattern`: the `ParametrizedPath` compiler and matcher, with `{name:type}`
    placeholders over the five typed languages;
  - module `Router`: response delays, response validators with their OR invariant, response
    selection (`FIRST`, `BALANCED`, `RANDOM`), route matching and first-wins router matching.
- **Flask generation**:
  - module `Responses`: the error hierarchy, `Delay` and `Response`
    (`trickster/routing/__init__.py`);
  - module `IdLists`: `IdList`, an ordered, id-keyed list that is updated in place
    (`trickster/collections.py`);
  - module `Auth`: token, basic, form, cookie and HMAC authentication
    (`trickster/auth.py`);
  - module `Routing`: response exhaustion, the `greedy`/`cycle`/`random` strategies, `Route`
    and the CRUD `Router` (`trickster/routing.py`).
- **Shared**: module `Utils` holds `remove_none_values`. Modules `Wrappers` (Option, Result,
  Outcome) and `Json` (JSON values and Python truthiness) support the rest.

How the model is built:

- Objects whose fields the source updates in place are classes with `modifies` clauses:
  `IdList`, `Response`, `RouteResponse`, the Flask `Route` and `Router`, and the FastAPI
  `Router`.
- Loops of the source are methods with loop invariants. Each is proved against a
  specification function or states outright what it finds. Examples: `PathRegex`,
  `IdList.Index`, `SelectCycle`, `Router.Match`.
- Raised exceptions are `Err`/`Fail` results.
- Foreign code becomes function-typed parameters:
  - JSON-Schema acceptance (`accepts`);
  - `json.dumps` (`dumps`);
  - the random draw (`draw`);
  - uuid generation (a sequence of candidate ids, `draws`);
  - a user-supplied path regex (`path`);
  - the Basic-auth decoder, the HMAC-SHA1 hex digest, the `float()` timestamp parse and the
    clock (the `Env` record).
- Python's `re` semantics are written out where the source relies on them:
  - `.*` stops at a newline;
  - `$` also matches just before a final newline;
  - backtracking tries placeholder lengths longest first.

## Model

| member | source | states |
|---|---|---|
| Utils.RemoveNoneValues | trickster/utils.py:4-6 | the result holds no None value, every kept key carries its input value, and every key whose value is not None is kept |
| Utils.RemoveNoneValuesIdempotent | trickster/utils.py:4-6 | filtering twice equals filtering once |
| IdLists.IndexOf | trickster/collections.py:53-58 | None iff no item has the key; otherwise the position of the first item with that key |
| IdLists.AppendKeepsUnique | trickster/collections.py:60-64 | appending an item whose id is absent keeps ids pairwise distinct |
| IdLists.DeleteKeepsUnique | trickster/collections.py:66-69 | deleting one slot keeps ids pairwise distinct |
| IdLists.OverwriteKeepsUnique | trickster/collections.py:71-75 | overwriting a slot keeps ids distinct only when the new id equals the old one or is absent; `replace` itself does not check, so this is the caller's obligation |
| IdLists.IdList.constructor | trickster/collections.py:24-25 | a new list is empty |
| IdLists.IdList.Index | trickster/collections.py:53-58 | the linear scan returns exactly the first position of the key, or None |
| IdLists.IdList.Get | trickster/collections.py:27-32 | None iff the key is absent; otherwise the first item with that id |
| IdLists.IdList.Contains | trickster/collections.py:42-47 | `key in list` holds iff `index(key)` is not None, iff some item has the key |
| IdLists.IdList.Length | trickster/collections.py:49-51 | the number of items |
| IdLists.IdList.Serialize | trickster/collections.py:38-40 | the item serializer is mapped over the items in order, and the length is kept |
| IdLists.IdList.Add | trickster/collections.py:60-64 | a present id raises KeyError and changes nothing; a fresh id is appended at the end with earlier items unchanged; distinct ids stay distinct |
| IdLists.IdList.Remove | trickster/collections.py:66-69 | removing an absent id is a no-op; a present id deletes exactly that slot and keeps the rest in order; distinct ids stay distinct |
| IdLists.IdList.Replace | trickster/collections.py:71-75 | a missing id raises KeyError with no change; otherwise the item is put at the same index and every other slot is unchanged |
| PathPattern.LanguageShape | trickster/router.py:46-52 | every word of every placeholder language is non-empty and holds no `/` and no newline |
| PathPattern.InLanguage | trickster/router.py:46-52 | (definition) the language of each placeholder type, dispatching to the five predicates below |
| PathPattern.IsIntegerText | trickster/router.py:47 | (definition) `[1-9]\d*` |
| PathPattern.IsNumberText | trickster/router.py:48 | (definition) `\d+(?:[.,]\d+)?` |
| PathPattern.IsStringText | trickster/router.py:49 | (definition) `[^\\/\s?]+`, with `\s` the characters `str.isspace` accepts |
| PathPattern.IsBooleanText | trickster/router.py:50 | (definition) `[01]` |
| PathPattern.IsUuid4Text | trickster/router.py:51 | (definition) lower-case hex 8-4-4-4-12 with version digit `4` and variant digit in `[89ab]` |
| PathPattern.Normalize | trickster/router.py:70-78 | the result starts with `/`, is the input with at most one `/` prepended, and is the input itself when it already starts with `/` |
| PathPattern.NormalizeIdempotent | trickster/router.py:70-78 | normalizing twice equals normalizing once |
| PathPattern.WordEnd | trickster/router.py:80-84 | the end of the maximal run of `\w` characters from a position |
| PathPattern.TypeFrom | trickster/router.py:80-84 | a type found among the candidates is one of them, and its name followed by `}` is spelled at the position; the first candidate that fits wins |
| PathPattern.TypeAt | trickster/router.py:80-84 | a type found at a position is spelled there, followed by `}`; the alternatives are tried in the order integer, number, string, boolean, uuid4 (TypeAtName) |
| PathPattern.PlaceholderAt | trickster/router.py:80-84 | a placeholder found at a position ends strictly after it and inside the path |
| PathPattern.PlaceholderTo | trickster/router.py:80-84 | a placeholder whose `{` is at one position and whose name ends at another ends strictly after it and inside the path |
| PathPattern.TokenizeFrom | trickster/router.py:86-99 | (definition) the escaped pattern from a position: each placeholder found left to right becomes a group, every other character a literal; its meaning is stated by LiteralTokens and PathRegex |
| PathPattern.Tokenize | trickster/router.py:86-99 | (definition) the whole escaped pattern with its placeholders substituted |
| PathPattern.CheckGroups | trickster/router.py:93-99 | compiling fails iff a group name starts with a digit, a name repeats, or a name was already used |
| PathPattern.NameSetCons | trickster/router.py:93-99 | the group names of a pattern are its first token's name plus those of the rest |
| PathPattern.Compile | trickster/router.py:86-99 | the pattern compiles iff group names are valid and distinct, and then it is the tokenized path |
| PathPattern.TokenizeStep | trickster/router.py:86-99 | one step of the scan: a placeholder at the position becomes its group and the scan resumes after its `}`; otherwise the character is a literal |
| PathPattern.AppendStep | trickster/router.py:86-99 | appending one token to the tokens so far keeps their concatenation with the rest of the scan |
| PathPattern.PathRegex | trickster/router.py:86-99 | the loop that escapes the path and substitutes each placeholder yields exactly the compiled pattern or the same error; each iteration is one TokenizeStep, and AppendStep re-associates the token list |
| PathPattern.FillIgnoresOtherNames | trickster/router.py:101-105 | binding a name the pattern does not use does not change the path that the pattern spells |
| PathPattern.MatchFrom | trickster/router.py:101-105 | (definition) the anchored search of `re.match` on `^...$`: literals one by one, groups by TryLengths, and the end or one final newline; its meaning is stated by MatchSound and MatchComplete |
| PathPattern.TryLengths | trickster/router.py:101-105 | (definition) backtracking over a greedy group: the longest capture first; stated by TryLengthsWitness and TryLengthsFinds |
| PathPattern.FromRaw | trickster/router.py:61-68 | the stored path starts with `/` and is the raw text, with a `/` prepended when it lacked one |
| PathPattern.MatchPath | trickster/router.py:101-105 | (definition) `match_path`: the normalized request matched against the compiled pattern; stated by MatchPathSound, MatchPathComplete and LiteralPathMatch |
| PathPattern.MatchPathOf | trickster/router.py:101-105 | a pattern that compiles to some tokens makes `match_path` match the normalized request against those tokens |
| PathPattern.MatchPathErr | trickster/router.py:101-105 | a pattern that fails to compile makes `match_path` raise that error |
| PathPattern.MatchPathSound | trickster/router.py:101-105 | a successful `match_path` binds exactly the pattern's groups, each to a word of its type, and the normalized request is the pattern filled with them, possibly followed by one newline |
| PathPattern.MatchPathComplete | trickster/router.py:101-105 | a request that is the pattern filled with well-typed words matches; a pattern that does not compile makes `match_path` fail with the compile error |
| PathPattern.TypedTail | trickster/router.py:101-105 | a typed binding of a pattern is a typed binding of its tail |
| PathPattern.DistinctTail | trickster/router.py:93-99 | distinct names stay distinct in the tail, and the head's name does not reappear |
| PathPattern.TryLengthsWitness | trickster/router.py:101-105 | a successful backtracking step captured a non-empty word of the type, and the rest of the pattern matched the remainder |
| PathPattern.TryLengthsFinds | trickster/router.py:101-105 | if some capture length works, backtracking succeeds |
| PathPattern.MatchSound | trickster/router.py:101-105 | a match binds exactly the pattern's names, each to a word of its type, and the request is the pattern filled with those values, possibly followed by one newline |
| PathPattern.MatchSoundLit | trickster/router.py:101-105 | soundness of a match when the pattern starts with a literal character |
| PathPattern.MatchSoundVar | trickster/router.py:101-105 | soundness of a match when the pattern starts with a placeholder |
| PathPattern.MatchComplete | trickster/router.py:101-105 | any well-typed binding of the pattern's names gives a string that matches, with or without one trailing newline |
| PathPattern.LiteralTokens | trickster/router.py:89-91 | a path without placeholders compiles to one literal token per character, so the escape is exact |
| PathPattern.LiteralMatch | trickster/router.py:101-105 | literal tokens match exactly their text, or their text followed by one newline, and capture nothing |
| PathPattern.LiteralPathMatch | trickster/router.py:87-105 | for a path without placeholders, `match_path(q)` is `{}` iff the normalized `q` equals the path (or the path plus a final newline), and None otherwise |
| PathPattern.OnePlaceholder | trickster/router.py:80-84 | (definition) the pattern text `/{name:type}`; its tokens are stated by OnePlaceholderTokens |
| PathPattern.WordEndAt | trickster/router.py:80-84 | a run of `\w` characters that stops at a non-word character is exactly the run `\w+` takes |
| PathPattern.TypeAtName | trickster/router.py:80-84 | a type name followed by `}` is recognized as that type; no alternative tried before it (integer, number, string, boolean, uuid4, in that order) fits |
| PathPattern.TypeFromName | trickster/router.py:80-84 | among any candidates holding the type, the alternation picks that type when its name and `}` close the text |
| PathPattern.HasAtHead | trickster/router.py:80-84 | a word spelled at a position starts with the character there |
| PathPattern.PlaceholderFound | trickster/router.py:80-84 | a name that stops at `:` followed by a recognized type gives that name, that type and the end of the type name plus `}` |
| PathPattern.OnePlaceholderTokens | trickster/router.py:80-99 | the text `/{name:type}` with a `\w+` name tokenizes to a literal `/` and one group `name` of that type |
| PathPattern.SlashPlaceholderTokens | trickster/router.py:80-99 | a text that is `/` and then a placeholder closing the text tokenizes to a literal `/` and that one group |
| PathPattern.OnePlaceholderCompile | trickster/router.py:61-99 | the stored form of `/{name:type}` is the text itself; it compiles to its two tokens, or fails with a bad group name when `name` starts with a digit |
| PathPattern.CompileOneVar | trickster/router.py:93-99 | a text whose tokens are `/` and one group compiles iff the group's name does not start with a digit |
| PathPattern.PlaceholderAcceptsExactly | trickster/router.py:46-105 | for the stored pattern `/{name:type}`, `match_path("/" + v)` is `{name: v}` iff `v` is in the type's language, `{name: w}` when `v` is such a word `w` plus one final newline, and None otherwise; a name starting with a digit fails to compile |
| PathPattern.OneVarMatch | trickster/router.py:101-105 | the same three cases for the matcher on the tokens of `/{name:type}` |
| PathPattern.OneVarMatchFound | trickster/router.py:101-105 | a match on the tokens of `/{name:type}` captures `v`, or `v` without its final newline when `v` itself is no word of the type |
| PathPattern.OneVarNoMatch | trickster/router.py:101-105 | no match on the tokens of `/{name:type}` means `v` is no word of the type, with or without one final newline |
| PathPattern.CaptureCases | trickster/router.py:101-105 | a single capture that is a word of the type and equals `v` or `v` minus one newline is decided by whether `v` is itself a word |
| PathPattern.PlaceholderAccepts | trickster/router.py:46-52 | every word of the type's language, alone or followed by one newline, is accepted by the tokens of `/{name:type}` |
| PathPattern.OneVarNames | trickster/router.py:93-99 | the tokens of `/{name:type}` have exactly one, distinct, name |
| PathPattern.FillOneVar | trickster/router.py:101-105 | filling the tokens of `/{name:type}` gives `/` followed by the bound value |
| PathPattern.PlaceholderCaptures | trickster/router.py:101-105 | a match on the tokens of `/{name:type}` binds only `name`, to a word of the type that is the text after `/`, or that text without one final newline |
| Router.ValidateDelay | trickster/router.py:158-181 | a number gives min == max; a pair is taken as given and rejected when min > max; a dict gets max raised to at least min; other shapes are rejected; every accepted delay has 0 <= min <= max |
| Router.ValidateResponse | trickster/router.py:125-132 | a status-code mismatch fails; otherwise the response passes iff the schema accepts the body |
| Router.LeastHits | trickster/router.py:225-239 | the index of the first response with the fewest hits |
| Router.SelectResponse | trickster/router.py:225-239 | fails iff the list is empty; otherwise returns a member, which is `responses[0]` for FIRST and the first one with the fewest hits for BALANCED |
| Router.FirstAccepting | trickster/router.py:275-287 | passes iff at least one validator accepts the response |
| Router.ValidateNewResponse | trickster/router.py:275-287 | passes iff the route has no validators or at least one validator accepts the response |
| Router.AllAcceptedBy | trickster/router.py:268-273 | passes iff the validator accepts every response |
| Router.ValidateNewResponseValidator | trickster/router.py:268-273 | passes iff the route already has validators, or else the new validator accepts every existing response |
| Router.CheckEach | trickster/router.py:263-266 | passes iff every response would be accepted as a new response |
| Router.ValidateExisting | trickster/router.py:255-266 | passes iff the route satisfies its response/validator invariant |
| Router.AddResponse | trickster/endpoints/internal.py:106-110 | the response is appended iff it validates, and nothing else changes |
| Router.AddValidator | trickster/endpoints/internal.py:162-166 | the validator is appended iff it validates, and nothing else changes |
| Router.AddResponseKeepsInvariant | trickster/router.py:255-287 | adding a validated response preserves the route invariant |
| Router.AddValidatorKeepsInvariant | trickster/router.py:255-287 | adding a validated validator preserves the route invariant |
| Router.MatchMethod | trickster/router.py:298-302 | gives the method iff the route lists it |
| Router.MatchRoute | trickster/router.py:289-296 | (definition) `Route.match`; stated by MatchRouteCases |
| Router.MatchRouteCases | trickster/router.py:289-302 | an unlisted method gives None; for a listed method the path match decides, and the result carries the method and the raw path parameters |
| Router.FindById | trickster/router.py:309-321 | None iff no element has the id; otherwise the first element with it |
| Router.GetResponseById | trickster/router.py:309-314 | None iff no response has the id; otherwise the first response of the route, in list order, with that id |
| Router.GetResponseValidatorById | trickster/router.py:316-321 | None iff no validator has the id; otherwise the first validator of the route, in list order, with that id |
| Router.TryRoute | trickster/router.py:329-338 | wraps one route's match as a `RouteMatch` naming that route, and is None or an error exactly when the route's match is |
| Router.FirstDecisive | trickster/router.py:329-338 | (definition) a first-wins scan over a list; stated by FirstDecisiveIsFirst |
| Router.FirstMatch | trickster/router.py:329-338 | (definition) `Router.match` as a function over the route list; stated by FirstMatchIsFirst |
| Router.FirstDecisiveIsFirst | trickster/router.py:329-338 | a first-wins scan is None iff every element gives None; otherwise it is the result of the first element that does not give None |
| Router.FirstMatchIsFirst | trickster/router.py:329-338 | the router's result is None iff no route matches; otherwise it is the first matching route in list order, with that route's method and params, or the error of the first route that does not give None |
| Router.Router.constructor | trickster/router.py:324-327 | a new router has no routes |
| Router.Router.Match | trickster/router.py:329-338 | the loop returns exactly the first-wins match over the routes in order |
| Router.Router.GetRouteById | trickster/router.py:340-345 | None iff no route has the id; otherwise the first route, in list order, with that id |
| Responses.HttpCode | trickster/routing/__init__.py:15-34 | only route-configuration errors carry an HTTP code: 400 for the base error, 409 for a duplicate, 404 for a missing route |
| Responses.NewDelay | trickster/routing/__init__.py:40-46 | a delay is built iff min <= max; otherwise a route-configuration error |
| Responses.SerializeDelay | trickster/routing/__init__.py:48-52 | a single number when the bounds are equal, else the pair `[min, max]` |
| Responses.Numbers | trickster/routing/__init__.py:59-66 | the list converts iff every item is a number, keeping length and order |
| Responses.StrLess | trickster/routing/__init__.py:41 | (definition) Python's `<` on two strings: code points compared left to right, a proper prefix being the smaller |
| Responses.Chars | trickster/routing/__init__.py:66 | the one-character strings that star-unpacking a string yields, in order |
| Responses.DelayOfArgs | trickster/routing/__init__.py:40-46 | `Delay(*args)`: no argument gives (0, 0); one number n gives Delay(n, 0) through the constructor; two numbers go through the constructor; more than two, or a non-number where a number is compared, is malformed; two strings in descending order are a route-configuration error; whatever is accepted is all numbers with min <= max |
| Responses.DeserializeDelay | trickster/routing/__init__.py:59-66 | None gives (0, 0) and a number n gives (n, n); a list, a string or a dict is spread over the constructor as its items, characters or keys, so an empty one gives (0, 0), a numeric pair goes through the constructor, more than two is malformed, and a string of two characters in descending order is a route-configuration error; every accepted delay has min <= max |
| Responses.DelayRoundTrip | trickster/routing/__init__.py:48-66 | deserializing a serialized delay gives back the same delay |
| Responses.ResponseArgsOf | trickster/routing/__init__.py:113-125 | fails on a bad delay, a missing body or an unknown key; explicit headers are kept verbatim; otherwise a string body gets `{}` and any other body gets the JSON content type; status defaults to 200 |
| Responses.Response.constructor | trickster/routing/__init__.py:72-77 | a new response has used_count 0, its own body, delay and status, and headers defaulting to `{}` when falsy |
| Responses.Response.Deserialize | trickster/routing/__init__.py:113-125 | fails iff the arguments are rejected; otherwise a fresh, unused response built from them |
| Responses.Response.SerializedBody | trickster/routing/__init__.py:79-85 | a string body is returned verbatim; any other body is JSON-encoded |
| Responses.Response.Serialize | trickster/routing/__init__.py:95-103 | an object with exactly the five keys: the response's own status, headers and body, its use count, and its serialized delay |
| Responses.Response.Use | trickster/routing/__init__.py:105-107 | used_count rises by exactly one |
| Responses.ResponseRoundTrip | trickster/routing/__init__.py:72-125 | deserializing the fields of a response gives back its body, delay, headers and status |
| Responses.SerializeRoundTrip | trickster/routing/__init__.py:72-125 | a response's own serialization, without `used_count`, deserializes to the body, delay, headers and status it was built from |
| Auth.AuthorizationHeader | trickster/auth.py:82-87 | the header is returned iff it is present and non-empty; otherwise a missing-header error |
| Auth.UpToNewline | trickster/auth.py:89-95 | the longest prefix without a newline |
| Auth.UpToNewlineIs | trickster/auth.py:89-95 | `.*` captures `t` iff `t` has no newline and the text is `t` or `t` followed by a newline |
| Auth.UpToNewlineForm | trickster/auth.py:89-95 | the text is its capture, or its capture followed by a newline |
| Auth.UpToNewlineWhole | trickster/auth.py:89-95 | a text without newline is captured whole |
| Auth.UpToNewlineStops | trickster/auth.py:89-95 | the capture stops at the first newline |
| Auth.BearerToken | trickster/auth.py:89-95 | a token is extracted iff the header starts with `Bearer `; it is the rest up to the first newline; otherwise an invalid-header error |
| Auth.AuthenticateToken | trickster/auth.py:97-102 | (definition) `TokenAuth.authenticate`: header, then bearer token, then comparison; stated by TokenAccepted and TokenFailures |
| Auth.TokenAccepted | trickster/auth.py:82-102 | token auth passes iff the Authorization header is `Bearer ` plus the token, possibly followed by a newline and more text, and the token has no newline |
| Auth.TokenFailures | trickster/auth.py:82-102 | a missing header, a header without `Bearer ` and a different token each fail with their own error, in that order |
| Auth.AuthenticateBasic | trickster/auth.py:122-143 | passes iff the header is present and decodes to the configured username and password; a missing header, an undecodable header and decoded credentials that differ each fail with their own error |
| Auth.CheckField | trickster/auth.py:238-251 | one form field passes iff it is present with an equal value |
| Auth.AuthenticateForm | trickster/auth.py:238-251 | passes iff every configured field passes; otherwise the failure of the first failing field in configuration order |
| Auth.AuthenticateCookie | trickster/auth.py:271-283 | passes iff the cookie is present and equal to the value; a missing cookie and a different value each fail with their own error |
| Auth.CheckTime | trickster/auth.py:185-199 | passes iff now - 3600 s <= timestamp <= now + 5 s, both bounds inclusive; too-late and too-early timestamps fail with their own errors |
| Auth.StripFrom | trickster/auth.py:201-205 | stripping never lengthens the query |
| Auth.StripSignature | trickster/auth.py:204 | (definition) `re.sub(r'&hmac_sign=.*$', '', query)` as the scan from position 0; stated by StripSignatureCutsAtFirstMarker and SignatureAppendedIsStripped |
| Auth.StripSignatureCutsAtFirstMarker | trickster/auth.py:201-205 | for a query without newline, the result is a prefix; the query is unchanged iff it holds no `&hmac_sign=`, and otherwise it is cut exactly at the first one |
| Auth.StripFromCutsBy | trickster/auth.py:201-205 | a scan with a marker ahead of it cuts the query at that marker or earlier, so the result is shorter than the query |
| Auth.StripFromUnchanged | trickster/auth.py:201-205 | a query without a marker after the scan position is left unchanged |
| Auth.StripFromCutsHere | trickster/auth.py:201-205 | at a marker in a query without newline, the query is cut there |
| Auth.StripFromCut | trickster/auth.py:201-205 | when the scan changes the query, it cut it at a marker with no marker before it |
| Auth.StripFromSkips | trickster/auth.py:201-205 | with a final newline in the query, the cut keeps that newline, as Python's `$` does |
| Auth.SignedString | trickster/auth.py:201-205 | (definition) the URL path, `?`, and the query without its signature; stated by SignedUrlAccepted |
| Auth.AuthenticateHmac | trickster/auth.py:160-219 | the checks run in order (missing timestamp, unparsable timestamp, missing signature, a signature differing from the digest or an empty digest giving the invalid-signature error, then the time window), and the request passes iff all hold |
| Auth.SignedUrlAccepted | trickster/auth.py:201-219 | a URL whose query is signed over `path?query` and then gets `&hmac_sign=<digest>` appended passes inside the time window |
| Auth.SignatureAppendedIsStripped | trickster/auth.py:201-205 | appending `&hmac_sign=` and a signature to a marker-free query and stripping gives back the query |
| Auth.NoMarkerBefore | trickster/auth.py:201-205 | a marker-free query has no signature match before the appended marker |
| Auth.MarkerStraddles | trickster/auth.py:201-205 | no marker starts inside the query and runs into the appended marker |
| Auth.Authenticate | trickster/auth.py:60-71 | a route without authentication (NoAuth) accepts every request |
| Auth.FindImplementation | trickster/auth.py:38-44 | a method name is found iff it names an Auth kind; an unknown name is a route-configuration error |
| Auth.Construct | trickster/auth.py:46-57 | a constructed auth serializes back to its keyword arguments plus its method name |
| Auth.Deserialize | trickster/auth.py:46-57 | None gives NoAuth; a missing method is an error; an unknown method is a route-configuration error; whatever is accepted serializes back to the input |
| Auth.Serialize | trickster/auth.py:32-36 | only NoAuth serializes to None |
| Auth.AuthRoundTrip | trickster/auth.py:32-57 | deserializing a serialized auth gives back the same auth |
| Auth.TokenRoundTrip | trickster/auth.py:104-110 | round trip for token auth |
| Auth.BasicRoundTrip | trickster/auth.py:145-152 | round trip for basic auth |
| Auth.HmacRoundTrip | trickster/auth.py:221-227 | round trip for HMAC auth |
| Auth.FormRoundTrip | trickster/auth.py:253-259 | round trip for form auth |
| Auth.CookieRoundTrip | trickster/auth.py:285-292 | round trip for cookie auth |
| Auth.DeserializeKind | trickster/auth.py:46-57 | a payload naming a kind deserializes to that kind built from the remaining keys |
| Routing.ParseStrategy | trickster/routing.py:103-106 | a falsy value is greedy; a strategy's name gives that strategy; anything else is rejected as malformed |
| Routing.StrategyRoundTrip | trickster/routing.py:99-106 | parsing a strategy's serialized name gives the strategy back |
| Routing.StrategyName | trickster/routing.py:53-58 | (definition) the enum values `cycle`, `random`, `greedy` |
| Routing.Active | trickster/routing.py:200-203 | (definition) `repeat is None or repeat > used_count`; stated by ActiveOnlyDecreases |
| Routing.ActiveOnlyDecreases | trickster/routing.py:200-203 | with a repeat limit, a response is active iff used fewer times than the limit, and using a response never makes it active again |
| Routing.RouteResponse.constructor | trickster/routing.py:175-188 | a new route response is unused and keeps its fields, with falsy headers replaced by `{}` |
| Routing.RouteResponse.IsActive | trickster/routing.py:200-203 | (definition) Active applied to the response's own limit and counter |
| Routing.RouteResponse.Use | trickster/routing.py:145-147 | used_count rises by exactly one |
| Routing.SelectGreedy | trickster/routing.py:82-91 | the first active response in list order, or None iff none is active |
| Routing.SelectCycle | trickster/routing.py:60-70 | an active response with the smallest use count, the earliest on ties, or None iff none is active |
| Routing.SelectRandom | trickster/routing.py:72-80 | an error iff no response is active; otherwise an active member of the list |
| Routing.Select | trickster/routing.py:93-97 | a selected response is an active member; nothing is selected (or RANDOM fails) iff none is active, and only RANDOM can fail; greedy picks the first active response, cycle the active one used least, the earliest on ties |
| Routing.Route.Init | trickster/routing.py:209-224 | a new route keeps its fields, has used_count 0 and an empty, fresh response list |
| Routing.Route.Create | trickster/routing.py:209-230 | the route is built iff the response ids are pairwise distinct, holding them in order; a duplicate is a DuplicateRouteError |
| Routing.Route.GetResponse | trickster/routing.py:245-247 | None iff no response has the id; otherwise a response of the route with that id |
| Routing.Route.IsActive | trickster/routing.py:307-313 | (definition) some response of the route is active; used by the contracts of SelectResponse and Router.Match |
| Routing.Route.MatchMethod | trickster/routing.py:291-293 | (definition) the route's method is None or equals the request's |
| Routing.Route.Matches | trickster/routing.py:283-297 | (definition) method, path (the route's regex as a parameter) and activity all hold; used by the contract of Router.Match |
| Routing.Route.SelectResponse | trickster/routing.py:299-301 | the route's strategy applied to its responses: a selected response is an active one; nothing is selected iff the route is not active; greedy picks the first active response, cycle the least-used active one, the earliest on ties; only random can fail |
| Routing.Route.Use | trickster/routing.py:277-281 | the route's used_count rises by one, and the response's by one only when a response is given |
| Routing.RouteIdFor | trickster/routing.py:336-338 | an id already in the data wins; otherwise a non-empty given id; otherwise a generated one |
| Routing.Router.constructor | trickster/routing.py:319-324 | a new router has an empty route list |
| Routing.Router.GenerateRouteId | trickster/routing.py:329-334 | the first drawn id that no route uses, or None iff every draw is taken |
| Routing.Router.AddRoute | trickster/routing.py:340-348 | an id already present raises DuplicateRouteError and leaves the routes unchanged; otherwise the route is appended; ids stay distinct |
| Routing.Router.Reset | trickster/routing.py:322-327 | the list is replaced by a fresh one holding the new routes in order, succeeding iff their ids are distinct; on a duplicate, the routes before it are kept |
| Routing.Router.GetRoute | trickster/routing.py:350-352 | None iff no route has the id; otherwise a route with that id |
| Routing.Router.RemoveRoute | trickster/routing.py:354-356 | an absent id changes nothing; a present id deletes exactly that route and keeps the rest in order |
| Routing.Router.UpdateRoute | trickster/routing.py:358-371 | changing to an id that is already present raises DuplicateRouteError, and this is checked before a missing old id raises MissingRouteError; the update succeeds iff neither applies; errors change nothing; a success replaces the route at the same index |
| Routing.Router.Match | trickster/routing.py:373-378 | the first route in insertion order whose method, path and activity all match, or None iff none does |

## Left out

- HTTP transport, app wiring, configuration, logging, the request wrappers and the OpenAPI
  conversion are not part of this model. A request is a plain record: method, path, headers,
  form, cookies, args, URL path and query string.
- Foreign code is a parameter, not a body:
  - JSON-Schema acceptance (`jsonschema.validate`, including its SchemaError);
  - `json.dumps`;
  - the Basic-auth decoder;
  - the HMAC-SHA1 digest;
  - `float()` parsing of the HMAC timestamp;
  - the clock;
  - a user's path regex, with its prefix-match semantics.
- Randomness:
  - `RANDOM`/`random` selection returns some member. The weighted distribution is not modelled.
    Neither is the ValueError of `random.choices` when the weights sum to zero.
  - uuid generation is a sequence of candidate ids.
- Delays: `random.uniform` and `time.sleep` in `wait`/`delay_response` are left out. They
  perform I/O.
- Router.SelectResponse: for RANDOM, it only promises a member of the list, because the
  distribution is a library detail.
- Time-zone handling of `datetime.fromtimestamp` is left out. Timestamps and the clock are
  plain seconds.
- `re` details:
  - `\d`, `\w` and `[a-f0-9]` are ASCII only; Python's Unicode digits and word characters are
    left out;
  - the literal `{n}` quantifier quirk of `re.escape` followed by unescaping `{` and `}` is left
    out: a literal `{3}` in a path is treated as text.
- Responses.DeserializeDelay: delay bounds are real numbers here. Python also builds a Delay
  with non-numeric bounds from a pair of strings in non-descending order (`["a", "b"]`, `"ab"`) or
  from a pair of comparable lists. The model rejects those as malformed. A dict of two keys is
  rejected too, because its insertion order would decide between a delay and an error.
- Router.ValidateDelay: the input shapes carry real numbers only. Python applies `float()` to
  each element of a two-element list, so it also accepts numeric strings (`["1", "2"]` gives
  a delay of 1.0 to 2.0). A bool is an `int` there, so `True` counts as the number 1. Dict
  values are left to pydantic's own coercion. The model has no such inputs, and it leaves out
  NaN and infinity, which are floating point.
- Router.MatchRoute has no contract of its own: its meaning is stated by
  `Router.MatchRouteCases`.
- Auth.StripFrom: the function's own contract is only a length bound. The meaning of
  `re.sub(r'&hmac_sign=.*$', '', q)` is stated by the lemmas about it, for queries without
  newlines, plus `StripFromSkips` for a final newline.
- Auth configuration values (token, username, key, form fields, cookie) are strings. Other
  JSON types passed as keyword arguments are not modelled.
- The FastAPI `hits` counters and the `Route`/`Response` records are immutable values. The
  callers that bump `hits` are outside the core.
- The Flask `Router` CRUD takes already-built `Route` objects. Left out:
  - `Route.deserialize` and `_create_responses`;
  - `RouteResponse.deserialize`/`serialize` and `Route.serialize`;
  - the mutation of the caller's dict by `pop`/`setdefault`.

  `RouteIdFor` models the id defaulting of `_set_route_id` separately.
- `Route.authenticate` only forwards to `Auth.Authenticate`.
- `trickster/routing.py:21-165` repeats the `Delay` and `Response` of
  `trickster/routing/__init__.py`. Module `Responses` models them once.
- `RouteResponse` repeats the `Response` fields instead of inheriting them.
- The management endpoints' rollback: its `except` catches a pydantic `ValidationError` that
  `validate_new_response` never raises. Only validate-then-append is modelled.
- Concurrency: the cached router singleton has no locking and is out of scope.
- Aliasing between routes that share response objects is not modelled. Each route owns its
  list.
