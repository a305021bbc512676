# GoogleKeywordIdeas in Dafny

A model of the two scripts of GoogleKeywordIdeas, with proofs about the model.

`get_refresh_token.py` obtains an OAuth 2.0 refresh token. The model covers three parts of it:
- the scan for a free loopback port;
- the parser that reads the query parameters out of the redirect request the browser sends;
- the validation of that redirect (code present, `state` matching) and the HTML response sent back.

`get_keyword_ideas.py` asks the Google Ads keyword planner for keyword ideas. The model covers:
- the language lookup in the static `LANGUAGES_CODES` table;
- the normalisation of comma-separated keyword and geo arguments;
- the construction of the `GenerateKeywordIdeasRequest`, including its seed choice and its error case;
- the filter over geo-target suggestions;
- the language and geo fallbacks of the entry point;
- the five output shapes (`table`, `dict`/`list`, `compact`, `text`, as-is).

Modules:
- `Wrappers`: `Option` and `Result`.
- `Text`: the Python string operations the scripts use, with their round trips. These are `strip`, `split`, `join`, `lower`, `upper`, `str(int)` and `zfill`.
- `RefreshToken`: `get_refresh_token.py`.
- `KeywordIdeas`: the request side of `get_keyword_ideas.py`.
- `KeywordIdeasOutput`: the output shapes of `get_keyword_ideas.py`.

How the outside world is represented:
- Sockets, the Ads API and pandas are not called. What they return is an input of the model.
- "Is this port in use" is a predicate parameter.
- The request the browser sent is a string. The response sent back is an output.
- Suggested geo-target constants and the keyword-ideas response are datatypes.
- A data frame is modelled by its columns and rows.

Loops in the source are methods with loop invariants, proved against specification functions. Pure code is functions and lemmas.

Where the code and its docstrings disagree, the model follows the code:
- `get_lang_code`'s docstring gives `zh_CN` as an example input. The code lower-cases the input before comparing it with the table's codes verbatim, so `zh_CN` resolves to nothing (`KeywordIdeas.ChineseCodesDoNotResolve`).

## Model

| member | source | states |
|---|---|---|
| RefreshToken.GetFreePortFrom | GoogleKeywordIdeas/get_refresh_token.py:32-39 | returns the first port at or after the start that is not in use; fails exactly when the start is out of range or every port up to 65535 is taken; a free start port is returned unchanged |
| RefreshToken.FirstFreeAfterOccupiedRun | GoogleKeywordIdeas/get_refresh_token.py:37-38 | after a run of taken ports, the next free one is the unique first free port |
| RefreshToken.ListenPort | GoogleKeywordIdeas/get_refresh_token.py:49 | a loopback host listens on the first free port from 8008 on, and fails exactly when every port from 8008 to 65535 is taken; any other host gets 8008 unprobed |
| RefreshToken.MatchAt | GoogleKeywordIdeas/get_refresh_token.py:117 | `GET\s/\?(.*) ` tried at one start: its end position lies inside the text after the fixed prefix; `MatchAtIsGreedy` proves it is the greedy end, and that `None` means no end works |
| RefreshToken.SearchFrom | GoogleKeywordIdeas/get_refresh_token.py:117 | `re.search`: the match starts at or after the given position; `SearchFromIsLeftmost` proves it is the leftmost start with the greedy end, and `None` means no start matches |
| RefreshToken.CapturedQuery | GoogleKeywordIdeas/get_refresh_token.py:117-118 | group 1 of the first match; `CapturedQueryOfRequestLine` proves it is exactly the query of a request line |
| RefreshToken.ToPairs | GoogleKeywordIdeas/get_refresh_token.py:119-120 | one pair per `&`-piece when unpacking succeeds; `ToPairsSucceedsIff`, `ToPairsSplitsAtEquals` and `ToPairsReportsFirstMalformed` carry its properties |
| RefreshToken.PairsToMap | GoogleKeywordIdeas/get_refresh_token.py:120 | the dict comprehension; `PairsToMapLastWins` proves its keys and its last-wins values |
| RefreshToken.ParseRawQueryParams | GoogleKeywordIdeas/get_refresh_token.py:115-120 | the whole parser; `ParseRoundTrip` and `RedirectParamsRoundTrip` prove it inverts the encoding of plain pairs |
| RefreshToken.MatchAtIsGreedy | GoogleKeywordIdeas/get_refresh_token.py:117 | at a given start, `GET\s/\?(.*) ` matches up to the last space before the first newline and nowhere further; no match means no end position works |
| RefreshToken.SearchFromIsLeftmost | GoogleKeywordIdeas/get_refresh_token.py:117 | `re.search` finds the leftmost start that matches, with the greedy end; no result means no start matches |
| RefreshToken.CapturedQueryOfRequestLine | GoogleKeywordIdeas/get_refresh_token.py:117-118 | for a request line `GET /?q <rest>` whose rest has no space, group 1 is exactly `q` |
| RefreshToken.ToPairsSucceedsIff | GoogleKeywordIdeas/get_refresh_token.py:119-120 | unpacking the `=`-split pieces succeeds iff every piece has exactly one `=` |
| RefreshToken.ToPairsSplitsAtEquals | GoogleKeywordIdeas/get_refresh_token.py:119 | each pair is the text before and after the piece's single `=` |
| RefreshToken.ToPairsReportsFirstMalformed | GoogleKeywordIdeas/get_refresh_token.py:120 | a failed unpacking reports the first piece without exactly one `=` |
| RefreshToken.PairsToMapLastWins | GoogleKeywordIdeas/get_refresh_token.py:120 | the dict has exactly the keys of the pairs, and a repeated key keeps its last value |
| RefreshToken.ParseRoundTrip | GoogleKeywordIdeas/get_refresh_token.py:115-120 | parsing the request line `GET /?k1=v1&…&kn=vn <rest>` yields the dict of those pairs |
| RefreshToken.RedirectParamsRoundTrip | GoogleKeywordIdeas/get_refresh_token.py:115-120 | a redirect carrying `code` and `state` parses to exactly those two entries |
| RefreshToken.GetAuthorizationCode | GoogleKeywordIdeas/get_refresh_token.py:88-112 | a parse failure raises before the try block and sends nothing; a missing or empty code gives the error message with the provider's `error` (or `None`); a wrong state gives the mismatch message; otherwise the code is returned with the success page; every response starts with the HTTP 200 header |
| Text.JoinSplit | GoogleKeywordIdeas/get_keyword_ideas.py:64 | joining the pieces of `s.split(c)` with `c` gives back `s` |
| Text.SplitJoin | GoogleKeywordIdeas/get_keyword_ideas.py:64 | splitting a join of separator-free parts gives back the parts |
| Text.StrippedIsFixed | GoogleKeywordIdeas/get_keyword_ideas.py:64 | `strip` leaves a string with no surrounding whitespace unchanged |
| Text.SplitStripCommaSpaceJoin | GoogleKeywordIdeas/get_keyword_ideas.py:64 | splitting a `", "` join on `,` and stripping each piece gives back the parts |
| Text.IntToStringRoundTrip | GoogleKeywordIdeas/get_keyword_ideas.py:232 | `str()` of an integer reads back as the same integer |
| Text.ZFillKeepsValue | GoogleKeywordIdeas/get_keyword_ideas.py:223 | `zfill` of a non-negative number's digits keeps its value |
| KeywordIdeas.LanguageKey | GoogleKeywordIdeas/get_keyword_ideas.py:111 | the lookup key never holds an upper-case letter |
| KeywordIdeas.FindLanguage | GoogleKeywordIdeas/get_keyword_ideas.py:112-116 | the table scan; `FindLanguageIsFirstMatch` proves it gives the first entry matching by code, lower-cased name or id, and `None` exactly when none matches |
| KeywordIdeas.FindLanguageIsFirstMatch | GoogleKeywordIdeas/get_keyword_ideas.py:112-116 | the lookup gives `None` iff no entry matches by code, lower-cased name or decimal id; otherwise it gives the id of the first matching entry in table order |
| KeywordIdeas.GetLangCode | GoogleKeywordIdeas/get_keyword_ideas.py:105-116 | the loop returns the id of the first matching table entry for the normalised key, or `None` |
| KeywordIdeas.EmptyLanguageIsEnglish | GoogleKeywordIdeas/get_keyword_ideas.py:111-113 | an empty language resolves to English, id 1000 |
| KeywordIdeas.ChineseCodesDoNotResolve | GoogleKeywordIdeas/get_keyword_ideas.py:108-113 | `zh_CN` and `zh_TW` resolve to nothing |
| KeywordIdeas.SimplifiedChineseResolvesById | GoogleKeywordIdeas/get_keyword_ideas.py:115 | `1017` resolves to Chinese (simplified) by its id |
| KeywordIdeas.LanguageIdsArePositive | GoogleKeywordIdeas/get_keyword_ideas.py:26 | every id of the table is positive, so a found id is truthy |
| KeywordIdeas.ResolveLanguage | GoogleKeywordIdeas/get_keyword_ideas.py:199 | the found id, else `None` under `with_null_lang`, else 1000; without `with_null_lang` there is always a language |
| KeywordIdeas.CommaTerms | GoogleKeywordIdeas/get_keyword_ideas.py:64 | at least one piece, each stripped and without a comma |
| KeywordIdeas.NormaliseKeywords | GoogleKeywordIdeas/get_keyword_ideas.py:64 | a keyword string becomes a nonempty set of stripped, comma-free keywords |
| KeywordIdeas.NormaliseKeywordsOfJoin | GoogleKeywordIdeas/get_keyword_ideas.py:64 | `"a, b, a"` style input normalises to exactly the set of its keywords |
| KeywordIdeas.NormaliseGeoNames | GoogleKeywordIdeas/get_keyword_ideas.py:133 | a names string becomes a nonempty set of comma-free names without lower-case letters |
| KeywordIdeas.NormaliseGeoNamesOfJoin | GoogleKeywordIdeas/get_keyword_ideas.py:133 | `"US,CA"` style input normalises to exactly the set of its codes |
| KeywordIdeas.NormaliseGeoNamesOfCommaSpaceJoin | GoogleKeywordIdeas/get_keyword_ideas.py:133 | a `", "` join of stripped, comma-free names normalises to exactly the set of the upper-cased names |
| KeywordIdeas.NormaliseKeywordsArg | GoogleKeywordIdeas/get_keyword_ideas.py:64 | keywords stay truthy exactly when given; a string becomes the set of its normalised pieces, a list is kept as it is |
| KeywordIdeas.LanguageConstantPath | GoogleKeywordIdeas/get_keyword_ideas.py:47 | the resource name `languageConstants/<id>` always starts with the language-constant prefix |
| KeywordIdeas.LanguageConstantPathRoundTrip | GoogleKeywordIdeas/get_keyword_ideas.py:47 | the id reads back from the path of every language id |
| KeywordIdeas.NullLanguagePathNamesNoLanguage | GoogleKeywordIdeas/get_keyword_ideas.py:47 | as written, a missing language becomes `languageConstants/None`, which is the path of no language id |
| KeywordIdeas.RequestLanguage | GoogleKeywordIdeas/get_keyword_ideas.py:47 | corrected: no language exactly when none was resolved; otherwise the path of the id, which reads back as the id |
| KeywordIdeas.GetIdeasRequest | GoogleKeywordIdeas/get_keyword_ideas.py:50-80 | `ValueError` with its message exactly when neither keywords nor a URL is given; otherwise every request field, the language as the resource path of the resolved id (none when no id), and a URL seed, a keyword seed or a keyword-and-URL seed according to what was given |
| KeywordIdeas.GeoNameSet | GoogleKeywordIdeas/get_keyword_ideas.py:133 | a list of names is kept as the set of its items |
| KeywordIdeas.GeoTargets | GoogleKeywordIdeas/get_keyword_ideas.py:140-143 | at most one resource name per suggestion; `AnyTypeKeepsAll`, `CountryFilter`, `UnmatchedCountriesKeepNothing` and `OtherTypeKeepsNothing` say which are kept |
| KeywordIdeas.GetGeoTargets | GoogleKeywordIdeas/get_keyword_ideas.py:137-143 | the loop returns the resource names of the kept suggestions, in order |
| KeywordIdeas.AnyTypeKeepsAll | GoogleKeywordIdeas/get_keyword_ideas.py:140 | with no type, an empty type or `Any`, every suggestion's resource name is kept, in order |
| KeywordIdeas.CountryFilter | GoogleKeywordIdeas/get_keyword_ideas.py:141-143 | for `Country`, a resource name is kept iff some `Country` suggestion with that name has an upper-cased code among the names |
| KeywordIdeas.UnmatchedCountriesKeepNothing | GoogleKeywordIdeas/get_keyword_ideas.py:142 | for `Country`, suggestions whose codes are not among the names keep nothing |
| KeywordIdeas.OtherTypeKeepsNothing | GoogleKeywordIdeas/get_keyword_ideas.py:141-142 | any other type keeps nothing |
| KeywordIdeas.ResolveGeosAsWritten | GoogleKeywordIdeas/get_keyword_ideas.py:197-198 | geos that resolve are used, deduplicated |
| KeywordIdeas.DefaultFallbackTargetsNothing | GoogleKeywordIdeas/get_keyword_ideas.py:197 | the fallback to the default location ids keeps no suggestion with a two-letter country code |
| KeywordIdeas.ResolveGeos | GoogleKeywordIdeas/get_keyword_ideas.py:197-198 | the corrected fallback: geos that resolve are used; otherwise the request targets the default location `geoTargetConstants/2840`; never empty |
| KeywordIdeasOutput.MonthlyColumns | GoogleKeywordIdeas/get_keyword_ideas.py:222-224 | the month labels and search counts of every monthly volume, in order |
| KeywordIdeasOutput.ConceptGroupNames | GoogleKeywordIdeas/get_keyword_ideas.py:225-226 | the group names of the annotation concepts, in order |
| KeywordIdeasOutput.TableRows | GoogleKeywordIdeas/get_keyword_ideas.py:216-236 | one row per idea, in order, each with the idea's fields and its `", "`-joined lists |
| KeywordIdeasOutput.IdeaRecords | GoogleKeywordIdeas/get_keyword_ideas.py:251-271 | one record per idea, in order, with its lists |
| KeywordIdeasOutput.CompactRecords | GoogleKeywordIdeas/get_keyword_ideas.py:276-283 | one compact record per idea, in order |
| KeywordIdeasOutput.IdeasText | GoogleKeywordIdeas/get_keyword_ideas.py:288-292 | the text is the concatenation of one line per idea |
| KeywordIdeasOutput.ShapeIdeas | GoogleKeywordIdeas/get_keyword_ideas.py:213-294 | each shape's empty signal (empty frame, `None`, `None`, `""`) for a total size of 0; otherwise rows, records, compact records or text for every result, with the nine table columns; the response as is for any other `out_as`; without `out_as`, records |
| KeywordIdeasOutput.MonthLabelOfRealMonth | GoogleKeywordIdeas/get_keyword_ideas.py:223 | for January to December the label is the year, a dash and two characters that read back as the month number 1 to 12 |
| KeywordIdeasOutput.MonthLabelOfUnspecifiedMonth | GoogleKeywordIdeas/get_keyword_ideas.py:223 | for the unspecified month 0 the label ends in `--1` |
| KeywordIdeasOutput.MonthLabelIsPlain | GoogleKeywordIdeas/get_keyword_ideas.py:223 | a month label has no comma and no surrounding whitespace |
| KeywordIdeasOutput.MonthLabel | GoogleKeywordIdeas/get_keyword_ideas.py:223 | the f-string label; `MonthLabelOfRealMonth`, `MonthLabelOfUnspecifiedMonth` and `MonthLabelIsPlain` carry its properties |
| KeywordIdeasOutput.RowOf | GoogleKeywordIdeas/get_keyword_ideas.py:227-236 | the nine table cells of one idea; `RowColumnsSplitIntoRecordLists` and `RowAgreesWithRecord` relate it to the record |
| KeywordIdeasOutput.RecordOf | GoogleKeywordIdeas/get_keyword_ideas.py:262-271 | the nine-key record of one idea; its lists are `MonthlyColumns` and `ConceptGroupNames` |
| KeywordIdeasOutput.CompactOf | GoogleKeywordIdeas/get_keyword_ideas.py:279-283 | the four-key record; `CompactIsProjectionOfRecord` proves it is the record's first four fields |
| KeywordIdeasOutput.TextLine | GoogleKeywordIdeas/get_keyword_ideas.py:291 | one text line; `TextHasOneLinePerIdea` proves the lines split back out of the text |
| KeywordIdeasOutput.RowColumnsSplitIntoRecordLists | GoogleKeywordIdeas/get_keyword_ideas.py:232-233 | the joined searches and months columns of a row split back into the lists of the record |
| KeywordIdeasOutput.RowAgreesWithRecord | GoogleKeywordIdeas/get_keyword_ideas.py:227-236 | a row and a record of the same idea agree on every scalar field |
| KeywordIdeasOutput.CompactIsProjectionOfRecord | GoogleKeywordIdeas/get_keyword_ideas.py:279-283 | a compact record is the record without its lists and bids |
| KeywordIdeasOutput.TextHasOneLinePerIdea | GoogleKeywordIdeas/get_keyword_ideas.py:290-291 | split on newlines, the text gives each idea's line in order, then an empty piece |

## Left out

- Sockets: `socket`, `connect_ex`, `bind`, `accept`, `recv(1024)`, `sendall` are not modelled. The request is given as text, and the text is assumed to have been received whole and decoded.
- UTF-8 decoding of the received bytes is not modelled: the request is already a string.
- `__get_token__` and `get_refresh_token`: the OAuth `Flow`, the browser, `os.urandom` with SHA-256 for the state token, `unquote`, and the token exchange. These are calls into libraries, or randomness.
- `print`, `sys.exit` and the `__main__` blocks: console I/O only.
- Exceptions are modelled as values. The `AttributeError` raised for a request with no match, and the `ValueError` raised for a malformed pair, become `QueryError` values. The `ValueError` of the validation becomes a `Failure` of `RefreshToken.GetAuthorizationCode`.
- The regex's `\s` is the whitespace class of `str.isspace()`, and `.` is anything but `\n`.
- Loading the `GoogleAdsClient`: credentials, YAML or env files. These are I/O.
- The RPCs `generate_keyword_ideas` and `suggest_geo_target_constants` are not modelled. Their results are inputs.
- Only the first page of the keyword-ideas pager is modelled.
- The pager is treated as always truthy.
- `language_constant_path` (line 47) is a builder of the client library. It is modelled by the format it produces, `languageConstants/{id}`, as `KeywordIdeas.LanguageConstantPath`. With `with_null_lang` and an unknown language, the code as written sends `languageConstants/None` (see Findings). The request uses the corrected `KeywordIdeas.RequestLanguage`, which leaves the language out instead.
- `__map_locations_ids_to_resource_names__` (line 91) is the script's own function, but its only call (line 46) is commented out, so it does not run.
- The `with_null_geos` branch of line 197 is not modelled. It passes `None` as names, and `extend(None)` raises inside the client library.
- `locale` and `country_code` of `get_geo_targets` only go into the RPC request.
- Writing the data frame to Excel, CSV or HTML, and the `shortly` view: pandas I/O and display.
- The `proccessing` output dictionary: it only copies values the model already returns.
- Arguments of the wrong Python type (numbers passed as `lang`, a non-dict `proccessing`) are not modelled.
- `Text.Lower`, `Text.Upper`: ASCII letters only. Python's Unicode case mapping is not modelled; for example, the model leaves `É` unchanged where Python's `lower()` gives `é`.
- `KeywordIdeasOutput.Idea`: the competition level is modelled as the string that `str()` and an f-string render for it. The enum is not modelled, and both renderings are assumed to agree.
- The order of `list(set(...))` is unspecified in Python, so normalised keywords and geos are modelled as sets.
- The reported `total_size` is an input independent of the results, as it is for the source. A total size of 0 takes the empty branch, whatever the results hold.
- `KeywordIdeas.ResolveGeosAsWritten`: deduplication is modelled as a set, so which duplicate survives and the order are not captured.

## Findings

| source | as written | input that shows it | evidently intended | confidence | as-written member | corrected member |
|---|---|---|---|---|---|---|
| GoogleKeywordIdeas/get_keyword_ideas.py:197 | when the geo names resolve to nothing, the fallback calls `get_geo_targets` with `DEFAULT_LOCATION_IDS` (`["2840"]`) as names and the `Country` filter; that filter compares each suggestion's upper-cased two-letter country code with the names, and `"2840"` never equals one | `geos="XX"` with no match, so the first lookup is empty; every suggestion for "2840" carries a two-letter code such as `US` | the request falls back to the default location `geoTargetConstants/2840` (the United States) | not executed | KeywordIdeas.DefaultFallbackTargetsNothing | KeywordIdeas.ResolveGeos |
| GoogleKeywordIdeas/get_keyword_ideas.py:47 | when `with_null_lang` leaves no language (line 199), line 47 still passes `None` to `language_constant_path`, and line 58 sets `request.language` to `languageConstants/None` | `lang="xx"` with `with_null_lang=True`: `get_lang_code` finds nothing, so `lang` is `None` | the request goes out with no language filter, as the docstring of line 171 says ("no pass DEFAULT_LANGUAGE_ID") | not executed | KeywordIdeas.NullLanguagePathNamesNoLanguage | KeywordIdeas.RequestLanguage |
