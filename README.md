# Library registry core, modelled in Dafny

The library registry lists public libraries for e-reader apps. Libraries register with it by
publishing an Authentication For OPDS document, and patrons find them by free-text search.
This project models the parts of the registry that decide things without a database or a network.
Each part is written the way the Python code is written: pure code as functions, and loops
and field updates as methods proved against those functions. The lemmas then state what the
code promises. The parts are:

- **Places** (`places.dfy`, `model.py` class `Place`). This covers parsing "Boston, MA" into
  name parts, the place types larger than a given one, and lookup by name. It also covers
  `lookup_inside`: a comma-scoped name is resolved part by part, a single name is resolved by
  parentage or by overlap, and ZIP codes are the fallback. The parent hierarchy,
  human-friendly names and the library type follow. The place table is a sequence of rows,
  geometric overlap is a predicate parameter and the ZIP-code database is an oracle.
- **Library rules** (`libraries.dfy`, `model.py` classes `Library`, `Validation`,
  `ConfigurationSetting` and `CollectionSummary`). This covers feed restrictions and stages,
  short-name validation, `set_hyperlink`'s modified flag, the choice of one service area,
  validation deadlines, inherited settings, boolean settings, secret keys and the checks on
  collection sizes.
- **Library search** (`library_search.dfy`, `Library.search`). This covers query cleanup,
  postal codes, the query's parts and the fuzzy and partial matches, with Levenshtein
  distance defined. The merge of the three strategies keeps one result per library, sorted by
  distance. The strategies themselves are parameters.
- **Authentication document** (`authentication_document.dfy`). This covers `parse_coverage`
  and `parse_service_and_focus_area`, the replacement of a library's service-area rows,
  audiences, collection sizes, `_extract_link`, `has_link` and the authentication flows.
- **Search tokenizer** (`search_tokens.dfy`, `util/search.py`). This covers tokens and token
  sequences, the merging of multi-word targets, the classifiers, and the normalisation and
  tokenizing of a raw query. Several of these fail as written, and the model keeps those
  failures. Every classifier except the single-word one passes `max_words=` to
  `merge_multiword_tokens`, which does not accept it, so reaching that call raises
  `TypeError`. `_tokenize` hands an empty list to the pattern classifier, so a multi-word
  query yields no tokens. A query of blanks only makes `_normalize_search_string` index an
  empty list.
- **Short client tokens** (`short_client_token.dfy`, with `base64.dfy`). This covers the
  Adobe variant of base64 and its round trip, the two numeric dates, and minting, splitting,
  checking and decoding `name|expires|patron|signature` tokens. `base64.dfy` models
  `encodebytes` and `decodebytes` (section 4 of RFC 4648, section 6.8 of RFC 2045) and proves
  that `decodebytes(encodebytes(x)) == x`.
- **Language codes** (`languages.dfy`, `util/language.py`). This covers the ISO 639 tables
  the class body loads, and the lookups `iso_639_2_for_locale`, `string_to_alpha_3`,
  `languages_from_accept` and `name_for_languageset`. Reading a missing key from a
  `defaultdict` stores that key, and the model keeps this: after a locale lookup of an
  unknown word, `string_to_alpha_3` accepts the word as an alpha-3 code
  (`LocaleLookupLeaksIntoAlpha3`).
- **Registrar checks** (`registrar.dfy`, `library_registration_protocol/registrar.py`). This
  covers the mailto: contact checks, the checks on the registration document, where the
  last failing check is the one reported, the cross-check of the OPDS root document, and
  what `reregister` reports.
- **Problem details** (`problem_detail.dfy`, `util/problem_detail.py`, RFC 7807). This covers
  `detailed`, `with_debug`, the JSON members and the response.
- `text.dfy` and `wrappers.dfy` hold the Python string operations (ASCII only) and the
  `Option`/`Result` types that the rest uses for None and for raised errors.

A behaviour of `set_service_areas` is kept as written. It compares both areas with the list
`[[], {}, {}]` (authentication_document.py:275), but `parse_coverage` returns a tuple, so the
comparison never succeeds. A coverage that resolves nothing, such as `{"US": []}` without a
focus area, therefore replaces the library's service areas with none
(`NothingCoveredErasesRows`, `EmptyNationListErasesRows`).

## Model

| member | source | states |
|---|---|---|
| Places.ParseName | library_registry/model.py:1151-1169 | a trailing " county" (any case) yields COUNTY and a trailing " state" yields STATE, each with the suffix cut off and the rest a prefix of the name; with neither suffix the name comes back unchanged and no type |
| Places.LargerPlaceTypes | library_registry/model.py:1132-1148 | EVERYWHERE is always larger; NATION is larger unless the type is NATION or EVERYWHERE; STATE is larger exactly for COUNTY, CITY and POSTAL_CODE; COUNTY exactly for CITY; city, postal-code and service-area types never |
| Places.LookupByName | library_registry/model.py:1172-1190 | every row found is in the table; with a type every row has that type and matches the name exactly (external name, abbreviation or alias); without one a county row is returned only when the name asked for " county", and rows match the name with its suffix parsed off |
| Places.Named | library_registry/model.py:1177-1188 | the rows returned are exactly the table rows that match the name and admit the type filter (the given type, or anything but COUNTY) |
| Places.LookupOneByName | library_registry/model.py:1193-1194 | `.one()` finds a place exactly when the name query selects one row, and that row is in the table |
| Places.LookupInside | library_registry/model.py:848-930 | the imperative lookup returns exactly what the recursive definition `Resolve` of a scoped or single-part lookup returns |
| Places.LookupChain | library_registry/model.py:869-884 | the loop that reassigns `look_in_here` part by part returns exactly the chained resolution `ResolveChain` |
| Places.LookupOneThroughExternalSource | library_registry/model.py:932-966 | the loop over uszipcode matches returns exactly `ResolveExternally`: nothing for a non-state container, else the first ZIP code found inside the state without a further external lookup |
| Places.NamePartsShape | library_registry/model.py:1214-1226 | every part produced by `name_parts` is non-empty, already stripped and free of commas |
| Places.NamePartsOfScopedName | library_registry/model.py:1213-1226 | "smaller, larger" splits into [larger, smaller], stripped: the largest place comes first |
| Places.CommaFreeIsSingle | library_registry/model.py:1226 | a name without a comma has at most one part, so it is looked up as a single name |
| Places.SingleLookupExcludesLargerTypes | library_registry/model.py:894-898 | a place found for a single-part name, directly or through a ZIP code, is in the table and has neither the container's type nor any type larger than it |
| Places.ZipsExcludeLargerTypes | library_registry/model.py:963-966 | the same exclusion holds for the place found through the first resolvable uszipcode match |
| Places.ParentModeFindsChildren | library_registry/model.py:900-916 | without usable overlap (flag off, or a container without geometry) and outside EVERYWHERE, a found place's parent is the container, or it is a postal code whose grandparent is the container |
| Places.ZipsFindChildren | library_registry/model.py:905-916 | a place found through the ZIP fallback is likewise a child (or postal-code grandchild) of the container |
| Places.SingleLookupOutcome | library_registry/model.py:918-930 | several surviving rows raise (Ambiguous), one is returned, none gives None unless the external source is enabled and the container is a state |
| Places.ScopedLookupIsPath | library_registry/model.py:869-884 | a comma-scoped name finds a place exactly when there is a path of places from the container, each part found inside the previous place, ending at that place |
| Places.ChainFoundHasPath | library_registry/model.py:875-884 | a successful chain has such a path, starting at the container and ending at the result |
| Places.PathGivesChain | library_registry/model.py:875-884 | conversely, such a path makes the chain return its last place |
| Places.ChainStopsAtFirstMiss | library_registry/model.py:876-881 | when every part before the k-th is found and the k-th is not, the whole lookup returns None |
| Places.AncestorsAreParentChain | library_registry/model.py:1032-1043 | the ancestor list is empty exactly for a parentless place; otherwise it starts at the parent, each entry is the parent of the one before, the last has no parent, and all are in the table |
| Places.Hierarchy | library_registry/model.py:1032-1043 | the while loop collects exactly the ancestor list: parent, parent's parent, and so on |
| Places.StatesAmong | library_registry/model.py:1074-1076 | exactly the state ancestors are kept |
| Places.HumanFriendlyName | library_registry/model.py:1066-1095 | the name is None exactly for EVERYWHERE; the `[state_ancestor]` unpacking fails exactly for a county or city with a parent and two or more state ancestors; a parentless place, a place of another type, or one with no state ancestor is called by its external name |
| Places.ParishInLouisiana | library_registry/model.py:1073-1089 | below a state whose abbreviation (or name) is "LA" or "Louisiana", a county whose name lacks "parish" is called "Name Parish, ST" |
| Places.StateScopedWhenOneState | library_registry/model.py:1066-1089 | a county or city with a parent and exactly one state ancestor gets the state-scoped human-friendly name |
| Places.CountyNameReadsBack | library_registry/model.py:1080-1089 | outside Louisiana a county whose name lacks "county" is named "Name County, ST", and that name reads back through `name_parts` and `parse_name` as the state and the county |
| Places.CountyNameParts | library_registry/model.py:1151-1226 | "Name County, ST" splits into ["ST", "Name County"] and "Name County" parses as (Name, COUNTY) |
| Places.LibraryType | library_registry/model.py:1006-1029 | EVERYWHERE is universal, a nation national, a county county, a state a province exactly when its parent is the nation "CA" (else state), every other type local |
| Libraries.FeedsNest | library_registry/model.py:672-693 | every library the production feed admits (both stages PRODUCTION) is admitted by the other feed (both stages PRODUCTION or TESTING); a cancelled stage on either side excludes it from both; a library in the test feed only has a TESTING stage |
| Libraries.Library.ProductionFeedIsInProduction | library_registry/model.py:240-243 | the production feed restriction holds exactly when the library is `in_production` |
| Libraries.Library.SetLibraryStage | library_registry/model.py:213-220 | while in production any stage but PRODUCTION raises and changes nothing; otherwise the stage is set; a library in production stays in production; no other field changes |
| Libraries.ValidateShortName | library_registry/model.py:197-205 | a missing or empty short name is kept as is; one containing '\|' raises; any other is upper-cased character by character |
| Libraries.ShortNameValidationIsStable | library_registry/model.py:197-205 | a validated short name contains no '\|' and validates to itself |
| Libraries.Library.SetShortName | library_registry/model.py:197-205 | assigning a short name stores the validated value, or raises and keeps the old one |
| Libraries.Library.SetHyperlink | library_registry/model.py:130-156 | an empty relation or no hrefs raise; otherwise the link for the relation ends up pointing at one of the hrefs, and `is_modified` is true exactly when the link was created or did not already point at one of them, in which case it now points at the first href |
| Libraries.SpecificRows | library_registry/model.py:273-282 | the rows grouped under a role are exactly the rows with a place other than EVERYWHERE and that role |
| Libraries.LastEverywhere | library_registry/model.py:276-280 | the remembered EVERYWHERE place is the place of some row of type EVERYWHERE, and it is absent exactly when no row has one |
| Libraries.Library.ServiceArea | library_registry/model.py:263-300 | the grouping loop returns exactly `ServiceAreaOf` of the library's rows |
| Libraries.ServiceAreaChoice | library_registry/model.py:284-300 | the service area is the place of one of the rows; a specific place is the only specific place of its role, focus first; EVERYWHERE is returned only when no role has exactly one specific place; None only when no row is EVERYWHERE |
| Libraries.SingletonRows | library_registry/model.py:287-288 | a set of rows has one member exactly when the sequence of those rows is non-empty and all equal |
| Libraries.Truncate | library_registry/model.py:1360 | `int(float(size))` truncates toward zero |
| Libraries.SmallNegativeSizesPass | library_registry/model.py:1360-1365 | a size of -0.5 truncates to 0, so it passes the negativity check |
| Libraries.CheckedSize | library_registry/model.py:1359-1365 | a size is accepted exactly when it is numeric and greater than -1, and then it is its truncation |
| Libraries.Library.SetCollectionSummary | library_registry/model.py:1351-1375 | a bad size raises and changes nothing; otherwise the summary for the language's alpha-3 code (or None) is created or updated to the truncated size |
| Libraries.Validation.Deadline | library_registry/model.py:1628-1632 | there is no deadline once the validation succeeded; otherwise it is one day after the start |
| Libraries.ActiveWindow | library_registry/model.py:1634-1642 | a validation is active exactly while it has not succeeded and less than one day has passed since it started |
| Libraries.Validation.Restart | library_registry/model.py:1580-1589 | a restart records the new start and secret, clears success, and makes the validation active exactly until one day after the restart |
| Libraries.Validation.MarkAsSuccessful | library_registry/model.py:1591-1601 | an already successful validation raises, an inactive one raises as expired, and neither changes anything; an active one succeeds, drops its secret and is never active again |
| Libraries.SettingValue | library_registry/model.py:1979-1997 | an explicit truthy value wins; otherwise a library setting for an integration reads the integration's setting, a library setting reads the sitewide setting, and anything else reads its own stored value |
| Libraries.SettingInheritanceIsOneLevel | library_registry/model.py:1986-1997 | a library's setting for an integration does not depend on the sitewide setting, and a setting without a library never inherits |
| Libraries.BoolValue | library_registry/model.py:2008-2018 | no value gives None; otherwise the result is whether the lower-cased text is one of the yes words, so a true result comes from a text of one to four characters |
| Libraries.BoolValueIgnoresCase | library_registry/model.py:2008-2018 | upper-casing the text does not change `bool_value` |
| Libraries.IsSecretIgnoresCase | library_registry/model.py:2149-2157 | whether a key is secret does not depend on its case, and every key containing "password" is secret |
| Libraries.Library.constructor | library_registry/model.py:178-183 | a new library row is in the testing stage on both sides and has no links, service areas, audiences or collections yet |
| Libraries.Validation.constructor | library_registry/model.py:1614-1618 | a new validation has not succeeded, started at the time given and holds the secret given (the clock and `generate_secret` enter as parameters) |
| LibrarySearch.QueryCleanup | library_registry/model.py:589-594 | a query that is blank after lower-casing cleans to "" |
| LibrarySearch.CleanupShape | library_registry/model.py:589-594 | the cleaned query has no upper-case letter and no outer or doubled blanks (collapsing it again changes nothing); its words are the words of the lower-cased query, each with "libary" corrected to "library" |
| LibrarySearch.CleanupKeepsDigitCodes | library_registry/model.py:589-594 | cleaning leaves a digit string or a ZIP+4 string unchanged |
| LibrarySearch.AsPostalCode | library_registry/model.py:596-605 | a postal code is found only for a query starting with five digits, and it starts with those digits; for a query without a newline it is exactly five digits |
| LibrarySearch.ZipPlus4Code | library_registry/model.py:602-605 | a ZIP+4 query gives its first five digits |
| LibrarySearch.DropIndicators | library_registry/model.py:628-630 | removing "public library" and "library" never lengthens the place text |
| LibrarySearch.QueryPartsOf | library_registry/model.py:607-638 | a postal-code query gives (None, the code, POSTAL_CODE); any other gives the cleaned query as library part, and as place part the text without library words, with a trailing " county" or " state" read as the type and cut off |
| LibrarySearch.PostalQueryParts | library_registry/model.py:607-617 | "NNNNN" and "NNNNN-NNNN" both give (None, "NNNNN", POSTAL_CODE) |
| LibrarySearch.LevenshteinSelf | library_registry/model.py:648 | a string is at distance 0 from itself |
| LibrarySearch.LevenshteinLengthBound | library_registry/model.py:648 | the edit distance is at least the difference of the lengths |
| LibrarySearch.FuzzyMatchBounds | library_registry/model.py:640-653 | a field shorter than six characters fuzzy-matches exactly when it is equal up to case; any fuzzy match has a length within two of the value's; an exact match is both a fuzzy and a partial match |
| LibrarySearch.OneTypoMatches | library_registry/model.py:640-653 | a lower-case value that differs from a field of six or more characters in one position fuzzy-matches it |
| LibrarySearch.Limit | library_registry/model.py:474-492 | `.limit(10)` keeps a prefix of at most ten rows, and all of a list of ten or fewer |
| LibrarySearch.Dedupe | library_registry/model.py:496 | the id-keyed dict never holds more entries than there were hits |
| LibrarySearch.DedupeDistinct | library_registry/model.py:496 | after the dict no library appears twice |
| LibrarySearch.DedupeKeepsLast | library_registry/model.py:496 | each kept hit is the last hit for its library |
| LibrarySearch.DedupeCovers | library_registry/model.py:496 | every library among the hits is kept |
| LibrarySearch.FirstIndex | library_registry/model.py:497 | the index of a library's first hit: that hit is for the library and no earlier one is, or -1 when none is |
| LibrarySearch.DedupeFirstOrder | library_registry/model.py:497 | the dict keeps each library where it was first inserted: the merged hits follow the order of their libraries' first hits |
| LibrarySearch.Insert | library_registry/model.py:500 | inserting a hit with a distance into a distance-ordered list keeps it ordered and adds exactly that hit |
| LibrarySearch.SortByDistance | library_registry/model.py:500 | on hits that all have distances, the sort is ordered by ascending distance and a permutation of its input |
| LibrarySearch.WithDistance | library_registry/model.py:500 | every hit it keeps is at the given distance |
| LibrarySearch.InsertStable | library_registry/model.py:500 | an inserted hit goes behind every hit at its own distance, and the order among the others is unchanged |
| LibrarySearch.SortIsStable | library_registry/model.py:500 | the sort is stable: the hits at any one distance come out in their input order |
| LibrarySearch.SortKeepsDistinct | library_registry/model.py:496-499 | sorting a list of distinct libraries keeps them distinct |
| LibrarySearch.Preliminary | library_registry/model.py:473-494 | the strategies contribute at most thirty hits |
| LibrarySearch.PreliminaryResults | library_registry/model.py:471-494 | the accumulating method builds exactly the name hits, then the location hits, then the description hits of the raw query, each cut to ten |
| LibrarySearch.Search | library_registry/model.py:443-500 | the method returns exactly `SearchResult`: [] for an empty query, the deduplicated hits sorted by distance otherwise, and the TypeError of a hit without a distance among two or more |
| LibrarySearch.SearchResultShape | library_registry/model.py:458-500 | an empty query gives []; without a target any hit raises; with two or more merged hits one without a distance raises; otherwise the result names each library once, is sorted by distance, holds at most thirty hits, each the last one returned for its library, every library any strategy returned is in it, and hits at one distance keep their order after the merge |
| LibrarySearch.SortedMergeShape | library_registry/model.py:497-500 | sorting the merged hits keeps them distinct, each the last for its library, covering every library, and in merge order at each distance |
| LibrarySearch.PostalQuerySkipsNames | library_registry/model.py:612-617 | for a postal-code query the result does not depend on the name strategy |
| AuthenticationDocument.ParseCoverage | library_registry/authentication_document.py:196-243 | the three results are those of the coverage specification: "everywhere" alone gives only the everywhere place; a value that is not an object is read under the default nation, or filed whole under "??" when there is none; an object is read nation by nation; the result is a tuple |
| AuthenticationDocument.ParseNations | library_registry/authentication_document.py:216-241 | the loop over the nations leaves the places, unknown and ambiguous entries that the nations give in order |
| AuthenticationDocument.ParseNation | library_registry/authentication_document.py:217-241 | one nation: an unknown nation files its whole value under unknown, an ambiguous one under ambiguous, "everywhere" adds the nation itself, otherwise its names are resolved inside it |
| AuthenticationDocument.ParseNames | library_registry/authentication_document.py:227-236 | the loop over the names of one nation classifies each name, in order, by what `lookup_inside` answers for it |
| AuthenticationDocument.Record | library_registry/authentication_document.py:231-236 | a found place is appended to the places, a missing name to unknown, an ambiguous name to ambiguous |
| AuthenticationDocument.LookupWithin | library_registry/authentication_document.py:229 | a name inside a nation is resolved with the nation's `lookup_inside` |
| AuthenticationDocument.NationOutcomes | library_registry/authentication_document.py:218-241 | for a single nation: not found gives `({}, {nation: value}, {})` with no places, ambiguous gives the value under ambiguous, and a found nation covered "everywhere" gives exactly that nation |
| AuthenticationDocument.BareNameIsList | library_registry/authentication_document.py:223-225 | under a known nation a bare place name is read exactly as a one-element list |
| AuthenticationDocument.UnscopedNamesUseDefaultNation | library_registry/authentication_document.py:203-214 | a value without a nation is read as `{default nation: value}` when there is a default nation; otherwise nothing resolves and the whole value is under unknown["??"] |
| AuthenticationDocument.EveryNameAccounted | library_registry/authentication_document.py:227-236 | every name lands in the list its lookup says and no other: each unknown name was not found, each ambiguous name was ambiguous, each place was found for some name, and conversely |
| AuthenticationDocument.ParsedAreasAreNeverEmpty | library_registry/authentication_document.py:162-174 | a missing service area is everywhere and a missing focus area equals the service area; since both come back as tuples neither ever equals the list `[[], {}, {}]` that `set_service_areas` compares with (line 275) |
| AuthenticationDocument.AreasProblem | library_registry/authentication_document.py:355-361 | there is a problem exactly when some name is unknown or ambiguous; it keeps the INVALID_INTEGRATION_DOCUMENT type and its detail carries the "was unknown: …" or "was ambiguous: …" message |
| AuthenticationDocument.Gather | library_registry/authentication_document.py:363-367 | one row per place, in order, each with the given role |
| AuthenticationDocument.Attach | library_registry/authentication_document.py:364-366 | after find-or-create the library has every row it had and every new row, and nothing else |
| AuthenticationDocument.UpdateServiceAreas | library_registry/authentication_document.py:340-367 | on a problem nothing is gathered and the library's rows are unchanged; otherwise the place rows are appended in order to the gathered list and attached to the library |
| AuthenticationDocument.SetServiceAreas | library_registry/authentication_document.py:268-304 | the problem returned and the library's rows afterwards are those of the specification: no change for two empty list inputs, focus rows only when the focus is empty or equal to the service area, otherwise eligibility then focus rows, and the rows replaced only on success |
| AuthenticationDocument.ServiceAreasOutcome | library_registry/authentication_document.py:277-304 | success exactly when the areas used have no unknown or ambiguous names; on success every row is a service place (eligibility) or a focus or service place (focus), one per place when the areas differ; a problem leaves only the old rows and service-area eligibility rows |
| AuthenticationDocument.NothingCoveredErasesRows | library_registry/authentication_document.py:275-304 | a service area that resolves to no place and no problem, with no focus area, leaves the library with no service-area rows at all, because the empty-input guard never matches the parsed tuple |
| AuthenticationDocument.EmptyNationListErasesRows | library_registry/authentication_document.py:216-304 | the same happens for a known nation with an empty list of places, such as `{"US": []}` |
| AuthenticationDocument.AudiencesAreKnown | library_registry/authentication_document.py:370-388 | a problem exactly when the value is not a string or list; otherwise the audiences are non-empty and all known, every known name given is kept, and "other" is present exactly when some name given is unknown or "other"; nothing else is filed, so no name given (absent, "" or []) gives exactly {"public"} |
| AuthenticationDocument.UpdateAudiences | library_registry/authentication_document.py:369-397 | a value that is not a list yields INVALID_INTEGRATION_DOCUMENT with "'audience' must be a list: …" and leaves the audiences; otherwise the library's audiences become the filtered set |
| AuthenticationDocument.RunSizes | library_registry/authentication_document.py:323-335 | the loop fails only with the error of some entry's size, and a run without error had every size valid |
| AuthenticationDocument.SizeStep | library_registry/authentication_document.py:324-328 | after a failure nothing more changes; a new failure is the error of this entry's size; otherwise the size was valid |
| AuthenticationDocument.RunSizesContents | library_registry/authentication_document.py:324-328 | after a run without error each language set holds the size last given for it, and every language given was set |
| AuthenticationDocument.RunSizesUnknown | library_registry/authentication_document.py:321-328 | a run without error has added up exactly the sizes given for languages no code is found for |
| AuthenticationDocument.SizesAreLastGiven | library_registry/authentication_document.py:320-338 | after a successful update the library's summaries are exactly the languages just given, each with its last size; the None summary is present exactly when the unknown-language total is non-zero or an unknown language was given, and holds that total (the sum of the sizes given for unrecognised languages) |
| AuthenticationDocument.SizesEdgeCases | library_registry/authentication_document.py:309-318 | no `collection_size` removes every summary; a value that is neither a number, a string nor an object is refused with the "must be a number or an object" message and leaves the summaries |
| AuthenticationDocument.RunSizesStops | library_registry/authentication_document.py:323-335 | once a size is refused the entries after it change nothing |
| AuthenticationDocument.UpdateCollectionSize | library_registry/authentication_document.py:307-338 | the library's summaries and the problem returned are those of `SizesOutcome`, whose summaries `SizesAreLastGiven` characterises (the last size per language, the unknown-language total under None); stale summaries are dropped on success, and the ValueError message is the problem's detail |
| AuthenticationDocument.SetSizes | library_registry/authentication_document.py:323-333 | the loop calling `CollectionSummary.set` leaves the run of the specification and the library's summaries equal to it |
| AuthenticationDocument.FirstWithRel | library_registry/authentication_document.py:412-417 | the first link with the relation: it is one of the links and has the relation, and there is none exactly when no link has the relation |
| AuthenticationDocument.FirstTyped | library_registry/authentication_document.py:412-429 | the first link with the relation whose type starts with the given type; none exactly when no link has both |
| AuthenticationDocument.ExtractLink | library_registry/authentication_document.py:399-436 | the loop with its `good_enough` fallback returns the link the specification chooses |
| AuthenticationDocument.ChosenLinkMeets | library_registry/authentication_document.py:399-436 | an error exactly when both types are given; a link chosen is one of the links and has the relation; with a required type it has that type; a preferred type is taken whenever some link with the relation has it; without a required type some link is chosen whenever one has the relation |
| AuthenticationDocument.AuthenticationFlows | library_registry/authentication_document.py:152-159 | the flows are exactly the entries that are objects |
| AuthenticationDocument.HasLinkMeansRelation | library_registry/authentication_document.py:98-115 | `has_link` holds exactly when the document's links or the links of some flow contain a link with the relation |
| SearchTokens.TypeNamed | library_registry/util/search.py:109-117 | a type name is kept exactly when it names one of the seven valid token types, otherwise the token has no type |
| SearchTokens.MakeToken | library_registry/util/search.py:122-127 | a value that is not a string raises InvalidLSToken; otherwise the token's value is the string with its blanks collapsed and its type is the valid type named, if any |
| SearchTokens.TokenValueIsCollapsed | library_registry/util/search.py:126 | a token's value has the same words as the string it was made from, and making a token of that value again gives the same token |
| SearchTokens.UnclassifiedCount | library_registry/util/search.py:279-281 | the number of untyped tokens is at most the length and is 0 exactly when every token is classified |
| SearchTokens.LSTokenSequence.constructor | library_registry/util/search.py:161-168 | the sequence holds the given tokens |
| SearchTokens.LSTokenSequence.LongestUnclassifiedRun | library_registry/util/search.py:283-292 | the result is the length of a run of untyped tokens the sequence has, no longer such run exists, and it is 0 exactly when every token is classified |
| SearchTokens.LSTokenSequence.MergeMultiwordTokens | library_registry/util/search.py:185-229 | when the target search raises, the tokens are unchanged and the error is returned; otherwise the found targets are merged longest first, each by one pass over the tokens |
| SearchTokens.LSTokenSequence.MergeInOrder | library_registry/util/search.py:188-229 | the loop over the sorted targets leaves the tokens that the passes for those targets, in order, give |
| SearchTokens.LSTokenSequence.FindTargets | library_registry/util/search.py:233-272 | the loop finds exactly the targets of the specification of `_multiword_targets_found_in_sequence` |
| SearchTokens.LSTokenSequence.MergeTarget | library_registry/util/search.py:189-229 | the loop with its `skip_next` counter leaves the tokens of one pass for the target |
| SearchTokens.MergeStep | library_registry/util/search.py:195-228 | one turn of the loop: when fewer words remain than the target has, the rest is kept and the loop stops; otherwise what it appends, followed by the rest of the pass, is the whole pass from that token |
| SearchTokens.WordsRemaining | library_registry/util/search.py:199 | the number of words in the text from the current token on |
| SearchTokens.MergeAt | library_registry/util/search.py:204-228 | at a token no merge consumed, what is appended and the new `skip_next` continue the pass exactly as the specification does |
| SearchTokens.MatchAt | library_registry/util/search.py:207-217 | the inner loop grows the run while the target starts with its text and ends on the run that spells the target, if any |
| SearchTokens.Grow | library_registry/util/search.py:207-217 | a run found ends after its start, within the sequence, and its values joined by spaces are the target |
| SearchTokens.MatchFrom | library_registry/util/search.py:204-217 | a match from a token covers at least two tokens and their text is exactly the target |
| SearchTokens.Pass | library_registry/util/search.py:189-229 | one pass never yields more tokens than it reads, and yields none exactly when every remaining token is skipped |
| SearchTokens.PassSkips | library_registry/util/search.py:196-198 | skipping `k` tokens is the same as starting `k` tokens later |
| SearchTokens.PassStops | library_registry/util/search.py:201-203 | once fewer words remain than the target has, the pass keeps the rest unchanged |
| SearchTokens.PassMerged | library_registry/util/search.py:218-224 | a run that spells the target becomes one token of the merged type whose value is the target, and the pass resumes after the run, whether or not the run was classified |
| SearchTokens.PassMerges | library_registry/util/search.py:218-226 | the merged token is followed by the tokens the counter then skips |
| SearchTokens.PassKeeps | library_registry/util/search.py:226-227 | a token that starts no run spelling the target is kept as it is |
| SearchTokens.PassKeepsText | library_registry/util/search.py:189-229 | a pass never changes the space-joined text of the tokens |
| SearchTokens.PassTokens | library_registry/util/search.py:189-229 | every token a pass leaves is an original token or a token of the merged type whose value is the target |
| SearchTokens.MergeAllStep | library_registry/util/search.py:188-190 | each further target is one further pass over the result so far |
| SearchTokens.MergeKeepsText | library_registry/util/search.py:185-229 | merging never changes the space-joined text of the sequence and never increases its number of tokens |
| SearchTokens.NormalizedTargetIsCollapsed | library_registry/util/search.py:299-307 | a normalised target already has its blanks collapsed |
| SearchTokens.MostWordsIsMax | library_registry/util/search.py:253 | the longest word count is at least each target's and is reached by some target |
| SearchTokens.ValidatedMembers | library_registry/util/search.py:257-272 | the validated targets are exactly the targets of an allowed length that a run of whole tokens spells, with no repeats |
| SearchTokens.NormalizedTarget | library_registry/util/search.py:303-305 | the `k`-th normalised target is the `k`-th target normalised |
| SearchTokens.NormalizeTargetList | library_registry/util/search.py:298-307 | the loop normalises each target, in order |
| SearchTokens.FoundTargetsAreSpelled | library_registry/util/search.py:233-272 | for a non-empty target list, the found targets are exactly the normalised targets of 2 up to the allowed number of words (never above 6) that start and end on token boundaries, each once |
| SearchTokens.NormalizedTargetsMembers | library_registry/util/search.py:299-307 | the normalised list holds exactly the normalised targets, all with collapsed blanks |
| SearchTokens.CountedMembers | library_registry/util/search.py:257-258 | the targets kept are exactly those whose word count is within the bounds |
| SearchTokens.LongestFirstSorts | library_registry/util/search.py:188 | the targets are sorted by word count, longest first, and stably: the targets of each length keep their order; it is a permutation when every target has 2 to 6 words |
| SearchTokens.SingleWordPriority | library_registry/util/search.py:346-358 | a word is a postcode if it matches the postcode pattern, else a state abbreviation, else a state name, else a library keyword, and has no type exactly when none applies |
| SearchTokens.ClassifyWord | library_registry/util/search.py:346-358 | a token keeps its value; a typed or multi-word token is unchanged; an untyped single word gets the type its word lists give |
| SearchTokens.ClassifySingleWords | library_registry/util/search.py:336-360 | the loop over the copy gives the tokens of the single-word classification |
| SearchTokens.SingleWordsClassification | library_registry/util/search.py:336-360 | every value is kept; with nothing unclassified the input is returned as it is; typed and multi-word tokens are kept; each untyped single word gets the type its word lists give |
| SearchTokens.SingleWordsTypes | library_registry/util/search.py:346-358 | a token whose type changes was untyped and now has one of the four single-word types |
| SearchTokens.SingleWordsIdempotent | library_registry/util/search.py:336-360 | classifying single words twice is classifying them once |
| SearchTokens.StateNamesOutcome | library_registry/util/search.py:363-385 | the state-name classifier raises exactly when some token is unclassified, since it then reaches the merge with `max_words`, and otherwise returns its input |
| SearchTokens.LoneCitiesNamed | library_registry/util/search.py:474-498 | pattern 3 keeps the number of tokens |
| SearchTokens.FindCityOf | library_registry/util/search.py:431-450 | the scan finds a "city of" followed by an unclassified token exactly when the sequence has one |
| SearchTokens.FindAfterUnclassified | library_registry/util/search.py:453-471 | the scan finds a listed word right after an unclassified token exactly when the sequence has one |
| SearchTokens.NameCitiesBeforeStates | library_registry/util/search.py:474-498 | the loop raises TypeError exactly when a run of two or more unclassified tokens precedes a state token; otherwise each lone unclassified word before a state token is typed as a city name |
| SearchTokens.ClassifyCityNames | library_registry/util/search.py:413-500 | the city classifier gives the outcome its specification states: pattern 1, else 2, else 3 |
| SearchTokens.CityNamesOnlyNameLoneWords | library_registry/util/search.py:413-500 | when it does not raise, the city classifier keeps every value, and each token it changes was unclassified, is now a city name and stands right before a state token; when it raises the error is the TypeError for `max_words` |
| SearchTokens.CityNamesNoWork | library_registry/util/search.py:398-411 | with a single token, or nothing unclassified, the city classifier changes nothing |
| SearchTokens.CityBeforeState | library_registry/util/search.py:474-498 | one unclassified word before a state token is named a city; two or more make the classifier raise |
| SearchTokens.ClassifyCountyNames | library_registry/util/search.py:514-544 | the county classifier's loop gives its specification's outcome |
| SearchTokens.CountyNamesOutcome | library_registry/util/search.py:505-544 | the county classifier raises exactly when a county word follows an unclassified token, and otherwise returns its input unchanged |
| SearchTokens.ClassifyLibraryNames | library_registry/util/search.py:549-596 | the library-name classifier raises the `max_words` TypeError exactly when it has work, and otherwise returns its input |
| SearchTokens.Take | library_registry/util/search.py:841 | `s[:n]` is a prefix of `s` of at most `n` characters, all of `s` when it is short enough |
| SearchTokens.CorrectedAll | library_registry/util/search.py:852-855 | the corrections keep the number of words |
| SearchTokens.CorrectionOfLibary | library_registry/util/search.py:607-609 | any casing of "libary" becomes "library" and every other word is unchanged |
| SearchTokens.CutWordCount | library_registry/util/search.py:837-842 | cutting the collapsed text never gives more words than it had |
| SearchTokens.NormalizeSearchString | library_registry/util/search.py:819-857 | popping the broken word and overwriting the misspelt ones gives the specification's normalised string |
| SearchTokens.CorrectMistakes | library_registry/util/search.py:852-855 | the loop overwriting misspelt words in place gives every word corrected |
| SearchTokens.CutTokensEmpty | library_registry/util/search.py:837-847 | the cut has no word exactly when the query's first 384 characters have none |
| SearchTokens.KeptWordsArePrefix | library_registry/util/search.py:837-848 | the words kept are some first words of the query, within 128 characters joined, and all of them when they fit |
| SearchTokens.DropBrokenWord | library_registry/util/search.py:844-848 | the last cut word is dropped exactly when the cut broke it |
| SearchTokens.NormalizedWordsArePrefix | library_registry/util/search.py:819-857 | normalising a non-empty string raises IndexError exactly when it has no word in its first 384 characters; otherwise the result is some first words, corrected and joined by single spaces, within 128 characters before correction, and all of them when they fit |
| SearchTokens.TokenizedOutcome | library_registry/util/search.py:868-879 | a query of two or more words yields no tokens; a single word yields one untyped token of it; no word yields none |
| SearchTokens.TokenizedTokensAreMade | library_registry/util/search.py:868-879 | each token the tokenizer yields is what `LSToken` makes of its word |
| SearchTokens.PunctuationRanges | library_registry/util/search.py:635 | `string.punctuation` is exactly the four printable ASCII ranges that are neither letters, digits nor blank |
| SearchTokens.WithoutPunctuation | library_registry/util/search.py:635 | the result has no punctuation and is no longer than the input |
| SearchTokens.NewQuery | library_registry/util/search.py:628-636 | making a query fails exactly when normalising its string raises |
| SearchTokens.QueryShape | library_registry/util/search.py:628-648 | a query is false exactly when it was given no string or the empty one; its cleaned string has no punctuation or capital letter; it has tokens only when the cleaned string is one word, and then one untyped token of it |
| SearchTokens.QueryFields | library_registry/util/search.py:628-648 | the cleaned string is the normalized one without punctuation and lower-cased, the tokens are those of the cleaned string, and a query is true exactly when it was given a non-empty string |
| SearchTokens.CleanedShape | library_registry/util/search.py:635 | the cleaned string has no punctuation and no capital letter |
| ShortClientToken.SctNumericDate | library_registry/util/short_client_token.py:58-65 | 0 for an instant before 2017-01-01, otherwise the number of whole minutes elapsed since then |
| ShortClientToken.JwtNumericDate | library_registry/util/short_client_token.py:67-74 | 0 for an instant before 1970-01-01, otherwise the number of whole seconds elapsed since then (the NumericDate of section 2 of RFC 7519) |
| ShortClientToken.NumericDatesOfExample | library_registry/util/short_client_token.py:58-74 | 2018-01-01 12:30 is minute 526350 of the token epoch and second 1514809800 of the JWT epoch |
| ShortClientToken.Swap | library_registry/util/short_client_token.py:46 | one character replaced by another everywhere, every other character kept, the length unchanged |
| ShortClientToken.ReplaceOneChar | library_registry/util/short_client_token.py:46 | `replace` of one character by one character is a swap, character by character |
| ShortClientToken.EncoderSubstitution | library_registry/util/short_client_token.py:46 | the encoder's three replacements map '+' to ':', '/' to ';' and '=' to '@' and leave every other character |
| ShortClientToken.DecoderSubstitution | library_registry/util/short_client_token.py:54 | the decoder's three replacements map ':' to '+', ';' to '/' and '@' to '=' and leave every other character |
| ShortClientToken.StripOfAdobe | library_registry/util/short_client_token.py:46 | `strip` removes only the final newline that `encodebytes` writes |
| ShortClientToken.AdobeEncodeBody | library_registry/util/short_client_token.py:32-46 | the Adobe encoding of non-empty bytes is their MIME base64 (section 6.8 of RFC 2045) with the three substitutions and without its final newline |
| ShortClientToken.SubstitutionsUndone | library_registry/util/short_client_token.py:46-54 | on base64 text the decoder's substitutions undo the encoder's |
| ShortClientToken.AdobeDecodeOf | library_registry/util/short_client_token.py:48-56 | decoding the substituted text gives what `decodebytes` gives for the original base64 |
| ShortClientToken.AdobeRoundTrip | library_registry/util/short_client_token.py:32-56 | `adobe_base64_decode(adobe_base64_encode(x)) == x` for all bytes |
| ShortClientToken.SignatureLength | library_registry/util/short_client_token.py:118-127 | a 32-byte HMAC-SHA256 signature encodes to 44 characters, within the 76 the log warning allows |
| ShortClientToken.AdobePipeFree | library_registry/util/short_client_token.py:32-46 | an encoded signature never contains '\|', so the last pipe of a token precedes it |
| ShortClientToken.NatDigits | library_registry/util/short_client_token.py:116 | `str(n)` of a natural number is a non-empty run of digits spelling `n` |
| ShortClientToken.ParseOfNat | library_registry/util/short_client_token.py:238 | `float(str(n))` is `n` |
| ShortClientToken.ExpiredOfWhole | library_registry/util/short_client_token.py:258-266 | a whole-number expiration has passed exactly when its instant lies before now, and adding it to the epoch gives a date exactly when its instant lies between `datetime.min` and `datetime.max`: minutes from 2017 below 1500000000, seconds from 1970 from there on |
| ShortClientToken.WholeInRange | library_registry/util/short_client_token.py:258-263 | a whole-number expiration gives a date from -1060313760 minutes up to 1500000000, and from there on up to second 253402300799; outside that range the source raises OverflowError |
| ShortClientToken.ExpiryOfExamples | library_registry/util/short_client_token.py:258-263 | expiration 1234 is 2017-01-01 20:34 and 1500000000 is 2017-07-14 02:40 |
| ShortClientToken.MintedExpiry | library_registry/util/short_client_token.py:106-107 | the instant of the minute counted for `d` lies within the minute before `d` |
| ShortClientToken.Encode | library_registry/util/short_client_token.py:93-109 | an error exactly when the short name, secret or patron id is missing or empty, and it is the library error exactly when the name or secret is the missing one |
| ShortClientToken.SplitLast | library_registry/util/short_client_token.py:179 | `rsplit('\|', 1)`: the token is the first part, a pipe and the second part, and the second part has no pipe |
| ShortClientToken.Fields | library_registry/util/short_client_token.py:225-228 | `split('\|', 2)`: the token is the three parts joined by pipes, and only the patron part may hold more pipes |
| ShortClientToken.CheckToken | library_registry/util/short_client_token.py:244-278 | an error of `_split_token` passes through, then an empty patron is refused; the expiration is out of the date range exactly when OverflowError is the outcome, and expired exactly when `Expired` is; the signature is refused exactly when everything else holds and the library's signature of the token differs from the one given; the token passes, giving its patron, exactly when it splits into a known library and a numeric expiration, its patron is non-empty, its expiration is a date not yet passed and the library's signature of it is the one given |
| ShortClientToken.FirstAccount | library_registry/util/short_client_token.py:194-201 | the account id taken is the first non-empty one a delegate gave, and there is none exactly when no delegate gave one |
| ShortClientToken.Resolve | library_registry/util/short_client_token.py:165-180 | an empty token is refused as empty and a token without a pipe as pipeless |
| ShortClientToken.UuidUrn | library_registry/util/short_client_token.py:145-151 | the URN starts with "urn:uuid:0" and continues with the UUID after its first character |
| ShortClientToken.Claimed | library_registry/model.py:1717-1726 | after a claim the row exists; an existing row is kept as it is and no other row changes |
| ShortClientToken.ClaimTwice | library_registry/model.py:1717-1726 | claiming the same row twice is claiming it once, so the UUID of a second claim is never used |
| ShortClientToken.DelegatedIdentifiers.constructor | library_registry/model.py:1717-1726 | the table starts empty |
| ShortClientToken.DelegatedIdentifiers.GetOneOrCreate | library_registry/model.py:1717-1726 | a row is created, with an identifier from the UUID, exactly when none exists for the library, patron and kind; the identifier returned is that row's |
| ShortClientToken.AskDelegates | library_registry/util/short_client_token.py:194-201 | the loop over the delegates stops at the first that gives an account id |
| ShortClientToken.DecodeTwoPart | library_registry/util/short_client_token.py:182-215 | a refused token leaves the table unchanged and returns the error; otherwise the row for the library and patron is found or created and its identifier returned |
| ShortClientToken.Decode | library_registry/util/short_client_token.py:165-180 | the same, for a whole token split at its last pipe |
| ShortClientToken.SplitLastOfToken | library_registry/util/short_client_token.py:129 | a token built as base, pipe and pipe-free signature splits back into exactly those |
| ShortClientToken.FieldsOfBase | library_registry/util/short_client_token.py:116 | the signed part of a token splits back into the name, the expiration and the patron |
| ShortClientToken.MintedParts | library_registry/util/short_client_token.py:219-242 | the signed part of a minted token names its library, its expiration and its patron |
| ShortClientToken.CheckMinted | library_registry/util/short_client_token.py:244-278 | the signed part of a token minted at some instant passes `_decode` for 59 minutes afterwards |
| ShortClientToken.CheckExpired | library_registry/util/short_client_token.py:258-266 | after its 60 minutes the same signed part is refused as expired |
| ShortClientToken.MintedSplit | library_registry/util/short_client_token.py:113-129 | a minted token splits at its last pipe into its signed part and its encoded signature, which decodes to the signature |
| ShortClientToken.TokenRoundTrip | library_registry/util/short_client_token.py:93-278 | a token `encode` mints decodes, for 59 minutes and with no delegate answering, to a new identifier for its library and patron |
| ShortClientToken.TokenExpires | library_registry/util/short_client_token.py:93-266 | after 60 minutes, with no delegate answering, the same token is refused as expired |
| Languages.ParseLine | library_registry/util/language.py:36-39 | a data line is read exactly when it splits into five fields at '\|'; its English names are split at ';' and stripped |
| Languages.ParseRowLine | library_registry/util/language.py:36-39 | reading back the line written for a well-formed row gives the row |
| Languages.AddEnglishNames | library_registry/util/language.py:44-45 | every English name, lower-cased, maps to the row's alpha-3 code; other keys keep their values; no other key is added |
| Languages.Touch | library_registry/util/language.py:13-14 | a `defaultdict` read stores a missing key with None and changes no other entry |
| Languages.LoadRowsKeys | library_registry/util/language.py:36-43 | only rows with an alpha-2 code put keys into the two code maps |
| Languages.AddRowKeepsInverse | library_registry/util/language.py:40-43 | a row with new codes keeps the two code maps inverse to each other |
| Languages.AddRowHasPair | library_registry/util/language.py:40-43 | a row with an alpha-2 code puts its pair of codes into both maps |
| Languages.LoadRowsCodes | library_registry/util/language.py:36-46 | when each code occurs once, `two_to_three` and `three_to_two` are inverse to each other and hold the pair of every row with an alpha-2 code |
| Languages.LocaleLanguage | library_registry/util/language.py:73-76 | a locale without '-' is its own language; otherwise the language is the lower-cased text before the first '-' |
| Languages.LocaleLookup | library_registry/util/language.py:70-81 | a code found is the alpha-3 of some alpha-2 or a known alpha-3 with an alpha-2; the language is stored in `two_to_three`, and possibly in `three_to_two`, with nothing else changed |
| Languages.StringToAlpha3 | library_registry/util/language.py:83-100 | None for a missing or empty string; an English name in any case gives its code; any code returned is a name's code, a key of `three_to_two` or the alpha-3 of an alpha-2 |
| Languages.StringToAlpha3IgnoresCase | library_registry/util/language.py:88 | upper-casing the input does not change the answer |
| Languages.LocaleLookupLeaksIntoAlpha3 | library_registry/util/language.py:77-96 | a word that is no language is refused by `string_to_alpha_3` until a locale lookup of it has stored it in `three_to_two`, and then it is accepted as an alpha-3 code |
| Languages.AcceptFold | library_registry/util/language.py:58-64 | the codes collected have no repeats and none is empty |
| Languages.AcceptFoldFromLocales | library_registry/util/language.py:60-64 | each code collected is the code some locale gave, looked up in order |
| Languages.DisplayName | library_registry/util/language.py:110-118 | a code has a display name exactly when it has a native name or, failing that, an English name |
| Languages.DisplayNames | library_registry/util/language.py:109-118 | the names of all codes, in order, when each has one; otherwise the error names the first code without one |
| Languages.DisplayNamesErrorStays | library_registry/util/language.py:109-117 | once a code has no name, the codes after it change nothing |
| Languages.LanguageSetName | library_registry/util/language.py:102-121 | "" for no codes; otherwise a name exactly when every code has one, and then the names joined with "/" |
| Languages.EmptyStringIsOneCode | library_registry/util/language.py:104-108 | the string "" splits into one empty code, so it is named only when "" resolves to a language |
| Languages.LanguageCodes.constructor | library_registry/util/language.py:36-54 | the tables are those the two loading loops give |
| Languages.LanguageCodes.LoadRowsFrom | library_registry/util/language.py:36-46 | the loop over the data rows leaves the tables of the specification |
| Languages.LanguageCodes.LoadNatives | library_registry/util/language.py:48-54 | the loop over the native names leaves the tables of the specification |
| Languages.LanguageCodes.LoadRow | library_registry/util/language.py:37-46 | one data row updates the tables as the specification says |
| Languages.LanguageCodes.LoadEnglishNames | library_registry/util/language.py:44-45 | the inner loop fills only `english_names_to_three` |
| Languages.LanguageCodes.LoadNative | library_registry/util/language.py:49-54 | one native-name entry updates the tables as the specification says |
| Languages.LanguageCodes.IsoForLocale | library_registry/util/language.py:70-81 | the code and the tables afterwards, including the keys the reads store, are those of the specification |
| Languages.LanguageCodes.LanguagesFromAccept | library_registry/util/language.py:56-68 | the recognised codes, first occurrence only, in order, or the comma-split default when none is recognised; the tables are left as the lookups leave them |
| Languages.LanguageCodes.NameForLanguageSet | library_registry/util/language.py:102-121 | the name of the language set, or the ValueError naming the first code without a name |
| Base64.CharValue | library_registry/util/short_client_token.py:44 | every 6-bit value has a character of the alphabet of section 4 of RFC 4648 that reads back as it |
| Base64.EncodeDecodes | library_registry/util/short_client_token.py:44-56 | a base64 encoding decodes back to its bytes when what follows it decodes to nothing |
| Base64.FullGroupsDecode | library_registry/util/short_client_token.py:44-56 | whole groups of three bytes hold no padding, so decoding goes on after them |
| Base64.LinesDecode | library_registry/util/short_client_token.py:44-56 | `decodebytes(encodebytes(x)) == x` for all bytes, across line breaks |
| Base64.LinesChars | library_registry/util/short_client_token.py:44 | `encodebytes` writes only alphabet characters, padding and newlines, and a non-empty input starts with an alphabet character and ends with one newline |
| Base64.EncodeLength | library_registry/util/short_client_token.py:44 | every started group of three bytes takes four characters |
| Base64.ShortInputOneLine | library_registry/util/short_client_token.py:44 | one to 57 bytes encode as a single line followed by its newline (lines of 76 characters, section 6.8 of RFC 2045) |
| Registrar.Titled | library_registry/library_registration_protocol/registrar.py:338-343 | the shared problem made specific keeps its type and status and carries the given detail under the caller's title |
| Registrar.RequiredEmailAddress | library_registry/library_registration_protocol/registrar.py:327-346 | the URI is returned unchanged exactly when it is non-empty and starts with "mailto:"; a missing or empty URI gives INVALID_CONTACT_URI with "No email address was provided", any other gives "URI must start with 'mailto:' (got: …)"; every error keeps the type and carries the caller's title |
| Registrar.MailtoHrefsExact | library_registry/library_registration_protocol/registrar.py:308-317 | an address is collected exactly when some link with the requested relation has it as a valid mailto: href |
| Registrar.MailtoHrefsIgnoreOtherRels | library_registry/library_registration_protocol/registrar.py:310-317 | links of any other relation never change what is collected, and every address collected starts with "mailto:" |
| Registrar.LocateEmailAddresses | library_registry/library_registration_protocol/registrar.py:297-325 | the loop returns, in order, the hrefs of the links with the relation that pass the mailto check, always at least one and each a mailto: URI; with none it returns INVALID_CONTACT_URI with "No valid mailto: links found with rel=" and the relation, under the caller's title |
| Registrar.ContactLinks | library_registry/library_registration_protocol/registrar.py:116-127 | registration continues exactly when both a help address and a copyright-agent address are found, and then records both lists in that order; otherwise the problem carries the title of the first relation that has none |
| Registrar.LastFailure | library_registry/library_registration_protocol/registrar.py:93-110 | no failure exactly when no check fails; otherwise the message of a failing check after which no check fails |
| Registrar.CheckDocument | library_registry/library_registration_protocol/registrar.py:93-112 | the checks overwrite one another, so any failure returns INVALID_INTEGRATION_DOCUMENT with the last failing check's message, and success means a start link exists and its href is returned |
| Registrar.DocumentVerdict | library_registry/library_registration_protocol/registrar.py:93-112 | the document passes exactly when its id is the non-empty URL it came from, its title is non-empty and it has a start link; an id other than the URL (a missing one included) is always the reported failure, then a missing start link, then a missing title |
| Registrar.LinksToAuthDocument | library_registry/library_registration_protocol/registrar.py:281-295 | true exactly when the links could be read and the authentication document's URL is one of them; a malformed response links to nothing |
| Registrar.RootFailure | library_registry/library_registration_protocol/registrar.py:142-166 | a media type that does not fit the status (the Authentication For OPDS type for a 401, an OPDS 1 or 2 feed otherwise) is a failure whatever the links are, and so is a document that does not link back to the authentication document |
| Registrar.RootFailureNamesUrl | library_registry/library_registration_protocol/registrar.py:146-161 | every failure detail names the root document's URL |
| Registrar.RootAccepted | library_registry/library_registration_protocol/registrar.py:142-166 | the root document passes exactly when it links back to the authentication document and is that document for a 401 answer, or an OPDS 1 or 2 feed otherwise |
| Registrar.Reregister | library_registry/library_registration_protocol/registrar.py:34-57 | a problem from `register` is returned unchanged, and any other outcome gives nothing |
| ProblemDetails.Bare | library_registry/util/problem_detail.py:35-42 | a problem made from a URI alone has no status, title or detail |
| ProblemDetails.OrStatus | library_registry/util/problem_detail.py:62 | Python's `or` on status codes: the given status unless it is missing or 0, else the fallback |
| ProblemDetails.OrText | library_registry/util/problem_detail.py:63 | Python's `or` on strings: the given text unless it is missing or empty, else the fallback |
| ProblemDetails.Detailed | library_registry/util/problem_detail.py:44-67 | a new problem with the same type URI, exactly the given detail, instance and debug message, and the status and title falling back to the original's; the original is a value and stays as it was |
| ProblemDetails.WithDebug | library_registry/util/problem_detail.py:69-83 | a new problem with the same type URI and the given debug message; detail, instance, status and title are the original's unless a non-empty override is given |
| ProblemDetails.DetailedForgetsSpecifics | library_registry/util/problem_detail.py:60-67 | the result of `detailed` depends on the original only through its URI, status and title |
| ProblemDetails.WithDebugIdempotent | library_registry/util/problem_detail.py:76-83 | applying `with_debug` twice with the same arguments is the same as applying it once |
| ProblemDetails.WithDebugKeepsDetailed | library_registry/util/problem_detail.py:69-83 | debug information added to a detailed problem leaves its detail, title, status and type as patrons see them |
| ProblemDetails.Member | library_registry/util/problem_detail.py:16-23 | an optional member is present, with its value, exactly when the value is non-empty |
| ProblemDetails.Json | library_registry/util/problem_detail.py:14-25 | the document starts with type, title (as `str` prints it) and status, then detail when non-empty, and has one more member per non-empty optional value; detail, instance and debug_message are present with their given values when non-empty, and any member of those names carries exactly the given value (section 3.1 of RFC 7807) |
| ProblemDetails.JsonMembers | library_registry/util/problem_detail.py:14-25 | the member names are always type, title and status, plus detail, instance and debug_message exactly when their values are non-empty (section 3.1 of RFC 7807) |
| ProblemDetails.ResponseOf | library_registry/util/problem_detail.py:89-99 | the response status is never 0 and is 400 exactly when the problem has no status, status 0 or status 400; the body is the problem's JSON document and the only header is Content-Type application/api-problem+json |

## Left out

- HTTP: `register`'s fetches, `_make_request` and the timeouts are not modelled. What they return enters as parameters.
- `opds_response_links` is not modelled because it runs feedparser and a JSON parser. The links it would extract enter as a `Result` parameter of `LinksToAuthDocument`.
- Registrar.CheckDocument: a start link without an `href` makes `register` raise `KeyError`, but the model returns the missing href as None. Exceptions other than problem details are not modelled here.
- `register` after its document and root checks is not modelled: logo conversion with PIL, setting the library's fields and stages, and writing hyperlinks. Those are database writes and image handling.
- `AuthenticationDocument.__init__`, `from_dict` and `from_string` are not modelled, because they are JSON parsing. The parsed fields (links, coverage, audiences, sizes) are the inputs of the modelled operations.
- `update_library`, `update_audiences`, `update_service_areas` and `update_collection_size` are not modelled separately. They copy attributes and then call the modelled `_update_audiences`, `set_service_areas` and `_update_collection_size` in turn.
- SQL and PostGIS are not modelled. The name, location and description search strategies are function parameters, geometric overlap is a predicate parameter, and distances are exact reals rather than floating-point metres; a missing distance (SQL NULL) is `None`.
- LibrarySearch.FuzzyMatchBounds: holds for `ILike`, `FuzzyMatch` and `PartialMatch` as modelled, which compare the query as plain text. In SQL `ILIKE`, `%` and `_` in the query are wildcards and `\` is the escape character, and `query_cleanup` keeps all three, so the source's `fuzzy_match` with the query "a%" matches every name that starts with "a", and `partial_match` with "%" matches every row. `Preliminary` and `Search` inherit this: LIKE wildcards and the escape character in user queries are not modelled.
- Libraries.SettingValue: reads a setting from a map. The source's `for_library_and_externalintegration` uses `get_one_or_create`, so reading a setting that has no row inserts an empty one; that write is not modelled.
- Places.HumanFriendlyName: the model assumes every place has an `external_name`. The column is nullable, and the source would return None for a parentless place without one; `Place.externalName` is a plain string here.
- Places.Hierarchy: the source's `while place.parent` loop never ends when parent links form a cycle. The model requires the chain of parents to end (`ChainEnds`) and does not model that non-termination.
- AuthenticationDocument.CoverageAreas: a coverage object by nation is a list of entries, which could repeat a nation. It comes from a parsed JSON object, whose keys are distinct, so the model assumes distinct nations; with a repeated nation each entry would be read in turn, while Python keeps only the last value.
- Libraries.CheckedSize: `int(float(size))` is modelled on exact reals. An infinite size, or an integer beyond the float range, makes `float` or `int` raise OverflowError, which the `except (ValueError, TypeError)` does not catch; a NaN raises ValueError; integers above 2**53 are rounded to a float first. `Truncate` and `SizeValue.Number` hold none of these.
- Libraries.Truncate: truncates an exact real; the float overflow and rounding listed for `CheckedSize` are not modelled.
- ShortClientToken.CheckToken: `float(expiration)` is modelled as exact decimal notation (`ParseNumber`). Python's other float spellings ("1e3", "inf", "nan", "1_000") are not numbers here. Rounding to a double is not modelled, so "1499999999.99999999", which Python reads as 1500000000.0 (seconds), counts as minutes here. The rounding of a `timedelta` to whole microseconds at the edges of the date range, and the ValueError of a NaN, are also not modelled.
- ShortClientToken.ExpiredOfWhole: covers whole-number expirations only; fractional ones carry the limits listed for `CheckToken`.
- SearchTokens.LSTokenSequence.MergeMultiwordTokens: the source collects the validated targets in a `set`, whose iteration order depends on string hashing. `sorted` by word count keeps that order among targets with the same word count, so overlapping targets of one length can merge differently from run to run. The model fixes one order, the order first given (`SearchTokens.Validated`).
- The uszipcode search engine is an oracle from a state and a city to ZIP codes.
- HMAC-SHA256 signing is a parameter (the signer), as are `uuid1`, `datetime.utcnow` and `generate_secret`. The delegates of `decode_two_part` are a list of outcomes instead of remote calls.
- The library lookups behind `_split_token` and `decode_two_part` are a table parameter, and `get_one_or_create` is the `DelegatedIdentifiers` class.
- Case mapping and blanks are ASCII only. Unicode case folding, and whitespace outside ASCII, are not modelled.
- Merge targets are found as runs of whole tokens that spell the target. This agrees with the source's regex search while a target holds no regex metacharacter. Targets that do contain them, which the source interpolates unescaped, are not modelled.
- `LSQuery`'s location handling, `run`, `_search_type`, `_appropriate_search_method`, the `_search_*` stubs and `fuzzy_match_clause` are not modelled. They build SQL or are empty, and the model stops at the tokens `_tokenize` returns.
- `_max_consecutive_unclassified_run` is not modelled separately, because it is the same loop as `LSTokenSequence.longest_unclassified_run` (`SearchTokens.LSTokenSequence.LongestUnclassifiedRun`).
- `_classify_tokens_by_pattern` is not modelled, because `_tokenize` only ever calls it with an empty list, and the model returns that empty list.
- `DEFAULT_LANGUAGES` is an environment variable, so it is a parameter of `LanguagesFromAccept`.
- The ISO 639-2 data file is a parameter, as a sequence of rows. `LoadRowsCodes` assumes that the file lists each code once.
- Logging in `detailed`, `with_debug` and `_encode` is not modelled, because it has no effect on the results.
- `ProblemDetails.ResponseOf` writes the JSON body as its list of members, not as a serialised string.
