# Agentic alert system — verified model of its core

This project models, in Dafny, the logic at the heart of the agentic alert
system and proves what that logic promises. The system reads news items,
recognises the roster companies and the business triggers they mention,
and turns every (company, trigger) pair into an alert. It drops alerts
whose dedupe key is already stored, and marks the alerts it delivered as
sent. Around that engine sit four more pieces:

- **Company selection.** Picks the companies whose Google News feeds are
  read: by top revenue, by a rolling window, or by a seeded shuffle.
- **Query builders.** Build the Google News and GDELT queries, with the
  search URL percent-encoded.
- **Orbis import.** Turns an Orbis spreadsheet export into the company
  roster.
- **AGENTS.md updater.** Collects tagged notes from session logs and
  splices them into the marked block of AGENTS.md.

One Dafny module per component:

- `Text`, `Seqs`, `Sorting`, `Wrappers` (text.dfy, seqs.dfy, sorting.dfy, wrappers.dfy): Python's string helpers (ASCII `lower`, `strip`, `split`, `join`, `in`); order-preserving dedupe; a stable sort; `Option`/`Result`
- `Calendar` (calendar.dfy): the proleptic Gregorian calendar and the `fromisoformat` subset `YYYY-MM-DD[?hh:mm[:ss[.fff|.ffffff]][Z|±hh:mm]]`, where `?` is any one character (the separator is not checked, as in CPython)
- `Schemas` (schemas.dfy): the company, trigger, news item, candidate and alert records, and CSV rows
- `TriggerMatcher` (trigger_matcher.dfy): `match_triggers`
- `CompanyMatcher` (company_matcher.dfy): `match_companies` and `_update_match`
- `Dedupe` (dedupe.dfy): `_normalize_title`, `_published_date` and `_build_dedupe_key`
- `AlertStore` (alert_store.dfy): `load_existing_alert_keys` and `update_alert_statuses`
- `Dispatcher` (dispatcher.dfy): which alerts `dispatch_alerts` reports as sent
- `Pipeline` (pipeline.dfy): `_parse_bool`, the allow-list, provider selection, `build_alerts_for_article`, and `_run_pipeline` with its dedupe loop
- `Selection` (selection.dfy): the provider registry's candidate filters, `_seed_to_int`, `_rolling_window` and the three selection modes
- `Queries`, `UrlEncoding` (queries.dfy, url_encoding.dfy): the Google News and GDELT queries, and `urllib.parse.quote` (sections 2.1 and 2.3 of RFC 3986)
- `FeedItems` (feed_items.dfy): the provider-kind predicates, entry-to-`NewsItem` defaults, timestamp normalisation and the short diagnostic texts
- `OrbisImport` (orbis_import.dfy): `scripts/import_orbis_xlsx.py` over an in-memory workbook
- `OrbisExamples` (orbis_examples.dfy): the two-row import of `tests/unit/test_import_orbis_xlsx.py`
- `AgentsUpdate` (agents_update.dfy): `scripts/codex/update_agents_from_sessions.py` over given session lines and a given set of existing skill files

The code keeps a few quirks, and the model reproduces each one as written:

- `_DATE_PREFIX_RE` is written with doubled backslashes, so it never matches a date. An unparseable timestamp therefore always gives the date "unknown".
- `Company` has no `is_bank` field, so the bank filter removes nothing.
- `match_companies` compares the status without stripping it.
- The backtest admits only disabled `gdelt_doc` providers.
- The Google News query always ends with the bank-exclusion clause.
- `load_companies` accepts a company with an empty `company_id`, but `load_existing_alert_keys` skips stored rows without a company or trigger id. An alert for such a company is therefore written again on every run, and the rerun guarantee holds only when every id is non-empty (`Pipeline.EmptyIdReAdded`).

Where a loop or an in-place update drives the source, the model is a
method. Its `ensures` ties the result to a specification function, and
lemmas prove the promised properties of that function.

## Model

| member | source | states |
|---|---|---|
| TriggerMatcher.MatchTriggers | src/agentic_alert/triggers/matcher.py:4-12 | `match_triggers` returns exactly the triggers that fire, in input order (equal to `FiringTriggers`), lowering the text once and stopping at a trigger's first matching keyword |
| TriggerMatcher.FiringTriggersIff | src/agentic_alert/triggers/matcher.py:7-10 | a trigger is in the result iff it is one of the input triggers and some keyword, lowercased, is a substring of the lowercased text |
| TriggerMatcher.FiringTriggersSubsequence | src/agentic_alert/triggers/matcher.py:6-12 | the result is a subsequence of the input triggers, so in input order and no longer than the input |
| TriggerMatcher.FiringTriggersOnce | src/agentic_alert/triggers/matcher.py:8-11 | each input occurrence of a firing trigger is reported exactly once however many keywords match (the `break`); a non-firing one never |
| TriggerMatcher.NoKeywordsNeverFires | src/agentic_alert/triggers/matcher.py:8-9 | a trigger with no keywords never matches |
| TriggerMatcher.EmptyKeywordFires | src/agentic_alert/triggers/matcher.py:8-9 | an empty keyword matches every text |
| TriggerMatcher.FiresIgnoresCase | src/agentic_alert/triggers/matcher.py:5-9 | texts that agree up to letter case, and triggers whose keywords agree one by one up to case, fire alike; lowering the text changes nothing |
| TriggerMatcher.LowerOccurs | src/agentic_alert/triggers/matcher.py:9 | a keyword written inside the text in any letter case (a word equal to it up to case) is found |
| TriggerMatcher.AcquisitionAndCeoExample | tests/unit/test_trigger_matcher.py:23-27 | a text mentioning "acquisizione" and "nuovo CEO" fires both t001 and t002 |
| CompanyMatcher.UpdateMatchIds | src/agentic_alert/pipeline.py:147-161 | `_update_match` keeps a known id in its dict position and appends a new id at the end |
| CompanyMatcher.UpdateMatchEntries | src/agentic_alert/pipeline.py:153-161 | an entry is only ever replaced by the offered match, no confidence decreases, and afterwards the offered id has an entry of at least the offered confidence |
| CompanyMatcher.NoDowngrade | src/agentic_alert/pipeline.py:153-161 | an existing entry keeps its position and id and its confidence never drops; an entry of another id or of confidence >= the offered one (a tie included) is kept, and a strictly weaker entry of the offered id is replaced by the offered match |
| CompanyMatcher.OfferAliases | src/agentic_alert/pipeline.py:138-140 | the alias loop offers an "alias" match once per alias whose lowercase occurs in the text, in alias order |
| CompanyMatcher.OfferCompany | src/agentic_alert/pipeline.py:134-142 | the loop body offers the domain match, then the alias matches, then the name match, each under its own condition |
| CompanyMatcher.MatchCompanies | src/agentic_alert/pipeline.py:125-144 | `match_companies` returns the dict values after offering every event of every matchable company, in company order (equal to `Matches`) |
| CompanyMatcher.FoldIds | src/agentic_alert/pipeline.py:129-161 | the ids of the resulting dict are the offered ids deduplicated in first-seen order |
| CompanyMatcher.MatchesFirstSeenOrder | src/agentic_alert/pipeline.py:129-144 | at most one match per company id, placed where that id first matched (dict insertion order) |
| CompanyMatcher.MatchesStrongest | src/agentic_alert/pipeline.py:134-142 | for every event offered, the result holds an entry for that company id whose confidence is at least the event's: the strongest method that fired is recorded |
| CompanyMatcher.MatchesOffered | src/agentic_alert/pipeline.py:137-142 | every reported match is one of the events the loop offered |
| CompanyMatcher.FoldFirstStrongest | src/agentic_alert/pipeline.py:147-161 | folding `_update_match` over offered events leaves, for each id, the first offered event of that id with the largest confidence |
| CompanyMatcher.MatchesFirstStrongest | src/agentic_alert/pipeline.py:129-161 | each reported match is the first offered event for its company with the largest confidence among that company's events |
| CompanyMatcher.DomainWins | src/agentic_alert/pipeline.py:134-142 | when a domain hit fired for a company, its entry's method is "domain" |
| CompanyMatcher.DomainEventIff | src/agentic_alert/pipeline.py:134-137 | a domain match is offered iff the status admits the company, the domain is non-empty and its lowercase occurs in the lowercased URL or snippet (never the title) |
| CompanyMatcher.UnmatchableContributesNothing | src/agentic_alert/pipeline.py:132-133 | a company whose status is set and, lowercased, is not "active" changes nothing in the result |
| CompanyMatcher.PaddedActiveExcluded | src/agentic_alert/pipeline.py:132 | the status is not stripped: " active" excludes the company |
| CompanyMatcher.CompanyEventsOf | src/agentic_alert/pipeline.py:137-142 | every match offered for a company is about that company |
| CompanyMatcher.MatchesFromCompanies | src/agentic_alert/pipeline.py:125-144 | every reported match is about one of the given companies |
| Dedupe.NormalizeTitle | src/agentic_alert/pipeline.py:171-178 | `_normalize_title` yields only lower-case letters, digits and single interior spaces, with no leading or trailing space |
| Dedupe.NormalizeTitleIsCore | src/agentic_alert/pipeline.py:171-178 | the empty-title shortcut agrees with strip, lower, blank out non-alphanumerics, collapse whitespace |
| Dedupe.NormalizeTitleIdempotent | src/agentic_alert/pipeline.py:171-178 | normalising a normalised title changes nothing |
| Dedupe.NormalizeTitleIgnoresCase | src/agentic_alert/pipeline.py:174 | titles equal up to letter case normalise to the same text |
| Dedupe.NormalizeTitleTrailingMark | src/agentic_alert/pipeline.py:175-178 | appending one punctuation character does not change the normalised title |
| Dedupe.NormalizeTitleShouted | src/agentic_alert/pipeline.py:171-178 | upper-casing a title and adding "!" leaves its normalised form unchanged |
| Dedupe.CrossProviderTitles | tests/unit/test_cross_provider_dedupe.py:54-59 | "Acquisizione di Alpha Energia" and "ACQUISIZIONE DI ALPHA ENERGIA!" normalise to the same title |
| Dedupe.DatePrefixNeverMatches | src/agentic_alert/pipeline.py:168 | the doubled-backslash pattern matches no 10-character candidate, so the fallback cannot return one |
| Dedupe.ZuluToOffset | src/agentic_alert/pipeline.py:188-190 | a value not ending in "Z" is passed on unchanged |
| Dedupe.PrefixFallback | src/agentic_alert/pipeline.py:194-198 | the `ValueError` fallback always yields "unknown" |
| Dedupe.PublishedDate | src/agentic_alert/pipeline.py:181-204 | `_published_date` yields "unknown" or a `YYYY-MM-DD` text |
| Dedupe.PublishedDateBlank | src/agentic_alert/pipeline.py:182-186 | an empty or blank value gives "unknown" |
| Dedupe.PublishedDateUnparseable | src/agentic_alert/pipeline.py:192-198 | a value that does not parse gives "unknown" |
| Dedupe.PublishedDateParsed | src/agentic_alert/pipeline.py:193-204 | a parsed value yields its UTC date: a naive time is taken as UTC and keeps its date, an aware one is converted first |
| Dedupe.PublishedDateZulu | src/agentic_alert/pipeline.py:189-190 | a trailing "Z" means the same as "+00:00" |
| Dedupe.PublishedDateOfDate | src/agentic_alert/pipeline.py:193-204 | an ISO date text is its own published date |
| Dedupe.PublishedDateOfDateZulu | src/agentic_alert/pipeline.py:189-204 | an ISO date with a trailing "Z" keeps its date: the rewritten `+00:00` is read as a separator and a naive midnight |
| Dedupe.BuildDedupeKey | src/agentic_alert/pipeline.py:207-215 | `_build_dedupe_key` joins four fields with "\|", so it has at least three characters |
| Dedupe.DedupeKeyFields | src/agentic_alert/pipeline.py:213-215 | when the ids hold no "\|", splitting the key on "\|" gives back company id, trigger id, published date and normalised title |
| Dedupe.DedupeKeyInjective | src/agentic_alert/pipeline.py:213-215 | two keys are equal iff company id, trigger id, published date and normalised title are all equal (ids free of "\|") |
| Calendar.DaysInMonth | src/agentic_alert/pipeline.py:200-204 | a month has 28 to 31 days, and February has 29 exactly in leap years |
| Calendar.NextPrevInverse | src/agentic_alert/pipeline.py:203 | stepping a valid date forward then back, or back then forward, gives it back |
| Calendar.NextDayOrdinal | src/agentic_alert/sources/provider_registry.py:233-234 | the next day's proleptic Gregorian ordinal is one more |
| Calendar.PrevDayOrdinal | src/agentic_alert/sources/provider_registry.py:233-234 | the previous day's ordinal is one less |
| Calendar.YearLength | src/agentic_alert/sources/provider_registry.py:233-234 | a year has 366 days if leap, else 365 |
| Calendar.ShiftDays | src/agentic_alert/pipeline.py:203 | a shift by -1, 0 or +1 day yields a valid date whose ordinal moves by that amount |
| Calendar.UtcDate | src/agentic_alert/pipeline.py:200-204 | the UTC date of a date-time is valid, equals its own date when naive, and is the day containing the instant minus the offset |
| Calendar.FormatDate | src/agentic_alert/pipeline.py:204 | `date.isoformat` writes a `YYYY-MM-DD` text |
| Calendar.ParseDate | src/agentic_alert/sources/provider_registry.py:233 | a parsed date is within years 1 to 9999 and its text has the ISO date shape |
| Calendar.ParseIsoDateTime | src/agentic_alert/pipeline.py:193 | `datetime.fromisoformat` over `YYYY-MM-DD[?hh:mm[:ss[.fff\|.ffffff]][Z\|±hh:mm]]` with any separator character `?` yields only valid date-times with offsets under one day |
| Calendar.ParseDateThenOffset | src/agentic_alert/pipeline.py:193 | a date followed by `+00:00` parses, reading `+` as the separator and `00:00` as a naive midnight of that date |
| Calendar.ParseFormatDate | src/agentic_alert/pipeline.py:193-204 | parsing a formatted date gives the date back, and as a date-time it is midnight, naive |
| Schemas.Confidence | src/agentic_alert/pipeline.py:137-142 | the confidences 0.95, 0.85, 0.75 are kept as positive ranks in hundredths |
| Schemas.AlertRow | src/agentic_alert/pipeline.py:500-506 | the CSV row of an alert carries its id, company id, trigger id, dedupe key, status and published_at, and no title or run_type column |
| Pipeline.ParseBoolNormalized | src/agentic_alert/pipeline.py:88-98 | `_parse_bool` looks only at the stripped, lowercased value |
| Pipeline.ParseBoolBlank | src/agentic_alert/pipeline.py:89-98 | an empty or blank value yields the default |
| Pipeline.KeepListedSpec | src/agentic_alert/pipeline.py:114-118 | the comprehension keeps, in order, exactly the companies whose lowercased id is a target |
| Pipeline.FilterCompaniesByIdsSpec | src/agentic_alert/pipeline.py:101-118 | no target ids means no filtering; otherwise a subsequence holding exactly the companies whose lowercased (unstripped) id is listed |
| Pipeline.PaddedIdNeverListed | src/agentic_alert/pipeline.py:107-117 | targets are stripped but company ids are not, so an id with a leading space is never kept |
| Pipeline.SelectProvidersSpec | src/agentic_alert/pipeline.py:397-407 | `_select_providers` keeps, in order, the enabled providers, plus the disabled `gdelt_doc` ones in backtest mode |
| Pipeline.BacktestWidensProviders | src/agentic_alert/pipeline.py:401-406 | the daily selection is a subsequence of the backtest one, and backtest adds only disabled providers of type `gdelt_doc` |
| Pipeline.CompanyIsActiveIff | src/agentic_alert/pipeline.py:226-228 | `_company_is_active` holds iff the stripped, lowercased status is empty or "active" |
| Pipeline.MatchableIsActive | src/agentic_alert/pipeline.py:132 | a company admitted by the unstripped status test of `match_companies` is also active |
| Pipeline.PaddedActiveIsActive | src/agentic_alert/pipeline.py:132 | a status of spaces followed by "active" is active once stripped, yet excluded by `match_companies` |
| Pipeline.ResolveContactOwner | src/agentic_alert/pipeline.py:164-165 | the contact owner is the company's when set, else "N/A"; never empty |
| Pipeline.RowHits | src/agentic_alert/pipeline.py:358 | one company's row holds one hit per trigger, in trigger order |
| Pipeline.MakePair | src/agentic_alert/pipeline.py:359-392 | the candidate and the alert of one company and trigger carry the given ids, the match method and confidence, status "new" and the inline key |
| Pipeline.OneRow | src/agentic_alert/pipeline.py:358-392 | the inner loop appends one candidate and one alert per trigger and consumes two fresh ids per pair |
| Pipeline.FanOut | src/agentic_alert/pipeline.py:357-394 | the nested loops build candidates and alerts for every (company match, trigger) pair, company-major then trigger-minor |
| Pipeline.BuildAlertsForArticle | src/agentic_alert/pipeline.py:346-394 | `build_alerts_for_article` returns the candidates and alerts of the article's hits, with the normalised title and published date computed once |
| Pipeline.HitsLength | src/agentic_alert/pipeline.py:357-358 | there are \|matches\| x \|triggers\| hits |
| Pipeline.HitsAt | src/agentic_alert/pipeline.py:357-358 | hit i*\|triggers\|+j is company match i with trigger j |
| Pipeline.HitsIff | src/agentic_alert/pipeline.py:357-358 | a hit is produced iff its company match and its trigger are among the inputs |
| Pipeline.FanOutSize | src/agentic_alert/pipeline.py:357-394 | the article yields \|matches\| x \|triggers\| candidates and as many alerts |
| Pipeline.FanOutPair | src/agentic_alert/pipeline.py:359-392 | the k-th candidate and alert carry the k-th hit's ids, method and confidence; the alert has status "new", the given created_at, contact owner or "N/A", and the hit's key |
| Pipeline.ArticleHitKey | src/agentic_alert/pipeline.py:354-388 | each inline key equals `_build_dedupe_key(company_id, trigger_id, published_at, title)` |
| Pipeline.FreshIds | src/agentic_alert/pipeline.py:359-374 | with injective id generation, candidate and alert ids are pairwise distinct |
| Pipeline.DedupeNewAlerts | src/agentic_alert/pipeline.py:485-491 | the dedupe loop keeps the alerts of `FilterNew` and ends with the existing keys plus the kept keys |
| Pipeline.FilterNewSubsequence | src/agentic_alert/pipeline.py:486-491 | surviving alerts are a subsequence of all alerts, in input order |
| Pipeline.FilterNewFresh | src/agentic_alert/pipeline.py:486-491 | surviving alerts avoid the existing keys and have pairwise distinct keys |
| Pipeline.FilterNewCovers | src/agentic_alert/pipeline.py:486-491 | every key of every alert ends up among the seen keys, existing or kept |
| Pipeline.AllSeenNothingNew | src/agentic_alert/pipeline.py:486-491 | when every key is already present, no alert survives |
| Pipeline.OutputRows | src/agentic_alert/pipeline.py:500-505 | one output row per new alert |
| Pipeline.NoMatchNoHits | src/agentic_alert/pipeline.py:460-465 | an item with no company match or no firing trigger yields no hits |
| Pipeline.NoMatchRemovable | src/agentic_alert/pipeline.py:459-465 | removing such an item changes neither candidates nor alerts |
| Pipeline.ProcessItem | src/agentic_alert/pipeline.py:460-474 | the body of the item loop appends exactly the item's candidates and alerts |
| Pipeline.ProcessItems | src/agentic_alert/pipeline.py:459-474 | the item loop appends the candidates and alerts of all the items' hits, in item order |
| Pipeline.CollectAlerts | src/agentic_alert/pipeline.py:444-474 | the provider loop gathers candidates and alerts of every fetched item in provider order, and counts the items |
| Pipeline.AlertRows | src/agentic_alert/pipeline.py:500-505 | the rows written are the alerts' rows, tagged "backtest" in backtest mode |
| Pipeline.StoreAlerts | src/agentic_alert/pipeline.py:484-517 | the new alerts are those `FilterNew` keeps against the stored keys, skipped = len(all) - len(new), and the store is the old rows plus new rows, with sent ids set to "sent" |
| Pipeline.RunPipeline | src/agentic_alert/pipeline.py:415-517 | `_run_pipeline` with I/O stripped equals the `Run` function of config, inputs, stored rows, ids and timestamp |
| Pipeline.RunDeterministic | src/agentic_alert/pipeline.py:415-517 | the run depends on the inputs only, not on how the per-item hits are presented |
| Pipeline.RunSurvivors | src/agentic_alert/pipeline.py:484-493 | surviving alerts keep input order, avoid the stored keys, have distinct keys, skipped = len(all) - len(new) >= 0, and there are as many candidates as alerts |
| Pipeline.RunMisconfigured | src/agentic_alert/pipeline.py:417-426 | the run fails iff alerts are enabled on channel "slack" with an empty webhook URL |
| Pipeline.RunCompaniesFrom | src/agentic_alert/pipeline.py:427-431 | the companies used are drawn from the loaded ones |
| Pipeline.ItemHitsFrom | src/agentic_alert/pipeline.py:460-472 | every hit pairs a given company with a given trigger |
| Pipeline.GeneratedIds | src/agentic_alert/pipeline.py:346-392 | when ids are non-empty, every generated alert has a company id, a trigger id and a key |
| Pipeline.AlertsOfKeys | src/agentic_alert/pipeline.py:383-388 | the generated alerts' keys are exactly the hits' keys |
| Pipeline.OutputRowsKeys | src/agentic_alert/pipeline.py:500-506 | reading back written rows gives exactly the alerts' keys |
| Pipeline.RunStoreKeys | src/agentic_alert/pipeline.py:484-517 | when every company and trigger id is non-empty, after a run the stored keys are the old keys plus every generated key, and the store grew by the new alerts |
| Pipeline.RerunAddsNothing | tests/integration/test_pipeline_generates_alerts_no_dupes.py:45-55 | when every company and trigger id is non-empty, rerunning with identical inputs on the resulting store adds no alert, skips everything and leaves the store unchanged |
| Pipeline.EmptyIdReAdded | src/agentic_alert/pipeline.py:295-299 | an alert with an empty company or trigger id adds no key to the store when written, so the next dedupe keeps it again |
| AlertStore.LoadExistingAlertKeys | src/agentic_alert/pipeline.py:292-312 | the loop collects exactly the keys of `ExistingKeys` |
| AlertStore.ExistingKeysHas | src/agentic_alert/pipeline.py:310-311 | every row with a key contributes it |
| AlertStore.ExistingKeysFrom | src/agentic_alert/pipeline.py:295-311 | every collected key comes from some row |
| AlertStore.ExistingKeysAppend | src/agentic_alert/pipeline.py:295-311 | the keys of appended rows are the union of both parts' keys |
| AlertStore.RowWithoutIdsIgnored | src/agentic_alert/pipeline.py:298-299 | a row lacking company_id or trigger_id gives no key |
| AlertStore.StoredKeyVerbatim | src/agentic_alert/pipeline.py:301-302 | a stored `dedupe_key` is used verbatim |
| AlertStore.LegacyKeyRebuilt | src/agentic_alert/pipeline.py:302-309 | otherwise the key is rebuilt from company id, trigger id, published_at and `title`, or else `article_title` |
| AlertStore.AlertRowKey | src/agentic_alert/pipeline.py:292-312 | the row written for an alert, with or without run_type, reads back as the alert's key |
| AlertStore.StatusUpdated | src/agentic_alert/pipeline.py:338-340 | the row count is unchanged |
| AlertStore.UpdateAlertStatuses | src/agentic_alert/pipeline.py:326-343 | `update_alert_statuses` overwrites the rows in place with `StatusUpdated` of the old rows |
| AlertStore.StatusUpdatedOnlyStatus | src/agentic_alert/pipeline.py:338-340 | only the status of rows whose alert_id is listed changes; other fields, columns and unlisted rows are unchanged |
| AlertStore.StatusUpdatedEmpty | src/agentic_alert/pipeline.py:331-332 | an empty id set is a no-op |
| AlertStore.StatusUpdatedKeys | src/agentic_alert/pipeline.py:326-343 | a status update does not change the stored keys |
| Dispatcher.Dispatch | src/agentic_alert/alerts/dispatcher.py:41-65 | every sent id is the id of a given alert that was delivered |
| Dispatcher.DispatchSentIff | src/agentic_alert/alerts/dispatcher.py:41-65 | with slack enabled and a webhook, an id is reported as sent iff some delivered alert has it |
| Dispatcher.DispatchDisabled | src/agentic_alert/alerts/dispatcher.py:30-39 | disabled dispatch, another channel or an empty webhook URL sends nothing |
| Dispatcher.DispatchDelivered | src/agentic_alert/alerts/dispatcher.py:42-63 | with slack enabled and a webhook, every delivered alert's id is reported as sent |
| Selection.ActiveCompanies | src/agentic_alert/sources/provider_registry.py:161-170 | `_active_companies` keeps, in order, the companies with a blank or "active" status (stripped, any case) and a name |
| Selection.CompanyIsBank | src/agentic_alert/sources/provider_registry.py:173-178 | a `Company` has no `is_bank` attribute, so no company counts as a bank |
| Selection.GnCompanyCandidates | src/agentic_alert/sources/provider_registry.py:181-190 | `_gn_company_candidates` is the active companies filtered to those eligible for Google News |
| Selection.KeepGnEligible | src/agentic_alert/sources/provider_registry.py:184-189 | the loop keeps, in order, the companies whose stripped upper-cased country is "IT" and that are not banks |
| Selection.GnCandidatesSpec | src/agentic_alert/sources/provider_registry.py:161-190 | the candidates are a subsequence of the roster holding exactly the active, named, Italian companies |
| Selection.SeedBlank | src/agentic_alert/sources/provider_registry.py:226-230 | an empty or blank seed maps to 0 |
| Selection.SeedDate | src/agentic_alert/sources/provider_registry.py:231-234 | a seed whose first ten characters form an ISO date maps to that date's proleptic Gregorian ordinal |
| Selection.SeedInteger | src/agentic_alert/sources/provider_registry.py:237-238 | an integer seed maps to its own value |
| Selection.RollingWindow | src/agentic_alert/sources/provider_registry.py:250-251 | a cap at least the roster size returns the items unchanged |
| Selection.RollingWindowShape | src/agentic_alert/sources/provider_registry.py:252-255 | a short window is one slice, or the tail followed by the head |
| Selection.RollingWindowAt | src/agentic_alert/sources/provider_registry.py:245-255 | with 0 <= start < n and 0 <= cap < n the window has cap items and item i is items[(start+i) mod n] |
| Selection.RollingWindowSubset | src/agentic_alert/sources/provider_registry.py:245-255 | a window holds min(cap, n) items taken from distinct positions |
| Selection.OrdersArePreorders | src/agentic_alert/sources/provider_registry.py:262-267 | the id order and the descending revenue order are total preorders |
| Selection.RevenueRankingSpec | src/agentic_alert/sources/provider_registry.py:262-267 | the double sort is a permutation ordered by revenue descending, ties by company id ascending |
| Selection.SelectGnCompaniesSpec | src/agentic_alert/sources/provider_registry.py:296-308 | cap <= 0 or an empty roster gives none; every mode, an unknown one included, returns min(cap, n) companies from distinct roster positions |
| Selection.RevenueNumeral | src/agentic_alert/sources/provider_registry.py:215-222 | a decimal numeral reads back as its value |
| Selection.TopRevenueExample | tests/unit/test_gn_company_selection.py:23-30 | revenues 100, 200, 150 with ascending ids and cap 2 select the second, then the third |
| Selection.RankingOfThree | src/agentic_alert/sources/provider_registry.py:262-267 | the stable double sort of that example ranks the second, third, first |
| Sorting.SortBy | src/agentic_alert/sources/provider_registry.py:262 | `sorted` returns a permutation of its input |
| Sorting.SortBySorted | src/agentic_alert/sources/provider_registry.py:262-267 | under a total preorder, `sorted` returns an ordered list |
| Sorting.SortByTies | src/agentic_alert/sources/provider_registry.py:263-267 | the sort is stable: elements the key ties keep the order of the earlier sort |
| Queries.Clean | src/agentic_alert/sources/provider_registry.py:372 | a cleaned term holds no quote and has no leading or trailing white space |
| Queries.CleanIdempotent | src/agentic_alert/sources/provider_registry.py:372 | cleaning twice is cleaning once |
| Queries.DistinctTermsDedupe | src/agentic_alert/sources/provider_registry.py:369-379 | the term loop keeps the non-empty cleaned terms deduplicated by lowercase, first seen |
| Queries.DistinctTermsSubsequence | src/agentic_alert/sources/provider_registry.py:371-379 | the kept terms are a subsequence of the cleaned terms |
| Queries.DistinctTermsClean | src/agentic_alert/sources/provider_registry.py:372-379 | every kept term is non-empty, quote-free and already clean |
| Queries.DistinctTermsKeys | src/agentic_alert/sources/provider_registry.py:375-378 | kept terms are pairwise distinct ignoring case, and their lowercase keys are those of all non-empty cleaned terms |
| Queries.DistinctTermsFirstSeen | src/agentic_alert/sources/provider_registry.py:375-379 | every kept term is the first cleaned term with its lowercase key |
| Queries.DistinctTermsOrder | src/agentic_alert/sources/provider_registry.py:375-379 | the kept terms are the first non-empty cleaned term of each lowercase key, in the order in which the keys first occur |
| Queries.DistinctTermsHead | src/agentic_alert/sources/provider_registry.py:368-379 | a non-empty cleaned first term (the name) is kept first |
| Queries.DistinctTermsSnoc | src/agentic_alert/sources/provider_registry.py:372-379 | one more term is appended iff it is non-empty after cleaning and its lowercase key is new |
| Queries.QuotedTermParts | src/agentic_alert/sources/provider_registry.py:369-379 | the loop's `parts` are the kept terms, each in double quotes |
| Queries.GnCompanyQuery | src/agentic_alert/sources/provider_registry.py:363-365 | an empty stripped name gives "" |
| Queries.BuildGnCompanyQuery | src/agentic_alert/sources/provider_registry.py:362-385 | `_build_gn_company_query` equals `GnCompanyQuery` |
| Queries.GnQueryEmpty | src/agentic_alert/sources/provider_registry.py:363-383 | the query is "" iff the stripped name is empty or no term survives and there is no domain |
| Queries.GnQueryShape | src/agentic_alert/sources/provider_registry.py:384 | a non-empty query starts with "(" and always ends with ") -banca -banche -bank -banks" |
| Queries.GnQueryNameFirst | src/agentic_alert/sources/provider_registry.py:368-384 | the quoted, cleaned name is the first term |
| Queries.GnQueryHasTerms | src/agentic_alert/sources/provider_registry.py:379-384 | every kept term appears quoted in the query |
| Queries.GnQuerySite | src/agentic_alert/sources/provider_registry.py:380-384 | with a domain, `site:<domain>` is the last part before the exclusion clause |
| Queries.CollectTriggerKeywords | src/agentic_alert/sources/provider_registry.py:388-401 | `_collect_trigger_keywords` dedupes cleaned keywords by lowercase, first seen, across triggers |
| Queries.TriggerKeywordsSpec | src/agentic_alert/sources/provider_registry.py:391-400 | every keyword that is non-empty after cleaning is represented by its lowercase key |
| Queries.GdeltQuery | src/agentic_alert/sources/provider_registry.py:419-420 | the query is "" exactly when no company part survives |
| Queries.BuildGdeltQuery | src/agentic_alert/sources/provider_registry.py:404-425 | `_build_gdelt_query` equals `GdeltQuery` |
| Queries.GdeltKeywordsExtend | src/agentic_alert/sources/provider_registry.py:421-425 | the query starts with the company clause, and equals it iff there are no keywords or no company part |
| Queries.GdeltQueryHasKeyword | src/agentic_alert/sources/provider_registry.py:424-425 | every keyword appears quoted in the query |
| Queries.GnUrlQueryRoundTrip | src/agentic_alert/sources/provider_registry.py:575-578 | the URL is the base (Google News search when empty) + "?q=", the encoded query, then "&hl=it&gl=IT&ceid=IT:it"; the encoded part decodes back to the query and holds no delimiter |
| Queries.GnUrlHasSite | tests/unit/test_provider_registry_rss.py:174-178 | a company URL contains "site%3A<domain>" and "-banca" |
| UrlEncoding.Utf8Char | src/agentic_alert/sources/provider_registry.py:577 | a character encodes to 1 to 4 UTF-8 bytes, one byte exactly for ASCII |
| UrlEncoding.Utf8RoundTrip | src/agentic_alert/sources/provider_registry.py:577 | UTF-8 decoding inverts encoding |
| UrlEncoding.QuoteByte | src/agentic_alert/sources/provider_registry.py:577 | a byte is kept as one character or written as three (`%XX`) |
| UrlEncoding.QuoteRoundTrip | src/agentic_alert/sources/provider_registry.py:577 | unquoting `quote(s)` gives s back |
| UrlEncoding.QuoteInjective | src/agentic_alert/sources/provider_registry.py:577 | distinct queries encode differently |
| UrlEncoding.QuoteHasNoDelimiters | src/agentic_alert/sources/provider_registry.py:577-578 | the encoded query holds no space, "&", "=", "?", "#", "+" or ":" |
| UrlEncoding.QuoteAppend | src/agentic_alert/sources/provider_registry.py:577 | quoting distributes over concatenation |
| UrlEncoding.QuoteIdentity | src/agentic_alert/sources/provider_registry.py:577 | a string is left unchanged iff all its characters are unreserved or "/"; otherwise it grows |
| UrlEncoding.QuoteColon | tests/unit/test_provider_registry_rss.py:176-177 | ":" becomes "%3A" |
| FeedItems.GnProviderIdPrefix | src/agentic_alert/sources/provider_registry.py:721-723 | `_is_gn_provider_id` holds iff the stripped, lowercased id starts with "gn_" (the second test adds nothing) |
| FeedItems.FirstFilled | src/agentic_alert/sources/provider_registry.py:589-594 | the first non-empty listed field, or the fallback; never empty when the fallback is not |
| FeedItems.FirstFilledFallback | src/agentic_alert/sources/provider_registry.py:589-594 | when every listed field is missing or empty, the fallback is used |
| FeedItems.EntryItemDefaults | src/agentic_alert/sources/provider_registry.py:656-676 | an item has an id and a snippet; a missing title or link reads "TBD"; a present id is used; with no id, guid or link the id is `<prefix>-<index+1>` |
| FeedItems.PositionalIdsDistinct | src/agentic_alert/sources/provider_registry.py:662 | positional ids of different entries differ |
| FeedItems.EntryItems | src/agentic_alert/sources/provider_registry.py:655-677 | one item per entry |
| FeedItems.AppendEntryItems | src/agentic_alert/sources/provider_registry.py:655-677 | the shared loop builds item i from entry i, in order |
| FeedItems.EntriesToItems | src/agentic_alert/sources/provider_registry.py:651-677 | `_entries_to_items` names items after the provider |
| FeedItems.EntriesToItemsForCompany | src/agentic_alert/sources/provider_registry.py:581-608 | `_entries_to_items_for_company` names items "GN Company \| <id>" with positional ids `<provider>-<company>-<n>` |
| FeedItems.NormalizeTimestamp | src/agentic_alert/sources/provider_registry.py:567-572 | an empty value becomes the current time; a trailing "Z" is rewritten |
| FeedItems.NormalizeTimestampKeepsDate | src/agentic_alert/sources/provider_registry.py:570-572 | normalising a non-empty stamp keeps its published date |
| FeedItems.NormalizeTimestampIdempotent | src/agentic_alert/sources/provider_registry.py:567-572 | normalising twice is normalising once |
| FeedItems.SeenDateFields | src/agentic_alert/sources/provider_registry.py:431-433 | a parsed GDELT date names a real date and time of day |
| FeedItems.SeenDatePublishedDate | src/agentic_alert/sources/provider_registry.py:428-437 | the stamp written for a GDELT date has that date as its published date |
| FeedItems.IsoParses | src/agentic_alert/sources/provider_registry.py:433-434 | the UTC stamp written parses back to the same instant |
| FeedItems.SnapshotItems | src/agentic_alert/sources/provider_registry.py:526-550 | `_load_gdelt_snapshot` builds item i from entry i |
| FeedItems.SnapshotItemDefaults | src/agentic_alert/sources/provider_registry.py:528-534 | a snapshot item always has a title and URL; positional URLs of different entries differ |
| FeedItems.ArticleItems | src/agentic_alert/sources/provider_registry.py:481-484 | no more items than articles |
| FeedItems.GdeltArticleItems | src/agentic_alert/sources/provider_registry.py:480-508 | the article loop builds the items of the first 250 articles that have a URL |
| FeedItems.ArticleItemsSpec | src/agentic_alert/sources/provider_registry.py:481-508 | one item per article with a URL; each has a URL, a title and source "GDELT" |
| FeedItems.NewlinesToSpaces | src/agentic_alert/sources/provider_registry.py:727 | no newline remains, length unchanged |
| FeedItems.ShortText | src/agentic_alert/sources/provider_registry.py:726-730 | the cleaned text when short enough; otherwise its first max_len-3 characters and "...", max_len long |
| FeedItems.FormatGnPreflight | src/agentic_alert/sources/provider_registry.py:791-810 | the loop joins the preflight parts with spaces |
| FeedItems.PreflightPartsSpec | src/agentic_alert/sources/provider_registry.py:794-809 | the provider comes first, the request status last, with six fixed parts plus the address and each failed stage's error |
| OrbisImport.ToStr | scripts/import_orbis_xlsx.py:40-49 | `_to_str`: None is "", an integer its decimal text, an integral float its integer text, other text stripped |
| OrbisImport.CellTextAsWritten | scripts/import_orbis_xlsx.py:269-270 | `_to_str(cell).strip()` equals the case-by-case cell text used for ids, names and descriptions |
| OrbisImport.NormalizeHeaderAsWritten | scripts/import_orbis_xlsx.py:34-37 | `_normalize_header` is the lower-cased, stripped, whitespace-collapsed `str` of the cell, "" for None |
| OrbisImport.NormalizeHeaderIdempotent | scripts/import_orbis_xlsx.py:34-37 | a normalised header is collapsed and lower-case, and normalising it again changes nothing |
| OrbisImport.NormalizeHeaderLineBreak | scripts/import_orbis_xlsx.py:36 | a line break inside a header reads like a space, so a wrapped export header still matches |
| OrbisImport.RowHeaders | scripts/import_orbis_xlsx.py:169-170 | one normalised header per cell of the row |
| OrbisImport.HeaderMap | scripts/import_orbis_xlsx.py:168-172 | the header map only holds non-empty headers, each mapped to a column of the row |
| OrbisImport.HeaderMapColumns | scripts/import_orbis_xlsx.py:171-172 | a header maps to its LAST column among equal headers (later columns overwrite) |
| OrbisImport.HeaderMapHas | scripts/import_orbis_xlsx.py:171-172 | every non-empty header of the row is a key of the map |
| OrbisImport.BuildHeaderMap | scripts/import_orbis_xlsx.py:168-172 | the column loop builds exactly `HeaderMap` of the row's headers |
| OrbisImport.ResolveKeys | scripts/import_orbis_xlsx.py:178-182 | a field is resolved iff one of its headers is in the map; its column is that of the last such header in the table |
| OrbisImport.ResolveFrom | scripts/import_orbis_xlsx.py:178-182 | a header of the table that is present in the map resolves its field |
| OrbisImport.ResolveLast | scripts/import_orbis_xlsx.py:178-182 | a resolved field takes the column of a present header for it, and no later header for that field is present |
| OrbisImport.MatchCount | scripts/import_orbis_xlsx.py:173 | the number of table headers present is at most the table's size |
| OrbisImport.ResolvesAllIff | scripts/import_orbis_xlsx.py:183 | resolved fields are table fields, and the row qualifies iff every field of the table is resolved |
| OrbisImport.SearchFoundSpec | scripts/import_orbis_xlsx.py:164-184 | an early return gives the first qualifying row (1-based), its map and its match count; no earlier row qualifies |
| OrbisImport.SearchBestBound | scripts/import_orbis_xlsx.py:174-177 | without an early return no row qualifies and no row has more matches than the reported count |
| OrbisImport.SearchBestSpec | scripts/import_orbis_xlsx.py:160-186 | without an early return the result is row 1 with an empty map when nothing matched, else the first row with the largest count |
| OrbisImport.FoundStays | scripts/import_orbis_xlsx.py:183-184 | once a qualifying row is found, later rows do not change the result |
| OrbisImport.ScannedMaps | scripts/import_orbis_xlsx.py:158-165 | only the first 200 rows are scanned, each by its header map |
| OrbisImport.FindHeaderRow | scripts/import_orbis_xlsx.py:155-186 | `_find_header_row` computes the header search over the scanned rows (`SheetPick`) |
| OrbisImport.RequiredHeaderKeys | scripts/import_orbis_xlsx.py:11-20 | the required fields are name, company_id, country, industry_description, industry_code, revenue_mil and website |
| OrbisImport.MissingKeysSpec | scripts/import_orbis_xlsx.py:228-230 | the missing fields are exactly the required fields not resolved, sorted and without duplicates |
| OrbisImport.RequiredColumns | scripts/import_orbis_xlsx.py:222-233 | resolving the header fails iff a field is missing, with the "Missing required headers: … (sheet: …)" message |
| OrbisImport.CodeOf | scripts/import_orbis_xlsx.py:69-80 | empty text stays empty; without digits the text (less a ".0" ending) is kept; otherwise the digits, zero-padded to at least four |
| OrbisImport.CodeIdempotent | scripts/import_orbis_xlsx.py:69-80 | normalising an industry code that had digits again gives the same code |
| OrbisImport.CodeOfDigits | scripts/import_orbis_xlsx.py:76-77 | a string of at least four digits is its own code |
| OrbisImport.IndustryCodeIdempotent | scripts/import_orbis_xlsx.py:69-80 | `_normalize_industry_code` applied to its own output changes nothing |
| OrbisImport.WebsiteOf | scripts/import_orbis_xlsx.py:83-89 | empty stays empty, a "www." site gets "https://" prepended, anything else is kept |
| OrbisImport.ExtractDomain | scripts/import_orbis_xlsx.py:92-107 | the extracted domain is lower-case |
| OrbisImport.WwwSiteDomain | scripts/import_orbis_xlsx.py:83-107 | a "www.host" website becomes "https://www.host", whose domain is the lower-cased host (as the test's azienda.it row) |
| OrbisImport.HttpsSiteDomain | scripts/import_orbis_xlsx.py:95-107 | for a URL made of "https://" and a plain host (no whitespace, '/', '?', '#' or brackets), the domain is the lower-cased host without a leading "www." |
| OrbisImport.LegalSuffixesSpec | scripts/import_orbis_xlsx.py:22-31 | the legal-suffix table is trimmed, and each entry's stored lower case is its real lower case |
| OrbisImport.EndsWithSuffixIff | scripts/import_orbis_xlsx.py:113-114 | `\s+` + suffix + `$` matches iff a whitespace precedes a case-insensitive copy of the suffix at the end |
| OrbisImport.FirstSuffix | scripts/import_orbis_xlsx.py:112-116 | finds the first suffix in table order that matches; no earlier one matches (the `break`) |
| OrbisImport.BaseName | scripts/import_orbis_xlsx.py:110-117 | the suffix loop computes `BaseNameOf` |
| OrbisImport.BaseNameSpec | scripts/import_orbis_xlsx.py:110-117 | the base name is stripped; without a matching suffix it is the stripped name, otherwise a prefix of it followed only by whitespace before the suffix |
| OrbisImport.AliasCandidates | scripts/import_orbis_xlsx.py:134-140 | at most the name, the base name and one variant per legal suffix are offered |
| OrbisImport.Kept | scripts/import_orbis_xlsx.py:124-132 | `_add` keeps no more values than it was offered |
| OrbisImport.KeptSnoc | scripts/import_orbis_xlsx.py:124-132 | `_add` ignores a blank value or one whose lower case was seen, otherwise appends it stripped |
| OrbisImport.Add | scripts/import_orbis_xlsx.py:124-132 | `_add` updates the alias list and the seen set as `KeptSnoc` says and keeps them in step |
| OrbisImport.AddVariants | scripts/import_orbis_xlsx.py:138-140 | the suffix loop adds "base suffix" for each legal suffix when the base is non-empty |
| OrbisImport.BuildAliases | scripts/import_orbis_xlsx.py:120-141 | `_build_aliases` returns the kept candidates joined by ";" |
| OrbisImport.AliasesSpec | scripts/import_orbis_xlsx.py:120-141 | aliases are non-empty, pairwise distinct up to case, at most the table size plus two, and start with the stripped name |
| OrbisImport.KeptSpec | scripts/import_orbis_xlsx.py:124-132 | kept values are non-empty and pairwise distinct up to case |
| OrbisImport.KeptHead | scripts/import_orbis_xlsx.py:134 | the first non-blank value offered is kept first |
| OrbisImport.KeptCovers | scripts/import_orbis_xlsx.py:124-132 | every non-blank value offered is present, up to case, among the kept ones |
| OrbisImport.AliasesCoverSuffixes | scripts/import_orbis_xlsx.py:138-140 | every "base suffix" variant is among the aliases up to case |
| OrbisImport.KeptGrows | scripts/import_orbis_xlsx.py:124-132 | `_add` only ever appends: what was kept of earlier values stays, in order, at the head of the list |
| OrbisImport.KeptKeyAbsent | scripts/import_orbis_xlsx.py:124-132 | a lower-cased key that no non-blank offered value has never enters the seen set |
| OrbisImport.KeptVerbatim | scripts/import_orbis_xlsx.py:124-132 | a non-blank value whose lower case no earlier non-blank value shares is kept exactly as written, stripped |
| OrbisImport.AliasesKeepSuffix | scripts/import_orbis_xlsx.py:134-140 | a "base suffix" variant is among the aliases exactly as written when it is not the stripped name up to case and no earlier legal suffix is the same word up to case |
| OrbisImport.FirstSuffixVariantKept | scripts/import_orbis_xlsx.py:110-140 | a base followed by the first legal suffix has that base as its base name, and a later suffix of a length none before it has gives a variant kept as written |
| OrbisImport.BaseOfFirstSuffix | scripts/import_orbis_xlsx.py:110-117 | a stripped base, a space and the first legal suffix lose exactly that suffix and the space |
| OrbisExamples.AziendaSpaAlias | tests/unit/test_import_orbis_xlsx.py:78 | "Azienda S.p.A." has base name "Azienda" and "Azienda SpA" is among its aliases as written |
| OrbisImport.BestIndexSpec | scripts/import_orbis_xlsx.py:211-219 | the chosen index holds the largest count and is the first one that does (strictly greater replaces) |
| OrbisImport.SheetCounts | scripts/import_orbis_xlsx.py:208-214 | one header-match count per worksheet |
| OrbisImport.BestSheet | scripts/import_orbis_xlsx.py:206-220 | the chosen worksheet is one of the workbook's |
| OrbisImport.BestSheetSpec | scripts/import_orbis_xlsx.py:206-220 | the chosen worksheet has the largest match count and no earlier worksheet ties it |
| OrbisImport.ChooseBestSheet | scripts/import_orbis_xlsx.py:206-220 | the worksheet loop returns `BestSheet` and that sheet's header search |
| OrbisImport.SheetNamed | scripts/import_orbis_xlsx.py:201-202 | looking a worksheet up by title finds one with that title, or there is none |
| OrbisImport.ChosenSheet | scripts/import_orbis_xlsx.py:201-220 | a named sheet is used when given (error iff absent), otherwise the best-matching sheet |
| OrbisImport.BlankCellAsWritten | scripts/import_orbis_xlsx.py:266 | a cell is blank iff it is None or its `str` strips to "" |
| OrbisImport.ParseRevenue | scripts/import_orbis_xlsx.py:52-66 | revenue is missing iff its text is empty; None and blank text are missing; an integer is scaled by one million |
| OrbisImport.DropReasonNames | scripts/import_orbis_xlsx.py:271-281 | the drop reason names the missing id, the missing name, or both joined by "+" (as "missing_name" in tests/unit/test_import_orbis_xlsx.py:83-84) |
| OrbisImport.RowOutcome | scripts/import_orbis_xlsx.py:263-322 | a row is skipped iff blank, dropped iff it is non-blank and lacks its id or its name (with that id, name and reason), and written iff it has both, as its record; a written row counts as missing a website iff its normalised website is "" and as missing revenue iff its revenue parses as missing |
| OrbisImport.Tally | scripts/import_orbis_xlsx.py:268-302 | rows_in counts the outcomes that are not skips and equals rows_written + dropped rows; rows_written counts the written records; missing_website and missing_revenue count the written outcomes flagged so, hence never exceed rows_written |
| OrbisImport.TallyWritten | scripts/import_orbis_xlsx.py:307-322 | every written record is admitted |
| OrbisImport.TallyDropped | scripts/import_orbis_xlsx.py:277-283 | every reported row is a genuine drop with the right reason |
| OrbisImport.Outcomes | scripts/import_orbis_xlsx.py:263-322 | one outcome per body row, each written or dropped as the row loop says |
| OrbisImport.ImportOf | scripts/import_orbis_xlsx.py:263-337 | the summary's counters agree, every written record is admitted and every dropped row rejected |
| OrbisImport.ImportRowsIn | scripts/import_orbis_xlsx.py:263-268 | rows_in is the number of non-blank rows |
| OrbisImport.ImportWritten | scripts/import_orbis_xlsx.py:269-322 | the companies CSV is the records of the non-blank rows with an id and a name, in row order |
| OrbisImport.ImportDropped | scripts/import_orbis_xlsx.py:269-284 | the dropped-rows report is the other non-blank rows, in row order, each with its id, name and reason |
| OrbisImport.ImportMissing | scripts/import_orbis_xlsx.py:294-302 | missing_website and missing_revenue are the numbers of written rows without a website and without a revenue |
| OrbisImport.TwoRowImport | scripts/import_orbis_xlsx.py:263-322 | a complete row followed by a row with an id and no name: 2 in, 1 written as the first row's record, 0 missing, the second dropped for "missing_name" |
| OrbisExamples.TwoRowExample | tests/unit/test_import_orbis_xlsx.py:63-84 | the test's two rows: 2 in, 1 written with id "BVD123", and "BVD999" dropped with an empty name for "missing_name" |
| OrbisImport.ProcessRow | scripts/import_orbis_xlsx.py:264-322 | the loop body computes `RowOutcome` |
| OrbisImport.CountRow | scripts/import_orbis_xlsx.py:268-322 | one row's outcome moves the counters and lists as `Count` does: a blank row changes nothing, a drop counts as read and is reported, a written row counts as read and written and bumps the missing-website and missing-revenue counters when those fields were empty |
| OrbisImport.ImportRows | scripts/import_orbis_xlsx.py:263-322 | the row loop computes `ImportOf` of the rows below the header row |
| OrbisImport.ImportOrbisXlsx | scripts/import_orbis_xlsx.py:189-337 | `import_orbis_xlsx` computes `ImportWorkbook`: sheet choice, header search, required columns, then the row loop |
| OrbisImport.ImportWorkbookErrors | scripts/import_orbis_xlsx.py:222-233 | once the sheet is chosen, the import fails iff a required field has none of its headers in the header row |
| AgentsUpdate.DedupePreserve | scripts/codex/update_agents_from_sessions.py:46-54 | the loop with its seen set computes `Dedupe` (first occurrences, in order) |
| AgentsUpdate.DedupePreserveSpec | scripts/codex/update_agents_from_sessions.py:46-54 | the output is a subsequence of the input without duplicates, holds exactly the input's values, and deduplicating again changes nothing; each kept value is the first occurrence of that value, and the kept values come in the order of their first occurrences (so `[1, 2, 1]` gives `[1, 2]`, never `[2, 1]`) |
| Seqs.DedupeByFirstOrder | src/agentic_alert/sources/provider_registry.py:375-379 | a dedupe by key keeps, for each key, the first element that has it, and orders the kept elements by where their keys first occur |
| Seqs.DedupeFirstOrder | scripts/codex/update_agents_from_sessions.py:46-54 | a dedupe with a seen set keeps first occurrences, ordered by where each value first occurs |
| AgentsUpdate.ToolkitSeparated | scripts/codex/update_agents_from_sessions.py:11-12 | the CODEX end marker is shorter than the start marker and never occurs inside it |
| AgentsUpdate.SplitBlock | scripts/codex/update_agents_from_sessions.py:131-137 | splitting fails with the missing-markers error iff a marker is absent or the end comes first; otherwise prefix + block + suffix is the text and the block ends with the end marker |
| AgentsUpdate.SplitMarked | scripts/codex/update_agents_from_sessions.py:131-137 | `_split_marked` on AGENTS.md: the block runs from CODEX_START to CODEX_END inclusive and the three parts rebuild the text |
| AgentsUpdate.MarkersApart | scripts/codex/update_agents_from_sessions.py:132-136 | when the end marker is found at or after the start marker, it ends no earlier than the start marker does |
| AgentsUpdate.SplitBlockShape | scripts/codex/update_agents_from_sessions.py:132-137 | the prefix is the text before the first start marker and the block runs from it to the end of the first end marker |
| AgentsUpdate.UpdateContent | scripts/codex/update_agents_from_sessions.py:140-158 | the update succeeds iff the markers are present, otherwise fails with the same error; a result keeps the prefix and the suffix, so the outside-the-markers check never fires |
| AgentsUpdate.UpdateReplacesAutoSpan | scripts/codex/update_agents_from_sessions.py:143-147 | with both AUTO markers inside the block, the result is the text before the block, the block with exactly its span from the first AUTO start to the end of the first AUTO end replaced by the section, and the text after the block |
| AgentsUpdate.UpdateInsertsBeforeEnd | scripts/codex/update_agents_from_sessions.py:148-151 | without them, the section goes before CODEX_END, after the right-stripped content, between blank lines |
| AgentsUpdate.UpdateShowsSection | scripts/codex/update_agents_from_sessions.py:140-158 | the updated text contains the section (the notes of tests/unit/test_update_agents_from_sessions.py:44 and tests/unit/test_update_agents_from_sessions.py:72) |
| AgentsUpdate.UpdateAgentsContent | scripts/codex/update_agents_from_sessions.py:140-158 | `update_agents_content` succeeds iff the markers are present, contains the section, and starts and ends with the text outside the block (as tests/unit/test_update_agents_from_sessions.py:45-46 and tests/unit/test_update_agents_from_sessions.py:73-74) |
| AgentsUpdate.TodoLineTagged | scripts/codex/update_agents_from_sessions.py:122-126 | each todo bullet starts "- " followed by text tagged "todo:" in some case and ends with the todo; an already tagged todo is not prefixed again |
| AgentsUpdate.NoteLines | scripts/codex/update_agents_from_sessions.py:120-121 | one "- note" bullet per note, in order |
| AgentsUpdate.TodoLines | scripts/codex/update_agents_from_sessions.py:122-126 | one todo bullet per todo, in order |
| AgentsUpdate.RenderAutoSection | scripts/codex/update_agents_from_sessions.py:113-128 | `render_auto_section` joins the section's lines with newlines |
| AgentsUpdate.AutoLinesShape | scripts/codex/update_agents_from_sessions.py:113-128 | the lines are AUTO_START, the heading, the note bullets, the todo bullets (the default todo when both lists are empty), AUTO_END |
| AgentsUpdate.AutoLinesDefault | scripts/codex/update_agents_from_sessions.py:114-117 | with no notes and no todos the section holds the single default review todo |
| AgentsUpdate.AutoSectionFramed | scripts/codex/update_agents_from_sessions.py:119-128 | the section starts with AUTO_START and ends with AUTO_END |
| AgentsUpdate.TagPayload | scripts/codex/update_agents_from_sessions.py:74-76 | a captured payload is already stripped |
| AgentsUpdate.TagPayloadRoundTrip | scripts/codex/update_agents_from_sessions.py:74-76 | a line of indentation, the tag and a stripped payload yields exactly that payload |
| AgentsUpdate.ParseSkillPayload | scripts/codex/update_agents_from_sessions.py:57-64 | the name has no colon, both parts are stripped, and a payload with neither ":" nor " - " is all name |
| AgentsUpdate.ParseSkillAtColon | scripts/codex/update_agents_from_sessions.py:58-60 | a payload split at its first colon gives the stripped halves |
| AgentsUpdate.Decide | scripts/codex/update_agents_from_sessions.py:84-108 | the note pattern wins, then the todo pattern, then the skill pattern; empty payloads and empty skill names contribute nothing; notes and todos get " (source: file)" |
| AgentsUpdate.ScanFile | scripts/codex/update_agents_from_sessions.py:83-108 | the line loop appends the file's lines, in order and as the classifier sorts them, to the notes, todos and skills collected so far |
| AgentsUpdate.CollectSessionUpdates | scripts/codex/update_agents_from_sessions.py:67-110 | `collect_session_updates` returns the deduplicated notes and todos and all skills of every file's lines, file after file |
| AgentsUpdate.OfIff | scripts/codex/update_agents_from_sessions.py:84-108 | a text is among the notes (todos, skills) iff some line produced it as a note (todo, skill) |
| AgentsUpdate.AllUpdatesFrom | scripts/codex/update_agents_from_sessions.py:78-83 | every update comes from some line of some session file |
| AgentsUpdate.CollectedSpec | scripts/codex/update_agents_from_sessions.py:67-110 | the returned notes and todos have no duplicates and hold exactly the texts some line produced |
| AgentsUpdate.NoteSourced | scripts/codex/update_agents_from_sessions.py:84-88 | every returned note is some line's non-empty AGENTS_NOTE payload followed by " (source: file name)" |
| AgentsUpdate.Cleaned | scripts/codex/update_agents_from_sessions.py:162 | the cleaned name is as long as the name and holds only hyphens, lower-case letters and digits |
| AgentsUpdate.Slugify | scripts/codex/update_agents_from_sessions.py:161-164 | a slug is never empty, and it is "skill" iff the joined parts are empty or themselves "skill" |
| AgentsUpdate.SlugifyIsSlug | scripts/codex/update_agents_from_sessions.py:161-164 | a slug is lower-case letters and digits, with single hyphens only between them |
| AgentsUpdate.SlugifyIdempotent | scripts/codex/update_agents_from_sessions.py:161-164 | slugifying a slug changes nothing |
| AgentsUpdate.SlugOfJoined | scripts/codex/update_agents_from_sessions.py:163 | hyphen-joined non-empty slug parts are their own slug |
| AgentsUpdate.VersionedInjective | scripts/codex/update_agents_from_sessions.py:177-183 | different counters give different candidate names, so the counter loop never retries a name |
| AgentsUpdate.ChooseSkillTarget | scripts/codex/update_agents_from_sessions.py:173-183 | with force or a free "base.md" that name is used; otherwise the first free "base_vN.md" counting from 2 |
| AgentsUpdate.SkillFileLines | scripts/codex/update_agents_from_sessions.py:185-191 | the skill file's five lines: the heading, a blank, the description (or the placeholder when empty), a blank, the source |
| AgentsUpdate.SkillFileContent | scripts/codex/update_agents_from_sessions.py:192 | the written text is non-empty and ends with a newline |
| AgentsUpdate.SkillFileReadsBack | scripts/codex/update_agents_from_sessions.py:185-192 | for single-line fields, splitting the content (without its final newline) at newlines gives back the five lines |

## Left out

- Network, TLS and Slack:
  - feed fetching, the diagnostics fetch and the DNS/TCP/TLS preflight are not modelled;
  - `time.sleep` is not modelled;
  - the fetched items per provider are a parameter `fetch`;
  - whether Slack accepts a post is a parameter `delivered`.
- File I/O is not modelled:
  - the CSV store, the backtest header, workbook loading, snapshot JSON;
  - reading and writing AGENTS.md, writing the skill file, `_iter_session_files`;
  - every `main` with its argument parsing, printing and diff output.
  - CSV files are sequences of rows, a workbook is a sequence of sheets, and a session file is its name and its lines.
- Configuration and environment variables (`config.py`, the feed cap, mode and seed, `ORBIS_SHEET_NAME`) are parameters. An unset sheet name reads as "".
- Library internals are parameters:
  - `uuid4` ids come from a function `uuid`;
  - `datetime.now()` is a timestamp value;
  - SHA-256 is a digest function `digest64`;
  - `random.Random(n).shuffle` is any permutation chosen by `n`;
  - `feedparser`'s parsed time, through `calendar.timegm`, is a function `stampOf`.
- Unicode: `str.lower`, `isalnum`, `isspace` and the regular expression `\s` are modelled on ASCII only.
- Floating point is not modelled:
  - the confidences 0.95/0.85/0.75 are the integers 95/85/75;
  - `_parse_revenue_value` reads a decimal integer, and any other text counts as 0;
  - in the Orbis import, `float(text) * 1_000_000` truncated to an integer is a parameter `millions`, and `str` of a float cell is its given text.
- `datetime` range errors are not modelled: a UTC conversion that leaves years 1–9999 (Python's `OverflowError`) is not raised.
- `fromisoformat` accepts only the subset stated above, not the full grammar.
- `_extract_domain` takes the authority as everything up to the first "/", "?" or "#". It falls back to the whole URL when the brackets are unbalanced, which is where `urlparse` raises. `urllib.parse.urlparse` is otherwise not modelled.
- The batch-rotation helpers (`_build_gn_universe`, `_select_gn_batch`, and the load and save of the saved rotation position) do not exist in `provider_registry.py`. They are not part of this model.
- Logging, provenance records and console messages are not modelled.
- OrbisImport.ImportOrbisXlsx: requires a workbook with at least one sheet, which openpyxl always provides. A missing input file is not modelled.
- AgentsUpdate.CollectSessionUpdates: a session file that cannot be read is skipped in the source. Here every file is given with its lines.
- FeedItems.SeenDateFields: reads each field as exactly its fixed number of digits, with single separators. `strptime` also takes one-digit fields and runs of whitespace (such as "2024-1-5 3:04:05"), which the model rejects, so the fallback to the current time happens for more inputs here than in the source.
- Selection.SeedToInt: the integer seed is an optional sign and decimal digits. Python's `int()` also takes underscores between digits (such as "1_000"), which the model sends to the digest instead.
- OrbisImport.ParseRevenue: `millions` returns a number or None. For text such as "nan" or "inf", `float` succeeds and `int` then raises outside the `try`, which aborts the whole import. The model has no such abort.
