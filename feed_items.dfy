/**
 * What the feed loaders do with the entries a feed returns: provider-kind
 * tests, the field defaults that turn an RSS entry, a GDELT snapshot entry
 * or a GDELT document article into a `NewsItem`, timestamp normalisation,
 * and the short diagnostic texts.
 *
 * A feed entry is a map from field name to text; a missing field and a
 * `None` value are both an absent key. The time stamp `_published_at`
 * derives from an entry, the SHA-256 digest of an article key, and the
 * current time are parameters.
 */
module FeedItems {
  import opened Wrappers
  import opened Text
  import opened Seqs
  import opened Schemas
  import opened Calendar
  import opened Dedupe

  // ---------------------------------------------------------------------
  // Provider kinds
  // ---------------------------------------------------------------------

  /** `_is_rss_provider`: an RSS-style kind, or any provider read from a `file://` URL. */
  predicate IsRssProvider(p: Provider) {
    p.kind == "rss" || p.kind == "rss_file" || p.kind == "gn_company" || StartsWith(p.baseUrl, "file://")
  }

  /** `_is_gn_provider`: a `GN_` name or a Google News URL. */
  predicate IsGnProvider(p: Provider) {
    StartsWith(p.name, "GN_") || Contains(p.baseUrl, "news.google.com")
  }

  /** `_is_gn_provider_id`, with both of its prefix tests. */
  predicate IsGnProviderId(providerId: string) {
    var normalized := Lower(Strip(providerId));
    StartsWith(normalized, "gn_") || StartsWith(normalized, "gn_company_")
  }

  /**
   * The second prefix test adds nothing: every id that starts with
   * `gn_company_` already starts with `gn_`.
   */
  lemma GnProviderIdPrefix(providerId: string)
    ensures IsGnProviderId(providerId) <==> StartsWith(Lower(Strip(providerId)), "gn_")
  {
    var normalized := Lower(Strip(providerId));
    if StartsWith(normalized, "gn_company_") {
      assert "gn_company_"[..3] == "gn_";
      assert normalized[..3] == "gn_";
    }
  }

  // ---------------------------------------------------------------------
  // Field defaults
  // ---------------------------------------------------------------------

  /** `entry.get(k1) or entry.get(k2) or … or fallback`: the first non-empty field. */
  function FirstFilled(entry: Row, keys: seq<string>, fallback: string): (v: string)
    ensures v == fallback || v in entry.Values
    ensures fallback != "" ==> v != ""
    ensures keys != [] && Get(entry, keys[0]) != "" ==> v == entry[keys[0]]
    decreases |keys|
  {
    if keys == [] then fallback
    else if Get(entry, keys[0]) != "" then entry[keys[0]]
    else FirstFilled(entry, keys[1..], fallback)
  }

  /** When every listed field is missing or empty, the fallback is used. */
  lemma {:induction false} FirstFilledFallback(entry: Row, keys: seq<string>, fallback: string)
    requires forall i | 0 <= i < |keys| :: Get(entry, keys[i]) == ""
    ensures FirstFilled(entry, keys, fallback) == fallback
    decreases |keys|
  {
    if keys != [] {
      assert Get(entry, keys[0]) == "";
      FirstFilledFallback(entry, keys[1..], fallback);
    }
  }

  /** `entry.get(key, dflt)`: the default only when the field is missing, even if it is empty. */
  function GetOr(entry: Row, key: string, dflt: string): string {
    if key in entry then entry[key] else dflt
  }

  // ---------------------------------------------------------------------
  // RSS entries (`_entries_to_items`, `_entries_to_items_for_company`)
  // ---------------------------------------------------------------------

  /**
   * The item built from the entry at position `index`: `sourceName` and
   * the fallback id prefix are the provider's name and id for a plain
   * feed, and "GN Company | <id>" and "<provider>-<company>" for a
   * company-scoped Google News feed.
   */
  function EntryItem(providerId: string, sourceName: string, idPrefix: string,
                     entry: Row, index: nat, publishedAt: string): NewsItem
  {
    NewsItem(
      articleId := FirstFilled(entry, ["id", "guid", "link"], idPrefix + "-" + NatToString(index + 1)),
      providerId := providerId,
      sourceName := sourceName,
      title := GetOr(entry, "title", "TBD"),
      url := GetOr(entry, "link", "TBD"),
      publishedAt := publishedAt,
      contentSnippet := FirstFilled(entry, ["summary", "description"], "TBD"))
  }

  /**
   * The defaults of an RSS item: an article id and a snippet are never
   * empty; a missing title or link reads "TBD", but a present empty one
   * stays empty; an entry with no id, guid or link gets the positional id.
   */
  lemma EntryItemDefaults(providerId: string, sourceName: string, idPrefix: string,
                          entry: Row, index: nat, publishedAt: string)
    ensures var item := EntryItem(providerId, sourceName, idPrefix, entry, index, publishedAt);
      && item.articleId != "" && item.contentSnippet != ""
      && item.providerId == providerId && item.sourceName == sourceName
      && ("title" !in entry ==> item.title == "TBD")
      && ("title" in entry ==> item.title == entry["title"])
      && ("link" !in entry ==> item.url == "TBD")
      && (Get(entry, "id") != "" ==> item.articleId == entry["id"])
      && (Get(entry, "id") == "" && Get(entry, "guid") == "" && Get(entry, "link") == ""
          ==> item.articleId == idPrefix + "-" + NatToString(index + 1))
  {
    var keys := ["id", "guid", "link"];
    if Get(entry, "id") == "" && Get(entry, "guid") == "" && Get(entry, "link") == "" {
      FirstFilledFallback(entry, keys, idPrefix + "-" + NatToString(index + 1));
    }
  }

  /** Two entries without any id, at different positions, get different positional ids. */
  lemma PositionalIdsDistinct(idPrefix: string, i: nat, j: nat)
    requires i != j
    ensures idPrefix + "-" + NatToString(i + 1) != idPrefix + "-" + NatToString(j + 1)
  {
    var p := idPrefix + "-";
    if p + NatToString(i + 1) == p + NatToString(j + 1) {
      assert NatToString(i + 1) == (p + NatToString(i + 1))[|p|..];
      NatToStringInjective(i + 1, j + 1);
    }
  }

  /** The items of a list of entries, one per entry, in order. */
  function EntryItems(providerId: string, sourceName: string, idPrefix: string,
                      entries: seq<Row>, stampOf: Row -> string): (items: seq<NewsItem>)
    ensures |items| == |entries|
  {
    seq(|entries|, i requires 0 <= i < |entries| =>
      EntryItem(providerId, sourceName, idPrefix, entries[i], i, stampOf(entries[i])))
  }

  /** The loop both RSS converters share; `stampOf` stands for `_published_at`. */
  method AppendEntryItems(providerId: string, sourceName: string, idPrefix: string,
                          entries: seq<Row>, stampOf: Row -> string) returns (items: seq<NewsItem>)
    ensures |items| == |entries|
    ensures forall i | 0 <= i < |entries| ::
      items[i] == EntryItem(providerId, sourceName, idPrefix, entries[i], i, stampOf(entries[i]))
  {
    items := [];
    for index := 0 to |entries|
      invariant |items| == index
      invariant forall i | 0 <= i < index ::
        items[i] == EntryItem(providerId, sourceName, idPrefix, entries[i], i, stampOf(entries[i]))
    {
      var entry := entries[index];
      var publishedAt := stampOf(entry);
      var articleId := FirstFilled(entry, ["id", "guid", "link"], idPrefix + "-" + NatToString(index + 1));
      items := items + [NewsItem(
        articleId, providerId, sourceName, GetOr(entry, "title", "TBD"), GetOr(entry, "link", "TBD"),
        publishedAt, FirstFilled(entry, ["summary", "description"], "TBD"))];
    }
  }

  /** `_entries_to_items`: items named after the provider. */
  method EntriesToItems(provider: Provider, entries: seq<Row>, stampOf: Row -> string)
    returns (items: seq<NewsItem>)
    ensures items == EntryItems(provider.providerId, provider.name, provider.providerId, entries, stampOf)
  {
    items := AppendEntryItems(provider.providerId, provider.name, provider.providerId, entries, stampOf);
  }

  /** `_entries_to_items_for_company`: items named after the company whose feed they came from. */
  method EntriesToItemsForCompany(provider: Provider, companyId: string, entries: seq<Row>, stampOf: Row -> string)
    returns (items: seq<NewsItem>)
    ensures items == EntryItems(provider.providerId, "GN Company | " + companyId,
                                provider.providerId + "-" + companyId, entries, stampOf)
  {
    items := AppendEntryItems(provider.providerId, "GN Company | " + companyId,
                              provider.providerId + "-" + companyId, entries, stampOf);
  }

  // ---------------------------------------------------------------------
  // Timestamps
  // ---------------------------------------------------------------------

  /** `_normalize_timestamp`: the current time for an empty value, a trailing `Z` as `+00:00`. */
  function NormalizeTimestamp(value: string, now: string): (r: string)
    ensures value == "" ==> r == now
    ensures value != "" ==> !EndsWith(r, "Z") || !EndsWith(value, "Z")
  {
    if value == "" then now
    else
      var r := ZuluToOffset(value);
      assert EndsWith(value, "Z") ==> r[|r| - 1] == "+00:00"[5];
      r
  }

  /** Normalising a non-empty time stamp keeps its publication date, so the dedupe key does not move. */
  lemma NormalizeTimestampKeepsDate(value: string, now: string)
    requires value != ""
    ensures PublishedDate(NormalizeTimestamp(value, now)) == PublishedDate(value)
  {
    if EndsWith(value, "Z") {
      var left := value[..|value| - 1];
      assert value == left + "Z";
      PublishedDateZulu(left);
    }
  }

  /** Normalising twice is normalising once. */
  lemma NormalizeTimestampIdempotent(value: string, now: string)
    requires !EndsWith(now, "Z")
    ensures NormalizeTimestamp(NormalizeTimestamp(value, now), now) == NormalizeTimestamp(value, now)
  {
  }

  /** The digits `s[i..i+2]` as a number below 100, if they are digits. */
  function Two(s: string, i: nat): (r: Option<nat>)
    ensures r.Some? ==> r.value < 100
  {
    match NumberAt(s, i, 2)
    case None => None
    case Some(n) => (ParseDigitsBound(s[i..i + 2]); assert Pow10(2) == 100; Some(n))
  }

  /**
   * The date and time fields of a GDELT "seen" date, in either layout, when
   * they name a real second: `YYYYMMDDhhmmss` or `YYYY-MM-DD hh:mm:ss`.
   */
  function SeenDateFields(value: string): (r: Option<(Date, nat, nat, nat)>)
    ensures r.Some? ==> InPythonRange(r.value.0) && r.value.1 < 24 && r.value.2 < 60 && r.value.3 < 60
  {
    var compact := |value| == 14;
    var spaced := |value| == 19 && value[4] == '-' && value[7] == '-' && value[10] == ' '
                  && value[13] == ':' && value[16] == ':';
    if !compact && !spaced then None
    else
      var y := NumberAt(value, 0, 4);
      var mo := Two(value, if compact then 4 else 5);
      var d := Two(value, if compact then 6 else 8);
      var h := Two(value, if compact then 8 else 11);
      var mi := Two(value, if compact then 10 else 14);
      var s := Two(value, if compact then 12 else 17);
      if y.None? || mo.None? || d.None? || h.None? || mi.None? || s.None? then None
      else if !(1 <= y.value && 1 <= mo.value <= 12 && 1 <= d.value <= DaysInMonth(y.value, mo.value)) then None
      else if h.value >= 24 || mi.value >= 60 || s.value >= 60 then None
      else
        ParseDigitsBound(value[0..4]);
        assert Pow10(4) == 10000;
        Some((Date(y.value, mo.value, d.value), h.value, mi.value, s.value))
  }

  /** `datetime.isoformat()` of a UTC time with whole seconds. */
  function IsoUtc(d: Date, h: nat, mi: nat, s: nat): string
    requires InPythonRange(d) && h < 24 && mi < 60 && s < 60
  {
    FormatDate(d) + "T" + UtcTimeText(h, mi, s)
  }

  /** The time of day part of `IsoUtc`: `hh:mm:ss+00:00`. */
  function UtcTimeText(h: nat, mi: nat, s: nat): string
    requires h < 24 && mi < 60 && s < 60
  {
    Pad2(h) + ":" + Pad2(mi) + ":" + Pad2(s) + "+00:00"
  }

  /** `_parse_gdelt_seendate`: an ISO UTC time stamp, or the current time when the value does not parse. */
  function ParseGdeltSeenDate(value: string, now: string): (r: string)
  {
    if value == "" then now
    else match SeenDateFields(value)
      case None => now
      case Some((d, h, mi, s)) => IsoUtc(d, h, mi, s)
  }

  /** The time stamp written for a GDELT date has that date as its publication date. */
  lemma SeenDatePublishedDate(value: string, now: string)
    requires value != "" && SeenDateFields(value).Some?
    ensures PublishedDate(ParseGdeltSeenDate(value, now)) == FormatDate(SeenDateFields(value).value.0)
  {
    var (d, h, mi, s) := SeenDateFields(value).value;
    var iso := IsoUtc(d, h, mi, s);
    IsoParses(d, h, mi, s);
    var date := FormatDate(d);
    IsoDateTextEdges(date);
    assert Strip(iso) == iso by {
      StripNoEdgeSpace(iso);
    }
    assert !EndsWith(iso, "Z");
    assert UtcDayOf(iso) == Some(d);
  }

  /** The written time stamp parses back to the same UTC instant. */
  lemma IsoParses(d: Date, h: nat, mi: nat, s: nat)
    requires InPythonRange(d) && h < 24 && mi < 60 && s < 60
    ensures var iso := IsoUtc(d, h, mi, s);
      iso != "" && !IsSpace(iso[0]) && !IsSpace(iso[|iso| - 1]) && iso[|iso| - 1] == '0'
      && ParseIsoDateTime(iso) == Some(DateTime(d, h, mi, s, 0, Offset(0)))
  {
    var date, time := FormatDate(d), UtcTimeText(h, mi, s);
    var iso := IsoUtc(d, h, mi, s);
    assert iso[..10] == date && iso[10] == 'T' && iso[11..] == time;
    ParseFormatDate(d);
    IsoDateTextChars(date);
    UtcTimeParses(h, mi, s);
    IsoJoinParses(iso, date, time, d, h, mi, s);
    assert iso[0] == date[0];
    assert iso[|iso| - 1] == time[|time| - 1];
  }

  /** A date text, a "T" and a time text parse to that date at that time. */
  lemma IsoJoinParses(iso: string, date: string, time: string, d: Date, h: nat, mi: nat, s: nat)
    requires |date| == 10 && |iso| == 11 + |time|
    requires iso[..10] == date && iso[10] == 'T' && iso[11..] == time
    requires ParseDate(date) == Some(d)
    requires ParseTime(time) == Some((h as int, mi as int, s as int, 0, Offset(0)))
    ensures ParseIsoDateTime(iso) == Some(DateTime(d, h, mi, s, 0, Offset(0)))
  {
  }

  /** The time of day text is fourteen characters, ends in '0' and parses back to its fields at UTC. */
  lemma UtcTimeParses(h: nat, mi: nat, s: nat)
    requires h < 24 && mi < 60 && s < 60
    ensures var time := UtcTimeText(h, mi, s);
      |time| == 14 && time[13] == '0' && ParseTime(time) == Some((h as int, mi as int, s as int, 0, Offset(0)))
  {
    var time := UtcTimeText(h, mi, s);
    assert time[0..2] == Pad2(h) && time[2] == ':' && time[3..5] == Pad2(mi);
    var rest := time[5..];
    assert rest == ":" + Pad2(s) + "+00:00";
    assert rest[1..3] == Pad2(s) && rest[3..] == "+00:00";
    UtcZoneParses();
  }

  /** The zone "+00:00" reads as UTC with no fraction of a second. */
  lemma UtcZoneParses()
    ensures ParseFractionAndZone("+00:00") == Some((0, Offset(0)))
  {
    var zone := "+00:00";
    assert zone[1..3] == "00" && zone[4..6] == "00";
    assert ParseDigits("00") == 0 by {
      ParseDigitsSnoc([], '0');
      ParseDigitsSnoc(['0'], '0');
      assert "00" == ['0'] + ['0'];
    }
    assert ParseOffset(zone) == Some(0);
  }

  // ---------------------------------------------------------------------
  // GDELT snapshot entries and document articles
  // ---------------------------------------------------------------------

  /** The item `_load_gdelt_snapshot` builds from the entry at `index`; `digest` is SHA-256 in hexadecimal. */
  function SnapshotItem(provider: Provider, entry: Row, index: nat, digest: string -> string, now: string): NewsItem {
    var url := FirstFilled(entry, ["url"], "");
    var url' := if url == "" then provider.providerId + "-snapshot-" + NatToString(index + 1) else url;
    NewsItem(
      articleId := digest(provider.providerId + ":" + url'),
      providerId := provider.providerId,
      sourceName := FirstFilled(entry, ["source"], provider.name),
      title := FirstFilled(entry, ["title"], "TBD"),
      url := url',
      publishedAt := NormalizeTimestamp(FirstFilled(entry, ["published_at"], ""), now),
      contentSnippet := FirstFilled(entry, ["snippet"], ""))
  }

  /** The items of the first entries, one per entry, in order. */
  ghost function SnapshotList(provider: Provider, entries: seq<Row>, digest: string -> string, now: string): (r: seq<NewsItem>)
    ensures |r| == |entries|
    ensures forall i | 0 <= i < |entries| :: r[i] == SnapshotItem(provider, entries[i], i, digest, now)
    decreases |entries|
  {
    if entries == [] then []
    else
      var n := |entries| - 1;
      SnapshotList(provider, entries[..n], digest, now) + [SnapshotItem(provider, entries[n], n, digest, now)]
  }

  lemma SnapshotListStep(provider: Provider, entries: seq<Row>, index: nat, digest: string -> string, now: string)
    requires index < |entries|
    ensures SnapshotList(provider, entries[..index + 1], digest, now)
      == SnapshotList(provider, entries[..index], digest, now) + [SnapshotItem(provider, entries[index], index, digest, now)]
  {
    assert entries[..index + 1][..index] == entries[..index];
  }

  /** `_load_gdelt_snapshot` after the file is read: one item per entry, in order. */
  method SnapshotItems(provider: Provider, entries: seq<Row>, digest: string -> string, now: string)
    returns (items: seq<NewsItem>)
    ensures |items| == |entries|
    ensures forall i | 0 <= i < |entries| :: items[i] == SnapshotItem(provider, entries[i], i, digest, now)
  {
    items := [];
    for index := 0 to |entries|
      invariant items == SnapshotList(provider, entries[..index], digest, now)
    {
      var item := BuildSnapshotItem(provider, entries[index], index, digest, now);
      SnapshotListStep(provider, entries, index, digest, now);
      items := items + [item];
    }
    assert entries[..|entries|] == entries;
  }

  /** The loop body of `_load_gdelt_snapshot`: the item for the entry at `index`. */
  method BuildSnapshotItem(provider: Provider, entry: Row, index: nat, digest: string -> string, now: string)
    returns (item: NewsItem)
    ensures item == SnapshotItem(provider, entry, index, digest, now)
  {
    var title := FirstFilled(entry, ["title"], "TBD");
    var url := FirstFilled(entry, ["url"], "");
    var publishedAt := NormalizeTimestamp(FirstFilled(entry, ["published_at"], ""), now);
    var source := FirstFilled(entry, ["source"], provider.name);
    var snippet := FirstFilled(entry, ["snippet"], "");
    if url == "" {
      url := provider.providerId + "-snapshot-" + NatToString(index + 1);
    }
    var articleId := digest(provider.providerId + ":" + url);
    item := NewsItem(articleId, provider.providerId, source, title, url, publishedAt, snippet);
  }

  /**
   * A snapshot item always has a title and a URL: a missing URL becomes a
   * positional one, which differs between positions.
   */
  lemma SnapshotItemDefaults(provider: Provider, entry: Row, index: nat, other: Row, j: nat,
                             digest: string -> string, now: string)
    requires index != j
    ensures SnapshotItem(provider, entry, index, digest, now).title != ""
    ensures SnapshotItem(provider, entry, index, digest, now).url != ""
    ensures Get(entry, "url") == "" && Get(other, "url") == ""
        ==> SnapshotItem(provider, entry, index, digest, now).url != SnapshotItem(provider, other, j, digest, now).url
  {
    if Get(entry, "url") == "" && Get(other, "url") == "" {
      PositionalIdsDistinct(provider.providerId + "-snapshot", index, j);
      assert provider.providerId + "-snapshot-" == provider.providerId + "-snapshot" + "-";
    }
  }

  const MaxRecords := 250

  /** The item of a GDELT document article, which must have a URL. */
  function ArticleItem(provider: Provider, article: Row, digest: string -> string, now: string): NewsItem
    requires Get(article, "url") != ""
  {
    var url := article["url"];
    NewsItem(
      articleId := digest(provider.providerId + ":" + url),
      providerId := provider.providerId,
      sourceName := "GDELT",
      title := FirstFilled(article, ["title"], "TBD"),
      url := url,
      publishedAt := ParseGdeltSeenDate(FirstFilled(article, ["seendate", "date"], ""), now),
      contentSnippet := FirstFilled(article, ["sourcecountry", "domain", "language"], ""))
  }

  predicate HasUrl(article: Row) { Get(article, "url") != "" }

  /** The items of the first `MaxRecords` articles, skipping articles without a URL. */
  function ArticleItems(provider: Provider, articles: seq<Row>, digest: string -> string, now: string): (items: seq<NewsItem>)
    ensures |items| <= |articles|
    decreases |articles|
  {
    if articles == [] then []
    else
      var init := ArticleItems(provider, articles[..|articles| - 1], digest, now);
      var last := articles[|articles| - 1];
      if HasUrl(last) then init + [ArticleItem(provider, last, digest, now)] else init
  }

  /** The article loop of `_load_gdelt_doc` over one company's response. */
  method GdeltArticleItems(provider: Provider, articles: seq<Row>, digest: string -> string, now: string)
    returns (items: seq<NewsItem>)
    ensures items == ArticleItems(provider, PySlice(articles, 0, MaxRecords), digest, now)
  {
    var capped := PySlice(articles, 0, MaxRecords);
    items := [];
    for i := 0 to |capped|
      invariant items == ArticleItems(provider, capped[..i], digest, now)
    {
      assert capped[..i + 1][..i] == capped[..i];
      var article := capped[i];
      var url := FirstFilled(article, ["url"], "");
      if url == "" {
        continue;
      }
      items := items + [ArticleItem(provider, article, digest, now)];
    }
    assert capped[..|capped|] == capped;
  }

  /**
   * Every GDELT item has a URL, the GDELT source name and a title, and
   * there are at most `MaxRecords` of them per response.
   */
  lemma {:induction false} ArticleItemsSpec(provider: Provider, articles: seq<Row>, digest: string -> string, now: string)
    ensures |ArticleItems(provider, articles, digest, now)| == |Filter(articles, HasUrl)|
    ensures forall item | item in ArticleItems(provider, articles, digest, now) ::
      item.url != "" && item.title != "" && item.sourceName == "GDELT" && item.providerId == provider.providerId
    decreases |articles|
  {
    if articles != [] {
      ArticleItemsSpec(provider, articles[..|articles| - 1], digest, now);
    }
  }

  // ---------------------------------------------------------------------
  // Diagnostic texts
  // ---------------------------------------------------------------------

  /** `value.replace("\n", " ")`. */
  function NewlinesToSpaces(value: string): (r: string)
    ensures |r| == |value| && '\n' !in r
  {
    seq(|value|, i requires 0 <= i < |value| => if value[i] == '\n' then ' ' else value[i])
  }

  /**
   * `_short_text`: newlines become spaces, the text is stripped, and a text
   * longer than `maxLen` is cut to `maxLen - 3` characters (a Python slice)
   * followed by "...".
   */
  function ShortText(value: string, maxLen: int): (r: string)
    ensures '\n' !in r
    ensures maxLen >= 3 ==> |r| <= maxLen
    ensures |Strip(NewlinesToSpaces(value))| <= maxLen ==> r == Strip(NewlinesToSpaces(value))
    ensures |Strip(NewlinesToSpaces(value))| > maxLen >= 3 ==>
      |r| == maxLen && EndsWith(r, "...") && r[..maxLen - 3] == Strip(NewlinesToSpaces(value))[..maxLen - 3]
  {
    var cleaned := Strip(NewlinesToSpaces(value));
    StripChars(NewlinesToSpaces(value));
    if |cleaned| <= maxLen then cleaned
    else
      var r := PySlice(cleaned, 0, maxLen - 3) + "...";
      assert forall c | c in PySlice(cleaned, 0, maxLen - 3) :: c in cleaned;
      r
  }

  /** `preflight.get(key)` as an f-string shows it: a missing entry reads "None". */
  function Shown(preflight: map<string, string>, key: string): string {
    if key in preflight then preflight[key] else "None"
  }

  /** `key=<error>` when the stage did not report "ok" and an error text is present. */
  function ErrorPart(preflight: map<string, string>, stage: string, err: string): seq<string> {
    if Get(preflight, stage) != "ok" && Get(preflight, err) != "" then [err + "=" + preflight[err]] else []
  }

  /** The parts `_format_gn_preflight` joins with spaces. */
  function PreflightParts(providerId: string, preflight: map<string, string>, reqStatus: string): seq<string> {
    ["GN_PREFLIGHT " + providerId, "dns=" + Shown(preflight, "dns"), "ips=" + Shown(preflight, "ips")]
    + (if Get(preflight, "ip") != "" then ["ip=" + preflight["ip"]] else [])
    + ErrorPart(preflight, "dns", "dns_err")
    + ["tcp=" + Shown(preflight, "tcp")] + ErrorPart(preflight, "tcp", "tcp_err")
    + ["tls=" + Shown(preflight, "tls")] + ErrorPart(preflight, "tls", "tls_err")
    + ["req=" + reqStatus]
  }

  method FormatGnPreflight(providerId: string, preflight: map<string, string>, reqStatus: string)
    returns (line: string)
    ensures line == Join(PreflightParts(providerId, preflight, reqStatus), " ")
  {
    var parts := ["GN_PREFLIGHT " + providerId, "dns=" + Shown(preflight, "dns"), "ips=" + Shown(preflight, "ips")];
    ghost var spec := parts;
    if Get(preflight, "ip") != "" {
      parts := parts + ["ip=" + preflight["ip"]];
    }
    spec := spec + (if Get(preflight, "ip") != "" then ["ip=" + preflight["ip"]] else []);
    assert parts == spec;
    if Get(preflight, "dns") != "ok" && Get(preflight, "dns_err") != "" {
      parts := parts + ["dns_err" + "=" + preflight["dns_err"]];
    }
    spec := spec + ErrorPart(preflight, "dns", "dns_err");
    assert parts == spec;
    parts := parts + ["tcp=" + Shown(preflight, "tcp")];
    spec := spec + ["tcp=" + Shown(preflight, "tcp")];
    if Get(preflight, "tcp") != "ok" && Get(preflight, "tcp_err") != "" {
      parts := parts + ["tcp_err" + "=" + preflight["tcp_err"]];
    }
    spec := spec + ErrorPart(preflight, "tcp", "tcp_err");
    assert parts == spec;
    parts := parts + ["tls=" + Shown(preflight, "tls")];
    spec := spec + ["tls=" + Shown(preflight, "tls")];
    if Get(preflight, "tls") != "ok" && Get(preflight, "tls_err") != "" {
      parts := parts + ["tls_err" + "=" + preflight["tls_err"]];
    }
    spec := spec + ErrorPart(preflight, "tls", "tls_err");
    assert parts == spec;
    parts := parts + ["req=" + reqStatus];
    spec := spec + ["req=" + reqStatus];
    assert spec == PreflightParts(providerId, preflight, reqStatus);
    line := Join(parts, " ");
  }

  /**
   * The line always names the provider first and the request status last;
   * it has the six fixed parts plus one for an address and one for each
   * stage that failed with an error text, so an all-"ok" report without an
   * address has exactly the fixed parts.
   */
  lemma PreflightPartsSpec(providerId: string, preflight: map<string, string>, reqStatus: string)
    ensures var parts := PreflightParts(providerId, preflight, reqStatus);
      && parts[0] == "GN_PREFLIGHT " + providerId
      && parts[|parts| - 1] == "req=" + reqStatus
      && |parts| == 6 + (if Get(preflight, "ip") != "" then 1 else 0)
           + |ErrorPart(preflight, "dns", "dns_err")| + |ErrorPart(preflight, "tcp", "tcp_err")| + |ErrorPart(preflight, "tls", "tls_err")|
  {
  }
}
