/**
 * The records exchanged by the alert pipeline, and CSV rows as maps from
 * column name to cell text.
 */
module Schemas {

  datatype Company = Company(
    companyId: string,
    name: string,
    aliases: seq<string>,
    revenueEur: string,
    industryCode: string,
    industryDescription: string,
    website: string,
    websiteDomain: string,
    country: string,
    contactOwner: string,
    status: string)

  datatype Trigger = Trigger(
    triggerId: string,
    name: string,
    keywords: seq<string>,
    priority: string,
    description: string)

  /** `kind` is the provider's `type` column. */
  datatype Provider = Provider(
    providerId: string,
    name: string,
    kind: string,
    baseUrl: string,
    enabled: bool)

  datatype NewsItem = NewsItem(
    articleId: string,
    providerId: string,
    sourceName: string,
    title: string,
    url: string,
    publishedAt: string,
    contentSnippet: string)

  /**
   * How a company was recognised in an article. The source records the
   * confidences 0.95, 0.85 and 0.75; they are kept here in hundredths.
   */
  datatype MatchMethod = Domain | Alias | Name

  function Confidence(m: MatchMethod): (c: nat)
    ensures 0 < c <= 100
  {
    match m
    case Domain => 95
    case Alias => 85
    case Name => 75
  }

  /** The `match_method` text stored with a candidate. */
  function MethodName(m: MatchMethod): string {
    match m
    case Domain => "domain"
    case Alias => "alias"
    case Name => "name"
  }

  /** `confidence` is in hundredths. */
  datatype AlertCandidate = AlertCandidate(
    candidateId: string,
    articleId: string,
    companyId: string,
    triggerId: string,
    matchMethod: string,
    confidence: nat)

  datatype Alert = Alert(
    alertId: string,
    companyId: string,
    companyName: string,
    triggerId: string,
    triggerName: string,
    contactOwner: string,
    source: string,
    articleUrl: string,
    publishedAt: string,
    dedupeKey: string,
    createdAt: string,
    status: string)

  /** One CSV row as `csv.DictReader` yields it. */
  type Row = map<string, string>

  /** `row.get(key, "")`. */
  function Get(row: Row, key: string): (v: string)
    ensures key in row ==> v == row[key]
    ensures key !in row ==> v == ""
  {
    if key in row then row[key] else ""
  }

  /** The row `asdict(alert)` produces, one column per field of `Alert`. */
  function AlertRow(a: Alert): (r: Row)
    ensures Get(r, "alert_id") == a.alertId && Get(r, "company_id") == a.companyId
    ensures Get(r, "trigger_id") == a.triggerId && Get(r, "dedupe_key") == a.dedupeKey
    ensures Get(r, "status") == a.status && Get(r, "published_at") == a.publishedAt
    ensures "title" !in r && "article_title" !in r && "run_type" !in r
  {
    map[
      "alert_id" := a.alertId,
      "company_id" := a.companyId,
      "company_name" := a.companyName,
      "trigger_id" := a.triggerId,
      "trigger_name" := a.triggerName,
      "contact_owner" := a.contactOwner,
      "source" := a.source,
      "article_url" := a.articleUrl,
      "published_at" := a.publishedAt,
      "dedupe_key" := a.dedupeKey,
      "created_at" := a.createdAt,
      "status" := a.status]
  }
}
