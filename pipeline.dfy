/**
 * The daily run of the alert pipeline: the configuration check, the
 * backtest allow-list of company ids, provider selection, the fan-out of
 * one article into candidates and alerts, the dedupe filter against the
 * stored keys, and the whole run over the fetched items.
 *
 * Fresh ids (`uuid.uuid4()`) come from a function `uuid` applied to a
 * counter that the run advances, two ids per (company, trigger) pair;
 * the clock, the feed fetch and the dispatcher are parameters too.
 */
module Pipeline {
  import opened Wrappers
  import opened Text
  import opened Seqs
  import opened Schemas
  import opened TriggerMatcher
  import opened CompanyMatcher
  import opened Dedupe
  import opened AlertStore
  import opened Dispatcher

  // ---------------------------------------------------------------------
  // Small helpers
  // ---------------------------------------------------------------------

  const TrueWords: set<string> := {"1", "true", "yes", "y", "on"}
  const FalseWords: set<string> := {"0", "false", "no", "n", "off"}

  /** `_parse_bool`: an empty value keeps the default, a known word decides, anything else keeps the default. */
  function ParseBool(value: string, dflt: bool): bool {
    if value == "" then dflt
    else
      var word := Lower(Strip(value));
      if word in TrueWords then true
      else if word in FalseWords then false
      else dflt
  }

  /** Surrounding space and case play no part: the value reads as its stripped, lowercased word. */
  lemma ParseBoolNormalized(value: string, dflt: bool)
    ensures ParseBool(value, dflt) == ParseBool(Lower(Strip(value)), dflt)
  {
    var word := Lower(Strip(value));
    if value != "" && word != "" {
      LowerStrip(Strip(value));
      StripIdempotent(value);
      LowerIdempotent(Strip(value));
      assert Lower(Strip(word)) == word;
    }
  }

  /** Blank text, like empty text, keeps the default. */
  lemma ParseBoolBlank(value: string, dflt: bool)
    requires IsBlank(value)
    ensures ParseBool(value, dflt) == dflt
  {
    StripEmptyIffBlank(value);
    assert Lower(Strip(value)) == "";
  }

  /** The allow-list of `_filter_companies_by_ids`: comma-separated ids, stripped and lowercased, blanks dropped. */
  function TargetIds(csv: string): set<string> {
    set part | part in SplitOn(csv, ',') && Strip(part) != "" :: Lower(Strip(part))
  }

  /** The companies whose lowercased (but unstripped) id is on the list, in input order. */
  function KeepListed(companies: seq<Company>, targets: set<string>): seq<Company>
    decreases |companies|
  {
    if companies == [] then []
    else
      var init := KeepListed(companies[..|companies| - 1], targets);
      var c := companies[|companies| - 1];
      if Lower(c.companyId) in targets then init + [c] else init
  }

  function FilterCompaniesByIds(companies: seq<Company>, csv: string): seq<Company> {
    if csv == "" then companies
    else
      var targets := TargetIds(csv);
      if targets == {} then companies else KeepListed(companies, targets)
  }

  lemma {:induction false} KeepListedSpec(companies: seq<Company>, targets: set<string>)
    ensures IsSubsequence(KeepListed(companies, targets), companies)
    ensures forall c :: c in KeepListed(companies, targets) <==> c in companies && Lower(c.companyId) in targets
    decreases |companies|
  {
    if companies != [] {
      var init := companies[..|companies| - 1];
      var c := companies[|companies| - 1];
      KeepListedSpec(init, targets);
      assert companies == init + [c];
      SubsequenceSnoc(KeepListed(init, targets), init, c);
    }
  }

  /**
   * With no usable id on the list every company is kept; otherwise exactly
   * the listed companies are, in input order.
   */
  lemma FilterCompaniesByIdsSpec(companies: seq<Company>, csv: string)
    ensures TargetIds(csv) == {} ==> FilterCompaniesByIds(companies, csv) == companies
    ensures IsSubsequence(FilterCompaniesByIds(companies, csv), companies)
    ensures TargetIds(csv) != {} ==>
      forall c :: c in FilterCompaniesByIds(companies, csv) <==> c in companies && Lower(c.companyId) in TargetIds(csv)
  {
    KeepListedSpec(companies, TargetIds(csv));
    SubsequenceReflexive(companies);
    if csv == "" {
      assert SplitOn(csv, ',') == [""];
    }
  }

  /**
   * The company id is lowercased but not stripped, while the listed ids are
   * stripped: a company whose id starts with a space is never listed.
   */
  lemma PaddedIdNeverListed(companies: seq<Company>, csv: string, c: Company)
    requires TargetIds(csv) != {}
    requires c.companyId != [] && IsSpace(c.companyId[0])
    ensures c !in FilterCompaniesByIds(companies, csv)
  {
    KeepListedSpec(companies, TargetIds(csv));
  }

  /** `_select_providers`: enabled providers, and in a backtest also the `gdelt_doc` ones. */
  predicate Admitted(p: Provider, backtest: bool) {
    if !backtest then p.enabled else p.enabled || p.kind == "gdelt_doc"
  }

  function SelectProviders(providers: seq<Provider>, backtest: bool): seq<Provider>
    decreases |providers|
  {
    if providers == [] then []
    else
      var init := SelectProviders(providers[..|providers| - 1], backtest);
      var p := providers[|providers| - 1];
      if Admitted(p, backtest) then init + [p] else init
  }

  lemma {:induction false} SelectProvidersSpec(providers: seq<Provider>, backtest: bool)
    ensures IsSubsequence(SelectProviders(providers, backtest), providers)
    ensures forall p :: p in SelectProviders(providers, backtest) <==> p in providers && Admitted(p, backtest)
    decreases |providers|
  {
    if providers != [] {
      var init := providers[..|providers| - 1];
      var p := providers[|providers| - 1];
      SelectProvidersSpec(init, backtest);
      assert providers == init + [p];
      SubsequenceSnoc(SelectProviders(init, backtest), init, p);
    }
  }

  /**
   * A backtest keeps every provider a normal run keeps, in the same order;
   * the only providers it adds are disabled ones of type `gdelt_doc`.
   */
  lemma {:induction false} BacktestWidensProviders(providers: seq<Provider>)
    ensures IsSubsequence(SelectProviders(providers, false), SelectProviders(providers, true))
    ensures forall p :: p in SelectProviders(providers, true) && !p.enabled ==> p.kind == "gdelt_doc"
    decreases |providers|
  {
    SelectProvidersSpec(providers, true);
    if providers != [] {
      var init := providers[..|providers| - 1];
      var p := providers[|providers| - 1];
      BacktestWidensProviders(init);
      var a, b := SelectProviders(init, false), SelectProviders(init, true);
      if p.enabled {
        SubsequenceSnoc(a, b, p);
      } else if p.kind == "gdelt_doc" {
        SubsequenceSnoc(a, b, p);
      }
    }
  }

  /** `_company_is_active`: the status, stripped and lowercased, is empty or "active". */
  predicate CompanyIsActive(c: Company) {
    var s := Strip(c.status);
    s == "" || LowerIs(s, "active")
  }

  lemma CompanyIsActiveIff(c: Company)
    ensures CompanyIsActive(c) <==> Lower(Strip(c.status)) == "" || Lower(Strip(c.status)) == "active"
  {
    LowerIsIff(Strip(c.status), "active");
  }

  /** A text that lowercases to "active" has no space at either end. */
  lemma ActiveHasNoEdgeSpace(s: string)
    requires LowerIs(s, "active")
    ensures s != [] && !IsSpace(s[0]) && !IsSpace(s[|s| - 1])
  {
    LowerIsIff(s, "active");
    assert LowerChar(s[0]) == 'a' && LowerChar(s[|s| - 1]) == 'e';
  }

  /** Every company `match_companies` takes part in is active in this sense. */
  lemma MatchableIsActive(c: Company)
    requires MatchableStatus(c)
    ensures CompanyIsActive(c)
  {
    if c.status != "" {
      ActiveHasNoEdgeSpace(c.status);
      StripNoEdgeSpace(c.status);
    }
  }

  /**
   * The converse fails: "active" after leading space is active here, where
   * the status is stripped, but excluded from `match_companies`, where it is not.
   */
  lemma PaddedActiveIsActive(c: Company, pad: string, s: string)
    requires pad != [] && IsBlank(pad) && LowerIs(s, "active") && c.status == pad + s
    ensures CompanyIsActive(c) && !MatchableStatus(c)
  {
    ActiveHasNoEdgeSpace(s);
    StripNonSpaceEdges(pad, s);
    LStripOfBlank(pad);
    assert Strip(c.status) == s;
    if LowerIs(c.status, "active") {
      ActiveHasNoEdgeSpace(c.status);
    }
  }

  /** `_resolve_contact_owner`: an alert always names an owner, "N/A" when the company has none. */
  function ResolveContactOwner(c: Company): (r: string)
    ensures r != ""
    ensures c.contactOwner != "" ==> r == c.contactOwner
  {
    if c.contactOwner != "" then c.contactOwner else "N/A"
  }

  // ---------------------------------------------------------------------
  // Fan-out of one article (`build_alerts_for_article`)
  // ---------------------------------------------------------------------

  /**
   * One (article, company match, trigger) triple: the unit of one candidate
   * and one alert. `date` and `title` are the article's published date and
   * normalised title, which the fan-out computes once per article.
   */
  datatype Hit = Hit(item: NewsItem, date: string, title: string, company: CompanyMatch, trigger: Trigger)

  function RowHits(item: NewsItem, date: string, title: string, m: CompanyMatch, triggers: seq<Trigger>): (r: seq<Hit>)
    ensures |r| == |triggers|
    ensures forall j | 0 <= j < |r| :: r[j] == Hit(item, date, title, m, triggers[j])
  {
    seq(|triggers|, j requires 0 <= j < |triggers| => Hit(item, date, title, m, triggers[j]))
  }

  /** The pairs in the order of the two loops: company-major, trigger-minor. */
  function Hits(item: NewsItem, date: string, title: string, matches: seq<CompanyMatch>, triggers: seq<Trigger>): seq<Hit>
    decreases |matches|
  {
    if matches == [] then []
    else Hits(item, date, title, matches[..|matches| - 1], triggers)
         + RowHits(item, date, title, matches[|matches| - 1], triggers)
  }

  /** The pairs of one article, with the date and title its key is built from. */
  function ArticleHits(item: NewsItem, matches: seq<CompanyMatch>, triggers: seq<Trigger>): seq<Hit> {
    Hits(item, PublishedDate(item.publishedAt), NormalizeTitle(item.title), matches, triggers)
  }

  /** The key written inline by `build_alerts_for_article`. */
  function HitKey(h: Hit): string {
    h.company.company.companyId + "|" + h.trigger.triggerId + "|" + h.date + "|" + h.title
  }

  function CandidateFor(h: Hit, candidateId: string): AlertCandidate {
    AlertCandidate(candidateId, h.item.articleId, h.company.company.companyId, h.trigger.triggerId,
                   MethodName(h.company.how), Confidence(h.company.how))
  }

  function AlertFor(h: Hit, alertId: string, createdAt: string): Alert {
    var c, t := h.company.company, h.trigger;
    Alert(alertId, c.companyId, c.name, t.triggerId, t.name, ResolveContactOwner(c),
          h.item.sourceName, h.item.url, h.item.publishedAt, HitKey(h), createdAt, "new")
  }

  /** Hit `k` draws id number `base + 2k` for its candidate and `base + 2k + 1` for its alert. */
  function CandidatesOf(hits: seq<Hit>, uuid: nat -> string, base: nat): (r: seq<AlertCandidate>)
    ensures |r| == |hits|
  {
    seq(|hits|, k requires 0 <= k < |hits| => CandidateFor(hits[k], uuid(base + 2 * k)))
  }

  function AlertsOf(hits: seq<Hit>, uuid: nat -> string, base: nat, createdAt: string): (r: seq<Alert>)
    ensures |r| == |hits|
  {
    seq(|hits|, k requires 0 <= k < |hits| => AlertFor(hits[k], uuid(base + 2 * k + 1), createdAt))
  }

  lemma CandidatesOfAppend(a: seq<Hit>, b: seq<Hit>, uuid: nat -> string, base: nat)
    ensures CandidatesOf(a + b, uuid, base) == CandidatesOf(a, uuid, base) + CandidatesOf(b, uuid, base + 2 * |a|)
  {
    var l, r := CandidatesOf(a + b, uuid, base), CandidatesOf(a, uuid, base) + CandidatesOf(b, uuid, base + 2 * |a|);
    forall k | 0 <= k < |l|
      ensures l[k] == r[k]
    {
      if k >= |a| {
        assert (a + b)[k] == b[k - |a|];
        assert base + 2 * k == base + 2 * |a| + 2 * (k - |a|);
      }
    }
  }

  lemma AlertsOfAppend(a: seq<Hit>, b: seq<Hit>, uuid: nat -> string, base: nat, createdAt: string)
    ensures AlertsOf(a + b, uuid, base, createdAt)
         == AlertsOf(a, uuid, base, createdAt) + AlertsOf(b, uuid, base + 2 * |a|, createdAt)
  {
    var l, r := AlertsOf(a + b, uuid, base, createdAt), AlertsOf(a, uuid, base, createdAt) + AlertsOf(b, uuid, base + 2 * |a|, createdAt);
    forall k | 0 <= k < |l|
      ensures l[k] == r[k]
    {
      if k >= |a| {
        assert (a + b)[k] == b[k - |a|];
        assert base + 2 * k + 1 == base + 2 * |a| + 2 * (k - |a|) + 1;
      }
    }
  }

  /** Candidate `q` and alert `q` of a row are those of the row's pair `q`. */
  predicate PairBuilt(row: seq<Hit>, uuid: nat -> string, base: nat, createdAt: string,
                      candidates: seq<AlertCandidate>, alerts: seq<Alert>, q: nat)
  {
    q < |row| && q < |candidates| && q < |alerts|
    && candidates[q] == CandidateFor(row[q], uuid(base + 2 * q))
    && alerts[q] == AlertFor(row[q], uuid(base + 2 * q + 1), createdAt)
  }

  /** The pointwise description of a row of pairs, as `CandidatesOf` and `AlertsOf` state it. */
  lemma RowOf(row: seq<Hit>, uuid: nat -> string, base: nat, createdAt: string,
              candidates: seq<AlertCandidate>, alerts: seq<Alert>)
    requires |candidates| == |alerts| == |row|
    requires forall q | 0 <= q < |row| :: PairBuilt(row, uuid, base, createdAt, candidates, alerts, q)
    ensures candidates == CandidatesOf(row, uuid, base)
    ensures alerts == AlertsOf(row, uuid, base, createdAt)
  {
    forall q | 0 <= q < |row|
      ensures candidates[q] == CandidatesOf(row, uuid, base)[q]
      ensures alerts[q] == AlertsOf(row, uuid, base, createdAt)[q]
    {
      assert PairBuilt(row, uuid, base, createdAt, candidates, alerts, q);
    }
  }

  /** One candidate and its alert, built as the loop body of `build_alerts_for_article` builds them. */
  method MakePair(item: NewsItem, m: CompanyMatch, trigger: Trigger, candidateId: string, alertId: string,
                  createdAt: string, publishedDate: string, normalizedTitle: string)
    returns (candidate: AlertCandidate, alert: Alert)
    ensures candidate == CandidateFor(Hit(item, publishedDate, normalizedTitle, m, trigger), candidateId)
    ensures alert == AlertFor(Hit(item, publishedDate, normalizedTitle, m, trigger), alertId, createdAt)
  {
    candidate := AlertCandidate(candidateId, item.articleId, m.company.companyId, trigger.triggerId,
                                MethodName(m.how), Confidence(m.how));
    var contactOwner := ResolveContactOwner(m.company);
    alert := Alert(alertId, m.company.companyId, m.company.name, trigger.triggerId, trigger.name,
                   contactOwner, item.sourceName, item.url, item.publishedAt,
                   m.company.companyId + "|" + trigger.triggerId + "|" + publishedDate + "|" + normalizedTitle,
                   createdAt, "new");
  }

  /** The inner loop of the fan-out: one company match against every trigger. */
  method OneRow(item: NewsItem, m: CompanyMatch, triggers: seq<Trigger>, createdAt: string, uuid: nat -> string, base: nat,
                publishedDate: string, normalizedTitle: string)
    returns (candidates: seq<AlertCandidate>, alerts: seq<Alert>, next: nat)
    ensures candidates == CandidatesOf(RowHits(item, publishedDate, normalizedTitle, m, triggers), uuid, base)
    ensures alerts == AlertsOf(RowHits(item, publishedDate, normalizedTitle, m, triggers), uuid, base, createdAt)
    ensures next == base + 2 * |triggers|
  {
    ghost var row := RowHits(item, publishedDate, normalizedTitle, m, triggers);
    candidates, alerts := [], [];
    next := base;
    var j := 0;
    while j < |triggers|
      invariant 0 <= j <= |triggers|
      invariant next == base + 2 * j
      invariant |candidates| == |alerts| == j
      invariant forall q | 0 <= q < j :: PairBuilt(row, uuid, base, createdAt, candidates, alerts, q)
    {
      var trigger := triggers[j];
      var candidate, alert := MakePair(item, m, trigger, uuid(next), uuid(next + 1), createdAt,
                                       publishedDate, normalizedTitle);
      ghost var (c0, a0) := (candidates, alerts);
      candidates := candidates + [candidate];
      alerts := alerts + [alert];
      forall q | 0 <= q <= j
        ensures PairBuilt(row, uuid, base, createdAt, candidates, alerts, q)
      {
        if q < j {
          assert PairBuilt(row, uuid, base, createdAt, c0, a0, q);
        }
      }
      next := next + 2;
      j := j + 1;
    }
    RowOf(row, uuid, base, createdAt, candidates, alerts);
  }

  /** The outer loop of the fan-out: every company match against every trigger. */
  method FanOut(item: NewsItem, date: string, title: string, matches: seq<CompanyMatch>, triggers: seq<Trigger>,
                createdAt: string, uuid: nat -> string, base: nat)
    returns (candidates: seq<AlertCandidate>, alerts: seq<Alert>, next: nat)
    ensures candidates == CandidatesOf(Hits(item, date, title, matches, triggers), uuid, base)
    ensures alerts == AlertsOf(Hits(item, date, title, matches, triggers), uuid, base, createdAt)
    ensures next == base + 2 * |Hits(item, date, title, matches, triggers)|
  {
    candidates, alerts := [], [];
    next := base;
    var i := 0;
    while i < |matches|
      invariant 0 <= i <= |matches|
      invariant next == base + 2 * |Hits(item, date, title, matches[..i], triggers)|
      invariant candidates == CandidatesOf(Hits(item, date, title, matches[..i], triggers), uuid, base)
      invariant alerts == AlertsOf(Hits(item, date, title, matches[..i], triggers), uuid, base, createdAt)
    {
      ghost var done := Hits(item, date, title, matches[..i], triggers);
      ghost var row := RowHits(item, date, title, matches[i], triggers);
      var rowCandidates, rowAlerts, rowNext := OneRow(item, matches[i], triggers, createdAt, uuid, next, date, title);
      assert matches[..i + 1][..i] == matches[..i];
      assert Hits(item, date, title, matches[..i + 1], triggers) == done + row;
      CandidatesOfAppend(done, row, uuid, base);
      AlertsOfAppend(done, row, uuid, base, createdAt);
      candidates := candidates + rowCandidates;
      alerts := alerts + rowAlerts;
      next := rowNext;
      i := i + 1;
    }
    assert matches[..i] == matches;
  }

  /**
   * `build_alerts_for_article`, drawing ids from `uuid` starting at `base`:
   * the title and date of the key are computed once, then every match meets
   * every firing trigger.
   */
  method BuildAlertsForArticle(item: NewsItem, matches: seq<CompanyMatch>, triggers: seq<Trigger>, createdAt: string,
                               uuid: nat -> string, base: nat)
    returns (candidates: seq<AlertCandidate>, alerts: seq<Alert>, next: nat)
    ensures candidates == CandidatesOf(ArticleHits(item, matches, triggers), uuid, base)
    ensures alerts == AlertsOf(ArticleHits(item, matches, triggers), uuid, base, createdAt)
    ensures next == base + 2 * |ArticleHits(item, matches, triggers)|
  {
    var normalizedTitle := NormalizeTitle(item.title);
    var publishedDate := PublishedDate(item.publishedAt);
    candidates, alerts, next := FanOut(item, publishedDate, normalizedTitle, matches, triggers, createdAt, uuid, base);
  }

  lemma {:induction false} HitsLength(item: NewsItem, date: string, title: string, matches: seq<CompanyMatch>, triggers: seq<Trigger>)
    ensures |Hits(item, date, title, matches, triggers)| == |matches| * |triggers|
    decreases |matches|
  {
    if matches != [] {
      HitsLength(item, date, title, matches[..|matches| - 1], triggers);
      assert (|matches| - 1) * |triggers| + |triggers| == |matches| * |triggers|;
    }
  }

  /**
   * Company-major, trigger-minor: the pair for match `i` and trigger `j`
   * sits at `i * |triggers| + j`.
   */
  lemma {:induction false} HitsAt(item: NewsItem, date: string, title: string, matches: seq<CompanyMatch>, triggers: seq<Trigger>,
                                  i: nat, j: nat)
    requires i < |matches| && j < |triggers|
    ensures i * |triggers| + j < |Hits(item, date, title, matches, triggers)|
    ensures Hits(item, date, title, matches, triggers)[i * |triggers| + j] == Hit(item, date, title, matches[i], triggers[j])
    decreases |matches|
  {
    var init := matches[..|matches| - 1];
    HitsLength(item, date, title, init, triggers);
    HitsLength(item, date, title, matches, triggers);
    if i < |matches| - 1 {
      HitsAt(item, date, title, init, triggers, i, j);
    } else {
      assert i * |triggers| == |init| * |triggers|;
    }
  }

  /** A pair is produced iff its match and its trigger are both given. */
  lemma {:induction false} HitsIff(item: NewsItem, date: string, title: string, matches: seq<CompanyMatch>, triggers: seq<Trigger>,
                                   h: Hit)
    ensures h in Hits(item, date, title, matches, triggers)
        <==> h.item == item && h.date == date && h.title == title && h.company in matches && h.trigger in triggers
    decreases |matches|
  {
    if matches != [] {
      var init := matches[..|matches| - 1];
      HitsIff(item, date, title, init, triggers, h);
      assert matches == init + [matches[|matches| - 1]];
    }
  }

  /** No matches or no triggers: no pairs. */
  lemma {:induction false} HitsEmpty(item: NewsItem, date: string, title: string, matches: seq<CompanyMatch>,
                                     triggers: seq<Trigger>)
    requires matches == [] || triggers == []
    ensures Hits(item, date, title, matches, triggers) == []
    decreases |matches|
  {
    if matches != [] {
      HitsEmpty(item, date, title, matches[..|matches| - 1], triggers);
    }
  }

  /** The fan-out yields `|matches| * |triggers|` candidates and as many alerts. */
  lemma FanOutSize(item: NewsItem, date: string, title: string, matches: seq<CompanyMatch>, triggers: seq<Trigger>,
                   uuid: nat -> string, base: nat, createdAt: string)
    ensures |CandidatesOf(Hits(item, date, title, matches, triggers), uuid, base)| == |matches| * |triggers|
    ensures |AlertsOf(Hits(item, date, title, matches, triggers), uuid, base, createdAt)| == |matches| * |triggers|
  {
    HitsLength(item, date, title, matches, triggers);
  }

  /** The inline key of every pair of an article is the key `_build_dedupe_key` builds. */
  lemma ArticleHitKey(item: NewsItem, matches: seq<CompanyMatch>, triggers: seq<Trigger>, h: Hit)
    requires h in ArticleHits(item, matches, triggers)
    ensures HitKey(h) == BuildDedupeKey(h.company.company.companyId, h.trigger.triggerId, item.publishedAt, item.title)
  {
    HitsIff(item, PublishedDate(item.publishedAt), NormalizeTitle(item.title), matches, triggers, h);
  }

  /**
   * Candidate `k` and alert `k` come from the same pair: the candidate
   * records the match's method and confidence; the alert is "new", names an
   * owner ("N/A" when the company has none) and carries the pair's key.
   */
  lemma FanOutPair(hits: seq<Hit>, uuid: nat -> string, base: nat, createdAt: string, k: nat)
    requires k < |hits|
    ensures var c, a, h := CandidatesOf(hits, uuid, base)[k], AlertsOf(hits, uuid, base, createdAt)[k], hits[k];
      var company := h.company.company;
      c == AlertCandidate(uuid(base + 2 * k), h.item.articleId, company.companyId, h.trigger.triggerId,
                          MethodName(h.company.how), Confidence(h.company.how))
      && a.alertId == uuid(base + 2 * k + 1) && a.status == "new" && a.createdAt == createdAt
      && a.companyId == company.companyId && a.triggerId == h.trigger.triggerId
      && a.contactOwner == (if company.contactOwner == "" then "N/A" else company.contactOwner)
      && a.dedupeKey == HitKey(h)
  {
  }

  /** With an injective id source every candidate and every alert gets its own id. */
  lemma FreshIds(hits: seq<Hit>, uuid: nat -> string, base: nat, createdAt: string, k: nat, l: nat)
    requires forall a: nat, b: nat :: a != b ==> uuid(a) != uuid(b)
    requires k < |hits| && l < |hits|
    ensures CandidatesOf(hits, uuid, base)[k].candidateId != AlertsOf(hits, uuid, base, createdAt)[l].alertId
    ensures k != l ==> CandidatesOf(hits, uuid, base)[k].candidateId != CandidatesOf(hits, uuid, base)[l].candidateId
    ensures k != l ==> AlertsOf(hits, uuid, base, createdAt)[k].alertId != AlertsOf(hits, uuid, base, createdAt)[l].alertId
  {
    assert base + 2 * k != base + 2 * l + 1;
  }

  // ---------------------------------------------------------------------
  // The dedupe filter of the run
  // ---------------------------------------------------------------------

  function KeysOf(alerts: seq<Alert>): set<string> {
    set k | 0 <= k < |alerts| :: alerts[k].dedupeKey
  }

  /** The keys of non-empty alerts are those of all but the last and the last one's key. */
  lemma KeysOfLast(alerts: seq<Alert>)
    requires alerts != []
    ensures KeysOf(alerts) == KeysOf(alerts[..|alerts| - 1]) + {alerts[|alerts| - 1].dedupeKey}
  {
    var init, last := alerts[..|alerts| - 1], alerts[|alerts| - 1];
    assert alerts == init + [last];
    KeysOfSnoc(init, last);
  }

  lemma KeysOfSnoc(alerts: seq<Alert>, a: Alert)
    ensures KeysOf(alerts + [a]) == KeysOf(alerts) + {a.dedupeKey}
  {
    var all := alerts + [a];
    forall x | x in KeysOf(all)
      ensures x in KeysOf(alerts) + {a.dedupeKey}
    {
      var k :| 0 <= k < |all| && all[k].dedupeKey == x;
      if k < |alerts| {
        assert all[k] == alerts[k];
      }
    }
    forall x | x in KeysOf(alerts)
      ensures x in KeysOf(all)
    {
      var k :| 0 <= k < |alerts| && alerts[k].dedupeKey == x;
      assert all[k] == alerts[k];
    }
    assert all[|alerts|] == a;
  }

  /** The alerts the run keeps: an alert survives when no stored or earlier surviving alert has its key. */
  function FilterNew(alerts: seq<Alert>, seen: set<string>): seq<Alert>
    decreases |alerts|
  {
    if alerts == [] then []
    else
      var init := FilterNew(alerts[..|alerts| - 1], seen);
      var a := alerts[|alerts| - 1];
      if a.dedupeKey in seen + KeysOf(init) then init else init + [a]
  }

  /** The dedupe loop of `_run_pipeline`, adding each kept key to the set it checks against. */
  method DedupeNewAlerts(all: seq<Alert>, existing: set<string>) returns (newAlerts: seq<Alert>, seen: set<string>)
    ensures newAlerts == FilterNew(all, existing)
    ensures seen == existing + KeysOf(newAlerts)
  {
    newAlerts := [];
    seen := existing;
    var i := 0;
    while i < |all|
      invariant 0 <= i <= |all|
      invariant newAlerts == FilterNew(all[..i], existing)
      invariant seen == existing + KeysOf(newAlerts)
    {
      var alert := all[i];
      assert all[..i + 1][..i] == all[..i];
      var key := alert.dedupeKey;
      if key in seen {
        i := i + 1;
        continue;
      }
      KeysOfSnoc(newAlerts, alert);
      seen := seen + {key};
      newAlerts := newAlerts + [alert];
      i := i + 1;
    }
    assert all[..i] == all;
  }

  /** The survivors keep input order. */
  lemma {:induction false} FilterNewSubsequence(all: seq<Alert>, seen: set<string>)
    ensures IsSubsequence(FilterNew(all, seen), all)
    ensures forall a | a in FilterNew(all, seen) :: a in all
    ensures |FilterNew(all, seen)| <= |all|
    decreases |all|
  {
    if all != [] {
      var init := all[..|all| - 1];
      FilterNewSubsequence(init, seen);
      assert all == init + [all[|all| - 1]];
      SubsequenceSnoc(FilterNew(init, seen), init, all[|all| - 1]);
    }
    SubsequenceLength(FilterNew(all, seen), all);
  }

  /** The survivors avoid the keys already seen and have pairwise distinct keys. */
  lemma {:induction false} FilterNewFresh(all: seq<Alert>, seen: set<string>)
    ensures forall k | 0 <= k < |FilterNew(all, seen)| :: FilterNew(all, seen)[k].dedupeKey !in seen
    ensures forall k, l | 0 <= k < l < |FilterNew(all, seen)| ::
              FilterNew(all, seen)[k].dedupeKey != FilterNew(all, seen)[l].dedupeKey
    decreases |all|
  {
    if all != [] {
      var init := all[..|all| - 1];
      var a := all[|all| - 1];
      var r := FilterNew(init, seen);
      FilterNewFresh(init, seen);
      if a.dedupeKey !in seen + KeysOf(r) {
        var r2 := r + [a];
        forall k | 0 <= k < |r|
          ensures r2[k].dedupeKey != a.dedupeKey
        {
          assert r2[k] == r[k];
        }
      }
    }
  }

  /** Together with the keys already seen, the survivors' keys are all the input's keys. */
  lemma {:induction false} FilterNewCovers(all: seq<Alert>, seen: set<string>)
    ensures seen + KeysOf(FilterNew(all, seen)) == seen + KeysOf(all)
    decreases |all|
  {
    if all != [] {
      var init := all[..|all| - 1];
      var a := all[|all| - 1];
      var r := FilterNew(init, seen);
      FilterNewCovers(init, seen);
      assert all == init + [a];
      KeysOfSnoc(init, a);
      if a.dedupeKey !in seen + KeysOf(r) {
        KeysOfSnoc(r, a);
      }
    }
  }

  /** When every key is already known nothing survives. */
  lemma AllSeenNothingNew(all: seq<Alert>, seen: set<string>)
    requires KeysOf(all) <= seen
    ensures FilterNew(all, seen) == []
  {
    FilterNewFresh(all, seen);
    FilterNewCovers(all, seen);
  }

  // ---------------------------------------------------------------------
  // The run
  // ---------------------------------------------------------------------

  /** The settings `_run_pipeline` reads. */
  datatype Config = Config(alertsEnabled: bool, alertChannel: string, slackWebhookUrl: string,
                           backtestEnabled: bool, backtestCompanyIds: string)

  /** Slack dispatch switched on without a webhook: the run stops before doing anything. */
  predicate MisconfiguredSlack(config: Config) {
    config.alertsEnabled && config.alertChannel == "slack" && config.slackWebhookUrl == ""
  }

  const SlackWebhookMissing := "ERROR: ALERTS_ENABLED=true and ALERT_CHANNEL=slack, but SLACK_WEBHOOK_URL is empty."

  /** A backtest narrows the roster to the configured ids. */
  function RunCompanies(config: Config, companies: seq<Company>): seq<Company> {
    if config.backtestEnabled then FilterCompaniesByIds(companies, config.backtestCompanyIds) else companies
  }

  /** The items fetched from each selected provider, provider by provider. */
  function FetchedItems(providers: seq<Provider>, fetch: Provider -> seq<NewsItem>): seq<NewsItem>
    decreases |providers|
  {
    if providers == [] then []
    else FetchedItems(providers[..|providers| - 1], fetch) + fetch(providers[|providers| - 1])
  }

  /** The pairs one item yields: its company matches against the triggers its text fires. */
  function ItemHits(item: NewsItem, companies: seq<Company>, triggers: seq<Trigger>): seq<Hit> {
    ArticleHits(item, Matches(item, companies), FiringTriggers(ArticleText(item), triggers))
  }

  /** `ItemHits` for a fixed roster and trigger list. */
  function HitsOf(companies: seq<Company>, triggers: seq<Trigger>): NewsItem -> seq<Hit> {
    item => ItemHits(item, companies, triggers)
  }

  /** The pairs of a sequence of items, item by item. */
  function Gather(items: seq<NewsItem>, hitsOf: NewsItem -> seq<Hit>): seq<Hit>
    decreases |items|
  {
    if items == [] then [] else Gather(items[..|items| - 1], hitsOf) + hitsOf(items[|items| - 1])
  }

  lemma {:induction false} GatherAppend(a: seq<NewsItem>, b: seq<NewsItem>, hitsOf: NewsItem -> seq<Hit>)
    ensures Gather(a + b, hitsOf) == Gather(a, hitsOf) + Gather(b, hitsOf)
    decreases |b|
  {
    if b == [] {
      assert a + b == a;
    } else {
      var init := b[..|b| - 1];
      GatherAppend(a, init, hitsOf);
      assert (a + b)[..|a + b| - 1] == a + init;
    }
  }

  /** A written alert row; a backtest tags it with `run_type`. */
  function OutputRow(a: Alert, backtest: bool): Row {
    if backtest then AlertRow(a)["run_type" := "backtest"] else AlertRow(a)
  }

  function OutputRows(alerts: seq<Alert>, backtest: bool): (r: seq<Row>)
    ensures |r| == |alerts|
  {
    seq(|alerts|, k requires 0 <= k < |alerts| => OutputRow(alerts[k], backtest))
  }

  /**
   * What one run produces: the candidate rows appended to the candidates
   * file, all alerts generated, the alerts that survive the dedupe, the
   * skipped count, the number of fetched items and the alert file
   * afterwards.
   */
  datatype RunOutput = RunOutput(candidates: seq<AlertCandidate>, generated: seq<Alert>, newAlerts: seq<Alert>,
                                 skipped: int, totalItems: nat, store: seq<Row>)

  /**
   * `_run_pipeline` on the rows already in the output alert file. Fresh
   * ids come from `uuid` (numbers 0, 1, 2, … in call order), `createdAt` is
   * the run's timestamp, `fetch` gives each provider's items and `delivered`
   * whether a Slack post went through. `hitsOf` is the per-item fan-out:
   * the run is meant for one with `IsHitsOf(hitsOf, ...)`, which makes it
   * `ItemHits` on every item (`HitsOfIs`, `RunDeterministic`).
   */
  function Run(config: Config, companies: seq<Company>, triggers: seq<Trigger>, allProviders: seq<Provider>,
               fetch: Provider -> seq<NewsItem>, stored: seq<Row>, createdAt: string, uuid: nat -> string,
               delivered: Alert -> bool, hitsOf: NewsItem -> seq<Hit>): Result<RunOutput, string>
  {
    if MisconfiguredSlack(config) then Err(SlackWebhookMissing)
    else
      var items := FetchedItems(SelectProviders(allProviders, config.backtestEnabled), fetch);
      var hits := Gather(items, hitsOf);
      var all := AlertsOf(hits, uuid, 0, createdAt);
      var survivors := FilterNew(all, ExistingKeys(stored));
      var written := stored + OutputRows(survivors, config.backtestEnabled);
      var sent := Dispatch(survivors, config.alertChannel, config.alertsEnabled, config.slackWebhookUrl, delivered);
      Ok(RunOutput(CandidatesOf(hits, uuid, 0), all, survivors, |all| - |survivors|, |items|,
                   StatusUpdated(written, sent, "sent")))
  }

  lemma GatherSnoc(items: seq<NewsItem>, i: nat, hitsOf: NewsItem -> seq<Hit>)
    requires i < |items|
    ensures Gather(items[..i + 1], hitsOf) == Gather(items[..i], hitsOf) + hitsOf(items[i])
  {
    assert items[..i + 1][..i] == items[..i];
  }

  /** One more item: its candidates and alerts follow the earlier ones, with ids drawn after theirs. */
  lemma GatherStep(items: seq<NewsItem>, i: nat, hitsOf: NewsItem -> seq<Hit>, uuid: nat -> string, base: nat,
                   createdAt: string)
    requires i < |items|
    ensures var done, more := Gather(items[..i], hitsOf), hitsOf(items[i]);
      && CandidatesOf(Gather(items[..i + 1], hitsOf), uuid, base)
         == CandidatesOf(done, uuid, base) + CandidatesOf(more, uuid, base + 2 * |done|)
      && AlertsOf(Gather(items[..i + 1], hitsOf), uuid, base, createdAt)
         == AlertsOf(done, uuid, base, createdAt) + AlertsOf(more, uuid, base + 2 * |done|, createdAt)
      && |Gather(items[..i + 1], hitsOf)| == |done| + |more|
  {
    GatherSnoc(items, i, hitsOf);
    CandidatesOfAppend(Gather(items[..i], hitsOf), hitsOf(items[i]), uuid, base);
    AlertsOfAppend(Gather(items[..i], hitsOf), hitsOf(items[i]), uuid, base, createdAt);
  }

  lemma FetchedItemsSnoc(providers: seq<Provider>, i: nat, fetch: Provider -> seq<NewsItem>)
    requires i < |providers|
    ensures FetchedItems(providers[..i + 1], fetch) == FetchedItems(providers[..i], fetch) + fetch(providers[i])
  {
    assert providers[..i + 1][..i] == providers[..i];
  }

  /** One more provider: its items' candidates and alerts follow the earlier ones. */
  lemma FetchStep(providers: seq<Provider>, i: nat, fetch: Provider -> seq<NewsItem>, hitsOf: NewsItem -> seq<Hit>,
                  uuid: nat -> string, createdAt: string)
    requires i < |providers|
    ensures var done, more := Gather(FetchedItems(providers[..i], fetch), hitsOf), Gather(fetch(providers[i]), hitsOf);
      && CandidatesOf(Gather(FetchedItems(providers[..i + 1], fetch), hitsOf), uuid, 0)
         == CandidatesOf(done, uuid, 0) + CandidatesOf(more, uuid, 2 * |done|)
      && AlertsOf(Gather(FetchedItems(providers[..i + 1], fetch), hitsOf), uuid, 0, createdAt)
         == AlertsOf(done, uuid, 0, createdAt) + AlertsOf(more, uuid, 2 * |done|, createdAt)
      && |Gather(FetchedItems(providers[..i + 1], fetch), hitsOf)| == |done| + |more|
      && |FetchedItems(providers[..i + 1], fetch)| == |FetchedItems(providers[..i], fetch)| + |fetch(providers[i])|
  {
    var fetched := FetchedItems(providers[..i], fetch);
    FetchedItemsSnoc(providers, i, fetch);
    GatherAppend(fetched, fetch(providers[i]), hitsOf);
    CandidatesOfAppend(Gather(fetched, hitsOf), Gather(fetch(providers[i]), hitsOf), uuid, 0);
    AlertsOfAppend(Gather(fetched, hitsOf), Gather(fetch(providers[i]), hitsOf), uuid, 0, createdAt);
  }

  /** `hitsOf` gives every item the pairs `ItemHits` gives it. */
  ghost predicate IsHitsOf(hitsOf: NewsItem -> seq<Hit>, companies: seq<Company>, triggers: seq<Trigger>) {
    forall item {:trigger ItemHits(item, companies, triggers)} :: hitsOf(item) == ItemHits(item, companies, triggers)
  }

  lemma HitsOfIs(companies: seq<Company>, triggers: seq<Trigger>)
    ensures IsHitsOf(HitsOf(companies, triggers), companies, triggers)
  {
  }

  /** An item without a company match, or whose text fires no trigger, yields nothing. */
  lemma NoMatchNoHits(item: NewsItem, companies: seq<Company>, triggers: seq<Trigger>)
    requires Matches(item, companies) == [] || FiringTriggers(ArticleText(item), triggers) == []
    ensures ItemHits(item, companies, triggers) == []
  {
    HitsEmpty(item, PublishedDate(item.publishedAt), NormalizeTitle(item.title),
              Matches(item, companies), FiringTriggers(ArticleText(item), triggers));
  }

  lemma GatherSkip(before: seq<NewsItem>, item: NewsItem, after: seq<NewsItem>, hitsOf: NewsItem -> seq<Hit>)
    requires hitsOf(item) == []
    ensures Gather(before + [item] + after, hitsOf) == Gather(before + after, hitsOf)
  {
    GatherAppend(before + [item], after, hitsOf);
    GatherAppend(before, [item], hitsOf);
    GatherAppend(before, after, hitsOf);
    assert Gather([item], hitsOf) == Gather([], hitsOf) + hitsOf(item);
  }

  /** Such an item can be dropped from the fetched items without changing the run's pairs. */
  lemma NoMatchRemovable(before: seq<NewsItem>, item: NewsItem, after: seq<NewsItem>,
                         companies: seq<Company>, triggers: seq<Trigger>, hitsOf: NewsItem -> seq<Hit>)
    requires IsHitsOf(hitsOf, companies, triggers)
    requires Matches(item, companies) == [] || FiringTriggers(ArticleText(item), triggers) == []
    ensures Gather(before + [item] + after, hitsOf) == Gather(before + after, hitsOf)
  {
    NoMatchNoHits(item, companies, triggers);
    GatherSkip(before, item, after, hitsOf);
  }

  /** Two fan-outs that both agree with `ItemHits` give the same pairs. */
  lemma {:induction false} GatherAgree(items: seq<NewsItem>, companies: seq<Company>, triggers: seq<Trigger>,
                                       f: NewsItem -> seq<Hit>, g: NewsItem -> seq<Hit>)
    requires IsHitsOf(f, companies, triggers) && IsHitsOf(g, companies, triggers)
    ensures Gather(items, f) == Gather(items, g)
    decreases |items|
  {
    if items != [] {
      var last := items[|items| - 1];
      GatherAgree(items[..|items| - 1], companies, triggers, f, g);
      assert f(last) == ItemHits(last, companies, triggers) == g(last);
    }
  }

  /** The run does not depend on which agreeing fan-out it is given. */
  lemma RunDeterministic(config: Config, companies: seq<Company>, triggers: seq<Trigger>, allProviders: seq<Provider>,
                         fetch: Provider -> seq<NewsItem>, stored: seq<Row>, createdAt: string, uuid: nat -> string,
                         delivered: Alert -> bool, f: NewsItem -> seq<Hit>, g: NewsItem -> seq<Hit>)
    requires IsHitsOf(f, RunCompanies(config, companies), triggers)
    requires IsHitsOf(g, RunCompanies(config, companies), triggers)
    ensures Run(config, companies, triggers, allProviders, fetch, stored, createdAt, uuid, delivered, f)
         == Run(config, companies, triggers, allProviders, fetch, stored, createdAt, uuid, delivered, g)
  {
    var items := FetchedItems(SelectProviders(allProviders, config.backtestEnabled), fetch);
    GatherAgree(items, RunCompanies(config, companies), triggers, f, g);
  }

  /** The body of the item loop of `_run_pipeline`. */
  method ProcessItem(item: NewsItem, companies: seq<Company>, triggers: seq<Trigger>, createdAt: string,
                     uuid: nat -> string, base: nat, ghost hitsOf: NewsItem -> seq<Hit>)
    returns (candidates: seq<AlertCandidate>, alerts: seq<Alert>, next: nat)
    requires IsHitsOf(hitsOf, companies, triggers)
    ensures candidates == CandidatesOf(hitsOf(item), uuid, base)
    ensures alerts == AlertsOf(hitsOf(item), uuid, base, createdAt)
    ensures next == base + 2 * |hitsOf(item)|
  {
    assert hitsOf(item) == ItemHits(item, companies, triggers);
    var matches := MatchCompanies(item, companies);
    if matches == [] {
      NoMatchNoHits(item, companies, triggers);
      return [], [], base;
    }
    var matched := MatchTriggers(ArticleText(item), triggers);
    if matched == [] {
      NoMatchNoHits(item, companies, triggers);
      return [], [], base;
    }
    candidates, alerts, next := BuildAlertsForArticle(item, matches, matched, createdAt, uuid, base);
  }

  /** The item loop over one provider's items. */
  method ProcessItems(items: seq<NewsItem>, companies: seq<Company>, triggers: seq<Trigger>, createdAt: string,
                      uuid: nat -> string, base: nat, ghost hitsOf: NewsItem -> seq<Hit>)
    returns (candidates: seq<AlertCandidate>, alerts: seq<Alert>, next: nat)
    requires IsHitsOf(hitsOf, companies, triggers)
    ensures candidates == CandidatesOf(Gather(items, hitsOf), uuid, base)
    ensures alerts == AlertsOf(Gather(items, hitsOf), uuid, base, createdAt)
    ensures next == base + 2 * |Gather(items, hitsOf)|
  {
    candidates, alerts := [], [];
    next := base;
    var i := 0;
    while i < |items|
      invariant 0 <= i <= |items|
      invariant next == base + 2 * |Gather(items[..i], hitsOf)|
      invariant candidates == CandidatesOf(Gather(items[..i], hitsOf), uuid, base)
      invariant alerts == AlertsOf(Gather(items[..i], hitsOf), uuid, base, createdAt)
    {
      var itemCandidates, itemAlerts, itemNext := ProcessItem(items[i], companies, triggers, createdAt, uuid, next, hitsOf);
      GatherStep(items, i, hitsOf, uuid, base, createdAt);
      candidates := candidates + itemCandidates;
      alerts := alerts + itemAlerts;
      next := itemNext;
      i := i + 1;
    }
    assert items[..i] == items;
  }

  /** The provider loop of `_run_pipeline`: fetch, count, then process each provider's items. */
  method CollectAlerts(providers: seq<Provider>, fetch: Provider -> seq<NewsItem>, companies: seq<Company>,
                       triggers: seq<Trigger>, createdAt: string, uuid: nat -> string, ghost hitsOf: NewsItem -> seq<Hit>)
    returns (candidates: seq<AlertCandidate>, alerts: seq<Alert>, totalItems: nat)
    requires IsHitsOf(hitsOf, companies, triggers)
    ensures candidates == CandidatesOf(Gather(FetchedItems(providers, fetch), hitsOf), uuid, 0)
    ensures alerts == AlertsOf(Gather(FetchedItems(providers, fetch), hitsOf), uuid, 0, createdAt)
    ensures totalItems == |FetchedItems(providers, fetch)|
  {
    candidates, alerts := [], [];
    totalItems := 0;
    var next := 0;
    var i := 0;
    while i < |providers|
      invariant 0 <= i <= |providers|
      invariant totalItems == |FetchedItems(providers[..i], fetch)|
      invariant next == 2 * |Gather(FetchedItems(providers[..i], fetch), hitsOf)|
      invariant candidates == CandidatesOf(Gather(FetchedItems(providers[..i], fetch), hitsOf), uuid, 0)
      invariant alerts == AlertsOf(Gather(FetchedItems(providers[..i], fetch), hitsOf), uuid, 0, createdAt)
    {
      var newsItems := fetch(providers[i]);
      totalItems := totalItems + |newsItems|;
      var itemCandidates, itemAlerts, itemNext := ProcessItems(newsItems, companies, triggers, createdAt, uuid, next, hitsOf);
      FetchStep(providers, i, fetch, hitsOf, uuid, createdAt);
      candidates := candidates + itemCandidates;
      alerts := alerts + itemAlerts;
      next := itemNext;
      i := i + 1;
    }
    assert providers[..i] == providers;
  }

  /** The rows written for the new alerts: `asdict` of each, tagged in a backtest. */
  method AlertRows(alerts: seq<Alert>, backtest: bool) returns (rows: seq<Row>)
    ensures rows == OutputRows(alerts, backtest)
  {
    rows := seq(|alerts|, k requires 0 <= k < |alerts| => AlertRow(alerts[k]));
    if backtest {
      var i := 0;
      while i < |rows|
        invariant 0 <= i <= |rows| == |alerts|
        invariant forall k | 0 <= k < |rows| :: rows[k] == if k < i then OutputRow(alerts[k], true) else AlertRow(alerts[k])
      {
        rows := rows[i := rows[i]["run_type" := "backtest"]];
        i := i + 1;
      }
    }
  }

  /**
   * The second half of `_run_pipeline`: drop the alerts whose key is
   * stored or already kept, append the rest, dispatch them and mark the
   * delivered ones as sent.
   */
  method StoreAlerts(config: Config, allAlerts: seq<Alert>, stored: seq<Row>, delivered: Alert -> bool)
    returns (newAlerts: seq<Alert>, skipped: int, store: seq<Row>)
    ensures newAlerts == FilterNew(allAlerts, ExistingKeys(stored))
    ensures skipped == |allAlerts| - |newAlerts|
    ensures store == StatusUpdated(stored + OutputRows(newAlerts, config.backtestEnabled),
                                   Dispatch(newAlerts, config.alertChannel, config.alertsEnabled,
                                            config.slackWebhookUrl, delivered), "sent")
  {
    var existingKeys := LoadExistingAlertKeys(stored);
    newAlerts, existingKeys := DedupeNewAlerts(allAlerts, existingKeys);
    skipped := |allAlerts| - |newAlerts|;
    store := stored;
    if newAlerts != [] {
      var rows := AlertRows(newAlerts, config.backtestEnabled);
      store := store + rows;
    } else {
      assert stored + OutputRows(newAlerts, config.backtestEnabled) == stored;
    }
    var sentIds := Dispatch(newAlerts, config.alertChannel, config.alertsEnabled, config.slackWebhookUrl, delivered);
    if sentIds != {} {
      var file := new Row[|store|](k requires 0 <= k < |store| => store[k]);
      UpdateAlertStatuses(file, sentIds, "sent");
      store := file[..];
    } else {
      StatusUpdatedEmpty(store, "sent");
    }
  }

  /** `_run_pipeline` with its files as values; `hitsOf` is the fan-out `Run` is read with. */
  method RunPipeline(config: Config, companies: seq<Company>, triggers: seq<Trigger>, allProviders: seq<Provider>,
                     fetch: Provider -> seq<NewsItem>, stored: seq<Row>, createdAt: string, uuid: nat -> string,
                     delivered: Alert -> bool, ghost hitsOf: NewsItem -> seq<Hit>)
    returns (r: Result<RunOutput, string>)
    requires IsHitsOf(hitsOf, RunCompanies(config, companies), triggers)
    ensures r == Run(config, companies, triggers, allProviders, fetch, stored, createdAt, uuid, delivered, hitsOf)
  {
    var isBacktest := config.backtestEnabled;
    if config.alertsEnabled && config.alertChannel == "slack" && config.slackWebhookUrl == "" {
      return Err(SlackWebhookMissing);
    }
    var runCompanies := companies;
    if isBacktest {
      runCompanies := FilterCompaniesByIds(companies, config.backtestCompanyIds);
    }
    var providers := SelectProviders(allProviders, isBacktest);
    var allCandidates, allAlerts, totalItems := CollectAlerts(providers, fetch, runCompanies, triggers, createdAt, uuid, hitsOf);
    var newAlerts, skipped, store := StoreAlerts(config, allAlerts, stored, delivered);
    return Ok(RunOutput(allCandidates, allAlerts, newAlerts, skipped, totalItems, store));
  }

  // ---------------------------------------------------------------------
  // What a run promises
  // ---------------------------------------------------------------------

  /**
   * The surviving alerts keep the order they were generated in, avoid every
   * stored key and have pairwise distinct keys; the skipped count is the
   * number of alerts dropped, and each alert has its candidate.
   */
  lemma RunSurvivors(config: Config, companies: seq<Company>, triggers: seq<Trigger>, allProviders: seq<Provider>,
                     fetch: Provider -> seq<NewsItem>, stored: seq<Row>, createdAt: string, uuid: nat -> string,
                     delivered: Alert -> bool, hitsOf: NewsItem -> seq<Hit>)
    requires Run(config, companies, triggers, allProviders, fetch, stored, createdAt, uuid, delivered, hitsOf).Ok?
    ensures var o := Run(config, companies, triggers, allProviders, fetch, stored, createdAt, uuid, delivered, hitsOf).value;
      && IsSubsequence(o.newAlerts, o.generated)
      && (forall k | 0 <= k < |o.newAlerts| :: o.newAlerts[k].dedupeKey !in ExistingKeys(stored))
      && (forall k, l | 0 <= k < l < |o.newAlerts| :: o.newAlerts[k].dedupeKey != o.newAlerts[l].dedupeKey)
      && 0 <= o.skipped == |o.generated| - |o.newAlerts|
      && |o.candidates| == |o.generated|
  {
    var o := Run(config, companies, triggers, allProviders, fetch, stored, createdAt, uuid, delivered, hitsOf).value;
    FilterNewSubsequence(o.generated, ExistingKeys(stored));
    FilterNewFresh(o.generated, ExistingKeys(stored));
  }

  /** A misconfigured Slack dispatch stops the run with its message. */
  lemma RunMisconfigured(config: Config, companies: seq<Company>, triggers: seq<Trigger>, allProviders: seq<Provider>,
                         fetch: Provider -> seq<NewsItem>, stored: seq<Row>, createdAt: string, uuid: nat -> string,
                         delivered: Alert -> bool, hitsOf: NewsItem -> seq<Hit>)
    ensures Run(config, companies, triggers, allProviders, fetch, stored, createdAt, uuid, delivered, hitsOf).Err?
        <==> MisconfiguredSlack(config)
  {
  }

  /** Every company and every trigger has an id. */
  predicate IdsPresent(companies: seq<Company>, triggers: seq<Trigger>) {
    && (forall c | c in companies :: c.companyId != "")
    && (forall t | t in triggers :: t.triggerId != "")
  }

  /** A backtest only narrows the roster. */
  lemma RunCompaniesFrom(config: Config, companies: seq<Company>)
    ensures forall c | c in RunCompanies(config, companies) :: c in companies
  {
    if config.backtestEnabled {
      FilterCompaniesByIdsSpec(companies, config.backtestCompanyIds);
      SubsequenceLength(FilterCompaniesByIds(companies, config.backtestCompanyIds), companies);
    }
  }

  /** An item's pairs join one of the companies with one of the triggers. */
  lemma ItemHitsFrom(item: NewsItem, companies: seq<Company>, triggers: seq<Trigger>, h: Hit)
    requires h in ItemHits(item, companies, triggers)
    ensures h.company.company in companies && h.trigger in triggers
  {
    var ms, fired := Matches(item, companies), FiringTriggers(ArticleText(item), triggers);
    HitsIff(item, PublishedDate(item.publishedAt), NormalizeTitle(item.title), ms, fired, h);
    MatchesFromCompanies(item, companies);
    FiringTriggersIff(ArticleText(item), triggers, h.trigger);
    var k :| 0 <= k < |ms| && ms[k] == h.company;
  }

  lemma {:induction false} GatherFrom(items: seq<NewsItem>, companies: seq<Company>, triggers: seq<Trigger>,
                                      hitsOf: NewsItem -> seq<Hit>, k: nat)
    requires IsHitsOf(hitsOf, companies, triggers)
    requires k < |Gather(items, hitsOf)|
    ensures Gather(items, hitsOf)[k].company.company in companies && Gather(items, hitsOf)[k].trigger in triggers
    decreases |items|
  {
    var init, last := items[..|items| - 1], items[|items| - 1];
    var done := Gather(init, hitsOf);
    if k < |done| {
      GatherFrom(init, companies, triggers, hitsOf, k);
    } else {
      HitsOfFrom(last, companies, triggers, hitsOf, k - |done|);
    }
  }

  lemma HitsOfFrom(item: NewsItem, companies: seq<Company>, triggers: seq<Trigger>,
                   hitsOf: NewsItem -> seq<Hit>, j: nat)
    requires IsHitsOf(hitsOf, companies, triggers) && j < |hitsOf(item)|
    ensures hitsOf(item)[j].company.company in companies && hitsOf(item)[j].trigger in triggers
  {
    assert hitsOf(item) == ItemHits(item, companies, triggers);
    ItemHitsFrom(item, companies, triggers, hitsOf(item)[j]);
  }

  /** With ids present, every generated alert has a company id, a trigger id and a key. */
  lemma GeneratedIds(items: seq<NewsItem>, companies: seq<Company>, triggers: seq<Trigger>,
                     hitsOf: NewsItem -> seq<Hit>, uuid: nat -> string, createdAt: string)
    requires IsHitsOf(hitsOf, companies, triggers) && IdsPresent(companies, triggers)
    ensures forall a | a in AlertsOf(Gather(items, hitsOf), uuid, 0, createdAt) ::
              a.companyId != "" && a.triggerId != "" && a.dedupeKey != ""
  {
    var hits := Gather(items, hitsOf);
    var all := AlertsOf(hits, uuid, 0, createdAt);
    forall a | a in all
      ensures a.companyId != "" && a.triggerId != "" && a.dedupeKey != ""
    {
      var k :| 0 <= k < |all| && all[k] == a;
      GatherFrom(items, companies, triggers, hitsOf, k);
      FanOutPair(hits, uuid, 0, createdAt, k);
    }
  }

  /** The keys of a fan-out are the pairs' keys, whatever ids and timestamp it is given. */
  function HitKeys(hits: seq<Hit>): set<string> {
    set k | 0 <= k < |hits| :: HitKey(hits[k])
  }

  lemma AlertsOfKeys(hits: seq<Hit>, uuid: nat -> string, base: nat, createdAt: string)
    ensures KeysOf(AlertsOf(hits, uuid, base, createdAt)) == HitKeys(hits)
  {
    var all := AlertsOf(hits, uuid, base, createdAt);
    forall x | x in KeysOf(all)
      ensures x in HitKeys(hits)
    {
      var k :| 0 <= k < |all| && all[k].dedupeKey == x;
      FanOutPair(hits, uuid, base, createdAt, k);
    }
    forall x | x in HitKeys(hits)
      ensures x in KeysOf(all)
    {
      var k :| 0 <= k < |hits| && HitKey(hits[k]) == x;
      FanOutPair(hits, uuid, base, createdAt, k);
    }
  }

  /** Written rows read back as the keys of their alerts. */
  lemma {:induction false} OutputRowsKeys(alerts: seq<Alert>, backtest: bool)
    requires forall a | a in alerts :: a.companyId != "" && a.triggerId != "" && a.dedupeKey != ""
    ensures ExistingKeys(OutputRows(alerts, backtest)) == KeysOf(alerts)
    decreases |alerts|
  {
    if alerts != [] {
      var init, last := alerts[..|alerts| - 1], alerts[|alerts| - 1];
      var rows := OutputRows(alerts, backtest);
      OutputRowsKeys(init, backtest);
      OutputRowsLast(alerts, backtest);
      ExistingKeysLast(rows, last.dedupeKey);
      KeysOfLast(alerts);
    }
  }

  /** The rows of all but the last alert come first, and the last row reads back as the last alert's key. */
  lemma OutputRowsLast(alerts: seq<Alert>, backtest: bool)
    requires alerts != []
    requires forall a | a in alerts :: a.companyId != "" && a.triggerId != "" && a.dedupeKey != ""
    ensures var rows, n := OutputRows(alerts, backtest), |alerts| - 1;
      rows[..n] == OutputRows(alerts[..n], backtest) && RowKey(rows[n]) == Some(alerts[n].dedupeKey)
  {
    var n := |alerts| - 1;
    assert alerts[n] in alerts;
    AlertRowKey(alerts[n]);
    assert OutputRows(alerts, backtest)[..n] == OutputRows(alerts[..n], backtest);
  }

  /** After a run the stored keys are the old ones plus the keys of every generated alert. */
  lemma RunStoreKeys(config: Config, companies: seq<Company>, triggers: seq<Trigger>, allProviders: seq<Provider>,
                     fetch: Provider -> seq<NewsItem>, stored: seq<Row>, createdAt: string, uuid: nat -> string,
                     delivered: Alert -> bool, hitsOf: NewsItem -> seq<Hit>)
    requires IsHitsOf(hitsOf, RunCompanies(config, companies), triggers) && IdsPresent(companies, triggers)
    requires !MisconfiguredSlack(config)
    ensures var o := Run(config, companies, triggers, allProviders, fetch, stored, createdAt, uuid, delivered, hitsOf).value;
      && ExistingKeys(o.store) == ExistingKeys(stored) + KeysOf(o.generated)
      && |o.store| == |stored| + |o.newAlerts|
  {
    var o := Run(config, companies, triggers, allProviders, fetch, stored, createdAt, uuid, delivered, hitsOf).value;
    var cs := RunCompanies(config, companies);
    var items := FetchedItems(SelectProviders(allProviders, config.backtestEnabled), fetch);
    var seen := ExistingKeys(stored);
    var written := stored + OutputRows(o.newAlerts, config.backtestEnabled);
    RunCompaniesFrom(config, companies);
    GeneratedIds(items, cs, triggers, hitsOf, uuid, createdAt);
    FilterNewSubsequence(o.generated, seen);
    OutputRowsKeys(o.newAlerts, config.backtestEnabled);
    ExistingKeysAppend(stored, OutputRows(o.newAlerts, config.backtestEnabled));
    StatusUpdatedKeys(written, Dispatch(o.newAlerts, config.alertChannel, config.alertsEnabled,
                                        config.slackWebhookUrl, delivered), "sent");
    FilterNewCovers(o.generated, seen);
  }

  /**
   * Running again on the same inputs and the file the first run left adds
   * no alert and leaves the file as it was, whatever ids and timestamp the
   * second run draws.
   */
  lemma RerunAddsNothing(config: Config, companies: seq<Company>, triggers: seq<Trigger>, allProviders: seq<Provider>,
                         fetch: Provider -> seq<NewsItem>, stored: seq<Row>, createdAt: string, uuid: nat -> string,
                         delivered: Alert -> bool, hitsOf: NewsItem -> seq<Hit>,
                         createdAgain: string, uuidAgain: nat -> string, deliveredAgain: Alert -> bool)
    requires IsHitsOf(hitsOf, RunCompanies(config, companies), triggers) && IdsPresent(companies, triggers)
    requires !MisconfiguredSlack(config)
    ensures var first := Run(config, companies, triggers, allProviders, fetch, stored, createdAt, uuid, delivered, hitsOf).value;
      var second := Run(config, companies, triggers, allProviders, fetch, first.store, createdAgain, uuidAgain,
                        deliveredAgain, hitsOf);
      && second.Ok? && second.value.newAlerts == [] && second.value.store == first.store
      && second.value.skipped == |second.value.generated|
  {
    var first := Run(config, companies, triggers, allProviders, fetch, stored, createdAt, uuid, delivered, hitsOf).value;
    var second := Run(config, companies, triggers, allProviders, fetch, first.store, createdAgain, uuidAgain,
                      deliveredAgain, hitsOf).value;
    var items := FetchedItems(SelectProviders(allProviders, config.backtestEnabled), fetch);
    var hits := Gather(items, hitsOf);
    RunStoreKeys(config, companies, triggers, allProviders, fetch, stored, createdAt, uuid, delivered, hitsOf);
    AlertsOfKeys(hits, uuid, 0, createdAt);
    AlertsOfKeys(hits, uuidAgain, 0, createdAgain);
    AllSeenNothingNew(second.generated, ExistingKeys(first.store));
    assert first.store + OutputRows([], config.backtestEnabled) == first.store;
    StatusUpdatedEmpty(first.store, "sent");
  }

  /**
   * Without an id the rerun guarantee fails: an alert whose company or
   * trigger id is empty is written, but its row is skipped when the keys
   * are loaded back, so the next run keeps the same alert again.
   */
  lemma EmptyIdReAdded(a: Alert, stored: seq<Row>, backtest: bool)
    requires a.companyId == "" || a.triggerId == ""
    requires a.dedupeKey !in ExistingKeys(stored)
    ensures ExistingKeys(stored + OutputRows([a], backtest)) == ExistingKeys(stored)
    ensures FilterNew([a], ExistingKeys(stored + OutputRows([a], backtest))) == [a]
  {
    var row := OutputRow(a, backtest);
    assert Get(row, "company_id") == a.companyId && Get(row, "trigger_id") == a.triggerId;
    RowWithoutIdsIgnored(row);
    assert OutputRows([a], backtest) == [row];
    assert ExistingKeys([row]) == {} by {
      assert [row][..0] == [];
    }
    ExistingKeysAppend(stored, [row]);
    assert [a][..0] == [];
  }
}
