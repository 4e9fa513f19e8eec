/**
 * Recognising companies in a news item (`match_companies`, `_update_match`).
 *
 * The loop offers a sequence of match events to a table keyed by company id:
 * per company its web domain (against the URL and the snippet), each alias
 * and its name (against the article text). The table keeps, per id, the
 * first entry of the highest confidence offered, at the position where the
 * id was first seen, as a Python dict does.
 */
module CompanyMatcher {
  import opened Wrappers
  import opened Text
  import opened Seqs
  import opened Schemas

  /** `CompanyMatch`: the confidence is `Confidence(how)`. */
  datatype CompanyMatch = CompanyMatch(company: Company, how: MatchMethod)

  function Id(m: CompanyMatch): string {
    m.company.companyId
  }

  function Ids(ms: seq<CompanyMatch>): (r: seq<string>)
    ensures |r| == |ms| && forall i | 0 <= i < |ms| :: r[i] == Id(ms[i])
  {
    seq(|ms|, i requires 0 <= i < |ms| => Id(ms[i]))
  }

  /** `_article_text`: title and snippet joined by one space, stripped. */
  function ArticleText(item: NewsItem): string {
    Strip(item.title + " " + item.contentSnippet)
  }

  /** A company takes part when its status is empty or, lowercased but not stripped, "active". */
  predicate MatchableStatus(c: Company) {
    c.status == "" || LowerIs(c.status, "active")
  }

  // ---------------------------------------------------------------------
  // The events the loop offers to the table
  // ---------------------------------------------------------------------

  function DomainEvents(c: Company, url: string, snippet: string): seq<CompanyMatch> {
    if c.websiteDomain != "" && (Contains(url, Lower(c.websiteDomain)) || Contains(snippet, Lower(c.websiteDomain)))
    then [CompanyMatch(c, Domain)]
    else []
  }

  function AliasEvents(c: Company, aliases: seq<string>, text: string): seq<CompanyMatch>
    decreases |aliases|
  {
    if aliases == [] then []
    else
      var init := AliasEvents(c, aliases[..|aliases| - 1], text);
      if Contains(text, Lower(aliases[|aliases| - 1])) then init + [CompanyMatch(c, Alias)] else init
  }

  function NameEvents(c: Company, text: string): seq<CompanyMatch> {
    if c.name != "" && Contains(text, Lower(c.name)) then [CompanyMatch(c, Name)] else []
  }

  /** The events for one company, in the order the loop body tries them. */
  function CompanyEvents(item: NewsItem, c: Company): seq<CompanyMatch> {
    if !MatchableStatus(c) then []
    else
      var text := Lower(ArticleText(item));
      DomainEvents(c, Lower(item.url), Lower(item.contentSnippet))
        + AliasEvents(c, c.aliases, text)
        + NameEvents(c, text)
  }

  function Events(item: NewsItem, companies: seq<Company>): seq<CompanyMatch>
    decreases |companies|
  {
    if companies == [] then []
    else Events(item, companies[..|companies| - 1]) + CompanyEvents(item, companies[|companies| - 1])
  }

  // ---------------------------------------------------------------------
  // The table
  // ---------------------------------------------------------------------

  /** The position of an id in the table (`matches.get`). */
  function Lookup(ms: seq<CompanyMatch>, id: string): (r: Option<nat>)
    ensures r.Some? ==> r.value < |ms| && Id(ms[r.value]) == id
    ensures r.None? <==> id !in Ids(ms)
    decreases |ms|
  {
    if ms == [] then None
    else if Id(ms[0]) == id then Some(0)
    else
      var rest := Lookup(ms[1..], id);
      assert Ids(ms)[1..] == Ids(ms[1..]);
      if rest.Some? then Some(rest.value + 1) else None
  }

  /**
   * `_update_match`: an entry is replaced only by a strictly higher
   * confidence; a new id is appended.
   */
  function UpdateMatch(ms: seq<CompanyMatch>, e: CompanyMatch): seq<CompanyMatch> {
    match Lookup(ms, Id(e))
    case Some(k) => if Confidence(ms[k].how) >= Confidence(e.how) then ms else ms[k := e]
    case None => ms + [e]
  }

  /** A known id keeps its place; a new one is appended. */
  lemma UpdateMatchIds(ms: seq<CompanyMatch>, e: CompanyMatch)
    ensures Ids(UpdateMatch(ms, e)) == if Id(e) in Ids(ms) then Ids(ms) else Ids(ms) + [Id(e)]
  {
    var r := UpdateMatch(ms, e);
    if Lookup(ms, Id(e)).None? {
      assert Ids(r) == Ids(ms) + [Id(e)];
    } else {
      assert Ids(r) == Ids(ms);
    }
  }

  /**
   * Entries are only ever replaced by the offered one, confidences never
   * decrease, and afterwards the table holds the offered id with at least
   * the offered confidence.
   */
  lemma UpdateMatchEntries(ms: seq<CompanyMatch>, e: CompanyMatch)
    ensures |ms| <= |UpdateMatch(ms, e)|
    ensures forall k | 0 <= k < |ms| :: Confidence(UpdateMatch(ms, e)[k].how) >= Confidence(ms[k].how)
    ensures forall k | 0 <= k < |UpdateMatch(ms, e)| :: UpdateMatch(ms, e)[k] == e || (k < |ms| && UpdateMatch(ms, e)[k] == ms[k])
    ensures exists k | 0 <= k < |UpdateMatch(ms, e)| ::
      Id(UpdateMatch(ms, e)[k]) == Id(e) && Confidence(UpdateMatch(ms, e)[k].how) >= Confidence(e.how)
  {
    var r := UpdateMatch(ms, e);
    match Lookup(ms, Id(e))
    case Some(k) =>
    case None =>
      assert r[|ms|] == e;
  }

  /** The table after offering a sequence of events in order. */
  function Fold(ms: seq<CompanyMatch>, evs: seq<CompanyMatch>): seq<CompanyMatch>
    decreases |evs|
  {
    if evs == [] then ms else UpdateMatch(Fold(ms, evs[..|evs| - 1]), evs[|evs| - 1])
  }

  /** What `match_companies` returns: the table's values in insertion order. */
  function Matches(item: NewsItem, companies: seq<Company>): seq<CompanyMatch> {
    Fold([], Events(item, companies))
  }

  lemma FoldSnoc(ms: seq<CompanyMatch>, evs: seq<CompanyMatch>, e: CompanyMatch)
    ensures Fold(ms, evs + [e]) == UpdateMatch(Fold(ms, evs), e)
  {
    assert (evs + [e])[..|evs|] == evs;
  }

  lemma EventsSnoc(item: NewsItem, companies: seq<Company>, i: nat)
    requires i < |companies|
    ensures Events(item, companies[..i + 1]) == Events(item, companies[..i]) + CompanyEvents(item, companies[i])
  {
    assert companies[..i + 1][..i] == companies[..i];
  }

  lemma AliasEventsSnoc(c: Company, text: string, j: nat)
    requires j < |c.aliases|
    ensures AliasEvents(c, c.aliases[..j + 1], text)
         == AliasEvents(c, c.aliases[..j], text)
            + (if Contains(text, Lower(c.aliases[j])) then [CompanyMatch(c, Alias)] else [])
  {
    assert c.aliases[..j + 1][..j] == c.aliases[..j];
  }

  lemma CompanyEventsParts(item: NewsItem, c: Company, text: string, url: string, snippet: string)
    requires MatchableStatus(c)
    requires text == Lower(ArticleText(item)) && url == Lower(item.url) && snippet == Lower(item.contentSnippet)
    ensures CompanyEvents(item, c) == DomainEvents(c, url, snippet) + AliasEvents(c, c.aliases, text) + NameEvents(c, text)
  {
  }

  lemma {:induction false} FoldAppend(ms: seq<CompanyMatch>, a: seq<CompanyMatch>, b: seq<CompanyMatch>)
    ensures Fold(ms, a + b) == Fold(Fold(ms, a), b)
    decreases |b|
  {
    if b == [] {
      assert a + b == a;
    } else {
      var b' := b[..|b| - 1];
      FoldAppend(ms, a, b');
      assert (a + b)[..|a + b| - 1] == a + b';
    }
  }

  /** The alias loop of one company. */
  method OfferAliases(ms: seq<CompanyMatch>, company: Company, text: string) returns (r: seq<CompanyMatch>)
    ensures r == Fold(ms, AliasEvents(company, company.aliases, text))
  {
    r := ms;
    var j := 0;
    while j < |company.aliases|
      invariant 0 <= j <= |company.aliases|
      invariant r == Fold(ms, AliasEvents(company, company.aliases[..j], text))
    {
      ghost var seen := AliasEvents(company, company.aliases[..j], text);
      AliasEventsSnoc(company, text, j);
      if Contains(text, Lower(company.aliases[j])) {
        FoldSnoc(ms, seen, CompanyMatch(company, Alias));
        r := UpdateMatch(r, CompanyMatch(company, Alias));
      } else {
        assert seen + [] == seen;
      }
      j := j + 1;
    }
    assert company.aliases[..j] == company.aliases;
  }

  /** The body of the company loop, for a company that passed the status check. */
  method OfferCompany(ms: seq<CompanyMatch>, company: Company, text: string, url: string, snippet: string)
    returns (r: seq<CompanyMatch>)
    ensures r == Fold(ms, DomainEvents(company, url, snippet) + AliasEvents(company, company.aliases, text) + NameEvents(company, text))
  {
    ghost var d := DomainEvents(company, url, snippet);
    r := ms;
    if company.websiteDomain != "" {
      var domain := Lower(company.websiteDomain);
      if Contains(url, domain) || Contains(snippet, domain) {
        assert d == [CompanyMatch(company, Domain)];
        FoldSnoc(ms, [], CompanyMatch(company, Domain));
        r := UpdateMatch(r, CompanyMatch(company, Domain));
      } else {
        assert d == [];
      }
    } else {
      assert d == [];
    }
    assert r == Fold(ms, d);
    r := OfferAliases(r, company, text);
    ghost var al := AliasEvents(company, company.aliases, text);
    FoldAppend(ms, d, al);
    ghost var n := NameEvents(company, text);
    if company.name != "" && Contains(text, Lower(company.name)) {
      assert n == [CompanyMatch(company, Name)];
      FoldSnoc(ms, d + al, CompanyMatch(company, Name));
      r := UpdateMatch(r, CompanyMatch(company, Name));
    } else {
      assert n == [];
      assert d + al + n == d + al;
    }
  }

  /** `match_companies`. */
  method MatchCompanies(item: NewsItem, companies: seq<Company>) returns (matches: seq<CompanyMatch>)
    ensures matches == Matches(item, companies)
  {
    var text := Lower(ArticleText(item));
    var snippet := Lower(item.contentSnippet);
    var url := Lower(item.url);
    matches := [];
    for i := 0 to |companies|
      invariant matches == Fold([], Events(item, companies[..i]))
    {
      matches := MatchNext(matches, item, companies, i, text, url, snippet);
    }
    assert companies[..|companies|] == companies;
  }

  /** One pass of the loop in `match_companies`: an inactive company is skipped, any other one offers its matches. */
  method MatchNext(matches: seq<CompanyMatch>, item: NewsItem, companies: seq<Company>, i: nat,
                   text: string, url: string, snippet: string) returns (r: seq<CompanyMatch>)
    requires i < |companies| && matches == Fold([], Events(item, companies[..i]))
    requires text == Lower(ArticleText(item)) && url == Lower(item.url) && snippet == Lower(item.contentSnippet)
    ensures r == Fold([], Events(item, companies[..i + 1]))
  {
    var company := companies[i];
    if company.status != "" && !LowerIs(company.status, "active") {
      SkipStep(item, companies, i);
      return matches;
    }
    OfferStep(item, companies, i, text, url, snippet);
    r := OfferCompany(matches, company, text, url, snippet);
  }

  lemma SkipStep(item: NewsItem, companies: seq<Company>, i: nat)
    requires i < |companies| && !MatchableStatus(companies[i])
    ensures Events(item, companies[..i + 1]) == Events(item, companies[..i])
  {
    EventsSnoc(item, companies, i);
    assert CompanyEvents(item, companies[i]) == [];
    assert Events(item, companies[..i]) + [] == Events(item, companies[..i]);
  }

  lemma OfferStep(item: NewsItem, companies: seq<Company>, i: nat, text: string, url: string, snippet: string)
    requires i < |companies| && MatchableStatus(companies[i])
    requires text == Lower(ArticleText(item)) && url == Lower(item.url) && snippet == Lower(item.contentSnippet)
    ensures Fold([], Events(item, companies[..i + 1]))
         == Fold(Fold([], Events(item, companies[..i])),
                 DomainEvents(companies[i], url, snippet) + AliasEvents(companies[i], companies[i].aliases, text)
                 + NameEvents(companies[i], text))
  {
    EventsSnoc(item, companies, i);
    CompanyEventsParts(item, companies[i], text, url, snippet);
    FoldAppend([], Events(item, companies[..i]), CompanyEvents(item, companies[i]));
  }

  // ---------------------------------------------------------------------
  // Properties of the table
  // ---------------------------------------------------------------------

  /** Each id sits where it was first offered: the ids are the deduped ids of the events. */
  lemma {:induction false} FoldIds(evs: seq<CompanyMatch>)
    ensures Ids(Fold([], evs)) == Dedupe(Ids(evs))
    decreases |evs|
  {
    if evs != [] {
      var init := evs[..|evs| - 1];
      FoldIds(init);
      UpdateMatchIds(Fold([], init), evs[|evs| - 1]);
      assert Ids(evs)[..|evs| - 1] == Ids(init);
    }
  }

  /** At most one entry per company id, in order of first match. */
  lemma MatchesFirstSeenOrder(item: NewsItem, companies: seq<Company>)
    ensures Ids(Matches(item, companies)) == Dedupe(Ids(Events(item, companies)))
    ensures NoDuplicates(Ids(Matches(item, companies)))
  {
    FoldIds(Events(item, companies));
    DedupeNoDuplicates(Ids(Events(item, companies)));
  }

  /** Every entry of the table is one of the offered events. */
  lemma {:induction false} FoldEntriesOffered(evs: seq<CompanyMatch>)
    ensures forall k | 0 <= k < |Fold([], evs)| :: Fold([], evs)[k] in evs
    decreases |evs|
  {
    if evs != [] {
      var init := evs[..|evs| - 1];
      FoldEntriesOffered(init);
      UpdateMatchEntries(Fold([], init), evs[|evs| - 1]);
      assert evs == init + [evs[|evs| - 1]];
    }
  }

  /** The table holds an entry for the id of `e` of at least the confidence of `e`. */
  predicate Covers(ms: seq<CompanyMatch>, e: CompanyMatch) {
    exists k | 0 <= k < |ms| :: Id(ms[k]) == Id(e) && Confidence(ms[k].how) >= Confidence(e.how)
  }

  lemma UpdateMatchCovers(ms: seq<CompanyMatch>, e: CompanyMatch, x: CompanyMatch)
    ensures Covers(UpdateMatch(ms, e), e)
    ensures Covers(ms, x) ==> Covers(UpdateMatch(ms, e), x)
  {
    var r := UpdateMatch(ms, e);
    UpdateMatchIds(ms, e);
    UpdateMatchEntries(ms, e);
    if Covers(ms, x) {
      var k :| 0 <= k < |ms| && Id(ms[k]) == Id(x) && Confidence(ms[k].how) >= Confidence(x.how);
      assert Ids(r)[k] == Ids(ms)[k];
    }
  }

  /**
   * For every offered event the table holds an entry for its id of at least
   * the event's confidence: with the lemma above, each entry carries the
   * strongest method offered for its id.
   */
  lemma {:induction false} FoldStrongest(evs: seq<CompanyMatch>)
    ensures forall i | 0 <= i < |evs| :: Covers(Fold([], evs), evs[i])
    decreases |evs|
  {
    if evs != [] {
      var init := evs[..|evs| - 1];
      var last := evs[|evs| - 1];
      FoldStrongest(init);
      forall i | 0 <= i < |evs|
        ensures Covers(Fold([], evs), evs[i])
      {
        UpdateMatchCovers(Fold([], init), last, evs[i]);
        if i < |evs| - 1 {
          assert evs[i] == init[i];
        }
      }
    }
  }

  /** A company id may be matched by several methods; the table records the strongest. */
  lemma MatchesStrongest(item: NewsItem, companies: seq<Company>, e: CompanyMatch)
    requires e in Events(item, companies)
    ensures Covers(Matches(item, companies), e)
  {
    var evs := Events(item, companies);
    FoldStrongest(evs);
    var i :| 0 <= i < |evs| && evs[i] == e;
  }

  /** Every reported match is one of the events the loop offered. */
  lemma MatchesOffered(item: NewsItem, companies: seq<Company>)
    ensures forall k | 0 <= k < |Matches(item, companies)| :: Matches(item, companies)[k] in Events(item, companies)
  {
    FoldEntriesOffered(Events(item, companies));
  }

  /** A domain hit for an id always wins over alias and name hits for it. */
  lemma FoldDomainWins(evs: seq<CompanyMatch>, c: Company, k: nat)
    requires CompanyMatch(c, Domain) in evs
    requires k < |Fold([], evs)| && Id(Fold([], evs)[k]) == c.companyId
    ensures Fold([], evs)[k].how == Domain
  {
    var r := Fold([], evs);
    var i :| 0 <= i < |evs| && evs[i] == CompanyMatch(c, Domain);
    FoldStrongest(evs);
    FoldIds(evs);
    DedupeNoDuplicates(Ids(evs));
    CoversAt(r, evs[i], k);
  }

  /** With distinct ids, the entry that covers an event is the one for its id. */
  lemma CoversAt(r: seq<CompanyMatch>, e: CompanyMatch, k: nat)
    requires NoDuplicates(Ids(r)) && Covers(r, e)
    requires k < |r| && Id(r[k]) == Id(e)
    ensures Confidence(r[k].how) >= Confidence(e.how)
  {
    var k' :| 0 <= k' < |r| && Id(r[k']) == Id(e) && Confidence(r[k'].how) >= Confidence(e.how);
    assert Ids(r)[k] == Ids(r)[k'];
  }

  lemma DomainWins(item: NewsItem, companies: seq<Company>, c: Company, k: nat)
    requires CompanyMatch(c, Domain) in Events(item, companies)
    requires k < |Matches(item, companies)| && Id(Matches(item, companies)[k]) == c.companyId
    ensures Matches(item, companies)[k].how == Domain
  {
    FoldDomainWins(Events(item, companies), c, k);
  }

  /**
   * No downgrade: an entry's confidence never decreases and its position
   * never moves; an entry of another id, or one at least as confident as the
   * offer (a tie keeps the earlier entry), stays exactly as it was; with
   * distinct ids, an entry for the offered id that is strictly weaker is
   * replaced by the offer.
   */
  lemma NoDowngrade(ms: seq<CompanyMatch>, e: CompanyMatch, k: nat)
    requires k < |ms|
    ensures k < |UpdateMatch(ms, e)|
    ensures Id(UpdateMatch(ms, e)[k]) == Id(ms[k])
    ensures Confidence(UpdateMatch(ms, e)[k].how) >= Confidence(ms[k].how)
    ensures Id(ms[k]) != Id(e) || Confidence(ms[k].how) >= Confidence(e.how) ==> UpdateMatch(ms, e)[k] == ms[k]
    ensures NoDuplicates(Ids(ms)) && Id(ms[k]) == Id(e) && Confidence(ms[k].how) < Confidence(e.how)
            ==> UpdateMatch(ms, e)[k] == e
  {
    UpdateMatchIds(ms, e);
    UpdateMatchEntries(ms, e);
    assert Ids(UpdateMatch(ms, e))[k] == Ids(ms)[k];
    match Lookup(ms, Id(e))
    case Some(v) =>
      if v != k && Id(ms[k]) == Id(e) {
        assert Ids(ms)[v] == Ids(ms)[k];
      }
    case None =>
      assert Ids(ms)[k] in Ids(ms);
  }

  /**
   * `evs[i]` is the first event offered for its id with the largest
   * confidence offered for that id.
   */
  predicate FirstStrongestAt(evs: seq<CompanyMatch>, i: nat)
    requires i < |evs|
  {
    (forall j | 0 <= j < |evs| && Id(evs[j]) == Id(evs[i]) :: Confidence(evs[j].how) <= Confidence(evs[i].how))
    && (forall j | 0 <= j < i && Id(evs[j]) == Id(evs[i]) :: Confidence(evs[j].how) < Confidence(evs[i].how))
  }

  /** The entry at `k` is the first offered event for its id with the largest confidence. */
  predicate FirstStrongestEntry(ms: seq<CompanyMatch>, evs: seq<CompanyMatch>, k: nat)
    requires k < |ms|
  {
    exists i | 0 <= i < |evs| :: ms[k] == evs[i] && FirstStrongestAt(evs, i)
  }

  /** Every table entry is the first offered event for its id with the largest confidence. */
  predicate FirstStrongestEntries(ms: seq<CompanyMatch>, evs: seq<CompanyMatch>) {
    forall k | 0 <= k < |ms| :: FirstStrongestEntry(ms, evs, k)
  }

  /**
   * The tie rule of `_update_match` over the whole loop: each id's entry is
   * the first event offered for that id among those of the largest confidence.
   */
  lemma {:induction false} FoldFirstStrongest(evs: seq<CompanyMatch>)
    ensures FirstStrongestEntries(Fold([], evs), evs)
    decreases |evs|
  {
    if evs != [] {
      var init := evs[..|evs| - 1];
      var e := evs[|evs| - 1];
      assert evs == init + [e];
      FoldFirstStrongest(init);
      FoldIds(init);
      DedupeNoDuplicates(Ids(init));
      FoldStrongest(init);
      FirstStrongestSnoc(init, e, Fold([], init));
    }
  }

  /** Offering one more event keeps the tie rule. */
  lemma FirstStrongestSnoc(init: seq<CompanyMatch>, e: CompanyMatch, r0: seq<CompanyMatch>)
    requires Ids(r0) == Dedupe(Ids(init)) && NoDuplicates(Ids(r0))
    requires FirstStrongestEntries(r0, init)
    requires forall j | 0 <= j < |init| :: Covers(r0, init[j])
    ensures FirstStrongestEntries(UpdateMatch(r0, e), init + [e])
  {
    var r := UpdateMatch(r0, e);
    forall k | 0 <= k < |r|
      ensures FirstStrongestEntry(r, init + [e], k)
    {
      FirstStrongestStep(init, e, r0, k);
    }
  }

  /** The entry at `k` after one more event satisfies the tie rule. */
  lemma FirstStrongestStep(init: seq<CompanyMatch>, e: CompanyMatch, r0: seq<CompanyMatch>, k: nat)
    requires Ids(r0) == Dedupe(Ids(init)) && NoDuplicates(Ids(r0))
    requires FirstStrongestEntries(r0, init)
    requires forall j | 0 <= j < |init| :: Covers(r0, init[j])
    requires k < |UpdateMatch(r0, e)|
    ensures FirstStrongestEntry(UpdateMatch(r0, e), init + [e], k)
  {
    var n := |init|;
    var evs := init + [e];
    var r := UpdateMatch(r0, e);
    assert evs[n] == e;
    var l := Lookup(r0, Id(e));
    if l.None? && k == |r0| {
      assert r == r0 + [e];
      forall j | 0 <= j < n
        ensures Id(init[j]) != Id(e)
      {
        assert Ids(init)[j] in Dedupe(Ids(init));
      }
      StrongestLast(init, e);
      assert r[k] == evs[n];
    } else if l.Some? && k == l.value && Confidence(r0[k].how) < Confidence(e.how) {
      assert r == r0[k := e];
      forall j | 0 <= j < n && Id(init[j]) == Id(e)
        ensures Confidence(init[j].how) < Confidence(e.how)
      {
        CoversAt(r0, init[j], k);
      }
      StrongestLast(init, e);
      assert r[k] == evs[n];
    } else {
      assert k < |r0| && r[k] == r0[k] && (Id(r0[k]) != Id(e) || Confidence(r0[k].how) >= Confidence(e.how)) by {
        if l.None? {
          assert r == r0 + [e];
          assert Ids(r0)[k] in Ids(r0);
        } else {
          if Confidence(r0[l.value].how) < Confidence(e.how) {
            assert r == r0[l.value := e];
          } else {
            assert r == r0;
          }
          if k != l.value {
            assert Ids(r0)[l.value] != Ids(r0)[k];
          }
        }
      }
      assert FirstStrongestEntry(r0, init, k);
      var i :| 0 <= i < n && r0[k] == init[i] && FirstStrongestAt(init, i);
      StrongestKeep(init, e, i);
      assert r[k] == evs[i];
    }
  }

  /** The new event is the first strongest for its id when every earlier event for it is weaker. */
  lemma StrongestLast(init: seq<CompanyMatch>, e: CompanyMatch)
    requires forall j | 0 <= j < |init| && Id(init[j]) == Id(e) :: Confidence(init[j].how) < Confidence(e.how)
    ensures FirstStrongestAt(init + [e], |init|)
  {
    var evs := init + [e];
    forall j | 0 <= j < |evs| && Id(evs[j]) == Id(e)
      ensures Confidence(evs[j].how) <= Confidence(e.how)
    {
      if j < |init| {
        assert evs[j] == init[j];
      }
    }
  }

  /** An earlier first strongest event stays so unless the new event is for its id and stronger. */
  lemma StrongestKeep(init: seq<CompanyMatch>, e: CompanyMatch, i: nat)
    requires i < |init| && FirstStrongestAt(init, i)
    requires Id(init[i]) != Id(e) || Confidence(init[i].how) >= Confidence(e.how)
    ensures FirstStrongestAt(init + [e], i)
  {
    var evs := init + [e];
    forall j | 0 <= j < |evs| && Id(evs[j]) == Id(evs[i])
      ensures Confidence(evs[j].how) <= Confidence(evs[i].how)
    {
      if j < |init| {
        assert evs[j] == init[j];
      }
    }
    forall j | 0 <= j < i && Id(evs[j]) == Id(evs[i])
      ensures Confidence(evs[j].how) < Confidence(evs[i].how)
    {
      assert evs[j] == init[j];
    }
  }

  /**
   * What `match_companies` returns: for each matched company id, the first
   * match offered for it among those of the highest confidence.
   */
  lemma MatchesFirstStrongest(item: NewsItem, companies: seq<Company>)
    ensures FirstStrongestEntries(Matches(item, companies), Events(item, companies))
  {
    FoldFirstStrongest(Events(item, companies));
  }

  /** A company whose status is set to anything but "active" contributes nothing. */
  lemma UnmatchableContributesNothing(item: NewsItem, companies: seq<Company>, c: Company)
    requires !MatchableStatus(c)
    ensures Matches(item, companies + [c]) == Matches(item, companies)
  {
    var cs := companies + [c];
    assert cs[..|cs| - 1] == companies && cs[|cs| - 1] == c;
    assert CompanyEvents(item, c) == [];
    assert Events(item, cs) == Events(item, companies) + [];
    assert Events(item, companies) + [] == Events(item, companies);
  }

  /** The status check is not stripped: " active" excludes a company. */
  lemma PaddedActiveExcluded(c: Company)
    requires c.status == " active"
    ensures !MatchableStatus(c)
  {
  }

  lemma {:induction false} AliasEventsAreAlias(c: Company, aliases: seq<string>, text: string)
    ensures forall e | e in AliasEvents(c, aliases, text) :: e == CompanyMatch(c, Alias)
    decreases |aliases|
  {
    if aliases != [] {
      AliasEventsAreAlias(c, aliases[..|aliases| - 1], text);
    }
  }

  /** A domain match is decided by the URL and the snippet alone, never by the title. */
  lemma DomainEventIff(item: NewsItem, c: Company)
    ensures CompanyMatch(c, Domain) in CompanyEvents(item, c)
        <==> MatchableStatus(c) && c.websiteDomain != ""
             && (Contains(Lower(item.url), Lower(c.websiteDomain))
                 || Contains(Lower(item.contentSnippet), Lower(c.websiteDomain)))
  {
    if MatchableStatus(c) {
      var text, url, snippet := Lower(ArticleText(item)), Lower(item.url), Lower(item.contentSnippet);
      CompanyEventsParts(item, c, text, url, snippet);
      AliasEventsAreAlias(c, c.aliases, text);
      var d, a, n := DomainEvents(c, url, snippet), AliasEvents(c, c.aliases, text), NameEvents(c, text);
      assert CompanyMatch(c, Domain) !in a;
      assert CompanyMatch(c, Domain) !in n;
      assert CompanyMatch(c, Domain) in d + a + n <==> CompanyMatch(c, Domain) in d;
    }
  }

  /** The events for one company are all about that company. */
  lemma CompanyEventsOf(item: NewsItem, c: Company)
    ensures forall e | e in CompanyEvents(item, c) :: e.company == c
  {
    if MatchableStatus(c) {
      AliasEventsAreAlias(c, c.aliases, Lower(ArticleText(item)));
    }
  }

  lemma {:induction false} EventsFromCompanies(item: NewsItem, companies: seq<Company>)
    ensures forall e | e in Events(item, companies) :: e.company in companies
    decreases |companies|
  {
    if companies != [] {
      var init := companies[..|companies| - 1];
      var c := companies[|companies| - 1];
      EventsFromCompanies(item, init);
      CompanyEventsOf(item, c);
      forall e | e in Events(item, companies)
        ensures e.company in companies
      {
        if e in Events(item, init) {
          assert e.company in init;
        }
      }
    }
  }

  /** Every reported match is about one of the given companies. */
  lemma MatchesFromCompanies(item: NewsItem, companies: seq<Company>)
    ensures forall k | 0 <= k < |Matches(item, companies)| :: Matches(item, companies)[k].company in companies
  {
    MatchesOffered(item, companies);
    EventsFromCompanies(item, companies);
  }
}
