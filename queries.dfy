/**
 * Search queries built for a company: the Google News query of a
 * company-scoped feed, the GDELT document query with its trigger-keyword
 * clause, the keyword collection across triggers, and the Google News
 * search URL.
 *
 * All three term loops of the source share one shape: each term has its
 * double quotes removed and is stripped, empty terms are skipped, and a
 * `seen` set of lower-cased terms keeps only the first term of every
 * case-insensitive spelling. `DistinctTerms` is that shape as a function;
 * `Seqs.DedupeBy` carries its proofs.
 */
module Queries {
  import opened Wrappers
  import opened Text
  import opened Seqs
  import opened Schemas
  import opened UrlEncoding

  // ---------------------------------------------------------------------
  // Term cleaning and case-insensitive dedupe
  // ---------------------------------------------------------------------

  /** `term.replace('"', "").strip()`. */
  function Clean(term: string): (r: string)
    ensures '"' !in r
    ensures r == [] || (!IsSpace(r[0]) && !IsSpace(r[|r| - 1]))
  {
    StripChars(RemoveChar(term, '"'));
    Strip(RemoveChar(term, '"'))
  }

  predicate NonEmpty(s: string) { s != "" }

  /** The cleaned form of every term, in order. */
  function Cleaned(terms: seq<string>): (r: seq<string>)
    ensures |r| == |terms|
  {
    Map(terms, Clean)
  }

  lemma CleanedIndex(terms: seq<string>, i: nat)
    requires i < |terms|
    ensures Cleaned(terms)[i] == Clean(terms[i])
  {
    MapIndex(terms, Clean, i);
  }

  lemma CleanedSnoc(terms: seq<string>)
    requires terms != []
    ensures Cleaned(terms) == Cleaned(terms[..|terms| - 1]) + [Clean(terms[|terms| - 1])]
  {
  }

  /**
   * The terms a `seen`-set loop keeps, term by term: a term is cleaned,
   * and kept when it is not empty and no kept term has its lower-cased key.
   */
  function DistinctTerms(terms: seq<string>): seq<string>
    decreases |terms|
  {
    if terms == [] then []
    else
      var kept, c := DistinctTerms(terms[..|terms| - 1]), Clean(terms[|terms| - 1]);
      if c == "" || Lower(c) in KeysBy(kept, Lower) then kept else kept + [c]
  }

  /** The same terms: the first of each key among the non-empty cleaned terms. */
  lemma {:induction false} DistinctTermsDedupe(terms: seq<string>)
    ensures DistinctTerms(terms) == DedupeBy(Filter(Cleaned(terms), NonEmpty), Lower)
    decreases |terms|
  {
    if terms != [] {
      var init, term := terms[..|terms| - 1], terms[|terms| - 1];
      DistinctTermsDedupe(init);
      CleanedSnoc(terms);
      FilterAppendOne(Cleaned(init), Clean(term), NonEmpty);
      DedupeBySnoc(Filter(Cleaned(init), NonEmpty), Clean(term), Lower);
    }
  }

  /** The lower-cased keys of the terms that survive cleaning. */
  function TermKeys(terms: seq<string>): set<string> {
    set t | t in Cleaned(terms) && t != "" :: Lower(t)
  }

  /** `f"\"{term}\""`. */
  function InQuotes(term: string): string {
    "\"" + term + "\""
  }

  /** Every term in double quotes, in order. */
  function AllInQuotes(terms: seq<string>): (r: seq<string>)
    ensures |r| == |terms|
    decreases |terms|
  {
    if terms == [] then [] else AllInQuotes(terms[..|terms| - 1]) + [InQuotes(terms[|terms| - 1])]
  }

  lemma {:induction false} AllInQuotesIndex(terms: seq<string>, i: nat)
    requires i < |terms|
    ensures AllInQuotes(terms)[i] == InQuotes(terms[i])
    decreases |terms|
  {
    var init := terms[..|terms| - 1];
    if i < |init| {
      AllInQuotesIndex(init, i);
      assert init[i] == terms[i];
    }
  }

  lemma AllInQuotesSnoc(terms: seq<string>, term: string)
    ensures AllInQuotes(terms + [term]) == AllInQuotes(terms) + [InQuotes(term)]
  {
    assert (terms + [term])[..|terms|] == terms;
  }

  /** The kept terms are cleaned terms, in input order. */
  lemma DistinctTermsSubsequence(terms: seq<string>)
    ensures IsSubsequence(DistinctTerms(terms), Cleaned(terms))
    ensures forall i | 0 <= i < |DistinctTerms(terms)| :: DistinctTerms(terms)[i] in Cleaned(terms)
  {
    DistinctTermsDedupe(terms);
    var cleaned := Cleaned(terms);
    var nonEmpty := Filter(cleaned, NonEmpty);
    FilterSpec(cleaned, NonEmpty);
    DedupeBySpec(nonEmpty, Lower);
    SubsequenceTransitive(DistinctTerms(terms), nonEmpty, cleaned);
    SubsequenceLength(DistinctTerms(terms), cleaned);
  }

  /** Cleaning a cleaned term changes nothing. */
  lemma CleanIdempotent(term: string)
    ensures Clean(Clean(term)) == Clean(term)
  {
    RemoveCharAbsent(Clean(term), '"');
    StripIdempotent(RemoveChar(term, '"'));
  }

  /** Every kept term is non-empty, free of double quotes and its own cleaned form. */
  lemma DistinctTermsClean(terms: seq<string>)
    ensures forall i | 0 <= i < |DistinctTerms(terms)| ::
              DistinctTerms(terms)[i] != "" && '"' !in DistinctTerms(terms)[i]
              && Clean(DistinctTerms(terms)[i]) == DistinctTerms(terms)[i]
  {
    var nonEmpty := Filter(Cleaned(terms), NonEmpty);
    var r := DistinctTerms(terms);
    DistinctTermsDedupe(terms);
    forall i | 0 <= i < |r|
      ensures r[i] != "" && '"' !in r[i] && Clean(r[i]) == r[i]
    {
      assert r[i] in nonEmpty by {
        DedupeBySpec(nonEmpty, Lower);
        SubsequenceLength(r, nonEmpty);
      }
      assert r[i] in Cleaned(terms) && r[i] != "" by {
        FilterSpec(Cleaned(terms), NonEmpty);
      }
      CleanedElement(terms, r[i]);
    }
  }

  lemma CleanedElement(terms: seq<string>, x: string)
    requires x in Cleaned(terms)
    ensures '"' !in x && Clean(x) == x
  {
    var k :| 0 <= k < |terms| && Cleaned(terms)[k] == x;
    CleanedIndex(terms, k);
    CleanIdempotent(terms[k]);
  }

  /**
   * The kept terms are pairwise distinct ignoring case, and cover the key
   * of every term that survives cleaning.
   */
  lemma DistinctTermsKeys(terms: seq<string>)
    ensures forall i, j | 0 <= i < j < |DistinctTerms(terms)| ::
              Lower(DistinctTerms(terms)[i]) != Lower(DistinctTerms(terms)[j])
    ensures KeysBy(DistinctTerms(terms), Lower) == TermKeys(terms)
  {
    DistinctTermsDedupe(terms);
    DedupeBySpec(Filter(Cleaned(terms), NonEmpty), Lower);
    FilterNonEmptyKeys(Cleaned(terms), Lower);
  }

  /** The keys of the non-empty elements, for any key function. */
  lemma FilterNonEmptyKeys(xs: seq<string>, key: string -> string)
    ensures KeysBy(Filter(xs, NonEmpty), key) == set t | t in xs && t != "" :: key(t)
  {
    var f := Filter(xs, NonEmpty);
    FilterSpec(xs, NonEmpty);
    KeysByIff(f, key);
    forall x | x in KeysBy(f, key) ensures x in set t | t in xs && t != "" :: key(t) {
      var i :| 0 <= i < |f| && key(f[i]) == x;
      assert f[i] in xs;
    }
    forall x | x in (set t | t in xs && t != "" :: key(t)) ensures x in KeysBy(f, key) {
      var t :| t in xs && t != "" && key(t) == x;
      assert t in f;
      var i :| 0 <= i < |f| && f[i] == t;
    }
  }

  /** Each kept term is the cleaned form of the first term with its key. */
  lemma DistinctTermsFirstSeen(terms: seq<string>, i: nat)
    requires i < |DistinctTerms(terms)|
    ensures exists k | 0 <= k < |Cleaned(terms)| :: Cleaned(terms)[k] == DistinctTerms(terms)[i]
              && forall j | 0 <= j < k :: Lower(Cleaned(terms)[j]) != Lower(Cleaned(terms)[k])
  {
    forall t | t != "" ensures Lower(t) != Lower("") {
      assert |Lower(t)| != |Lower("")|;
    }
    var key: string -> string := Lower;
    var xs, r := Cleaned(terms), DistinctTerms(terms);
    DistinctTermsDedupe(terms);
    assert r == DedupeBy(Filter(xs, NonEmpty), key);
    NonEmptyFirstSeen(xs, key);
    assert r[i] == DedupeBy(Filter(xs, NonEmpty), key)[i];
    var k :| 0 <= k < |xs| && xs[k] == r[i] && forall j | 0 <= j < k :: key(xs[j]) != key(xs[k]);
    assert forall j | 0 <= j < k :: Lower(xs[j]) != Lower(xs[k]);
  }

  /**
   * The kept terms come in the order in which their keys first occur among
   * the non-empty cleaned terms, each as that first occurrence.
   */
  lemma DistinctTermsOrder(terms: seq<string>)
    ensures KeptFirst(Filter(Cleaned(terms), NonEmpty), DistinctTerms(terms), Lower)
    ensures KeptInOrder(Filter(Cleaned(terms), NonEmpty), DistinctTerms(terms), Lower)
  {
    DistinctTermsDedupe(terms);
    DedupeByFirstOrder(Filter(Cleaned(terms), NonEmpty), Lower);
  }

  /** `DedupeByFirstSeen` through the filter of non-empty terms. */
  lemma NonEmptyFirstSeen(xs: seq<string>, key: string -> string)
    requires forall t | t != "" :: key(t) != key("")
    ensures forall i | 0 <= i < |DedupeBy(Filter(xs, NonEmpty), key)| ::
              exists k | 0 <= k < |xs| :: xs[k] == DedupeBy(Filter(xs, NonEmpty), key)[i]
                && forall j | 0 <= j < k :: key(xs[j]) != key(xs[k])
  {
    var f := Filter(xs, NonEmpty);
    var r := DedupeBy(f, key);
    DedupeByFirstSeen(f, key);
    forall i | 0 <= i < |r|
      ensures exists k | 0 <= k < |xs| :: xs[k] == r[i]
                && forall j | 0 <= j < k :: key(xs[j]) != key(xs[k])
    {
      var m :| 0 <= m < |f| && f[m] == r[i]
               && forall j | 0 <= j < m :: key(f[j]) != key(f[m]);
      FirstInFilter(xs, m, key);
    }
  }

  /**
   * The element at position `m` of the non-empty elements, when no earlier
   * one has its key, is an element that no earlier element shares a key with.
   */
  lemma {:induction false} FirstInFilter(xs: seq<string>, m: nat, key: string -> string)
    requires forall t | t != "" :: key(t) != key("")
    requires m < |Filter(xs, NonEmpty)|
    requires forall j | 0 <= j < m :: key(Filter(xs, NonEmpty)[j]) != key(Filter(xs, NonEmpty)[m])
    ensures exists k | 0 <= k < |xs| :: xs[k] == Filter(xs, NonEmpty)[m]
              && forall j | 0 <= j < k :: key(xs[j]) != key(xs[k])
    decreases |xs|
  {
    var init, last := xs[..|xs| - 1], xs[|xs| - 1];
    var f, fi := Filter(xs, NonEmpty), Filter(init, NonEmpty);
    FilterAppendOne(init, last, NonEmpty);
    assert xs == init + [last];
    assert forall j | 0 <= j < |fi| :: f[j] == fi[j];
    if m < |fi| {
      FirstInFilter(init, m, key);
      var k :| 0 <= k < |init| && init[k] == fi[m]
               && forall j | 0 <= j < k :: key(init[j]) != key(init[k]);
      assert xs[k] == f[m];
      assert forall j | 0 <= j < k :: xs[j] == init[j];
    } else {
      assert f[m] == last && last != "";
      forall j | 0 <= j < |init| ensures key(xs[j]) != key(last) {
        if init[j] != "" {
          FilterSpec(init, NonEmpty);
          assert init[j] in fi;
          var n :| 0 <= n < |fi| && fi[n] == init[j];
          assert key(f[n]) != key(f[m]);
        }
      }
      assert xs[|init|] == f[m];
    }
  }

  /** A term list that starts with a term that survives cleaning keeps that term in front. */
  lemma DistinctTermsHead(terms: seq<string>)
    requires terms != [] && Clean(terms[0]) != ""
    ensures DistinctTerms(terms) != [] && DistinctTerms(terms)[0] == Clean(terms[0])
  {
    DistinctTermsDedupe(terms);
    CleanedIndex(terms, 0);
    FilterHead(Cleaned(terms), NonEmpty);
    DedupeByHead(Filter(Cleaned(terms), NonEmpty), Lower);
  }

  /** One more term extends the kept terms exactly as one more loop turn does. */
  lemma DistinctTermsSnoc(terms: seq<string>, term: string)
    ensures DistinctTerms(terms + [term])
         == if Clean(term) == "" || Lower(Clean(term)) in KeysBy(DistinctTerms(terms), Lower)
            then DistinctTerms(terms)
            else DistinctTerms(terms) + [Clean(term)]
  {
    assert (terms + [term])[..|terms|] == terms;
  }

  /**
   * The term loop of `_build_gn_company_query` and `_build_gdelt_query`:
   * `parts` receives every kept term in double quotes, `seen` its key.
   */
  method QuotedTermParts(terms: seq<string>) returns (parts: seq<string>)
    ensures parts == AllInQuotes(DistinctTerms(terms))
  {
    var seen: set<string> := {};
    parts := [];
    ghost var kept: seq<string> := [];
    var i := 0;
    while i < |terms|
      invariant 0 <= i <= |terms|
      invariant kept == DistinctTerms(terms[..i])
      invariant seen == KeysBy(kept, Lower)
      invariant parts == AllInQuotes(kept)
    {
      var term := terms[i];
      assert terms[..i + 1][..i] == terms[..i];
      var cleaned := Clean(term);
      if cleaned == "" {
        i := i + 1;
        continue;
      }
      var key := Lower(cleaned);
      if key in seen {
        i := i + 1;
        continue;
      }
      KeysBySnoc(kept, cleaned, Lower);
      AllInQuotesSnoc(kept, cleaned);
      seen := seen + {key};
      kept := kept + [cleaned];
      parts := parts + [InQuotes(cleaned)];
      i := i + 1;
    }
    assert terms[..i] == terms;
  }

  // ---------------------------------------------------------------------
  // Google News query (`_build_gn_company_query`)
  // ---------------------------------------------------------------------

  const BankExclusion: string := ") -banca -banche -bank -banks"

  /** `[alias.strip() for alias in aliases if alias.strip()]`. */
  function StrippedAliases(aliases: seq<string>): seq<string> {
    Filter(seq(|aliases|, i requires 0 <= i < |aliases| => Strip(aliases[i])), NonEmpty)
  }

  /** The stripped name followed by the non-blank stripped aliases. */
  function GnTerms(c: Company): seq<string> {
    [Strip(c.name)] + StrippedAliases(c.aliases)
  }

  /** The quoted terms followed by `site:domain` when the stripped domain is not empty. */
  function GnParts(c: Company): seq<string> {
    var domain := Strip(c.websiteDomain);
    AllInQuotes(DistinctTerms(GnTerms(c))) + if domain != "" then ["site:" + domain] else []
  }

  /** The query `_build_gn_company_query` returns. */
  function GnCompanyQuery(c: Company): (q: string)
    ensures Strip(c.name) == "" ==> q == ""
  {
    if Strip(c.name) == "" then ""
    else
      var parts := GnParts(c);
      if parts == [] then "" else "(" + Join(parts, " OR ") + BankExclusion
  }

  method BuildGnCompanyQuery(c: Company) returns (query: string)
    ensures query == GnCompanyQuery(c)
  {
    var name := Strip(c.name);
    if name == "" {
      return "";
    }
    var aliases := StrippedAliases(c.aliases);
    var websiteDomain := Strip(c.websiteDomain);
    var parts := QuotedTermParts([name] + aliases);
    assert [name] + aliases == GnTerms(c);
    if websiteDomain != "" {
      parts := parts + ["site:" + websiteDomain];
    }
    assert parts == GnParts(c);
    if parts == [] {
      return "";
    }
    query := "(" + Join(parts, " OR ") + BankExclusion;
  }

  /**
   * The query is empty exactly when the stripped name is empty, or when no
   * term survives cleaning and there is no domain.
   */
  lemma GnQueryEmpty(c: Company)
    ensures GnCompanyQuery(c) == ""
        <==> Strip(c.name) == "" || (DistinctTerms(GnTerms(c)) == [] && Strip(c.websiteDomain) == "")
  {
  }

  /** A non-empty query is one parenthesised disjunction followed by the bank exclusion, always. */
  lemma GnQueryShape(c: Company)
    ensures GnCompanyQuery(c) != "" ==>
              StartsWith(GnCompanyQuery(c), "(") && EndsWith(GnCompanyQuery(c), BankExclusion)
  {
  }

  /** The company's own name, when it survives cleaning, is the first term of the query. */
  lemma GnQueryNameFirst(c: Company)
    requires Clean(Strip(c.name)) != ""
    ensures StartsWith(GnCompanyQuery(c), "(" + InQuotes(Clean(Strip(c.name))))
  {
    var terms := GnTerms(c);
    DistinctTermsHead(terms);
    var parts := GnParts(c);
    AllInQuotesIndex(DistinctTerms(terms), 0);
    assert parts[0] == InQuotes(Clean(Strip(c.name)));
    JoinHead(parts, " OR ");
    assert Clean(Strip(c.name)) != "" ==> Strip(c.name) != "";
  }

  /** Every kept term occurs in double quotes in the query. */
  lemma GnQueryHasTerms(c: Company, i: nat)
    requires Strip(c.name) != ""
    requires i < |DistinctTerms(GnTerms(c))|
    ensures Contains(GnCompanyQuery(c), InQuotes(DistinctTerms(GnTerms(c))[i]))
  {
    var parts := GnParts(c);
    AllInQuotesIndex(DistinctTerms(GnTerms(c)), i);
    assert parts[i] == InQuotes(DistinctTerms(GnTerms(c))[i]);
    JoinContains(parts, " OR ", i);
    ContainsInside("(", Join(parts, " OR "), BankExclusion, parts[i]);
  }

  /** With a domain, the query ends with `site:domain` just before the bank exclusion. */
  lemma GnQuerySite(c: Company)
    requires Strip(c.name) != "" && Strip(c.websiteDomain) != ""
    ensures EndsWith(GnCompanyQuery(c), "site:" + Strip(c.websiteDomain) + BankExclusion)
  {
    var site := "site:" + Strip(c.websiteDomain);
    var quoted := AllInQuotes(DistinctTerms(GnTerms(c)));
    JoinAppend(quoted, site, " OR ");
    var j := Join(quoted + [site], " OR ");
    assert GnCompanyQuery(c) == "(" + j + BankExclusion;
    EndsWithInside("(", j, site, BankExclusion);
  }

  // ---------------------------------------------------------------------
  // Trigger keywords and the GDELT query
  // ---------------------------------------------------------------------

  /** The keywords of all triggers, trigger by trigger. */
  function AllKeywords(triggers: seq<Trigger>): seq<string>
    decreases |triggers|
  {
    if triggers == [] then []
    else AllKeywords(triggers[..|triggers| - 1]) + triggers[|triggers| - 1].keywords
  }

  /**
   * `_collect_trigger_keywords`: the cleaned keywords across all triggers,
   * first spelling of each case-insensitive key kept. A missing trigger
   * list is the empty sequence.
   */
  method CollectTriggerKeywords(triggers: seq<Trigger>) returns (keywords: seq<string>)
    ensures keywords == DistinctTerms(AllKeywords(triggers))
  {
    keywords := [];
    var seen: set<string> := {};
    var t := 0;
    while t < |triggers|
      invariant 0 <= t <= |triggers|
      invariant keywords == DistinctTerms(AllKeywords(triggers[..t]))
      invariant seen == KeysBy(keywords, Lower)
    {
      var trigger := triggers[t];
      ghost var prefix := AllKeywords(triggers[..t]);
      AppendEmptyPrefix(prefix, trigger.keywords);
      var k := 0;
      while k < |trigger.keywords|
        invariant 0 <= k <= |trigger.keywords|
        invariant keywords == DistinctTerms(prefix + trigger.keywords[..k])
        invariant seen == KeysBy(keywords, Lower)
      {
        var keyword := trigger.keywords[k];
        AppendPrefixSnoc(prefix, trigger.keywords, k);
        DistinctTermsSnoc(prefix + trigger.keywords[..k], keyword);
        var cleaned := Clean(keyword);
        if cleaned == "" {
          k := k + 1;
          continue;
        }
        var key := Lower(cleaned);
        if key in seen {
          k := k + 1;
          continue;
        }
        KeysBySnoc(keywords, cleaned, Lower);
        seen := seen + {key};
        keywords := keywords + [cleaned];
        k := k + 1;
      }
      AppendWholePrefix(prefix, trigger.keywords);
      AllKeywordsStep(triggers, t);
      t := t + 1;
    }
    assert triggers[..t] == triggers;
  }

  /** The collected keywords are cleaned, distinct ignoring case, and cover every trigger's keywords. */
  lemma TriggerKeywordsSpec(triggers: seq<Trigger>, t: nat, k: nat)
    requires t < |triggers| && k < |triggers[t].keywords|
    requires Clean(triggers[t].keywords[k]) != ""
    ensures Lower(Clean(triggers[t].keywords[k])) in KeysBy(DistinctTerms(AllKeywords(triggers)), Lower)
  {
    AllKeywordsHas(triggers, t, k);
    var all := AllKeywords(triggers);
    var n :| 0 <= n < |all| && all[n] == triggers[t].keywords[k];
    DistinctTermsKeys(all);
    CleanedIndex(all, n);
    assert Cleaned(all)[n] in Cleaned(all);
  }

  lemma AllKeywordsStep(triggers: seq<Trigger>, t: nat)
    requires t < |triggers|
    ensures AllKeywords(triggers[..t + 1]) == AllKeywords(triggers[..t]) + triggers[t].keywords
  {
    assert triggers[..t + 1][..t] == triggers[..t];
  }

  lemma {:induction false} AllKeywordsHas(triggers: seq<Trigger>, t: nat, k: nat)
    requires t < |triggers| && k < |triggers[t].keywords|
    ensures triggers[t].keywords[k] in AllKeywords(triggers)
    decreases |triggers|
  {
    var init := triggers[..|triggers| - 1];
    if t < |init| {
      AllKeywordsHas(init, t, k);
      assert init[t] == triggers[t];
    }
  }

  /** The quoted terms followed by `site:domain` when the raw domain is not empty. */
  function GdeltParts(c: Company): seq<string> {
    AllInQuotes(DistinctTerms([c.name] + c.aliases))
      + if c.websiteDomain != "" then ["site:" + c.websiteDomain] else []
  }

  /** The query `_build_gdelt_query` returns. */
  function GdeltQuery(c: Company, triggerKeywords: seq<string>): (q: string)
    ensures GdeltParts(c) == [] <==> q == ""
  {
    var parts := GdeltParts(c);
    if parts == [] then ""
    else
      var companyClause := "(" + Join(parts, " OR ") + ")";
      if triggerKeywords == [] then companyClause
      else
        var keywordClause := "(" + Join(AllInQuotes(triggerKeywords), " OR ") + ")";
        companyClause + " AND " + keywordClause
  }

  method BuildGdeltQuery(c: Company, triggerKeywords: seq<string>) returns (query: string)
    ensures query == GdeltQuery(c, triggerKeywords)
  {
    var parts := QuotedTermParts([c.name] + c.aliases);
    if c.websiteDomain != "" {
      parts := parts + ["site:" + c.websiteDomain];
    }
    assert parts == GdeltParts(c);
    if parts == [] {
      return "";
    }
    var companyClause := "(" + Join(parts, " OR ") + ")";
    if triggerKeywords == [] {
      return companyClause;
    }
    var keywordClause := "(" + Join(AllInQuotes(triggerKeywords), " OR ") + ")";
    query := companyClause + " AND " + keywordClause;
  }

  /**
   * The keyword clause only ever extends the company clause: the query
   * with keywords starts with the query without them, and differs from it
   * exactly when there are keywords and a company clause.
   */
  lemma GdeltKeywordsExtend(c: Company, kws: seq<string>)
    ensures StartsWith(GdeltQuery(c, kws), GdeltQuery(c, []))
    ensures GdeltQuery(c, kws) == GdeltQuery(c, []) <==> kws == [] || GdeltParts(c) == []
  {
  }

  /** Every trigger keyword occurs in double quotes in the query of a company with a clause. */
  lemma GdeltQueryHasKeyword(c: Company, kws: seq<string>, i: nat)
    requires GdeltParts(c) != [] && i < |kws|
    ensures Contains(GdeltQuery(c, kws), InQuotes(kws[i]))
  {
    var quoted := AllInQuotes(kws);
    AllInQuotesIndex(kws, i);
    JoinContains(quoted, " OR ", i);
    var clause := "(" + Join(GdeltParts(c), " OR ") + ")";
    var keywordClause := "(" + Join(quoted, " OR ") + ")";
    ContainsInside("(", Join(quoted, " OR "), ")", quoted[i]);
    ContainsAfter(clause + " AND ", keywordClause, quoted[i]);
  }

  // ---------------------------------------------------------------------
  // Joins and containment
  // ---------------------------------------------------------------------

  lemma JoinHead(parts: seq<string>, sep: string)
    requires parts != []
    ensures StartsWith(Join(parts, sep), parts[0])
  {
  }

  /** Every part occurs in the joined text. */
  lemma {:induction false} JoinContains(parts: seq<string>, sep: string, i: nat)
    requires i < |parts|
    ensures Contains(Join(parts, sep), parts[i])
    decreases |parts|
  {
    var j := Join(parts, sep);
    if i == 0 {
      assert OccursAt(j, parts[0], 0);
      ContainsAt(j, parts[0], 0);
    } else {
      var x := parts[i];
      assert parts[1..][i - 1] == x;
      JoinContains(parts[1..], sep, i - 1);
      var rest := Join(parts[1..], sep);
      ContainsIff(rest, x);
      var k :| OccursAt(rest, x, k);
      var head := parts[0] + sep;
      assert j == head + rest;
      assert j[|head| + k..|head| + k + |x|] == rest[k..k + |x|];
      ContainsAt(j, x, |head| + k);
    }
  }

  /** A suffix of a middle piece, followed by the last piece, ends the whole. */
  lemma EndsWithInside(a: string, b: string, x: string, c: string)
    requires EndsWith(b, x)
    ensures EndsWith(a + b + c, x + c)
  {
    var w := a + b + c;
    assert w[|w| - |x + c|..] == b[|b| - |x|..] + c;
  }

  /** A text contained in the last piece is contained in the whole. */
  lemma ContainsAfter(a: string, b: string, x: string)
    requires Contains(b, x)
    ensures Contains(a + b, x)
  {
    ContainsIff(b, x);
    var k :| OccursAt(b, x, k);
    var w := a + b;
    assert w[|a| + k..|a| + k + |x|] == b[k..k + |x|];
    ContainsAt(w, x, |a| + k);
  }

  /** A text contained in a middle piece is contained in the whole. */
  lemma ContainsInside(a: string, b: string, c: string, x: string)
    requires Contains(b, x)
    ensures Contains(a + b + c, x)
  {
    ContainsIff(b, x);
    var k :| OccursAt(b, x, k);
    var w := a + b + c;
    assert w[|a| + k..|a| + k + |x|] == b[k..k + |x|];
    assert OccursAt(w, x, |a| + k);
    ContainsIff(w, x);
  }

  // ---------------------------------------------------------------------
  // Google News search URL (`_build_gn_company_url`)
  // ---------------------------------------------------------------------

  const DefaultGnBase: string := "https://news.google.com/rss/search"
  const GnLocale: string := "&hl=it&gl=IT&ceid=IT:it"

  /** `base_url or` the Google News search endpoint. */
  function GnBase(baseUrl: string): string {
    if baseUrl != "" then baseUrl else DefaultGnBase
  }

  /** The URL `_build_gn_company_url` returns. */
  function GnCompanyUrl(baseUrl: string, query: string): (url: string) {
    GnBase(baseUrl) + "?q=" + Quote(query) + GnLocale
  }

  /**
   * The `q` parameter sits between the base and the locale parameters,
   * holds no `&`, `=`, `#` or space of its own, and decodes back to the
   * query.
   */
  lemma GnUrlQueryRoundTrip(baseUrl: string, query: string)
    ensures var url, head := GnCompanyUrl(baseUrl, query), GnBase(baseUrl) + "?q=";
            StartsWith(url, head) && EndsWith(url, GnLocale)
            && |head| + |GnLocale| <= |url|
            && var q := url[|head|..|url| - |GnLocale|];
               Unquote(q) == Some(query)
               && forall i | 0 <= i < |q| :: q[i] != '&' && q[i] != '=' && q[i] != '#' && q[i] != ' '
  {
    var head := GnBase(baseUrl) + "?q=";
    var url := GnCompanyUrl(baseUrl, query);
    assert url == head + Quote(query) + GnLocale;
    assert url[|head|..|url| - |GnLocale|] == Quote(query);
    QuoteRoundTrip(query);
    QuoteHasNoDelimiters(query);
  }

  /**
   * The URL of a company with a domain made of kept characters carries
   * `site%3A` and the domain, and keeps the `-banca` exclusion readable.
   */
  lemma GnUrlHasSite(baseUrl: string, c: Company)
    requires Strip(c.name) != "" && Strip(c.websiteDomain) != ""
    requires forall i | 0 <= i < |Strip(c.websiteDomain)| :: Kept(Strip(c.websiteDomain)[i])
    ensures Contains(GnCompanyUrl(baseUrl, GnCompanyQuery(c)), "site%3A" + Strip(c.websiteDomain))
    ensures Contains(GnCompanyUrl(baseUrl, GnCompanyQuery(c)), "-banca")
  {
    var d, q := Strip(c.websiteDomain), GnCompanyQuery(c);
    var tail := "site:" + d + BankExclusion;
    GnQuerySite(c);
    var front := q[..|q| - |tail|];
    EndsWithSplit(q, tail);
    QuoteAppend(front, tail);
    QuoteAppend("site:" + d, BankExclusion);
    QuoteSite(d);
    var h, f, site, b := GnBase(baseUrl) + "?q=", Quote(front), "site%3A" + d, Quote(BankExclusion);
    Regroup(h, f, site, b, GnLocale);
    assert GnCompanyUrl(baseUrl, q) == h + (f + (site + b)) + GnLocale;
    assert OccursAt(site, site, 0);
    ContainsAt(site, site, 0);
    ContainsInside(h + f, site, b + GnLocale, site);
    BankExclusionQuoted();
    ContainsInside(h + f + site, b, GnLocale, "-banca");
  }

  /** A string ending with `tail` is what precedes it followed by `tail`. */
  lemma EndsWithSplit(s: string, tail: string)
    requires EndsWith(s, tail)
    ensures s == s[..|s| - |tail|] + tail
  {
  }

  lemma Regroup(h: string, f: string, s: string, b: string, l: string)
    ensures h + (f + (s + b)) + l == (h + f) + s + (b + l)
    ensures h + (f + (s + b)) + l == (h + f + s) + b + l
  {
  }

  /** `site:` followed by a domain of kept characters quotes to `site%3A` and the domain. */
  lemma QuoteSite(d: string)
    requires forall i | 0 <= i < |d| :: Kept(d[i])
    ensures Quote("site:" + d) == "site%3A" + d
  {
    QuoteSitePrefix();
    QuoteIdentity(d);
    QuoteJoin("site:", d, "site%3A", d);
  }

  /** The filter word `site:` quotes to `site%3A`. */
  lemma QuoteSitePrefix()
    ensures Quote("site:") == "site%3A"
  {
    QuoteIdentity("site");
    QuoteColon();
    QuoteJoin("site", ":", "site", "%3A");
    assert "site:" == "site" + ":";
    assert "site%3A" == "site" + "%3A";
  }

  /** Quoting two pieces whose quotes are known. */
  lemma QuoteJoin(x: string, y: string, qx: string, qy: string)
    requires Quote(x) == qx && Quote(y) == qy
    ensures Quote(x + y) == qx + qy
  {
    QuoteAppend(x, y);
  }

  /** The quoted bank exclusion still holds `-banca` as written. */
  lemma BankExclusionQuoted()
    ensures Contains(Quote(BankExclusion), "-banca")
  {
    BankExclusionPieces();
    QuoteBanca();
    QuoteKeepsMiddle(") ", "-banca", " -banche -bank -banks");
  }

  lemma BankExclusionPieces()
    ensures BankExclusion == ") " + "-banca" + " -banche -bank -banks"
  {
  }

  lemma QuoteBanca()
    ensures Quote("-banca") == "-banca"
  {
    assert forall i | 0 <= i < |"-banca"| :: Kept("-banca"[i]);
    QuoteIdentity("-banca");
  }

  /** A middle piece that quoting leaves as it is stays readable in the quoted whole. */
  lemma QuoteKeepsMiddle(a: string, b: string, c: string)
    requires Quote(b) == b
    ensures Contains(Quote(a + b + c), b)
  {
    QuoteAppend(a + b, c);
    QuoteAppend(a, b);
    assert OccursAt(b, b, 0);
    ContainsAt(b, b, 0);
    ContainsInside(Quote(a), b, Quote(c), b);
  }
}
