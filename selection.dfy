/**
 * Choosing the companies that get a Google News feed: the eligibility
 * filters, the seed, the three selection modes under a cap, and the
 * rolling window.
 */
module Selection {
  import opened Wrappers
  import opened Text
  import opened Seqs
  import opened Sorting
  import opened Calendar
  import opened Schemas
  import Pipeline

  // ---------------------------------------------------------------------
  // Eligibility
  // ---------------------------------------------------------------------

  /** Kept by `_active_companies`: a blank or "active" status (stripped, any case) and a name. */
  predicate Listed(c: Company) {
    Pipeline.CompanyIsActive(c) && c.name != ""
  }

  method ActiveCompanies(companies: seq<Company>) returns (active: seq<Company>)
    ensures active == Filter(companies, Listed)
  {
    active := [];
    for i := 0 to |companies|
      invariant active == Filter(companies[..i], Listed)
    {
      FilterSnoc(companies, i, Listed);
      var company := companies[i];
      var status := Strip(company.status);
      if status != "" && !LowerIs(status, "active") {
        continue;
      }
      if company.name == "" {
        continue;
      }
      active := active + [company];
    }
    assert companies[..|companies|] == companies;
  }

  /** `_company_is_bank` on the text of an `is_bank` attribute. */
  predicate BankFlag(value: string) {
    var v := Lower(Strip(value));
    v == "1" || v == "true" || v == "yes" || v == "y"
  }

  /**
   * `_company_is_bank`: a `Company` has no `is_bank` attribute, so the
   * lookup falls back to "" and no company counts as a bank.
   */
  function CompanyIsBank(c: Company): (bank: bool)
    ensures !bank
  {
    BankFlag("")
  }

  /** `company.country.strip().upper() == "IT"`, compared one character at a time. */
  predicate InItaly(c: Company) {
    var u := Upper(Strip(c.country));
    |u| == 2 && u[0] == 'I' && u[1] == 'T'
  }

  predicate GnEligible(c: Company) {
    InItaly(c) && !CompanyIsBank(c)
  }

  /** `_gn_company_candidates`: the loop runs over `_active_companies(companies)`. */
  method GnCompanyCandidates(companies: seq<Company>) returns (candidates: seq<Company>)
    ensures candidates == Filter(Filter(companies, Listed), GnEligible)
  {
    var active := ActiveCompanies(companies);
    candidates := KeepGnEligible(active);
  }

  /** The body of that loop: skip companies outside Italy, and banks. */
  method KeepGnEligible(active: seq<Company>) returns (candidates: seq<Company>)
    ensures candidates == Filter(active, GnEligible)
  {
    candidates := [];
    for i := 0 to |active|
      invariant candidates == Filter(active[..i], GnEligible)
    {
      FilterSnoc(active, i, GnEligible);
      var company := active[i];
      if !InItaly(company) || CompanyIsBank(company) {
        continue;
      }
      candidates := candidates + [company];
    }
    assert active[..|active|] == active;
  }

  /**
   * The candidates are the listed Italian companies, in roster order: every
   * one of them and nothing else.
   */
  lemma GnCandidatesSpec(companies: seq<Company>)
    ensures IsSubsequence(Filter(Filter(companies, Listed), GnEligible), companies)
    ensures forall c :: c in Filter(Filter(companies, Listed), GnEligible) <==>
      c in companies && Pipeline.CompanyIsActive(c) && c.name != "" && InItaly(c)
  {
    var active := Filter(companies, Listed);
    FilterSpec(companies, Listed);
    FilterSpec(active, GnEligible);
    SubsequenceTransitive(Filter(active, GnEligible), active, companies);
  }

  // ---------------------------------------------------------------------
  // The seed
  // ---------------------------------------------------------------------

  /**
   * `_seed_to_int`. `digest64(v)` stands for the first 16 hexadecimal
   * digits of the SHA-256 digest of `v`, read as a number.
   */
  function SeedToInt(seed: string, digest64: string -> nat): int {
    if seed == "" then 0
    else
      var value := Strip(seed);
      if value == "" then 0
      else if |value| >= 10 && ParseIsoDateTime(value[..10]).Some? then
        Ordinal(ParseIsoDateTime(value[..10]).value.date)
      else if ParseInt(value).Some? then ParseInt(value).value
      else digest64(value)
  }

  /** A missing or blank seed is 0. */
  lemma SeedBlank(seed: string, digest64: string -> nat)
    requires IsBlank(seed)
    ensures SeedToInt(seed, digest64) == 0
  {
    StripEmptyIffBlank(seed);
  }

  /** A seed whose first ten characters form an ISO date is that date's ordinal. */
  lemma SeedDate(seed: string, digest64: string -> nat, d: Date)
    requires |Strip(seed)| >= 10 && ParseDate(Strip(seed)[..10]) == Some(d)
    ensures SeedToInt(seed, digest64) == Ordinal(d)
  {
    var value := Strip(seed);
    assert value[..10][..10] == value[..10];
  }

  /** An integer seed is its own value: no decimal numeral reads as a date. */
  lemma SeedInteger(n: int, digest64: string -> nat)
    ensures SeedToInt(IntToString(n), digest64) == n
  {
    var s := IntToString(n);
    assert s == if n < 0 then "-" + NatToString(-n) else NatToString(n);
    assert s[0] == '-' || IsDigit(s[0]);
    assert IsDigit(s[|s| - 1]);
    StripNoEdgeSpace(s);
    if |s| >= 10 {
      assert IsDigit(s[4]);
      assert s[..10][4] == s[4];
      assert ParseDate(s[..10][..10]).None?;
    }
    ParseIntToString(n);
  }

  // ---------------------------------------------------------------------
  // Rolling window
  // ---------------------------------------------------------------------

  /** `_rolling_window`: `cap` items from `start`, wrapping around the end. */
  function RollingWindow<T>(items: seq<T>, cap: int, start: int): (r: seq<T>)
    ensures cap >= |items| ==> r == items
  {
    if cap >= |items| then items
    else
      var end := start + cap;
      if end <= |items| then PySlice(items, start, end)
      else PySlice(items, start, |items|) + PySlice(items, 0, end - |items|)
  }

  lemma ModOnce(x: int, n: int)
    requires 0 < n <= x < 2 * n
    ensures x % n == x - n
  {
    assert x == n * 1 + (x - n);
  }

  /** A short window is one slice, or the tail followed by the head. */
  lemma RollingWindowShape<T>(items: seq<T>, cap: int, start: int)
    requires 0 <= start < |items| && 0 <= cap < |items|
    ensures start + cap <= |items| ==> RollingWindow(items, cap, start) == items[start..start + cap]
    ensures start + cap > |items| ==>
      RollingWindow(items, cap, start) == items[start..] + items[..start + cap - |items|]
  {
    if start + cap > |items| {
      assert PySlice(items, start, |items|) == items[start..];
      assert PySlice(items, 0, start + cap - |items|) == items[..start + cap - |items|];
    }
  }

  /** Element `i` of a short window is the item `i` places after `start`, cyclically. */
  lemma RollingWindowAt<T>(items: seq<T>, cap: int, start: int)
    requires 0 <= start < |items| && 0 <= cap < |items|
    ensures |RollingWindow(items, cap, start)| == cap
    ensures forall i | 0 <= i < cap :: RollingWindow(items, cap, start)[i] == items[(start + i) % |items|]
  {
    RollingWindowShape(items, cap, start);
    CyclicAt(items, RollingWindow(items, cap, start), cap, start);
  }

  lemma CyclicAt<T>(items: seq<T>, r: seq<T>, cap: int, start: int)
    requires 0 <= start < |items| && 0 <= cap < |items|
    requires start + cap <= |items| ==> r == items[start..start + cap]
    requires start + cap > |items| ==> r == items[start..] + items[..start + cap - |items|]
    ensures |r| == cap
    ensures forall i | 0 <= i < cap :: r[i] == items[(start + i) % |items|]
  {
    var n := |items|;
    forall i | 0 <= i < cap
      ensures r[i] == items[(start + i) % n]
    {
      if start + i < n {
        ModSmall(start + i, n);
        if start + cap > n {
          assert r[i] == items[start..][i];
        }
      } else {
        ModOnce(start + i, n);
        assert r[i] == items[..start + cap - n][start + i - n];
      }
    }
  }

  lemma ModSmall(x: int, n: int)
    requires 0 <= x < n
    ensures x % n == x
  {
  }

  /** A window takes `min(cap, n)` items from distinct positions. */
  lemma RollingWindowSubset<T>(items: seq<T>, cap: int, start: int)
    requires 0 <= start < |items| && 0 <= cap
    ensures |RollingWindow(items, cap, start)| == if cap < |items| then cap else |items|
    ensures multiset(RollingWindow(items, cap, start)) <= multiset(items)
  {
    if cap < |items| {
      RollingWindowShape(items, cap, start);
      CyclicSubset(items, RollingWindow(items, cap, start), cap, start);
    }
  }

  lemma CyclicSubset<T>(items: seq<T>, r: seq<T>, cap: int, start: int)
    requires 0 <= start < |items| && 0 <= cap < |items|
    requires start + cap <= |items| ==> r == items[start..start + cap]
    requires start + cap > |items| ==> r == items[start..] + items[..start + cap - |items|]
    ensures |r| == cap && multiset(r) <= multiset(items)
  {
    var n, end := |items|, start + cap;
    if end <= n {
      assert items == items[..start] + items[start..end] + items[end..];
    } else {
      var e := end - n;
      assert items == items[..e] + items[e..start] + items[start..];
    }
  }

  // ---------------------------------------------------------------------
  // Selection modes
  // ---------------------------------------------------------------------

  /** `_parse_revenue_value`, with the float parse modelled on integers: other text is 0. */
  function RevenueValue(value: string): int {
    if value == "" then 0
    else
      var parsed := ParseInt(Strip(RemoveChar(value, ',')));
      if parsed.Some? then parsed.value else 0
  }

  /** Ascending company id, the first sort key. */
  predicate IdOrder(a: Company, b: Company) {
    LexLe(a.companyId, b.companyId)
  }

  /** Descending revenue (`reverse=True` keeps ties in input order). */
  predicate RevenueOrder(a: Company, b: Company) {
    RevenueValue(a.revenueEur) >= RevenueValue(b.revenueEur)
  }

  lemma OrdersArePreorders()
    ensures TotalPreorder(IdOrder) && TotalPreorder(RevenueOrder)
  {
    forall a, b ensures IdOrder(a, b) || IdOrder(b, a) {
      LexLeTotal(a.companyId, b.companyId);
    }
    forall a, b, c | IdOrder(a, b) && IdOrder(b, c) ensures IdOrder(a, c) {
      LexLeTransitive(a.companyId, b.companyId, c.companyId);
    }
  }

  /** The order `_select_top_revenue` builds: sorted by id, then stably by revenue, descending. */
  function RevenueRanking(companies: seq<Company>): seq<Company> {
    SortBy(SortBy(companies, IdOrder), RevenueOrder)
  }

  /** The ranking is a permutation ordered by revenue descending, then id ascending. */
  lemma RevenueRankingSpec(companies: seq<Company>)
    ensures multiset(RevenueRanking(companies)) == multiset(companies)
    ensures var r := RevenueRanking(companies);
      forall i, j | 0 <= i < j < |r| ::
        || RevenueValue(r[i].revenueEur) > RevenueValue(r[j].revenueEur)
        || (RevenueValue(r[i].revenueEur) == RevenueValue(r[j].revenueEur) && LexLe(r[i].companyId, r[j].companyId))
  {
    var byId := SortBy(companies, IdOrder);
    OrdersArePreorders();
    SortBySorted(companies, IdOrder);
    SortBySorted(byId, RevenueOrder);
    SortByTies(byId, IdOrder, RevenueOrder);
  }

  function SelectTopRevenue(companies: seq<Company>, cap: int): seq<Company> {
    PySlice(RevenueRanking(companies), 0, cap)
  }

  /** `random.Random(n).shuffle` is some permutation, chosen by the number `n`. */
  ghost predicate IsShuffle(shuffle: (int, seq<Company>) -> seq<Company>) {
    forall n, xs :: multiset(shuffle(n, xs)) == multiset(xs)
  }

  function SelectRandom(companies: seq<Company>, cap: int, seed: string, digest64: string -> nat,
                        shuffle: (int, seq<Company>) -> seq<Company>): seq<Company> {
    PySlice(shuffle(SeedToInt(seed, digest64), SortBy(companies, IdOrder)), 0, cap)
  }

  /** `_select_rolling`: the window starts at the seed modulo the roster size, over the id order. */
  function SelectRolling(companies: seq<Company>, cap: int, seed: string, digest64: string -> nat): seq<Company> {
    var ordered := SortBy(companies, IdOrder);
    if ordered == [] then []
    else if cap >= |ordered| then ordered
    else RollingWindow(ordered, cap, SeedToInt(seed, digest64) % |ordered|)
  }

  /** `_select_gn_companies`: an unknown mode falls back to top revenue. */
  function SelectGnCompanies(companies: seq<Company>, cap: int, mode: string, seed: string,
                             digest64: string -> nat, shuffle: (int, seq<Company>) -> seq<Company>): seq<Company> {
    if cap <= 0 || companies == [] then []
    else if mode == "random" then SelectRandom(companies, cap, seed, digest64, shuffle)
    else if mode == "rolling" then SelectRolling(companies, cap, seed, digest64)
    else SelectTopRevenue(companies, cap)
  }

  lemma PrefixSubset(xs: seq<Company>, cap: int)
    requires cap > 0
    ensures |PySlice(xs, 0, cap)| == if cap < |xs| then cap else |xs|
    ensures multiset(PySlice(xs, 0, cap)) <= multiset(xs)
  {
    var k := if cap < |xs| then cap else |xs|;
    assert PySlice(xs, 0, cap) == xs[..k];
    assert xs == xs[..k] + xs[k..];
  }

  /** Every mode returns `min(cap, n)` companies drawn from distinct roster positions. */
  lemma SelectGnCompaniesSpec(companies: seq<Company>, cap: int, mode: string, seed: string,
                              digest64: string -> nat, shuffle: (int, seq<Company>) -> seq<Company>)
    requires IsShuffle(shuffle)
    ensures var r := SelectGnCompanies(companies, cap, mode, seed, digest64, shuffle);
      && |r| == (if cap <= 0 then 0 else if cap < |companies| then cap else |companies|)
      && multiset(r) <= multiset(companies)
  {
    if cap > 0 && companies != [] {
      var ordered := SortBy(companies, IdOrder);
      assert |ordered| == |companies| by {
        assert |multiset(ordered)| == |multiset(companies)|;
      }
      if mode == "random" {
        var shuffled := shuffle(SeedToInt(seed, digest64), ordered);
        assert |shuffled| == |companies| by {
          assert |multiset(shuffled)| == |multiset(ordered)|;
        }
        PrefixSubset(shuffled, cap);
      } else if mode == "rolling" {
        if cap < |ordered| {
          RollingWindowSubset(ordered, cap, SeedToInt(seed, digest64) % |ordered|);
        }
      } else {
        RevenueRankingSpec(companies);
        var ranked := RevenueRanking(companies);
        assert |ranked| == |companies| by {
          assert |multiset(ranked)| == |multiset(companies)|;
        }
        PrefixSubset(ranked, cap);
      }
    }
  }

  /** The revenue text of a number reads back as that number. */
  lemma RevenueNumeral(n: nat)
    ensures RevenueValue(NatToString(n)) == n
  {
    var s := NatToString(n);
    RemoveCharAbsent(s, ',');
    assert IsDigit(s[0]) && IsDigit(s[|s| - 1]);
    StripNoEdgeSpace(s);
    ParseNonNegative(n);
  }

  /**
   * Three companies with ascending ids and revenues 100, 200 and 150: a cap
   * of 2 selects the second, then the third.
   */
  lemma TopRevenueExample(a: Company, b: Company, c: Company)
    requires LexLe(a.companyId, b.companyId) && LexLe(b.companyId, c.companyId)
    requires RevenueValue(a.revenueEur) == 100 && RevenueValue(b.revenueEur) == 200
    requires RevenueValue(c.revenueEur) == 150
    ensures SelectTopRevenue([a, b, c], 2) == [b, c]
  {
    LexLeTransitive(a.companyId, b.companyId, c.companyId);
    TopTwoOfThree(a, b, c);
  }

  lemma TopTwoOfThree(a: Company, b: Company, c: Company)
    requires IdOrder(a, b) && IdOrder(b, c) && IdOrder(a, c)
    requires !RevenueOrder(a, b) && RevenueOrder(b, c) && !RevenueOrder(a, c)
    ensures SelectTopRevenue([a, b, c], 2) == [b, c]
  {
    RankingOfThree(a, b, c);
    assert [b, c, a][0..2] == [b, c];
  }

  lemma RankingOfThree(a: Company, b: Company, c: Company)
    requires IdOrder(a, b) && IdOrder(b, c) && IdOrder(a, c)
    requires !RevenueOrder(a, b) && RevenueOrder(b, c) && !RevenueOrder(a, c)
    ensures RevenueRanking([a, b, c]) == [b, c, a]
  {
    SortThreeInOrder(a, b, c, IdOrder);
    SortThreeRotated(a, b, c, RevenueOrder);
  }
}
