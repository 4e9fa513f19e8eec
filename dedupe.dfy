/**
 * The parts of an alert's dedupe key: the normalised title, the UTC
 * publication date, and the key `company|trigger|date|title` itself
 * (`_normalize_title`, `_published_date`, `_build_dedupe_key`).
 */
module Dedupe {
  import opened Wrappers
  import opened Text
  import opened Calendar

  // ---------------------------------------------------------------------
  // Title normalisation
  // ---------------------------------------------------------------------

  /** Keeps letters, digits and whitespace; every other character becomes a space. */
  function CleanChar(c: char): (r: char)
    ensures IsAlnum(r) || IsSpace(r)
    ensures IsAlnum(c) || IsSpace(c) ==> r == c
  {
    if IsAlnum(c) || IsSpace(c) then c else ' '
  }

  function Clean(s: string): (r: string)
    ensures |r| == |s| && forall i | 0 <= i < |s| :: r[i] == CleanChar(s[i])
  {
    seq(|s|, i requires 0 <= i < |s| => CleanChar(s[i]))
  }

  /** The shape of a normalised title: lower-case letters and digits separated by single spaces. */
  predicate IsNormalTitle(r: string) {
    && Collapsed(r)
    && forall i | 0 <= i < |r| :: r[i] == ' ' || (IsAlnum(r[i]) && !IsUpperAscii(r[i]))
  }

  /** Strip, lower, blank out punctuation, collapse whitespace. */
  function NormalizeCore(title: string): string {
    Collapse(Clean(Lower(Strip(title))))
  }

  /** `_normalize_title`. */
  function NormalizeTitle(title: string): (r: string)
    ensures IsNormalTitle(r)
  {
    NormalizeShape(title);
    if title == "" then "" else NormalizeCore(title)
  }

  lemma NormalizeShape(title: string)
    ensures IsNormalTitle(NormalizeCore(title))
  {
    var cleaned := Clean(Lower(Strip(title)));
    CollapseShape(cleaned);
    var r := Collapse(cleaned);
    forall i | 0 <= i < |r|
      ensures r[i] == ' ' || (IsAlnum(r[i]) && !IsUpperAscii(r[i]))
    {
      if r[i] != ' ' {
        assert r[i] in cleaned;
        var j :| 0 <= j < |cleaned| && cleaned[j] == r[i];
        assert !IsSpace(r[i]);
      }
    }
  }

  /** The empty-title guard changes nothing: the full pipeline maps "" to "" as well. */
  lemma NormalizeTitleIsCore(title: string)
    ensures NormalizeTitle(title) == NormalizeCore(title)
  {
    if title == "" {
      NormalizeCoreEmpty();
    }
  }

  lemma NormalizeCoreEmpty()
    ensures NormalizeCore("") == ""
  {
    assert Strip("") == [];
    assert Clean(Lower([])) == [];
    assert Words([]) == [];
  }

  /** Normalising twice is normalising once. */
  lemma NormalizeTitleIdempotent(title: string)
    ensures NormalizeTitle(NormalizeTitle(title)) == NormalizeTitle(title)
  {
    var r := NormalizeTitle(title);
    if r != "" {
      CollapsedStrip(r);
      LoweredFixpoint(r);
      assert Clean(r) == r;
      CollapseFixpoint(r);
    }
  }

  /** Titles that differ only in letter case normalise alike. */
  lemma NormalizeTitleIgnoresCase(a: string, b: string)
    requires Lower(a) == Lower(b)
    ensures NormalizeTitle(a) == NormalizeTitle(b)
  {
    NormalizeTitleIsCore(a);
    NormalizeTitleIsCore(b);
    LowerStrip(a);
    LowerStrip(b);
  }

  lemma CleanLowerConcat(a: string, b: string)
    ensures Clean(Lower(a + b)) == Clean(Lower(a)) + Clean(Lower(b))
  {
    LowerConcat(a, b);
  }

  lemma CleanLowerBlank(t: string)
    requires IsBlank(t)
    ensures IsBlank(Clean(Lower(t)))
  {
  }

  /** Normalising ignores whatever whitespace the strip removes at the end. */
  lemma NormalizeLStripped(title: string)
    ensures Collapse(Clean(Lower(LStrip(title)))) == NormalizeCore(title)
  {
    var left := LStrip(title);
    var core := RStrip(left);
    var tail := left[|core|..];
    RStripSplit(left);
    var a, b := Clean(Lower(core)), Clean(Lower(tail));
    assert Clean(Lower(left)) == a + b by { CleanLowerConcat(core, tail); }
    CleanLowerBlank(tail);
    CollapseBlankSuffix(a, b);
  }

  lemma CleanLowerMark(s: string, c: char)
    requires !IsAlnum(c) && !IsSpace(c)
    ensures Clean(Lower(s + [c])) == Clean(Lower(s)) + [' ']
  {
    CleanLowerConcat(s, [c]);
    assert Lower([c]) == [LowerChar(c)];
    assert Clean(Lower([c])) == [' '];
  }

  lemma NormalizeCoreTrailingMark(title: string, c: char)
    requires !IsAlnum(c) && !IsSpace(c)
    ensures NormalizeCore(title + [c]) == NormalizeCore(title)
  {
    var left := LStrip(title);
    StripNonSpaceEdges(title, [c]);
    CollapseMark(left, c);
    NormalizeLStripped(title);
  }

  /** The space a trailing mark becomes is collapsed away. */
  lemma CollapseMark(s: string, c: char)
    requires !IsAlnum(c) && !IsSpace(c)
    ensures Collapse(Clean(Lower(s + [c]))) == Collapse(Clean(Lower(s)))
  {
    CleanLowerMark(s, c);
    assert IsBlank([' ']);
    CollapseBlankSuffix(Clean(Lower(s)), [' ']);
  }

  /** A trailing punctuation mark is dropped. */
  lemma NormalizeTitleTrailingMark(title: string, c: char)
    requires !IsAlnum(c) && !IsSpace(c)
    ensures NormalizeTitle(title + [c]) == NormalizeTitle(title)
  {
    NormalizeTitleIsCore(title);
    NormalizeTitleIsCore(title + [c]);
    NormalizeCoreTrailingMark(title, c);
  }

  /**
   * The cross-provider pair: an upper-cased copy of a title with an
   * exclamation mark appended normalises to the same string, as
   * "ACQUISIZIONE DI ALPHA ENERGIA!" does to "Acquisizione di Alpha Energia".
   */
  lemma NormalizeTitleShouted(title: string)
    ensures NormalizeTitle(Upper(title) + "!") == NormalizeTitle(title)
  {
    NormalizeTitleTrailingMark(Upper(title), '!');
    LowerUpper(title);
    NormalizeTitleIgnoresCase(Upper(title), title);
  }

  lemma CrossProviderTitles()
    ensures NormalizeTitle(Upper("Acquisizione di Alpha Energia") + "!")
         == NormalizeTitle("Acquisizione di Alpha Energia")
  {
    NormalizeTitleShouted("Acquisizione di Alpha Energia");
  }

  // ---------------------------------------------------------------------
  // Publication date
  // ---------------------------------------------------------------------

  /**
   * The pattern `^\\d{4}-\\d{2}-\\d{2}$` written as a raw string: it matches
   * the thirteen characters `\dddd-\dd-\dd` literally, optionally followed
   * by a line break (where `$` also matches).
   */
  const DatePrefixLiteral: string := "\\dddd-\\dd-\\dd"

  predicate DatePrefixMatches(c: string) {
    c == DatePrefixLiteral || c == DatePrefixLiteral + "\n"
  }

  /** No ten-character candidate matches the prefix pattern. */
  lemma DatePrefixNeverMatches(c: string)
    requires |c| == 10
    ensures !DatePrefixMatches(c)
  {
    assert |DatePrefixLiteral| == 13;
  }

  /** A trailing `Z` is rewritten to `+00:00`. */
  function ZuluToOffset(value: string): (r: string)
    ensures !EndsWith(value, "Z") ==> r == value
  {
    if EndsWith(value, "Z") then value[..|value| - 1] + "+00:00" else value
  }

  /** The first ten characters (`value[:10]`). */
  function Prefix10(value: string): (r: string)
    ensures |r| == if |value| < 10 then |value| else 10
  {
    if |value| < 10 then value else value[..10]
  }

  /** The UTC day of a timestamp the restricted ISO grammar accepts. */
  function UtcDayOf(cleaned: string): (r: Option<Date>)
    ensures r.Some? ==> ValidDate(r.value)
  {
    match ParseIsoDateTime(cleaned)
    case None => None
    case Some(dt) => Some(UtcDate(dt))
  }

  /** The fallback for unparseable values: the ten-character prefix never matches the pattern. */
  function PrefixFallback(value: string): (r: string)
    ensures r == "unknown"
  {
    var candidate := Prefix10(value);
    if |candidate| == 10 && DatePrefixMatches(candidate) then candidate
    else "unknown"
  }

  /** The date of an already stripped, non-empty value. */
  function DateOfValue(value: string): (r: string)
    ensures r == "unknown" || IsIsoDateText(r)
  {
    match UtcDayOf(ZuluToOffset(value))
    case None => PrefixFallback(value)
    case Some(d) => if InPythonRange(d) then FormatDate(d) else "unknown"
  }

  /**
   * `_published_date`: the UTC calendar date of a timestamp as `YYYY-MM-DD`,
   * or "unknown". Naive times count as UTC; aware ones are converted.
   */
  function PublishedDate(publishedAt: string): (r: string)
    ensures r == "unknown" || IsIsoDateText(r)
  {
    if publishedAt == "" then "unknown"
    else
      var value := Strip(publishedAt);
      if value == "" then "unknown" else DateOfValue(value)
  }

  /** Empty and whitespace-only timestamps have an unknown date. */
  lemma PublishedDateBlank(publishedAt: string)
    requires IsBlank(publishedAt)
    ensures PublishedDate(publishedAt) == "unknown"
  {
    StripEmptyIffBlank(publishedAt);
  }

  /** A timestamp the restricted ISO grammar rejects has an unknown date: the prefix fallback never fires. */
  lemma PublishedDateUnparseable(publishedAt: string)
    requires ParseIsoDateTime(ZuluToOffset(Strip(publishedAt))).None?
    ensures PublishedDate(publishedAt) == "unknown"
  {
  }

  /** A parsed timestamp yields the UTC day of the instant it names; a naive one keeps its own date. */
  lemma PublishedDateParsed(publishedAt: string, dt: DateTime)
    requires Strip(publishedAt) != ""
    requires ParseIsoDateTime(ZuluToOffset(Strip(publishedAt))) == Some(dt)
    requires InPythonRange(UtcDate(dt))
    ensures ParseDate(PublishedDate(publishedAt)) == Some(UtcDate(dt))
    ensures dt.tz.Naive? ==> ParseDate(PublishedDate(publishedAt)) == Some(dt.date)
  {
    ParseFormatDate(UtcDate(dt));
  }

  lemma StripZ(s: string)
    ensures Strip(s + "Z") == LStrip(s) + "Z"
  {
    StripNonSpaceEdges(s, "Z");
  }

  lemma StripUtcOffset(s: string)
    ensures Strip(s + "+00:00") == LStrip(s) + "+00:00"
  {
    var t := "+00:00";
    assert t[0] == '+' && t[5] == '0';
    StripNonSpaceEdges(s, t);
  }

  lemma ZuluToOffsetZ(left: string)
    ensures ZuluToOffset(left + "Z") == left + "+00:00"
    ensures ZuluToOffset(left + "+00:00") == left + "+00:00"
  {
    assert (left + "Z")[..|left|] == left;
    assert (left + "+00:00")[|left| + 5..] == ['0'];
  }

  lemma PublishedDateOfStripped(publishedAt: string)
    requires Strip(publishedAt) != ""
    ensures PublishedDate(publishedAt) == DateOfValue(Strip(publishedAt))
  {
  }

  lemma DateOfValueZulu(left: string)
    ensures DateOfValue(left + "Z") == DateOfValue(left + "+00:00")
  {
    ZuluToOffsetZ(left);
  }

  /** A trailing `Z` means the same as `+00:00`. */
  lemma PublishedDateZulu(s: string)
    ensures PublishedDate(s + "Z") == PublishedDate(s + "+00:00")
  {
    var left := LStrip(s);
    StripZ(s);
    StripUtcOffset(s);
    PublishedDateOfStripped(s + "Z");
    PublishedDateOfStripped(s + "+00:00");
    DateOfValueZulu(left);
  }

  /** The edges of an ISO date text are digits, so it is unchanged by stripping and has no `Z`. */
  lemma IsoDateTextEdges(s: string)
    requires IsIsoDateText(s)
    ensures Strip(s) == s && !EndsWith(s, "Z") && s != ""
  {
    IsoDateTextChars(s);
    StripNoEdgeSpace(s);
    assert s[9..] == [s[9]];
  }

  /** An ISO date is its own publication date. */
  lemma PublishedDateOfDate(d: Date)
    requires InPythonRange(d)
    ensures PublishedDate(FormatDate(d)) == FormatDate(d)
  {
    var s := FormatDate(d);
    IsoDateTextEdges(s);
    ParseFormatDate(d);
    assert UtcDayOf(s) == Some(d);
    assert DateOfValue(s) == s;
  }

  /**
   * A bare date with a trailing `Z` keeps its date: after the rewrite to
   * `+00:00` the parser reads `+` as the separator and `00:00` as the time.
   */
  lemma PublishedDateOfDateZulu(d: Date)
    requires InPythonRange(d)
    ensures PublishedDate(FormatDate(d) + "Z") == FormatDate(d)
  {
    var s := FormatDate(d);
    IsoDateTextChars(s);
    PublishedDateZuluValue(s);
    DateOfValueDateOffset(d);
  }

  lemma PublishedDateZuluValue(s: string)
    requires s != [] && !IsSpace(s[0])
    ensures PublishedDate(s + "Z") == DateOfValue(s + "+00:00")
  {
    var z := s + "Z";
    assert z[0] == s[0] && z[|z| - 1] == 'Z';
    StripNoEdgeSpace(z);
    PublishedDateOfStripped(z);
    DateOfValueZulu(s);
  }

  lemma DateOfValueDateOffset(d: Date)
    requires InPythonRange(d)
    ensures DateOfValue(FormatDate(d) + "+00:00") == FormatDate(d)
  {
    ZuluToOffsetZ(FormatDate(d));
    ParseDateThenOffset(d);
  }

  // ---------------------------------------------------------------------
  // Dedupe key
  // ---------------------------------------------------------------------

  /** `_build_dedupe_key`: `company|trigger|date|title`. */
  function BuildDedupeKey(companyId: string, triggerId: string, publishedAt: string, title: string): (key: string)
    ensures |key| >= 3
  {
    companyId + "|" + triggerId + "|" + PublishedDate(publishedAt) + "|" + NormalizeTitle(title)
  }

  lemma UnknownFree()
    ensures FreeOf("unknown", '|')
  {
    var u := "unknown";
    assert u == ['u', 'n', 'k', 'n', 'o', 'w', 'n'];
  }

  /** A publication date holds no `|`. */
  lemma PublishedDateFree(publishedAt: string)
    ensures FreeOf(PublishedDate(publishedAt), '|')
  {
    var date := PublishedDate(publishedAt);
    if date == "unknown" {
      UnknownFree();
    } else {
      IsoDateTextChars(date);
    }
  }

  /** The key is the four fields joined with `|`. */
  lemma DedupeKeyFields(companyId: string, triggerId: string, publishedAt: string, title: string)
    requires FreeOf(companyId, '|') && FreeOf(triggerId, '|')
    ensures SplitOn(BuildDedupeKey(companyId, triggerId, publishedAt, title), '|')
         == [companyId, triggerId, PublishedDate(publishedAt), NormalizeTitle(title)]
  {
    var date, norm := PublishedDate(publishedAt), NormalizeTitle(title);
    PublishedDateFree(publishedAt);
    NormalTitleFree(norm);
    KeyOfFields(companyId, triggerId, date, norm);
  }

  /** A normalised title holds no `|`. */
  lemma NormalTitleFree(r: string)
    requires IsNormalTitle(r)
    ensures FreeOf(r, '|')
  {
    forall i | 0 <= i < |r| ensures r[i] != '|' {
      assert r[i] == ' ' || IsAlnum(r[i]);
    }
  }

  /** Four `|`-free fields joined with `|` split back into those fields. */
  lemma KeyOfFields(companyId: string, triggerId: string, date: string, norm: string)
    requires FreeOf(companyId, '|') && FreeOf(triggerId, '|') && FreeOf(date, '|') && FreeOf(norm, '|')
    ensures SplitOn(companyId + "|" + triggerId + "|" + date + "|" + norm, '|') == [companyId, triggerId, date, norm]
  {
    SplitFour(companyId, triggerId, date, norm, '|');
  }

  /** Two alerts share a key exactly when company, trigger, date and normalised title agree. */
  lemma DedupeKeyInjective(c1: string, t1: string, p1: string, title1: string,
                           c2: string, t2: string, p2: string, title2: string)
    requires FreeOf(c1, '|') && FreeOf(t1, '|') && FreeOf(c2, '|') && FreeOf(t2, '|')
    ensures BuildDedupeKey(c1, t1, p1, title1) == BuildDedupeKey(c2, t2, p2, title2)
        <==> c1 == c2 && t1 == t2 && PublishedDate(p1) == PublishedDate(p2)
             && NormalizeTitle(title1) == NormalizeTitle(title2)
  {
    if BuildDedupeKey(c1, t1, p1, title1) == BuildDedupeKey(c2, t2, p2, title2) {
      DedupeKeyFields(c1, t1, p1, title1);
      DedupeKeyFields(c2, t2, p2, title2);
    }
  }
}
