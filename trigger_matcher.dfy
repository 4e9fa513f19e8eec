/** Keyword matching of triggers against article text (`match_triggers`). */
module TriggerMatcher {
  import opened Text
  import opened Seqs
  import opened Schemas

  /** A trigger fires when one of its keywords, lowercased, occurs in the lowercased text. */
  predicate Fires(text: string, t: Trigger) {
    exists k | 0 <= k < |t.keywords| :: Contains(Lower(text), Lower(t.keywords[k]))
  }

  /** The triggers that fire, in input order: the specification of `MatchTriggers`. */
  function FiringTriggers(text: string, triggers: seq<Trigger>): (r: seq<Trigger>)
    decreases |triggers|
  {
    if triggers == [] then []
    else
      var init := FiringTriggers(text, triggers[..|triggers| - 1]);
      var t := triggers[|triggers| - 1];
      if Fires(text, t) then init + [t] else init
  }

  /** Lowers the text once, then scans each trigger's keywords and stops at the first hit. */
  method MatchTriggers(text: string, triggers: seq<Trigger>) returns (matched: seq<Trigger>)
    ensures matched == FiringTriggers(text, triggers)
  {
    var haystack := Lower(text);
    matched := [];
    var i := 0;
    while i < |triggers|
      invariant 0 <= i <= |triggers|
      invariant matched == FiringTriggers(text, triggers[..i])
    {
      var trigger := triggers[i];
      var hit := false;
      var j := 0;
      while j < |trigger.keywords|
        invariant 0 <= j <= |trigger.keywords|
        invariant !hit ==> forall k | 0 <= k < j :: !Contains(haystack, Lower(trigger.keywords[k]))
        invariant hit ==> Fires(text, trigger)
      {
        if Contains(haystack, Lower(trigger.keywords[j])) {
          hit := true;
          break;
        }
        j := j + 1;
      }
      if hit {
        matched := matched + [trigger];
      }
      assert triggers[..i + 1][..i] == triggers[..i];
      i := i + 1;
    }
    assert triggers[..i] == triggers;
  }

  /** A trigger is reported iff it is one of the input triggers and fires. */
  lemma {:induction false} FiringTriggersIff(text: string, triggers: seq<Trigger>, t: Trigger)
    ensures t in FiringTriggers(text, triggers) <==> t in triggers && Fires(text, t)
    decreases |triggers|
  {
    if triggers != [] {
      var init := triggers[..|triggers| - 1];
      FiringTriggersIff(text, init, t);
      assert triggers == init + [triggers[|triggers| - 1]];
    }
  }

  /** The result keeps input order: it is a subsequence of the input, hence no longer than it. */
  lemma {:induction false} FiringTriggersSubsequence(text: string, triggers: seq<Trigger>)
    ensures IsSubsequence(FiringTriggers(text, triggers), triggers)
    ensures |FiringTriggers(text, triggers)| <= |triggers|
    decreases |triggers|
  {
    if triggers != [] {
      var init := triggers[..|triggers| - 1];
      var t := triggers[|triggers| - 1];
      FiringTriggersSubsequence(text, init);
      assert triggers == init + [t];
      SubsequenceSnoc(FiringTriggers(text, init), init, t);
    }
    SubsequenceLength(FiringTriggers(text, triggers), triggers);
  }

  /**
   * Each occurrence of a firing trigger is reported exactly once, however
   * many of its keywords match; a trigger that does not fire is never reported.
   */
  lemma {:induction false} FiringTriggersOnce(text: string, triggers: seq<Trigger>, t: Trigger)
    ensures multiset(FiringTriggers(text, triggers))[t] == if Fires(text, t) then multiset(triggers)[t] else 0
    decreases |triggers|
  {
    if triggers != [] {
      var init := triggers[..|triggers| - 1];
      FiringTriggersOnce(text, init, t);
      assert triggers == init + [triggers[|triggers| - 1]];
    }
  }

  /** A trigger without keywords never fires. */
  lemma NoKeywordsNeverFires(text: string, t: Trigger)
    requires t.keywords == []
    ensures !Fires(text, t)
  {
  }

  /** An empty keyword fires on every text. */
  lemma EmptyKeywordFires(text: string, t: Trigger)
    requires "" in t.keywords
    ensures Fires(text, t)
  {
    var k :| 0 <= k < |t.keywords| && t.keywords[k] == "";
    ContainsEmpty(Lower(text));
  }

  /**
   * Case plays no part on either side: texts that agree up to case, and
   * triggers whose keywords agree one by one up to case, fire alike; in
   * particular lowering (or, by `LowerUpper`, upper-casing) the text changes nothing.
   */
  lemma FiresIgnoresCase(text: string, text': string, t: Trigger, t': Trigger)
    requires Lower(text') == Lower(text)
    requires |t'.keywords| == |t.keywords|
    requires forall k | 0 <= k < |t.keywords| :: Lower(t'.keywords[k]) == Lower(t.keywords[k])
    ensures Fires(text', t') <==> Fires(text, t)
    ensures Fires(text, t) <==> Fires(Lower(text), t)
  {
    LowerIdempotent(text);
    if Fires(text, t) {
      var k :| 0 <= k < |t.keywords| && Contains(Lower(text), Lower(t.keywords[k]));
      assert Contains(Lower(text'), Lower(t'.keywords[k]));
    }
    if Fires(text', t') {
      var k :| 0 <= k < |t'.keywords| && Contains(Lower(text'), Lower(t'.keywords[k]));
      assert Contains(Lower(text), Lower(t.keywords[k]));
    }
  }

  /** A keyword written inside a text, in any letter case, is found in it. */
  lemma LowerOccurs(a: string, w: string, b: string, keyword: string)
    requires Lower(w) == Lower(keyword)
    ensures Contains(Lower(a + w + b), Lower(keyword))
  {
    LowerConcat(a + w, b);
    LowerConcat(a, w);
    ContainsAt(Lower(a + w + b), Lower(keyword), |a|);
  }

  /** The two-trigger example: one article mentioning an acquisition and a new CEO fires both. */
  lemma AcquisitionAndCeoExample()
    ensures
      var t1 := Trigger("t001", "Acquisizione", ["acquisizione", "M&A"], "high", "M&A events");
      var t2 := Trigger("t002", "Cambio CEO", ["nuovo CEO", "CEO change"], "medium", "Leadership change");
      var text := "NordWind completa " + "acquisizione" + " di SolarPeak con " + "nuovo CEO" + " in carica.";
      FiringTriggers(text, [t1, t2]) == [t1, t2]
  {
    var text := "NordWind completa " + "acquisizione" + " di SolarPeak con " + "nuovo CEO" + " in carica.";
    var t1 := Trigger("t001", "Acquisizione", ["acquisizione", "M&A"], "high", "M&A events");
    var t2 := Trigger("t002", "Cambio CEO", ["nuovo CEO", "CEO change"], "medium", "Leadership change");
    var before1, after1 := "NordWind completa ", " di SolarPeak con " + "nuovo CEO" + " in carica.";
    assert text == before1 + t1.keywords[0] + after1;
    LowerOccurs(before1, t1.keywords[0], after1, t1.keywords[0]);
    assert Fires(text, t1);
    var before2, after2 := "NordWind completa " + "acquisizione" + " di SolarPeak con ", " in carica.";
    assert text == before2 + t2.keywords[0] + after2;
    LowerOccurs(before2, t2.keywords[0], after2, t2.keywords[0]);
    assert Fires(text, t2);
    assert [t1, t2][..1] == [t1];
    assert [t1][..0] == [];
    assert FiringTriggers(text, [t1]) == [t1];
  }
}
