/**
 * The unit test of `import_orbis_xlsx` (tests/unit/test_import_orbis_xlsx.py)
 * stated over the row loop of `OrbisImport`.
 */
module OrbisExamples {
  import opened Wrappers
  import opened Text
  import opened OrbisImport

  /** Non-empty text with no whitespace at either end. */
  predicate Trimmed(t: string) {
    t != [] && !IsSpace(t[0]) && !IsSpace(t[|t| - 1])
  }

  /** A text cell holding trimmed text reads as that text and is not blank. */
  lemma FilledTextCell(t: string)
    requires Trimmed(t)
    ensures CellText(TextCell(t)) == t && ToStr(TextCell(t)) == t && !BlankCell(TextCell(t))
  {
    StripNoEdgeSpace(t);
  }

  /**
   * Two body rows shaped like the unit test's, under its header order: a
   * row with a name, an id, a float revenue and a website, then a row with
   * an id and no name. 2 rows come in, the first is written with its id,
   * no website or revenue is missing, and the second is dropped for
   * "missing_name" with its id.
   */
  lemma TestRowsImport(full: seq<Cell>, noName: seq<Cell>, millions: string -> Option<int>,
                       name: string, id: string, repr: string, site: string, id2: string)
    requires |full| == 7 && full[0] == TextCell(name) && full[1] == TextCell(id)
    requires full[5] == FloatCell(repr, None) && full[6] == TextCell(site)
    requires |noName| == 7 && noName[0] == NoneCell && noName[1] == TextCell(id2)
    requires Trimmed(name) && Trimmed(id) && Trimmed(site) && Trimmed(id2)
    requires millions(repr).Some?
    ensures var r := ImportOf([full, noName], Columns(1, 0, 2, 3, 4, 5, 6), millions);
      r.summary == Summary(2, 1, 0, 0) && |r.written| == 1 && r.written[0].companyId == id
      && r.dropped == [DroppedRow(id2, "", "missing_name")]
  {
    var cols := Columns(1, 0, 2, 3, 4, 5, 6);
    FilledTextCell(name);
    FilledTextCell(id);
    FilledTextCell(site);
    FilledTextCell(id2);
    assert !BlankCell(full[1]) && !BlankCell(noName[1]);
    assert CellAt(full, cols.revenue) == FloatCell(repr, None);
    TwoRowImport(full, noName, cols, millions);
  }

  /**
   * The unit test's two body rows (the cells that decide the outcome are
   * given; the others play no part): 2 rows come in, 1 is written, with id
   * "BVD123", no website or revenue is missing, and the report holds one
   * row, "BVD999" dropped for "missing_name".
   */
  lemma TwoRowExample(full: seq<Cell>, noName: seq<Cell>, millions: string -> Option<int>)
    requires |full| == 7 && full[0] == TextCell("Azienda S.p.A.") && full[1] == TextCell("BVD123")
    requires full[5] == FloatCell("12.5", None) && full[6] == TextCell("www.azienda.it")
    requires |noName| == 7 && noName[0] == NoneCell && noName[1] == TextCell("BVD999")
    requires millions("12.5").Some?
    ensures var r := ImportOf([full, noName], Columns(1, 0, 2, 3, 4, 5, 6), millions);
      r.summary == Summary(2, 1, 0, 0) && |r.written| == 1 && r.written[0].companyId == "BVD123"
      && r.dropped == [DroppedRow("BVD999", "", "missing_name")]
  {
    TestRowsImport(full, noName, millions, "Azienda S.p.A.", "BVD123", "12.5", "www.azienda.it", "BVD999");
  }

  /** "SpA" is the third legal suffix; neither of the two before it, nor the first, has its length. */
  lemma SpaSuffixPlace()
    ensures LegalSuffixes[0].0 == "S.p.A." && LegalSuffixes[2].0 == "SpA"
    ensures forall j | 0 <= j < 2 :: |LegalSuffixes[j].0| != |LegalSuffixes[2].0|
  {
  }

  /** The unit test's company "Azienda S.p.A." has "Azienda SpA" among its aliases. */
  lemma AziendaSpaAlias(name: string)
    requires name == "Azienda S.p.A."
    ensures BaseNameOf(name, LegalSuffixes) == "Azienda"
    ensures "Azienda SpA" in Kept(AliasCandidates(name, LegalSuffixes))
  {
    var base := "Azienda";
    assert base == Strip(base) by {
      assert Trimmed(base);
      StripNoEdgeSpace(base);
    }
    assert OrbisImport.Trimmed(LegalSuffixes) && LowerPairs(LegalSuffixes) by {
      LegalSuffixesSpec();
    }
    assert forall j | 0 <= j < 2 :: |LegalSuffixes[j].0| != |LegalSuffixes[2].0| by {
      SpaSuffixPlace();
    }
    FirstSuffixVariantKept(base, LegalSuffixes, 2);
    AziendaSpellings(base);
  }

  lemma AziendaSpellings(base: string)
    requires base == "Azienda"
    ensures base + " " + LegalSuffixes[0].0 == "Azienda S.p.A."
    ensures base + " " + LegalSuffixes[2].0 == "Azienda SpA"
  {
    SpaSuffixPlace();
  }
}
