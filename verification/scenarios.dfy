/** End-to-end cases of `index_document` (parser.py:44-90) worked through
    the model. */
module Scenarios {
  import opened Wrappers
  import opened Citation
  import opened Indexer

  lemma CleanBackground(translit: string -> string)
    requires translit("Background info[3].") == "Background info[3]."
    ensures Clean("Background info[3].", translit) == "Background info."
  {
    BackgroundParts();
    StripSingleCitation("Background info", "", '3', ".");
    NoBracketUnchanged(".");
  }

  lemma BackgroundParts()
    ensures "Background info[3]." == "Background info" + "" + ['[', '3', ']'] + "."
    ensures "Background info" + "." == "Background info."
    ensures PlainBefore("Background info", "")
  {
  }

  lemma CleanMethods(translit: string -> string)
    requires translit("We did X[4-8].") == "We did X[4-8]."
    ensures Clean("We did X[4-8].", translit) == "We did X."
  {
    MethodsParts();
    StripRangeCitation("We did X", "", "4", "8", ".");
    NoBracketUnchanged(".");
  }

  lemma MethodsParts()
    ensures "We did X[4-8]." == "We did X" + "" + ("[" + "4" + "-" + "8" + "]") + "."
    ensures "We did X" + "." == "We did X."
    ensures PlainBefore("We did X", "") && AllDigits("4") && AllDigits("8")
  {
  }

  /** Two body paragraphs that carry the same pmc and no pmid: the record is
      keyed by the pmc, pmid is -1, the reference lists are concatenated and
      the two cleaned texts are joined by a blank line. Derived from the
      general properties of `IndexDocument`; with the texts
      "Background info[3]." and "We did X[4-8]." the cleaned texts are those
      of `CleanBackground` and `CleanMethods`. */
  lemma TwoBodyParagraphs(pmc: string, s1: string, t1: string, r1: seq<string>,
                          s2: string, t2: string, r2: seq<string>, translit: string -> string)
    requires pmc != "" && s1 != "" && t1 != "" && s2 != "" && t2 != ""
    ensures IndexDocument([
        Paragraph(None, Some(pmc), Some(s1), Some(t1), Some(r1)),
        Paragraph(None, Some(pmc), Some(s2), Some(t2), Some(r2))],
        translit)
      == Assembled(Record(Some("pmc" + pmc), MinusOne, Given(pmc), r1 + r2,
                          Clean(t1, translit) + "\n\n" + Clean(t2, translit)))
  {
    var p1 := Paragraph(None, Some(pmc), Some(s1), Some(t1), Some(r1));
    var p2 := Paragraph(None, Some(pmc), Some(s2), Some(t2), Some(r2));
    var ps := [p1, p2];
    assert !MissingField(ps[0]) && !MissingField(ps[1]);
    var r := IndexDocument(ps, translit).record;

    StoredIdIsFirstTruthy(ps, translit, Pmid);
    assert !HasKey(ps, Pmid);
    assert r.pmid == MinusOne;
    StoredIdIsFirstTruthy(ps, translit, Pmc);
    assert FirstTruthyAt(ps, Pmc, 0);
    assert r.pmc == Given(pmc);
    CanonicalIdPrecedence(ps, translit);
    assert HasKey(ps, Pmc);
    assert r.id == Some("pmc" + pmc);

    RefIdsConcatenated(ps, translit);
    assert ps[1..] == [p2] && ps[1..][1..] == [];
    assert RefLists(ps) == [r1, r2];
    assert Seqs.Flatten([r1, r2]) == r1 + r2 by {
      assert [r1, r2][1..] == [r2];
      assert [r2][1..] == [];
      assert Seqs.Flatten([r2]) == r2 + Seqs.Flatten([]) == r2;
    }

    TextIsJoinOfQualifying(ps, translit);
    assert Seqs.Filter(ps, Qualifies) == ps;
    var c1 := Clean(t1, translit);
    var c2 := Clean(t2, translit);
    assert QualifyingTexts(ps, translit) == [c1, c2];
    assert Seqs.Join([c1, c2], "\n\n") == c1 + "\n\n" + c2 by {
      assert [c1, c2][1..] == [c2];
    }
  }

  /** A paragraph without a section key makes the whole article a skip, even
      after a complete paragraph. */
  lemma MissingSectionSkips(translit: string -> string)
    ensures IndexDocument([
        Paragraph(Some("1"), None, Some("Intro"), Some("Text."), Some([])),
        Paragraph(Some("1"), None, None, Some("More."), Some([]))],
        translit) == Skip
  {
    var ps := [
        Paragraph(Some("1"), None, Some("Intro"), Some("Text."), Some([])),
        Paragraph(Some("1"), None, None, Some("More."), Some([]))];
    assert MissingField(ps[1]);
  }
}
