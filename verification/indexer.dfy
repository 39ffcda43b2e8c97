/** `MongoIndexer.index_document` (parser.py:44-90) without the database
    insert: from the paragraph records the external parser returns for one
    article, assemble the record that would be stored, or skip the article
    when a paragraph lacks a field the loop reads. */
module Indexer {
  import opened Wrappers
  import opened Seqs
  import Citation

  /** One paragraph record from the parser. Each field is `None` when its key
      is absent from the dictionary. A null section, text or reference list
      is written as the empty value: the source only tests their truthiness
      before using them, and null and empty are both false. */
  datatype Paragraph = Paragraph(
    pmid: Option<string>,
    pmc: Option<string>,
    section: Option<string>,
    text: Option<string>,
    referenceIds: Option<seq<string>>)

  /** The two article identifiers the loop collects. */
  datatype IdKey = Pmid | Pmc

  function IdOf(p: Paragraph, k: IdKey): Option<string>
  {
    match k
    case Pmid => p.pmid
    case Pmc => p.pmc
  }

  /** Python truthiness of an identifier variable: `None` and `""` are false. */
  predicate Truthy(v: Option<string>)
  {
    v.Some? && v.value != ""
  }

  /** A stored identifier: the parser's string, or `-1` when no paragraph had the key. */
  datatype StoredId = MinusOne | Given(value: string)

  /** The dictionary handed to `insert_one` (parser.py:82-90); `id` is the
      optional `_id` key. */
  datatype Record = Record(
    id: Option<string>,
    pmid: StoredId,
    pmc: StoredId,
    refIds: seq<string>,
    text: string)

  /** `Skip` is the `KeyError` the worker catches (parser.py:102-103); the
      worker model calls it `Worker.Skipped`. */
  datatype Outcome = Skip | Assembled(record: Record)

  /** The loop variables of parser.py:46-49 after some paragraphs. */
  datatype ScanState = ScanState(
    pmid: Option<string>,
    pmc: Option<string>,
    refIds: seq<string>,
    segments: seq<string>)

  function IdIn(st: ScanState, k: IdKey): Option<string>
  {
    match k
    case Pmid => st.pmid
    case Pmc => st.pmc
  }

  /** Reading `section`, `text` or `reference_ids` raises `KeyError`. */
  predicate MissingField(p: Paragraph)
  {
    p.section.None? || p.text.None? || p.referenceIds.None?
  }

  /** `if section and text` (parser.py:61): body text, not a heading. */
  predicate Qualifies(p: Paragraph)
  {
    p.section.Some? && p.section.value != "" && p.text.Some? && p.text.value != ""
  }

  function TextOf(p: Paragraph): string
  {
    p.text.GetOr("")
  }

  function RefListOf(p: Paragraph): seq<string>
  {
    p.referenceIds.GetOr([])
  }

  /** `pattern.sub('', unidecode(text))` (parser.py:62). The transliteration
      is a foreign library and is a parameter of the model. */
  function Clean(text: string, translit: string -> string): string
  {
    Citation.Strip(translit(text))
  }

  /** `if not cur and key in para: cur = para[key]` (parser.py:52-55). */
  function TakeId(cur: Option<string>, v: Option<string>): Option<string>
  {
    if !Truthy(cur) && v.Some? then v else cur
  }

  /** One iteration of the loop of parser.py:51-66; `None` is a `KeyError`. */
  function Step(st: ScanState, p: Paragraph, translit: string -> string): Option<ScanState>
  {
    var pmid := TakeId(st.pmid, p.pmid);
    var pmc := TakeId(st.pmc, p.pmc);
    if MissingField(p) then None
    else
      var segments := if Qualifies(p) then st.segments + [Clean(TextOf(p), translit)] else st.segments;
      var refIds := if |RefListOf(p)| > 0 then st.refIds + RefListOf(p) else st.refIds;
      Some(ScanState(pmid, pmc, refIds, segments))
  }

  /** The loop state after all of `paras`, or `None` if some iteration raised. */
  function Scan(paras: seq<Paragraph>, translit: string -> string): Option<ScanState>
    decreases |paras|
  {
    if |paras| == 0 then Some(ScanState(None, None, [], []))
    else
      match Scan(paras[..|paras| - 1], translit)
      case None => None
      case Some(st) => Step(st, paras[|paras| - 1], translit)
  }

  /** parser.py:68-90: join the text, default missing ids to -1 and derive
      `_id`, the pmc assignment coming second. */
  function Assemble(st: ScanState): Record
  {
    var fromPmid := if st.pmid.None? then None else Some("pmid" + st.pmid.value);
    var id := if st.pmc.None? then fromPmid else Some("pmc" + st.pmc.value);
    Record(
      if id.Some? && id.value != "" then id else None,
      if st.pmid.None? then MinusOne else Given(st.pmid.value),
      if st.pmc.None? then MinusOne else Given(st.pmc.value),
      st.refIds,
      Join(st.segments, "\n\n"))
  }

  /** The whole of `index_document` up to the insert. An article is skipped
      exactly when one of its paragraphs lacks a field the loop reads. */
  function IndexDocument(paras: seq<Paragraph>, translit: string -> string): (r: Outcome)
    ensures r.Skip? <==> exists i :: 0 <= i < |paras| && MissingField(paras[i])
  {
    ScanFailsIff(paras, translit);
    match Scan(paras, translit)
    case None => Skip
    case Some(st) => Assembled(Assemble(st))
  }

  // ---------------------------------------------------------------------
  // Reference definitions

  /** Paragraph `j` is the first whose value for `k` is truthy. */
  predicate FirstTruthyAt(paras: seq<Paragraph>, k: IdKey, j: int)
  {
    && 0 <= j < |paras|
    && Truthy(IdOf(paras[j], k))
    && forall i :: 0 <= i < j ==> !Truthy(IdOf(paras[i], k))
  }

  /** Some paragraph has key `k` at all. */
  predicate HasKey(paras: seq<Paragraph>, k: IdKey)
  {
    exists i :: 0 <= i < |paras| && IdOf(paras[i], k).Some?
  }

  predicate AnyTruthy(paras: seq<Paragraph>, k: IdKey)
  {
    exists i :: 0 <= i < |paras| && Truthy(IdOf(paras[i], k))
  }

  /** What the identifier variable holds after the loop: the first truthy
      value; failing that, `""` if any paragraph had the key; else `None`. */
  ghost predicate IdInvariant(paras: seq<Paragraph>, k: IdKey, v: Option<string>)
  {
    && (v.None? <==> !HasKey(paras, k))
    && (Truthy(v) <==> AnyTruthy(paras, k))
    && (forall j :: FirstTruthyAt(paras, k, j) ==> v == IdOf(paras[j], k))
    && (!AnyTruthy(paras, k) && HasKey(paras, k) ==> v == Some(""))
  }

  /** The cleaned texts of the qualifying paragraphs, in order. */
  function QualifyingTexts(paras: seq<Paragraph>, translit: string -> string): seq<string>
  {
    Map(Filter(paras, Qualifies), Cleaner(translit))
  }

  function Cleaner(translit: string -> string): Paragraph -> string
  {
    p => Clean(TextOf(p), translit)
  }

  /** The reference-id lists of the paragraphs, in order. */
  function RefLists(paras: seq<Paragraph>): seq<seq<string>>
  {
    Map(paras, RefListOf)
  }

  // ---------------------------------------------------------------------
  // Lemmas about the loop

  lemma {:induction false} ScanFailsIff(paras: seq<Paragraph>, translit: string -> string)
    ensures Scan(paras, translit).None? <==> exists i :: 0 <= i < |paras| && MissingField(paras[i])
    decreases |paras|
  {
    if |paras| > 0 {
      var init := paras[..|paras| - 1];
      ScanFailsIff(init, translit);
      if exists i :: 0 <= i < |init| && MissingField(init[i]) {
        var i :| 0 <= i < |init| && MissingField(init[i]);
        assert paras[i] == init[i];
      }
      if exists i :: 0 <= i < |paras| && MissingField(paras[i]) {
        var i :| 0 <= i < |paras| && MissingField(paras[i]);
        if i < |init| {
          assert init[i] == paras[i];
        }
      }
    }
  }

  /** One loop iteration keeps the identifier invariant. */
  lemma IdStep(paras: seq<Paragraph>, p: Paragraph, k: IdKey, v: Option<string>)
    requires IdInvariant(paras, k, v)
    ensures IdInvariant(paras + [p], k, TakeId(v, IdOf(p, k)))
  {
    var all := paras + [p];
    var v' := TakeId(v, IdOf(p, k));
    assert forall i :: 0 <= i < |paras| ==> all[i] == paras[i];
    assert all[|paras|] == p;
    if HasKey(paras, k) {
      var i :| 0 <= i < |paras| && IdOf(paras[i], k).Some?;
      assert IdOf(all[i], k).Some?;
    }
    if AnyTruthy(paras, k) {
      var i :| 0 <= i < |paras| && Truthy(IdOf(paras[i], k));
      assert Truthy(IdOf(all[i], k));
    }
    if HasKey(all, k) && IdOf(p, k).None? {
      var i :| 0 <= i < |all| && IdOf(all[i], k).Some?;
      assert i < |paras| && IdOf(paras[i], k).Some?;
    }
    if AnyTruthy(all, k) && !Truthy(IdOf(p, k)) {
      var i :| 0 <= i < |all| && Truthy(IdOf(all[i], k));
      assert i < |paras| && Truthy(IdOf(paras[i], k));
    }
    forall j | FirstTruthyAt(all, k, j)
      ensures v' == IdOf(all[j], k)
    {
      if j < |paras| {
        assert FirstTruthyAt(paras, k, j);
      } else {
        assert !AnyTruthy(paras, k);
      }
    }
  }

  lemma {:induction false} ScanIds(paras: seq<Paragraph>, translit: string -> string, k: IdKey)
    requires Scan(paras, translit).Some?
    ensures IdInvariant(paras, k, IdIn(Scan(paras, translit).value, k))
    decreases |paras|
  {
    if |paras| > 0 {
      var init := paras[..|paras| - 1];
      var p := paras[|paras| - 1];
      ScanIds(init, translit, k);
      assert init + [p] == paras;
      IdStep(init, p, k, IdIn(Scan(init, translit).value, k));
    }
  }

  lemma {:induction false} ScanTexts(paras: seq<Paragraph>, translit: string -> string)
    requires Scan(paras, translit).Some?
    ensures Scan(paras, translit).value.segments == QualifyingTexts(paras, translit)
    decreases |paras|
  {
    if |paras| > 0 {
      var init := paras[..|paras| - 1];
      var p := paras[|paras| - 1];
      ScanTexts(init, translit);
      assert init + [p] == paras;
      var before := Scan(init, translit).value.segments;
      assert Scan(paras, translit).value.segments
          == before + (if Qualifies(p) then [Clean(TextOf(p), translit)] else []);
      FilterSnoc(init, p, Qualifies);
      if Qualifies(p) {
        MapSnoc(Filter(init, Qualifies), p, Cleaner(translit));
        assert Filter(paras, Qualifies) == Filter(init, Qualifies) + [p];
      } else {
        assert Filter(paras, Qualifies) == Filter(init, Qualifies);
      }
    }
  }

  lemma {:induction false} ScanRefs(paras: seq<Paragraph>, translit: string -> string)
    requires Scan(paras, translit).Some?
    ensures Scan(paras, translit).value.refIds == Flatten(RefLists(paras))
    decreases |paras|
  {
    if |paras| > 0 {
      var init := paras[..|paras| - 1];
      var p := paras[|paras| - 1];
      ScanRefs(init, translit);
      assert init + [p] == paras;
      MapSnoc(init, p, RefListOf);
      FlattenSnoc(RefLists(init), RefListOf(p));
      assert Flatten(RefLists(init)) + [] == Flatten(RefLists(init));
    }
  }

  // ---------------------------------------------------------------------
  // Properties of the assembled record

  function StoredIdOf(r: Record, k: IdKey): StoredId
  {
    match k
    case Pmid => r.pmid
    case Pmc => r.pmc
  }

  /** Each stored identifier is `-1` exactly when no paragraph has its key;
      otherwise it is the first truthy value, and `""` when every value is
      empty. A later value never replaces a truthy one. */
  lemma StoredIdIsFirstTruthy(paras: seq<Paragraph>, translit: string -> string, k: IdKey)
    requires IndexDocument(paras, translit).Assembled?
    ensures var r := IndexDocument(paras, translit).record;
      && (StoredIdOf(r, k) == MinusOne <==> !HasKey(paras, k))
      && (forall j :: FirstTruthyAt(paras, k, j) ==> StoredIdOf(r, k) == Given(IdOf(paras[j], k).value))
      && (!AnyTruthy(paras, k) && HasKey(paras, k) ==> StoredIdOf(r, k) == Given(""))
  {
    ScanIds(paras, translit, k);
  }

  /** `_id` is `"pmc"` plus the stored pmc when any paragraph has a pmc key,
      otherwise `"pmid"` plus the stored pmid when any has a pmid key, and
      absent when neither key occurs. */
  lemma CanonicalIdPrecedence(paras: seq<Paragraph>, translit: string -> string)
    requires IndexDocument(paras, translit).Assembled?
    ensures var r := IndexDocument(paras, translit).record;
      && (r.id.Some? <==> HasKey(paras, Pmc) || HasKey(paras, Pmid))
      && (HasKey(paras, Pmc) ==> r.pmc.Given? && r.id == Some("pmc" + r.pmc.value))
      && (!HasKey(paras, Pmc) && HasKey(paras, Pmid) ==> r.pmid.Given? && r.id == Some("pmid" + r.pmid.value))
  {
    ScanIds(paras, translit, Pmid);
    ScanIds(paras, translit, Pmc);
  }

  /** The stored text is the blank-line join, in paragraph order, of the
      cleaned texts of exactly the paragraphs with non-empty section and
      text; it is empty when there are none. */
  lemma TextIsJoinOfQualifying(paras: seq<Paragraph>, translit: string -> string)
    requires IndexDocument(paras, translit).Assembled?
    ensures IndexDocument(paras, translit).record.text == Join(QualifyingTexts(paras, translit), "\n\n")
    ensures (forall i :: 0 <= i < |paras| ==> !Qualifies(paras[i])) ==>
      IndexDocument(paras, translit).record.text == ""
  {
    ScanTexts(paras, translit);
    if forall i :: 0 <= i < |paras| ==> !Qualifies(paras[i]) {
      NoneQualify(paras);
    }
  }

  lemma {:induction false} NoneQualify(paras: seq<Paragraph>)
    requires forall i :: 0 <= i < |paras| ==> !Qualifies(paras[i])
    ensures Filter(paras, Qualifies) == []
    decreases |paras|
  {
    if |paras| > 0 {
      assert !Qualifies(paras[0]);
      NoneQualify(paras[1..]);
    }
  }

  /** `ref_ids` is the in-order concatenation of every paragraph's reference
      list, duplicates kept. */
  lemma RefIdsConcatenated(paras: seq<Paragraph>, translit: string -> string)
    requires IndexDocument(paras, translit).Assembled?
    ensures IndexDocument(paras, translit).record.refIds == Flatten(RefLists(paras))
  {
    ScanRefs(paras, translit);
  }
}
