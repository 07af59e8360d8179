/** The cleaning stage between raw car records and the trained model's input
    schema (car_price_prediction_ml/src/preprocessing.py): categorical
    cleanup against a fixed vocabulary, range checks on the numerical
    attributes, and the engineered features that replace `Year` and `Mileage`.

    Each stage works on a copy of its input frame; here frames are values, so
    the caller's frame can never change. The clock, the string similarity
    ratio and `log1p` are parameters. */
module Preprocessing {
  import opened Frames
  import opened Text

  // ---------------------------------------------------------------------
  // Constants
  // ---------------------------------------------------------------------

  /** `allowed_categories`: the vocabulary of each categorical column, in order. */
  const AllowedCategories: map<string, seq<string>> := map[
    "Make" := ["Toyota", "Ford", "Honda", "Mercedes", "BMW"],
    "Model" := ["Civic", "Corolla", "Focus", "C-Class", "360I"],
    "Fuel Type" := ["Hybrid", "Diesel", "Petrol", "Electric"],
    "Transmission" := ["Automatic", "Manual"]
  ]

  /** `MATCH_THRESHOLD`: the least similarity ratio a match must reach. */
  const MatchThreshold: real := 0.8

  /** The category a present value falls back to when nothing matches. */
  const Fallback: string := "Other"

  /** The columns the feature step computes with. */
  const FeatureSources: set<string> := {"Year", "Mileage"}

  /** The earliest model year accepted. */
  const FirstYear: int := 1925

  /** Raised when a text column outside the vocabulary holds a present value. */
  datatype KeyError = KeyError(column: string)

  /** A string similarity ratio: `sim(word, v)` is the score the matcher
      gives candidate `v` for `word`, `SequenceMatcher(None, v, word).ratio()`
      (the candidate is the first sequence, the word the second). */
  type Similarity = (string, string) -> real

  /** What the model assumes of the ratio: it lies in [0, 1] and is 1 exactly
      for identical strings. */
  ghost predicate IsRatio(sim: Similarity) {
    forall a, b :: 0.0 <= sim(a, b) <= 1.0 && (sim(a, b) == 1.0 <==> a == b)
  }

  /** What the feature step needs of its input: `Year` holds no text value
      (a missing one subtracts to missing, so a text column left all missing
      is fine), and a non-empty `Mileage` column has a numeric kind, because
      `np.log1p` raises on every non-empty column of the object kind,
      even one holding only missing cells. */
  predicate Typed(f: Frame) {
    && (forall j :: 0 <= j < |f.columns| && f.columns[j].name == "Year" ==> !HoldsText(f.columns[j]))
    && (forall j :: 0 <= j < |f.columns| && f.columns[j].name == "Mileage" ==> f.columns[j].kind == Numeric || f.height == 0)
  }

  lemma FallbackOutsideVocabulary()
    ensures forall col :: col in AllowedCategories ==> Fallback !in AllowedCategories[col]
  {
  }

  // ---------------------------------------------------------------------
  // Categorical cleanup, one value at a time
  // ---------------------------------------------------------------------

  /** Step 1 on one text value: strip, delete every character that is not an
      ASCII letter or whitespace, title-case; an empty result is missing. */
  function CleanText(s: string): (r: Cell)
    ensures !r.Num?
    ensures r.Absent? <==> KeepLettersAndSpaces(Strip(s)) == []
    ensures r.Str? ==> r.text != [] && forall i :: 0 <= i < |r.text| ==> IsKept(r.text[i])
    ensures r.Str? ==> |r.text| <= |s|
  {
    var kept := KeepLettersAndSpaces(Strip(s));
    var t := Title(kept);
    TitleKeepsClasses(kept);
    if t == [] then Absent else Str(t)
  }

  /** Step 1 on one cell; a missing cell stays missing. */
  function BasicClean(c: Cell): (r: Cell)
    requires !c.Num?
    ensures !r.Num?
    ensures c.Absent? ==> r.Absent?
    ensures r.Str? ==> c.Str? && r.text != [] && forall i :: 0 <= i < |r.text| ==> IsKept(r.text[i])
    ensures c.Str? ==> (r.Absent? <==> KeepLettersAndSpaces(Strip(c.text)) == [])
  {
    match c
    case Str(s) => CleanText(s)
    case Absent => Absent
  }

  /** Step 1 as the source writes it: the cell is first converted to a string,
      and a missing cell converts to the text "nan". */
  function BasicCleanAsWritten(c: Cell): (r: Cell)
    requires !c.Num?
    ensures c.Str? ==> r == BasicClean(c)
    ensures c.Absent? ==> r.Str?
  {
    match c
    case Str(s) => CleanText(s)
    case Absent =>
      StripOfTrimmed("nan");
      CleanText("nan")
  }

  /** Step 2: the literal corrections on `Model` and `Make`. */
  function Correct(col: string, c: Cell): (r: Cell)
    ensures col != "Model" && col != "Make" ==> r == c
    ensures r.Absent? <==> c.Absent?
    ensures r != c ==> c.Str? && r.Str? && col in AllowedCategories && r.text in AllowedCategories[col]
    ensures r != c ==> (col == "Model" && (c == Str("Cclass") || c == Str("I"))) || (col == "Make" && c == Str("Bmw"))
    ensures col == "Model" && c == Str("Cclass") ==> r == Str("C-Class")
    ensures col == "Model" && c == Str("I") ==> r == Str("360I")
    ensures col == "Make" && c == Str("Bmw") ==> r == Str("BMW")
  {
    if col == "Model" && c == Str("Cclass") then Str("C-Class")
    else if col == "Model" && c == Str("I") then Str("360I")
    else if col == "Make" && c == Str("Bmw") then Str("BMW")
    else c
  }

  /** `a` is ranked above `b` as a match for `word`: a higher ratio, or an
      equal ratio and a greater string (the (score, candidate) order in which
      the matcher picks its best candidate). */
  predicate Outranks(word: string, a: string, b: string, sim: Similarity) {
    sim(word, a) > sim(word, b) || (sim(word, a) == sim(word, b) && Below(b, a))
  }

  /** `m` is the best acceptable match for `word` in `vocab`. */
  predicate IsBestMatch(word: string, vocab: seq<string>, m: string, sim: Similarity) {
    && m in vocab
    && sim(word, m) >= MatchThreshold
    && forall v :: v in vocab && v != m && sim(word, v) >= MatchThreshold ==> Outranks(word, m, v, sim)
  }

  /** `get_close_matches(word, vocab, n=1, cutoff=MATCH_THRESHOLD)`: the
      highest-ranked entry whose ratio reaches the threshold, if any. */
  function BestMatch(word: string, vocab: seq<string>, sim: Similarity): (r: Option<string>)
    ensures r.Some? ==> IsBestMatch(word, vocab, r.value, sim)
    ensures r.None? <==> forall v :: v in vocab ==> sim(word, v) < MatchThreshold
  {
    if vocab == [] then None
    else
      var head := vocab[0];
      var rest := BestMatch(word, vocab[1..], sim);
      assert forall v :: v in vocab <==> v == head || v in vocab[1..];
      if sim(word, head) < MatchThreshold then rest
      else if rest.None? then Some(head)
      else if Outranks(word, head, rest.value, sim) then
        OutranksTransitive(word, head, rest.value, vocab[1..], sim);
        Some(head)
      else
        BelowTotal(head, rest.value);
        Some(rest.value)
  }

  lemma OutranksTransitive(word: string, a: string, b: string, vocab: seq<string>, sim: Similarity)
    requires Outranks(word, a, b, sim)
    requires IsBestMatch(word, vocab, b, sim)
    ensures forall v :: v in vocab && v != a && sim(word, v) >= MatchThreshold ==> Outranks(word, a, v, sim)
  {
    forall v | v in vocab && v != a && sim(word, v) >= MatchThreshold
      ensures Outranks(word, a, v, sim)
    {
      if v != b && sim(word, a) == sim(word, b) && sim(word, b) == sim(word, v) {
        BelowTransitive(v, b, a);
      }
    }
  }

  /** An entry of the vocabulary is its own best match. */
  lemma BestMatchOfEntry(word: string, vocab: seq<string>, sim: Similarity)
    requires IsRatio(sim) && word in vocab
    ensures BestMatch(word, vocab, sim) == Some(word)
  {
    assert sim(word, word) == 1.0;
  }

  /** Step 3, `map_value`: a missing value stays missing; a present value is
      replaced by its best match in the column's vocabulary, or by "Other". */
  function MapValue(col: string, c: Cell, sim: Similarity): (r: Result<Cell, KeyError>)
    requires !c.Num?
    ensures c.Absent? ==> r == Ok(Absent)
    ensures r.Err? <==> c.Str? && col !in AllowedCategories
    ensures r.Err? ==> r.error == KeyError(col)
    ensures r.Ok? && c.Str? ==> r.value.Str? && (r.value.text in AllowedCategories[col] || r.value.text == Fallback)
    ensures r.Ok? && c.Str? ==>
      (r.value.text == Fallback <==> forall v :: v in AllowedCategories[col] ==> sim(c.text, v) < MatchThreshold)
    ensures r.Ok? && c.Str? && r.value.text != Fallback ==> IsBestMatch(c.text, AllowedCategories[col], r.value.text, sim)
  {
    match c
    case Absent => Ok(Absent)
    case Str(s) =>
      if col !in AllowedCategories then Err(KeyError(col))
      else
        FallbackOutsideVocabulary();
        match BestMatch(s, AllowedCategories[col], sim)
        case Some(m) => Ok(Str(m))
        case None => Ok(Str(Fallback))
  }

  /** The whole categorical cleanup of one cell of column `col`. */
  function CleanCell(col: string, c: Cell, sim: Similarity): (r: Result<Cell, KeyError>)
    requires !c.Num?
    ensures r.Err? <==> col !in AllowedCategories && BasicClean(c).Str?
    ensures r.Ok? ==> !r.value.Num?
  {
    MapValue(col, Correct(col, BasicClean(c)), sim)
  }

  /** The same cleanup with step 1 as the source writes it. */
  function CleanCellAsWritten(col: string, c: Cell, sim: Similarity): (r: Result<Cell, KeyError>)
    requires !c.Num?
    ensures c.Str? ==> r == CleanCell(col, c, sim)
    ensures c.Absent? ==> (r.Err? <==> col !in AllowedCategories)
    ensures c.Absent? && r.Ok? ==> r.value.Str?
  {
    MapValue(col, Correct(col, BasicCleanAsWritten(c)), sim)
  }

  /** Every cell's cleanup, in row order. */
  function CellResults(col: string, cells: seq<Cell>, sim: Similarity): seq<Result<Cell, KeyError>>
    requires forall i :: 0 <= i < |cells| ==> !cells[i].Num?
  {
    seq(|cells|, i requires 0 <= i < |cells| => CleanCell(col, cells[i], sim))
  }

  /** `df[col].apply(map_value)` after steps 1 and 2: the cells in order; the
      first one that raises decides the error. */
  function CleanCells(col: string, cells: seq<Cell>, sim: Similarity): (r: Result<seq<Cell>, KeyError>)
    requires forall i :: 0 <= i < |cells| ==> !cells[i].Num?
    ensures r.Err? ==> r.error == KeyError(col)
    ensures r.Ok? ==> |r.value| == |cells|
  {
    var rs := CellResults(col, cells, sim);
    CollectErrIs(rs, KeyError(col));
    Collect(rs)
  }

  /** A column that holds no numbers. */
  predicate TextOnly(s: Series) {
    forall i :: 0 <= i < |s.cells| ==> !s.cells[i].Num?
  }

  /** Every text column among `cols` holds no numbers. */
  predicate TextColumnsOk(cols: seq<Series>) {
    forall k :: 0 <= k < |cols| && cols[k].kind == Text ==> TextOnly(cols[k])
  }

  /** One iteration of the column loop: the cleanup of every cell of a text
      column. */
  function CleanSeries(s: Series, sim: Similarity): (r: Result<Series, KeyError>)
    requires TextOnly(s)
    ensures r.Err? ==> r.error == KeyError(s.name)
    ensures r.Ok? ==> r.value.name == s.name && r.value.kind == s.kind && |r.value.cells| == |s.cells|
  {
    match CleanCells(s.name, s.cells, sim)
    case Ok(cells) => Ok(s.(cells := cells))
    case Err(e) => Err(e)
  }

  /** A column fails exactly when it has no vocabulary and holds a value that
      is present after step 1; otherwise each cell is cleaned on its own. */
  lemma CleanSeriesCells(s: Series, sim: Similarity)
    requires TextOnly(s)
    ensures CleanSeries(s, sim).Err? <==>
      s.name !in AllowedCategories && exists i :: 0 <= i < |s.cells| && BasicClean(s.cells[i]).Str?
    ensures CleanSeries(s, sim).Ok? ==> forall i :: 0 <= i < |s.cells| ==>
      CleanCell(s.name, s.cells[i], sim) == Ok(CleanSeries(s, sim).value.cells[i])
    ensures CleanSeries(s, sim).Ok? ==> forall i :: 0 <= i < |s.cells| ==> !CleanSeries(s, sim).value.cells[i].Num?
  {
    var rs := CellResults(s.name, s.cells, sim);
    CollectOk(rs);
    if CleanSeries(s, sim).Err? {
      var k :| 0 <= k < |rs| && !rs[k].Ok?;
      assert CleanCell(s.name, s.cells[k], sim).Err?;
    } else {
      var out := CleanSeries(s, sim).value.cells;
      assert out == Collect(rs).value;
      forall i | 0 <= i < |s.cells| ensures CleanCell(s.name, s.cells[i], sim) == Ok(out[i]) && !out[i].Num? {
        assert rs[i] == CleanCell(s.name, s.cells[i], sim);
      }
      forall i | 0 <= i < |s.cells| && BasicClean(s.cells[i]).Str? ensures s.name in AllowedCategories {
        assert rs[i].Ok?;
      }
    }
  }

  // ---------------------------------------------------------------------
  // Properties of the categorical cleanup
  // ---------------------------------------------------------------------

  /** Every present value that leaves step 1 consists of ASCII letters and
      whitespace only, and stripping comes before the filter, so whitespace
      that followed a deleted character survives at the front. */
  lemma LeadingSpaceSurvives()
    ensures BasicClean(Str("# Ford")) == Str(" Ford")
  {
    HashFordCleaned();
  }

  /** A value that strips and filters to nothing is missing, and stays
      missing through the matcher: it never becomes "Other". */
  lemma EmptyBecomesAbsent(col: string, s: string, sim: Similarity)
    requires KeepLettersAndSpaces(Strip(s)) == []
    ensures CleanCell(col, Str(s), sim) == Ok(Absent)
  {
  }

  /** After a successful cleanup a cell is missing, a vocabulary entry of its
      column, or "Other". */
  lemma CleanedCellInVocabulary(col: string, c: Cell, sim: Similarity)
    requires !c.Num? && CleanCell(col, c, sim).Ok?
    ensures var r := CleanCell(col, c, sim).value;
      r.Absent? || (r.Str? && col in AllowedCategories && (r.text in AllowedCategories[col] || r.text == Fallback))
  {
  }

  /** "cclass" becomes "C-Class", whatever the ratio. */
  lemma CclassReachesVocabulary(sim: Similarity)
    requires IsRatio(sim)
    ensures CleanCell("Model", Str("cclass"), sim) == Ok(Str("C-Class"))
  {
    LowerCclassCorrected();
    CorrectionReaches("Model", "cclass", "C-Class", sim);
  }

  /** "i" becomes "360I", whatever the ratio. */
  lemma LowerIReachesVocabulary(sim: Similarity)
    requires IsRatio(sim)
    ensures CleanCell("Model", Str("i"), sim) == Ok(Str("360I"))
  {
    LowerICorrected();
    CorrectionReaches("Model", "i", "360I", sim);
  }

  /** "bmw" becomes "BMW", whatever the ratio. */
  lemma BmwReachesVocabulary(sim: Similarity)
    requires IsRatio(sim)
    ensures CleanCell("Make", Str("bmw"), sim) == Ok(Str("BMW"))
  {
    LowerBmwCorrected();
    CorrectionReaches("Make", "bmw", "BMW", sim);
  }

  /** A spelling that steps 1 and 2 turn into a vocabulary entry ends as that entry. */
  lemma CorrectionReaches(col: string, s: string, v: string, sim: Similarity)
    requires IsRatio(sim) && col in AllowedCategories && v in AllowedCategories[col]
    requires Correct(col, BasicClean(Str(s))) == Str(v)
    ensures CleanCell(col, Str(s), sim) == Ok(Str(v))
  {
    BestMatchOfEntry(v, AllowedCategories[col], sim);
  }

  /** Every vocabulary entry comes through the whole cleanup unchanged;
      "BMW", "C-Class" and "360I" only because of the corrections. */
  lemma VocabularyIsFixed(sim: Similarity)
    requires IsRatio(sim)
    ensures forall col, v :: col in AllowedCategories && v in AllowedCategories[col] ==>
      CleanCell(col, Str(v), sim) == Ok(Str(v))
  {
    forall col, v | col in AllowedCategories && v in AllowedCategories[col]
      ensures CleanCell(col, Str(v), sim) == Ok(Str(v))
    {
      EntrySurvivesStepOne(col, v);
      BestMatchOfEntry(v, AllowedCategories[col], sim);
    }
  }

  /** Step 1 on a value whose stripped, filtered and title-cased forms are known. */
  lemma CleanTextIs(s: string, kept: string, t: string)
    requires Strip(s) == s && KeepLettersAndSpaces(s) == kept && Title(kept) == t && t != []
    ensures CleanText(s) == Str(t)
  {
  }

  /** Evaluates step 1 on a word made only of letters and whitespace. */
  lemma CleanTextOfWord(s: string, n: nat, t: string)
    requires 0 < n == |s| == |t| && !IsSpace(s[0]) && !IsSpace(s[n - 1])
    requires KeptUpTo(s, n) && TitledAs(s, t, n)
    ensures CleanText(s) == Str(t)
  {
    KeptUpToAll(s, n);
    StripOfTrimmed(s);
    TitleIs(s, t, n);
  }

  /** A word of ASCII letters already in title case is left as it is by step 1. */
  lemma TitleWordIsClean(s: string)
    requires s != [] && TitleWordUpTo(s, |s|)
    ensures CleanText(s) == Str(s)
  {
    TitleWordFacts(s, |s|);
    CleanTextOfWord(s, |s|, s);
  }

  lemma HashFordFiltered()
    ensures KeepLettersAndSpaces("# Ford") == " Ford"
  {
    FilterIs("# Ford", " Ford", 6, 5);
  }

  lemma HashFordTrimmed()
    ensures Strip("# Ford") == "# Ford"
  {
    StripOfTrimmed("# Ford");
  }

  lemma HashFordTitled()
    ensures Title(" Ford") == " Ford"
  {
    TitleIs(" Ford", " Ford", 5);
  }

  lemma HashFordCleaned()
    ensures CleanText("# Ford") == Str(" Ford")
  {
    HashFordTrimmed();
    HashFordFiltered();
    HashFordTitled();
    CleanTextIs("# Ford", " Ford", " Ford");
  }

  lemma CClassFiltered()
    ensures KeepLettersAndSpaces("C-Class") == "CClass"
  {
    FilterIs("C-Class", "CClass", 7, 6);
  }

  lemma CClassTrimmed()
    ensures Strip("C-Class") == "C-Class"
  {
    StripOfTrimmed("C-Class");
  }

  lemma CClassTitled()
    ensures Title("CClass") == "Cclass"
  {
    TitleIs("CClass", "Cclass", 6);
  }

  lemma CClassCleaned()
    ensures CleanText("C-Class") == Str("Cclass")
  {
    CClassTrimmed();
    CClassFiltered();
    CClassTitled();
    CleanTextIs("C-Class", "CClass", "Cclass");
  }

  lemma Model360IFiltered()
    ensures KeepLettersAndSpaces("360I") == "I"
  {
    FilterIs("360I", "I", 4, 1);
  }

  lemma Model360ITrimmed()
    ensures Strip("360I") == "360I"
  {
    StripOfTrimmed("360I");
  }

  lemma Model360ITitled()
    ensures Title("I") == "I"
  {
    TitleIs("I", "I", 1);
  }

  lemma Model360ICleaned()
    ensures CleanText("360I") == Str("I")
  {
    Model360ITrimmed();
    Model360IFiltered();
    Model360ITitled();
    CleanTextIs("360I", "I", "I");
  }

  /** The vocabulary entries of the columns, with the three that step 1
      changes (and step 2 changes back). */
  lemma LowerCclassCleaned()
    ensures BasicClean(Str("cclass")) == Str("Cclass")
  {
    CleanTextOfWord("cclass", 6, "Cclass");
  }

  lemma LowerCclassCorrected()
    ensures Correct("Model", BasicClean(Str("cclass"))) == Str("C-Class")
  {
    LowerCclassCleaned();
    assert Correct("Model", Str("Cclass")) == Str("C-Class");
  }

  lemma LowerICleaned()
    ensures BasicClean(Str("i")) == Str("I")
  {
    CleanTextOfWord("i", 1, "I");
  }

  lemma LowerICorrected()
    ensures Correct("Model", BasicClean(Str("i"))) == Str("360I")
  {
    LowerICleaned();
    assert Correct("Model", Str("I")) == Str("360I");
  }

  lemma LowerBmwCleaned()
    ensures BasicClean(Str("bmw")) == Str("Bmw")
  {
    CleanTextOfWord("bmw", 3, "Bmw");
  }

  lemma LowerBmwCorrected()
    ensures Correct("Make", BasicClean(Str("bmw"))) == Str("BMW")
  {
    LowerBmwCleaned();
    assert Correct("Make", Str("Bmw")) == Str("BMW");
  }

  lemma UpperBmwCleaned()
    ensures BasicClean(Str("BMW")) == Str("Bmw")
  {
    CleanTextOfWord("BMW", 3, "Bmw");
  }

  /** Steps 1 and 2 together leave every vocabulary entry of its own column unchanged. */
  lemma EntrySurvivesStepOne(col: string, v: string)
    requires col in AllowedCategories && v in AllowedCategories[col]
    ensures Correct(col, BasicClean(Str(v))) == Str(v)
  {
    if col == "Make" {
      assert AllowedCategories["Make"] == ["Toyota", "Ford", "Honda", "Mercedes", "BMW"];
      MakeEntrySurvives(v);
    } else if col == "Model" {
      assert AllowedCategories["Model"] == ["Civic", "Corolla", "Focus", "C-Class", "360I"];
      ModelEntrySurvives(v);
    } else if col == "Fuel Type" {
      assert AllowedCategories["Fuel Type"] == ["Hybrid", "Diesel", "Petrol", "Electric"];
      FuelTypeEntrySurvives(v);
    } else if col == "Transmission" {
      assert AllowedCategories["Transmission"] == ["Automatic", "Manual"];
      TransmissionEntrySurvives(v);
    }
  }

  /** The entries of `Make` already in title case. */
  lemma MakeWordsCleaned(v: string)
    requires v in ["Toyota", "Ford", "Honda", "Mercedes"]
    ensures BasicClean(Str(v)) == Str(v)
  {
    assert TitleWordUpTo("Toyota", 6) && TitleWordUpTo("Ford", 4) && TitleWordUpTo("Honda", 5) && TitleWordUpTo("Mercedes", 8);
    TitleWordIsClean(v);
  }

  lemma MakeWordsUncorrected(v: string)
    requires v in ["Toyota", "Ford", "Honda", "Mercedes"]
    ensures Correct("Make", Str(v)) == Str(v)
  {
  }

  /** The entries of `Model` already in title case. */
  lemma ModelWordsCleaned(v: string)
    requires v in ["Civic", "Corolla", "Focus"]
    ensures BasicClean(Str(v)) == Str(v)
  {
    assert TitleWordUpTo("Civic", 5) && TitleWordUpTo("Corolla", 7) && TitleWordUpTo("Focus", 5);
    TitleWordIsClean(v);
  }

  lemma ModelWordsUncorrected(v: string)
    requires v in ["Civic", "Corolla", "Focus"]
    ensures Correct("Model", Str(v)) == Str(v)
  {
  }

  /** The entries of `Fuel Type` already in title case. */
  lemma FuelTypeWordsCleaned(v: string)
    requires v in ["Hybrid", "Diesel", "Petrol", "Electric"]
    ensures BasicClean(Str(v)) == Str(v)
  {
    assert TitleWordUpTo("Hybrid", 6) && TitleWordUpTo("Diesel", 6) && TitleWordUpTo("Petrol", 6) && TitleWordUpTo("Electric", 8);
    TitleWordIsClean(v);
  }

  /** The entries of `Transmission` already in title case. */
  lemma TransmissionWordsCleaned(v: string)
    requires v in ["Automatic", "Manual"]
    ensures BasicClean(Str(v)) == Str(v)
  {
    assert TitleWordUpTo("Automatic", 9) && TitleWordUpTo("Manual", 6);
    TitleWordIsClean(v);
  }

  lemma BmwCorrected()
    ensures Correct("Make", BasicClean(Str("BMW"))) == Str("BMW")
  {
    UpperBmwCleaned();
    assert Correct("Make", Str("Bmw")) == Str("BMW");
  }

  lemma CClassCorrected()
    ensures Correct("Model", BasicClean(Str("C-Class"))) == Str("C-Class")
  {
    CClassCleaned();
  }

  lemma Model360ICorrected()
    ensures Correct("Model", BasicClean(Str("360I"))) == Str("360I")
  {
    Model360ICleaned();
  }

  lemma MakeEntrySurvives(v: string)
    requires v in ["Toyota", "Ford", "Honda", "Mercedes", "BMW"]
    ensures Correct("Make", BasicClean(Str(v))) == Str(v)
  {
    if v == "BMW" {
      BmwCorrected();
    } else {
      MakeWordsCleaned(v);
      MakeWordsUncorrected(v);
    }
  }

  lemma ModelEntrySurvives(v: string)
    requires v in ["Civic", "Corolla", "Focus", "C-Class", "360I"]
    ensures Correct("Model", BasicClean(Str(v))) == Str(v)
  {
    if v == "C-Class" {
      CClassCorrected();
    } else if v == "360I" {
      Model360ICorrected();
    } else {
      ModelWordsCleaned(v);
      ModelWordsUncorrected(v);
    }
  }

  lemma FuelTypeEntrySurvives(v: string)
    requires v in ["Hybrid", "Diesel", "Petrol", "Electric"]
    ensures Correct("Fuel Type", BasicClean(Str(v))) == Str(v)
  {
    FuelTypeWordsCleaned(v);
  }

  lemma TransmissionEntrySurvives(v: string)
    requires v in ["Automatic", "Manual"]
    ensures Correct("Transmission", BasicClean(Str(v))) == Str(v)
  {
    TransmissionWordsCleaned(v);
  }

  /** As written, a missing text cell is converted to the text "nan" before
      cleaning, so it leaves step 1 present as "Nan": in a vocabulary column it
      is matched (and most likely becomes "Other"), in any other text column it
      raises, and it never reaches the imputer as a missing value. */
  lemma MissingTextCellAsWritten(col: string, sim: Similarity)
    ensures BasicCleanAsWritten(Absent) == Str("Nan")
    ensures col in AllowedCategories ==>
      (CleanCellAsWritten(col, Absent, sim).Ok? && CleanCellAsWritten(col, Absent, sim).value.Str?)
    ensures col !in AllowedCategories ==> CleanCellAsWritten(col, Absent, sim) == Err(KeyError(col))
  {
    NanLeavesStepOne();
    assert Correct(col, Str("Nan")) == Str("Nan");
  }

  lemma NanLeavesStepOne()
    ensures BasicCleanAsWritten(Absent) == Str("Nan")
  {
    CleanTextOfWord("nan", 3, "Nan");
  }

  /** With step 1 corrected, a missing cell stays missing through the whole
      cleanup, in every column. */
  lemma MissingTextCellStaysMissing(col: string, sim: Similarity)
    ensures CleanCell(col, Absent, sim) == Ok(Absent)
  {
  }

  lemma TextColumnsOfWellFormed(f: Frame)
    requires WellFormed(f)
    ensures TextColumnsOk(f.columns)
  {
    forall k | 0 <= k < |f.columns| && f.columns[k].kind == Text ensures TextOnly(f.columns[k]) {
      assert SeriesOk(f.columns[k], f.height);
    }
  }

  /** One column of the loop: a numeric column is kept, a text column cleaned. */
  function CleanColumnOf(c: Series, sim: Similarity): Result<Series, KeyError>
    requires c.kind == Text ==> TextOnly(c)
  {
    if c.kind == Numeric then Ok(c) else CleanSeries(c, sim)
  }

  /** Every column's result, in column order. */
  function ColumnResults(cols: seq<Series>, sim: Similarity): seq<Result<Series, KeyError>>
    requires TextColumnsOk(cols)
  {
    seq(|cols|, k requires 0 <= k < |cols| => CleanColumnOf(cols[k], sim))
  }

  /** What `clean_categorical` computes. */
  function CleanFrame(f: Frame, sim: Similarity): (r: Result<Frame, KeyError>)
    requires WellFormed(f)
  {
    TextColumnsOfWellFormed(f);
    match Collect(ColumnResults(f.columns, sim))
    case Ok(cols) => Ok(Frame(f.height, cols))
    case Err(e) => Err(e)
  }

  /** `clean_categorical` succeeds exactly when every text column cleans; on
      failure the error is the first failing text column's; on success numeric
      columns are unchanged, each text column is its cleaned form, and the
      frame keeps its height, its column order and its well-formedness. */
  lemma CleanFrameFacts(f: Frame, sim: Similarity)
    requires WellFormed(f)
    ensures CleanFrame(f, sim).Ok? <==>
      forall j :: 0 <= j < |f.columns| && f.columns[j].kind == Text ==> CleanSeries(f.columns[j], sim).Ok?
    ensures CleanFrame(f, sim).Err? ==> exists j :: (0 <= j < |f.columns| && f.columns[j].kind == Text
      && CleanSeries(f.columns[j], sim) == Err(CleanFrame(f, sim).error)
      && forall k :: 0 <= k < j && f.columns[k].kind == Text ==> CleanSeries(f.columns[k], sim).Ok?)
    ensures CleanFrame(f, sim).Ok? ==> var g := CleanFrame(f, sim).value;
      && g.height == f.height && |g.columns| == |f.columns|
      && (forall j :: 0 <= j < |f.columns| && f.columns[j].kind == Numeric ==> g.columns[j] == f.columns[j])
      && (forall j :: 0 <= j < |f.columns| && f.columns[j].kind == Text ==> CleanSeries(f.columns[j], sim) == Ok(g.columns[j]))
      && WellFormed(g)
  {
    TextColumnsOfWellFormed(f);
    var n := |f.columns|;
    var rs := ColumnResults(f.columns, sim);
    CollectOk(rs);
    if CleanFrame(f, sim).Err? {
      CollectErr(rs);
      var k :| 0 <= k < |rs| && rs[k] == Err(CleanFrame(f, sim).error) && forall m :: 0 <= m < k ==> rs[m].Ok?;
      assert rs[k] == CleanColumnOf(f.columns[k], sim);
      forall m | 0 <= m < k && f.columns[m].kind == Text ensures CleanSeries(f.columns[m], sim).Ok? {
        assert rs[m] == CleanColumnOf(f.columns[m], sim);
      }
    } else {
      var g := CleanFrame(f, sim).value;
      forall k | 0 <= k < n ensures SeriesOk(g.columns[k], f.height) && g.columns[k].name == f.columns[k].name {
        assert SeriesOk(f.columns[k], f.height);
        if f.columns[k].kind == Text {
          CleanSeriesCells(f.columns[k], sim);
        }
      }
    }
  }

  // ---------------------------------------------------------------------
  // clean_categorical
  // ---------------------------------------------------------------------

  /** `clean_categorical`: every text column, in column order, is replaced by
      its cleaned form; numeric columns are untouched. The first text column
      that raises decides the error. */
  method CleanCategorical(f: Frame, sim: Similarity) returns (r: Result<Frame, KeyError>)
    requires WellFormed(f)
    ensures r == CleanFrame(f, sim)
  {
    TextColumnsOfWellFormed(f);
    ghost var rs := ColumnResults(f.columns, sim);
    var cols := f.columns;
    var j := 0;
    while j < |cols|
      invariant 0 <= j <= |cols| == |f.columns|
      invariant Collect(rs[..j]) == Ok(cols[..j])
      invariant forall k :: j <= k < |cols| ==> cols[k] == f.columns[k]
    {
      ghost var before := cols;
      assert |rs| == |cols| && rs[j] == CleanColumnOf(f.columns[j], sim);
      if cols[j].kind == Text {
        var cleaned := CleanSeries(cols[j], sim);
        if cleaned.Err? {
          CollectStopsAt(rs, j);
          return Err(cleaned.error);
        }
        cols := cols[j := cleaned.value];
      }
      CollectStep(rs, j, before[..j], cols[j]);
      assert cols[..j + 1] == before[..j] + [cols[j]];
      j := j + 1;
    }
    assert cols[..j] == cols && rs[..j] == rs;
    r := Ok(Frame(f.height, cols));
  }

  // ---------------------------------------------------------------------
  // clean_numerical
  // ---------------------------------------------------------------------

  /** The attributes `clean_numerical` checks against a range. */
  const RangedFields: set<string> := {"Year", "Mileage", "Engine Size"}

  /** The inclusive range a numerical attribute must lie in, if it has one. */
  function Bounds(name: string, currentYear: int): (r: Option<(real, real)>)
    ensures r.Some? <==> name in RangedFields
  {
    if name == "Year" then Some((FirstYear as real, currentYear as real))
    else if name == "Mileage" then Some((0.0, 600000.0))
    else if name == "Engine Size" then Some((0.0, 6.0))
    else None
  }

  /** Raised when a range check compares a text value with a number. */
  datatype TypeError = TypeError(column: string)

  /** The column holds a text value, so comparing it with a number raises;
      missing values compare as false and do not raise. */
  predicate HoldsText(s: Series) {
    exists i :: 0 <= i < |s.cells| && s.cells[i].Str?
  }

  /** The range check on column `name` raises on `f`. */
  predicate RaisesOn(f: Frame, name: string) {
    exists j :: 0 <= j < |f.columns| && f.columns[j].name == name && HoldsText(f.columns[j])
  }

  /** No range check raises on `f`. */
  predicate Comparable(f: Frame) {
    forall j :: 0 <= j < |f.columns| && f.columns[j].name in RangedFields ==> !HoldsText(f.columns[j])
  }

  /** One cell of a `df.loc[mask, col] = NA` assignment: a number outside
      [lo, hi] becomes missing; a number inside it and a missing cell are kept. */
  function KeepInRange(c: Cell, lo: real, hi: real): (r: Cell)
    requires !c.Str?
    ensures r == c || r.Absent?
    ensures r.Num? ==> lo <= r.x <= hi
    ensures c.Num? && lo <= c.x <= hi ==> r == c
  {
    if c.Num? && (c.x < lo || c.x > hi) then Absent else c
  }

  /** The numerical cleanup of one cell of column `name`. */
  function SanitizeCell(name: string, c: Cell, currentYear: int): (r: Cell)
    requires name in RangedFields ==> !c.Str?
    ensures Bounds(name, currentYear).None? ==> r == c
    ensures r == c || r.Absent?
  {
    match Bounds(name, currentYear)
    case Some((lo, hi)) => KeepInRange(c, lo, hi)
    case None => c
  }

  function SanitizeSeries(s: Series, currentYear: int): (r: Series)
    requires s.name in RangedFields ==> !HoldsText(s)
    ensures r.name == s.name && r.kind == s.kind && |r.cells| == |s.cells|
    ensures Bounds(s.name, currentYear).None? ==> r == s
    ensures forall i :: 0 <= i < |s.cells| ==> r.cells[i] == SanitizeCell(s.name, s.cells[i], currentYear)
  {
    var r := s.(cells := seq(|s.cells|, i requires 0 <= i < |s.cells| => SanitizeCell(s.name, s.cells[i], currentYear)));
    assert Bounds(s.name, currentYear).None? ==> r.cells == s.cells;
    r
  }

  /** The frame `clean_numerical` returns when no range check raises:
      `Year`, `Mileage` and `Engine Size` cleared where out of range; every
      other column, `Price` included, as it was. */
  function ClearRanges(f: Frame, currentYear: int): (r: Frame)
    requires WellFormed(f) && Comparable(f)
    ensures WellFormed(r) && r.height == f.height && |r.columns| == |f.columns|
    ensures forall j :: 0 <= j < |f.columns| ==> r.columns[j].name == f.columns[j].name && r.columns[j].kind == f.columns[j].kind
    ensures forall j :: 0 <= j < |f.columns| && f.columns[j].name !in RangedFields ==> r.columns[j] == f.columns[j]
    ensures forall j, i :: 0 <= j < |f.columns| && 0 <= i < |f.columns[j].cells| ==>
      r.columns[j].cells[i] == SanitizeCell(f.columns[j].name, f.columns[j].cells[i], currentYear)
  {
    var r := Frame(f.height, seq(|f.columns|, j requires 0 <= j < |f.columns| => SanitizeSeries(f.columns[j], currentYear)));
    forall j | 0 <= j < |r.columns| ensures SeriesOk(r.columns[j], r.height) {
      assert SeriesOk(f.columns[j], f.height);
    }
    r
  }

  lemma ComparableUnlessRaises(f: Frame)
    requires !RaisesOn(f, "Year") && !RaisesOn(f, "Mileage") && !RaisesOn(f, "Engine Size")
    ensures Comparable(f)
  {
    forall j | 0 <= j < |f.columns| && f.columns[j].name in RangedFields ensures !HoldsText(f.columns[j]) {
      if HoldsText(f.columns[j]) {
        assert RaisesOn(f, f.columns[j].name);
      }
    }
  }

  /** What `clean_numerical` computes: the checks on `Year`, `Mileage` and
      `Engine Size` run in that order, and the first one that meets a text
      value raises `TypeError`; otherwise the out-of-range values are cleared. */
  function Sanitize(f: Frame, currentYear: int): (r: Result<Frame, TypeError>)
    requires WellFormed(f)
    ensures r.Err? <==> RaisesOn(f, "Year") || RaisesOn(f, "Mileage") || RaisesOn(f, "Engine Size")
    ensures r.Err? ==> r.error.column in RangedFields && RaisesOn(f, r.error.column)
    ensures r.Err? && r.error.column != "Year" ==> !RaisesOn(f, "Year")
    ensures r.Err? && r.error.column == "Engine Size" ==> !RaisesOn(f, "Mileage")
    ensures r.Ok? ==> Comparable(f) && r.value == ClearRanges(f, currentYear)
  {
    if RaisesOn(f, "Year") then Err(TypeError("Year"))
    else if RaisesOn(f, "Mileage") then Err(TypeError("Mileage"))
    else if RaisesOn(f, "Engine Size") then Err(TypeError("Engine Size"))
    else
      ComparableUnlessRaises(f);
      Ok(ClearRanges(f, currentYear))
  }

  /** A text year raises, as `between(1925, current_year)` does on a string. */
  lemma TextYearRaises(currentYear: int)
    ensures WellFormed(Frame(1, [Series("Year", Text, [Str("2018")])]))
    ensures Sanitize(Frame(1, [Series("Year", Text, [Str("2018")])]), currentYear) == Err(TypeError("Year"))
  {
    var f := Frame(1, [Series("Year", Text, [Str("2018")])]);
    assert SeriesOk(f.columns[0], 1);
    assert f.columns[0].cells[0].Str?;
    assert RaisesOn(f, "Year");
  }

  /** `Year` becomes missing exactly when it lies outside [1925, current year]. */
  lemma YearRange(y: real, currentYear: int)
    ensures SanitizeCell("Year", Num(y), currentYear) == if 1925.0 <= y <= currentYear as real then Num(y) else Absent
  {
  }

  /** `Mileage` becomes missing exactly when it is below 0 or above 600000. */
  lemma MileageRange(m: real)
    ensures forall currentYear :: SanitizeCell("Mileage", Num(m), currentYear) == if 0.0 <= m <= 600000.0 then Num(m) else Absent
  {
  }

  /** `Engine Size` becomes missing exactly when it is below 0 or above 6. */
  lemma EngineSizeRange(e: real)
    ensures forall currentYear :: SanitizeCell("Engine Size", Num(e), currentYear) == if 0.0 <= e <= 6.0 then Num(e) else Absent
  {
  }

  /** A missing value stays missing. */
  lemma SanitizeKeepsAbsent(name: string, currentYear: int)
    ensures SanitizeCell(name, Absent, currentYear) == Absent
  {
  }

  /** Cleaning a cleaned frame succeeds and changes nothing. */
  lemma SanitizeIdempotent(f: Frame, currentYear: int)
    requires WellFormed(f)
    ensures Sanitize(f, currentYear).Ok? ==> Sanitize(Sanitize(f, currentYear).value, currentYear) == Sanitize(f, currentYear)
  {
    if Sanitize(f, currentYear).Ok? {
      var once := ClearRanges(f, currentYear);
      forall j | 0 <= j < |once.columns| && once.columns[j].name in RangedFields ensures !HoldsText(once.columns[j]) {
        var s := f.columns[j];
        assert !HoldsText(s);
        forall i | 0 <= i < |s.cells| ensures !once.columns[j].cells[i].Str? {
          assert once.columns[j].cells[i] == SanitizeCell(s.name, s.cells[i], currentYear);
        }
      }
      ComparableKeepsQuiet(once);
      var twice := ClearRanges(once, currentYear);
      forall j | 0 <= j < |f.columns| ensures twice.columns[j] == once.columns[j] {
        var s := once.columns[j];
        assert SanitizeSeries(s, currentYear).cells == s.cells;
      }
      assert twice.columns == once.columns;
    }
  }

  /** A comparable frame raises on no range check. */
  lemma ComparableKeepsQuiet(f: Frame)
    requires Comparable(f)
    ensures !RaisesOn(f, "Year") && !RaisesOn(f, "Mileage") && !RaisesOn(f, "Engine Size")
  {
  }

  /** The `df.loc[mask, col] = NA` assignment over the cells of column
      `name`: the first text value raises; otherwise exactly the
      out-of-range numbers are cleared. */
  method ClearOutOfRange(name: string, cells: seq<Cell>, lo: real, hi: real) returns (r: Result<seq<Cell>, TypeError>)
    ensures r.Err? <==> exists i :: 0 <= i < |cells| && cells[i].Str?
    ensures r.Err? ==> r.error == TypeError(name)
    ensures r.Ok? ==> |r.value| == |cells| && forall i :: 0 <= i < |cells| ==> r.value[i] == KeepInRange(cells[i], lo, hi)
  {
    var out := cells;
    var i := 0;
    while i < |out|
      invariant 0 <= i <= |out| == |cells|
      invariant forall k :: 0 <= k < i ==> !cells[k].Str? && out[k] == KeepInRange(cells[k], lo, hi)
      invariant forall k :: i <= k < |out| ==> out[k] == cells[k]
    {
      if out[i].Str? {
        return Err(TypeError(name));
      }
      if out[i].Num? && (out[i].x < lo || out[i].x > hi) {
        out := out[i := Absent];
      }
      i := i + 1;
    }
    return Ok(out);
  }

  /** `Year`, `Mileage` and `Engine Size` in turn, each when the frame has it. */
  method CleanColumn(f: Frame, cols: seq<Series>, name: string, currentYear: int, ghost done: set<string>) returns (r: Result<seq<Series>, TypeError>)
    requires WellFormed(f) && name in RangedFields && name !in done
    requires forall j :: 0 <= j < |f.columns| && f.columns[j].name in done ==> !HoldsText(f.columns[j])
    requires |cols| == |f.columns|
    requires forall j :: 0 <= j < |cols| ==>
      cols[j] == if f.columns[j].name in done then SanitizeSeries(f.columns[j], currentYear) else f.columns[j]
    ensures r.Err? <==> RaisesOn(f, name)
    ensures r.Err? ==> r.error == TypeError(name)
    ensures r.Ok? ==> |r.value| == |f.columns| && forall j :: 0 <= j < |f.columns| ==>
      r.value[j] == if f.columns[j].name in done + {name} then SanitizeSeries(f.columns[j], currentYear) else f.columns[j]
  {
    var k := IndexOf(cols, name);
    if k.Some? {
      var c := k.value;
      assert cols[c] == f.columns[c];
      var (lo, hi) := Bounds(name, currentYear).value;
      var kept := ClearOutOfRange(name, cols[c].cells, lo, hi);
      if kept.Err? {
        assert HoldsText(f.columns[c]);
        return Err(kept.error);
      }
      forall j | 0 <= j < |f.columns| && f.columns[j].name == name ensures j == c {
        assert cols[j].name == f.columns[j].name;
      }
      assert kept.value == SanitizeSeries(f.columns[c], currentYear).cells;
      r := Ok(cols[c := cols[c].(cells := kept.value)]);
    } else {
      forall j | 0 <= j < |cols| ensures f.columns[j].name != name {
        assert cols[j].name == f.columns[j].name;
        assert cols[j].name in Names(cols);
      }
      r := Ok(cols);
    }
  }

  /** `clean_numerical`: out-of-range `Year`, `Mileage` and `Engine Size`
      values become missing and nothing else changes, unless one of the
      three checks meets a text value and raises. */
  method CleanNumerical(f: Frame, currentYear: int) returns (r: Result<Frame, TypeError>)
    requires WellFormed(f)
    ensures r == Sanitize(f, currentYear)
  {
    var cols := f.columns;
    var year := CleanColumn(f, cols, "Year", currentYear, {});
    if year.Err? {
      return Err(year.error);
    }
    var mileage := CleanColumn(f, year.value, "Mileage", currentYear, {"Year"});
    if mileage.Err? {
      return Err(mileage.error);
    }
    var engine := CleanColumn(f, mileage.value, "Engine Size", currentYear, {"Year", "Mileage"});
    if engine.Err? {
      return Err(engine.error);
    }
    r := Ok(Frame(f.height, engine.value));
    assert r.value.columns == Sanitize(f, currentYear).value.columns;
  }

  // ---------------------------------------------------------------------
  // engineered_features
  // ---------------------------------------------------------------------

  /** The columns the feature step removes or creates. */
  const Engineered: set<string> := {"Year", "Mileage", "Car Age", "Log Mileage"}

  /** `current_year - df["Year"]`. */
  function CarAge(currentYear: int, year: Series): (r: Series)
    requires forall i :: 0 <= i < |year.cells| ==> !year.cells[i].Str?
    ensures r.name == "Car Age" && r.kind == Numeric && |r.cells| == |year.cells|
    ensures forall i :: 0 <= i < |year.cells| ==> (r.cells[i].Absent? <==> year.cells[i].Absent?)
    ensures forall i :: 0 <= i < |year.cells| && year.cells[i].Num? ==> r.cells[i] == Num(currentYear as real - year.cells[i].x)
  {
    Series("Car Age", Numeric, seq(|year.cells|, i requires 0 <= i < |year.cells| =>
      match year.cells[i]
      case Num(y) => Num(currentYear as real - y)
      case _ => Absent))
  }

  /** `np.log1p(df["Mileage"])`; below -1 the logarithm is undefined and the
      result is missing. */
  function LogMileage(log1p: real -> real, mileage: Series): (r: Series)
    requires forall i :: 0 <= i < |mileage.cells| ==> !mileage.cells[i].Str?
    ensures r.name == "Log Mileage" && r.kind == Numeric && |r.cells| == |mileage.cells|
    ensures forall i :: 0 <= i < |mileage.cells| && mileage.cells[i].Num? && mileage.cells[i].x >= -1.0 ==>
      r.cells[i] == Num(log1p(mileage.cells[i].x))
    ensures forall i :: 0 <= i < |mileage.cells| ==>
      (r.cells[i].Absent? <==> mileage.cells[i].Absent? || mileage.cells[i].x < -1.0)
  {
    Series("Log Mileage", Numeric, seq(|mileage.cells| , i requires 0 <= i < |mileage.cells| =>
      match mileage.cells[i]
      case Num(m) => if m < -1.0 then Absent else Num(log1p(m))
      case _ => Absent))
  }

  /** After the numerical cleanup every present car age lies in
      [0, current year - 1925]. */
  lemma CarAgeAfterCleaning(currentYear: int, year: Series)
    requires forall i :: 0 <= i < |year.cells| ==> !year.cells[i].Str?
    requires year.name == "Year"
    ensures var age := CarAge(currentYear, SanitizeSeries(year, currentYear));
      forall i :: 0 <= i < |age.cells| && age.cells[i].Num? ==>
        0.0 <= age.cells[i].x <= (currentYear - FirstYear) as real
  {
    var clean := SanitizeSeries(year, currentYear);
    forall i | 0 <= i < |clean.cells| ensures !clean.cells[i].Str? && (clean.cells[i].Num? ==> FirstYear as real <= clean.cells[i].x <= currentYear as real) {
      assert clean.cells[i] == KeepInRange(year.cells[i], FirstYear as real, currentYear as real);
    }
  }

  /** `engineered_features`: `Year` is replaced by `Car Age` and `Mileage` by
      `Log Mileage`, each step only when its source column exists; every other
      column keeps its contents and relative order. */
  method EngineeredFeatures(f: Frame, currentYear: int, log1p: real -> real) returns (r: Frame)
    requires WellFormed(f) && Typed(f)
    ensures WellFormed(r) && r.height == f.height
    ensures "Year" !in Names(r.columns) && "Mileage" !in Names(r.columns)
    ensures ColumnOf(f.columns, "Year").Some? ==>
      ColumnOf(r.columns, "Car Age") == Some(CarAge(currentYear, ColumnOf(f.columns, "Year").value))
    ensures ColumnOf(f.columns, "Year").None? ==> ColumnOf(r.columns, "Car Age") == ColumnOf(f.columns, "Car Age")
    ensures ColumnOf(f.columns, "Mileage").Some? ==>
      ColumnOf(r.columns, "Log Mileage") == Some(LogMileage(log1p, ColumnOf(f.columns, "Mileage").value))
    ensures ColumnOf(f.columns, "Mileage").None? ==> ColumnOf(r.columns, "Log Mileage") == ColumnOf(f.columns, "Log Mileage")
    ensures Without(r.columns, Engineered) == Without(f.columns, Engineered)
  {
    var cols := AddCarAge(f, currentYear);
    assert ColumnOf(cols, "Mileage") == ColumnOf(f.columns, "Mileage");
    assert ColumnOf(cols, "Log Mileage") == ColumnOf(f.columns, "Log Mileage");
    ghost var mid := cols;
    cols := AddLogMileage(f, cols, log1p);
    assert ColumnOf(cols, "Car Age") == ColumnOf(mid, "Car Age");
    assert ColumnOf(cols, "Year") == ColumnOf(mid, "Year");
    r := Frame(f.height, cols);
  }

  /** The first block of `engineered_features`: when the frame has `Year`,
      `Car Age` is computed from it and `Year` is dropped. */
  method AddCarAge(f: Frame, currentYear: int) returns (cols: seq<Series>)
    requires WellFormed(f) && Typed(f)
    ensures WellFormed(Frame(f.height, cols)) && "Year" !in Names(cols)
    ensures ColumnOf(f.columns, "Year").Some? ==>
      ColumnOf(cols, "Car Age") == Some(CarAge(currentYear, ColumnOf(f.columns, "Year").value))
    ensures ColumnOf(f.columns, "Year").None? ==> cols == f.columns
    ensures forall n :: n != "Year" && n != "Car Age" ==> ColumnOf(cols, n) == ColumnOf(f.columns, n)
    ensures Without(cols, Engineered) == Without(f.columns, Engineered)
  {
    cols := f.columns;
    var year := ColumnOf(cols, "Year");
    if year.Some? {
      NumericColumnHoldsNoText(f, year.value);
      ReplaceKeepsShape(cols, "Year", CarAge(currentYear, year.value), f.height);
      cols := Replace(cols, "Year", CarAge(currentYear, year.value));
    }
  }

  /** The second block: when the frame has `Mileage`, `Log Mileage` is
      computed from it and `Mileage` is dropped. */
  method AddLogMileage(f: Frame, cols: seq<Series>, log1p: real -> real) returns (cols': seq<Series>)
    requires WellFormed(f) && Typed(f) && WellFormed(Frame(f.height, cols))
    requires ColumnOf(cols, "Mileage") == ColumnOf(f.columns, "Mileage")
    ensures WellFormed(Frame(f.height, cols')) && "Mileage" !in Names(cols')
    ensures ColumnOf(cols, "Mileage").Some? ==>
      ColumnOf(cols', "Log Mileage") == Some(LogMileage(log1p, ColumnOf(cols, "Mileage").value))
    ensures ColumnOf(cols, "Mileage").None? ==> cols' == cols
    ensures forall n :: n != "Mileage" && n != "Log Mileage" ==> ColumnOf(cols', n) == ColumnOf(cols, n)
    ensures Without(cols', Engineered) == Without(cols, Engineered)
  {
    cols' := cols;
    var mileage := ColumnOf(cols, "Mileage");
    if mileage.Some? {
      NumericColumnHoldsNoText(f, mileage.value);
      ReplaceKeepsShape(cols, "Mileage", LogMileage(log1p, mileage.value), f.height);
      cols' := Replace(cols, "Mileage", LogMileage(log1p, mileage.value));
    }
  }

  /** A column the feature step computes with holds no text in a typed frame. */
  lemma NumericColumnHoldsNoText(f: Frame, s: Series)
    requires WellFormed(f) && Typed(f)
    requires s in f.columns && s.name in FeatureSources
    ensures SeriesOk(s, f.height) && forall i :: 0 <= i < |s.cells| ==> !s.cells[i].Str?
  {
    var j :| 0 <= j < |f.columns| && f.columns[j] == s;
    assert SeriesOk(f.columns[j], f.height);
    if s.name == "Year" {
      assert !HoldsText(f.columns[j]);
    }
  }

  /** The feature step accepts a `Year` column that the categorical cleanup
      left all missing, and text in the columns it does not read. */
  lemma TypedAllowsUnreadText()
    ensures Typed(Frame(1, [Series("Year", Text, [Absent]), Series("Price", Text, [Str("cheap")])]))
  {
    var f := Frame(1, [Series("Year", Text, [Absent]), Series("Price", Text, [Str("cheap")])]);
    assert f.columns[0].cells == [Absent];
  }

  /** A non-empty `Mileage` column of the object kind is refused even when
      every cell is missing, as `np.log1p` raises on it. */
  lemma MissingTextMileageNotTyped()
    ensures !Typed(Frame(1, [Series("Mileage", Text, [Absent])]))
  {
    var f := Frame(1, [Series("Mileage", Text, [Absent])]);
    assert f.columns[0].name == "Mileage";
  }
}
