/**
 * The data preparation of train_model.py: the built-in demo dataset (get_demo_data,
 * train_model.py:22-53) and the column resolution and label normalisation of load_csv
 * (train_model.py:56-77). A CSV is its header and its rows, each row a map from column name to
 * cell; the cells are what pandas' astype(str) shows, or NA.
 */
module Training {
  import opened Wrappers
  import opened Strings

  // ---- get_demo_data ----

  const DemoFake: seq<string> := [
    "SHOCKING!!! Government HIDING cure for cancer! Big Pharma secret!",
    "You WON'T BELIEVE what happens next!!! Doctors HATE this trick!",
    "BREAKING: Alien invasion COVER UP!!! They don't want you to KNOW!",
    "One weird trick to lose weight - experts are FURIOUS!!!",
    "Fake miracle cure EXPOSED - but Big Pharma silenced them!",
    "CONSPIRACY: NASA never went to moon!!! Proof inside!",
    "Celebrity DEATH HOAX - click to see the TRUTH they hide!",
    "Viral post claims unbelievable fact - share before deleted!!!",
    "The SECRET they don't want you to know - 100% guaranteed!!!",
    "FAKE NEWS alert: outrageous claim spreads like wildfire!!!"
  ]

  const DemoReal: seq<string> := [
    "Scientists at MIT announce breakthrough in battery technology according to research published in Nature Energy.",
    "Local community center announces new after-school programming for youth including sports and arts activities.",
    "Federal Reserve raises interest rates by quarter point citing inflation concerns.",
    "Study finds moderate exercise improves cognitive function in older adults.",
    "City council approves budget for infrastructure improvements and park maintenance.",
    "Researchers at Harvard publish findings on climate change impact in coastal regions.",
    "School district reports improved test scores following new curriculum implementation.",
    "Health department recommends flu vaccination ahead of winter season.",
    "Economic indicators suggest gradual recovery in manufacturing sector.",
    "University study examines effects of sleep on academic performance in students."
  ]

  const Repeats := 50

  /** Python's list * n. */
  function Times<T>(s: seq<T>, n: nat): (r: seq<T>)
    ensures |r| == |s| * n
  {
    if n == 0 then [] else Times(s, n - 1) + s
  }

  /** The demo lists have ten sentences: element i of the repeated list is sentence i % 10. */
  lemma {:induction false} TimesAt<T>(s: seq<T>, n: nat, i: nat)
    requires |s| == 10 && i < 10 * n
    ensures Times(s, n)[i] == s[i % 10]
    decreases n
  {
    if i < 10 * (n - 1) {
      TimesAt(s, n - 1, i);
    } else {
      assert Times(s, n)[i] == s[i - 10 * (n - 1)];
    }
  }

  /** A labelled example: the text and its tag, 0 for fake and 1 for real. */
  datatype Example = Example(text: string, tag: int)

  function Labelled(texts: seq<string>, tag: int): (r: seq<Example>)
    ensures |r| == |texts| && forall i :: 0 <= i < |r| ==> r[i] == Example(texts[i], tag)
  {
    seq(|texts|, i requires 0 <= i < |texts| => Example(texts[i], tag))
  }

  /** get_demo_data: the fake examples, then the real ones (pd.concat with ignore_index). */
  function DemoData(): seq<Example> {
    Labelled(Times(DemoFake, Repeats), 0) + Labelled(Times(DemoReal, Repeats), 1)
  }

  /**
   * The demo dataset has 1000 rows: the ten fake sentences fifty times over with label 0,
   * then the ten real ones fifty times over with label 1.
   */
  lemma DemoLayout()
    ensures |DemoData()| == 1000
    ensures forall i :: 0 <= i < 500 ==> DemoData()[i] == Example(DemoFake[i % 10], 0)
    ensures forall i :: 500 <= i < 1000 ==> DemoData()[i] == Example(DemoReal[(i - 500) % 10], 1)
  {
    var fakes, reals := Times(DemoFake, Repeats), Times(DemoReal, Repeats);
    var d := DemoData();
    assert d == Labelled(fakes, 0) + Labelled(reals, 1);
    forall i | 0 <= i < 500 ensures d[i] == Example(DemoFake[i % 10], 0) {
      TimesAt(DemoFake, Repeats, i);
    }
    forall i | 500 <= i < 1000 ensures d[i] == Example(DemoReal[(i - 500) % 10], 1) {
      TimesAt(DemoReal, Repeats, i - 500);
    }
  }

  // ---- load_csv ----

  const TextColumn := "text"
  const LabelColumn := "label"
  const TextAlternatives := ["title", "content", "article", "news"]
  const LabelAlternatives := ["labels", "target", "is_fake", "category"]

  /** A cell as astype(str) shows it; NA is a missing value. */
  datatype Cell = NA | Value(shown: string)

  datatype Csv = Csv(columns: seq<string>, rows: seq<map<string, Cell>>)

  /** pandas gives every row a cell in every column. */
  predicate Rectangular(csv: Csv) {
    forall i, c :: 0 <= i < |csv.rows| && c in csv.columns ==> c in csv.rows[i]
  }

  /** The first alternative that is a column. */
  function FirstPresent(alternatives: seq<string>, columns: seq<string>): (r: Option<string>)
    ensures r.Some? ==> r.value in alternatives && r.value in columns
    ensures r.Some? ==> exists i :: (0 <= i < |alternatives| && alternatives[i] == r.value &&
      forall j :: 0 <= j < i ==> alternatives[j] !in columns)
    ensures r.None? <==> forall a :: a in alternatives ==> a !in columns
  {
    if alternatives == [] then None
    else if alternatives[0] in columns then Some(alternatives[0])
    else
      var r := FirstPresent(alternatives[1..], columns);
      if r.Some? then
        var i :| 0 <= i < |alternatives[1..]| && alternatives[1..][i] == r.value &&
          forall j :: 0 <= j < i ==> alternatives[1..][j] !in columns;
        assert alternatives[i + 1] == r.value;
        r
      else r
  }

  /** The column that ends up named target: target itself, else the first alternative present. */
  function Origin(columns: seq<string>, target: string, alternatives: seq<string>): Option<string> {
    if target in columns then Some(target) else FirstPresent(alternatives, columns)
  }

  /** df.rename(columns={from: to}). */
  function Rename(columns: seq<string>, from: string, to: string): (r: seq<string>)
    ensures |r| == |columns| && forall i :: 0 <= i < |r| ==> r[i] == if columns[i] == from then to else columns[i]
  {
    seq(|columns|, i requires 0 <= i < |columns| => if columns[i] == from then to else columns[i])
  }

  /** The header after one resolution step. */
  function Resolved(columns: seq<string>, target: string, alternatives: seq<string>): seq<string> {
    var o := Origin(columns, target, alternatives);
    if o.Some? && o.value != target then Rename(columns, o.value, target) else columns
  }

  /**
   * One resolution loop of load_csv: when target is missing, rename the first alternative
   * present and stop looking.
   */
  method ResolveColumn(columns: seq<string>, target: string, alternatives: seq<string>) returns (cols: seq<string>, origin: Option<string>)
    ensures cols == Resolved(columns, target, alternatives)
    ensures origin == Origin(columns, target, alternatives)
  {
    cols, origin := columns, None;
    if target in columns {
      return columns, Some(target);
    }
    for k := 0 to |alternatives|
      invariant FirstPresent(alternatives, columns) == FirstPresent(alternatives[k..], columns)
    {
      if alternatives[k] in columns {
        cols := Rename(columns, alternatives[k], target);
        origin := Some(alternatives[k]);
        return;
      }
      assert alternatives[k..][1..] == alternatives[k + 1..];
    }
  }

  /**
   * After a resolution step target is a column exactly when it was one or one of the
   * alternatives was; an existing target column is left alone, and otherwise only the first
   * alternative present is renamed, every other column keeping its name.
   */
  lemma ResolvedSpec(columns: seq<string>, target: string, alternatives: seq<string>)
    ensures var cols := Resolved(columns, target, alternatives);
      && (target in cols <==> target in columns || exists a :: a in alternatives && a in columns)
      && (target in columns ==> cols == columns)
      && (forall c :: c in columns && c != target && Some(c) != FirstPresent(alternatives, columns) ==> c in cols)
  {
    var cols := Resolved(columns, target, alternatives);
    var o := Origin(columns, target, alternatives);
    if target !in columns && o.Some? {
      var i :| 0 <= i < |columns| && columns[i] == o.value;
      assert cols[i] == target;
    }
    forall c | c in columns && c != target && Some(c) != FirstPresent(alternatives, columns) ensures c in cols {
      var i :| 0 <= i < |columns| && columns[i] == c;
      assert cols[i] == c;
    }
  }

  /** str.contains("real|1|true") on the lower-cased label. */
  function Normalised(c: Cell): (tag: int)
    ensures tag == 0 || tag == 1
  {
    var s := Lower(if c.NA? then "nan" else c.shown);
    if Contains(s, "real") || Contains(s, "1") || Contains(s, "true") then 1 else 0
  }

  /** Labels that mention real, 1 or true anywhere become 1. */
  lemma NormalisedPositive()
    ensures Normalised(Value("unreal")) == 1 && Normalised(Value("10")) == 1 && Normalised(Value("True")) == 1
  {
    assert Lower("unreal") == "unreal";
    assert StartsWith("unreal"[2..], "real");
    assert Lower("10") == "10";
    assert StartsWith("10", "1");
    assert Lower("True") == "true";
    assert StartsWith("true", "true");
  }

  /** Other labels, and a missing one (shown as "nan"), become 0. */
  lemma NormalisedNegative()
    ensures Normalised(Value("fake")) == 0 && Normalised(Value("0")) == 0 && Normalised(NA) == 0
  {
    assert Lower("fake") == "fake";
    NotContains("fake", "real");
    NotContains("fake", "1");
    NotContains("fake", "true");
    assert Lower("nan") == "nan";
    NotContains("nan", "real");
    NotContains("nan", "1");
    NotContains("nan", "true");
    assert Lower("0") == "0";
    NotContains("0", "real");
    NotContains("0", "1");
    NotContains("0", "true");
  }

  /** A string in which the first character of sub does not occur does not contain sub. */
  lemma {:induction false} NotContains(s: string, sub: string)
    requires |sub| > 0 && forall i :: 0 <= i < |s| ==> s[i] != sub[0]
    ensures !Contains(s, sub)
    decreases |s|
  {
    if |s| > 0 {
      if |sub| <= |s| {
        assert s[..|sub|][0] == s[0];
      }
      assert forall i :: 0 <= i < |s[1..]| ==> s[1..][i] == s[i + 1];
      NotContains(s[1..], sub);
    }
  }

  /** The rows kept by dropna(), each as (text, normalised label). */
  function Examples(rows: seq<map<string, Cell>>, text: string, labelColumn: string): (r: seq<Example>)
    requires forall i :: 0 <= i < |rows| ==> text in rows[i] && labelColumn in rows[i]
    decreases |rows|
  {
    if rows == [] then []
    else
      var last := rows[|rows| - 1];
      var rest := Examples(rows[..|rows| - 1], text, labelColumn);
      if last[text].NA? then rest else rest + [Example(last[text].shown, Normalised(last[labelColumn]))]
  }

  /** The rows whose text is missing. */
  function MissingText(rows: seq<map<string, Cell>>, text: string): nat
    requires forall i :: 0 <= i < |rows| ==> text in rows[i]
    decreases |rows|
  {
    if rows == [] then 0
    else MissingText(rows[..|rows| - 1], text) + (if rows[|rows| - 1][text].NA? then 1 else 0)
  }

  /** Only rows with a missing text are dropped: a missing label normalises to 0 and stays. */
  lemma {:induction false} ExamplesCount(rows: seq<map<string, Cell>>, text: string, labelColumn: string)
    requires forall i :: 0 <= i < |rows| ==> text in rows[i] && labelColumn in rows[i]
    ensures |Examples(rows, text, labelColumn)| == |rows| - MissingText(rows, text)
    ensures MissingText(rows, text) <= |rows|
    decreases |rows|
  {
    if rows != [] {
      ExamplesCount(rows[..|rows| - 1], text, labelColumn);
    }
  }

  /** The header after both resolution steps. */
  function Header(columns: seq<string>): seq<string> {
    Resolved(Resolved(columns, TextColumn, TextAlternatives), LabelColumn, LabelAlternatives)
  }

  /** A missing text or label column: the columns found are reported. */
  datatype LoadError = MissingColumns(found: seq<string>)

  /**
   * load_csv after pd.read_csv: resolve the text and label columns, fail when either is still
   * missing, then normalise the labels and drop rows without text.
   */
  method LoadCsv(csv: Csv) returns (r: Result<seq<Example>, LoadError>)
    requires Rectangular(csv)
    ensures r.Failure? <==> TextColumn !in Header(csv.columns) || LabelColumn !in Header(csv.columns)
    ensures r.Failure? ==> r.error == MissingColumns(Header(csv.columns))
    ensures r.Success? ==>
      var t := Origin(csv.columns, TextColumn, TextAlternatives).value;
      var c1 := Resolved(csv.columns, TextColumn, TextAlternatives);
      var l := Origin(c1, LabelColumn, LabelAlternatives).value;
      && t in csv.columns && l in csv.columns
      && r.value == Examples(csv.rows, t, l)
  {
    var cols, t := ResolveColumn(csv.columns, TextColumn, TextAlternatives);
    var cols2, l := ResolveColumn(cols, LabelColumn, LabelAlternatives);
    if TextColumn !in cols2 || LabelColumn !in cols2 {
      return Failure(MissingColumns(cols2));
    }
    ResolvedSpec(csv.columns, TextColumn, TextAlternatives);
    ResolvedSpec(cols, LabelColumn, LabelAlternatives);
    OriginIn(csv.columns, TextColumn, TextAlternatives);
    OriginIn(cols, LabelColumn, LabelAlternatives);
    LabelOriginOriginal(csv.columns);
    return Success(Examples(csv.rows, t.value, l.value));
  }

  lemma OriginIn(columns: seq<string>, target: string, alternatives: seq<string>)
    requires target in Resolved(columns, target, alternatives)
    ensures Origin(columns, target, alternatives).Some? && Origin(columns, target, alternatives).value in columns
  {
  }

  /** The label column comes from the CSV's own header: the text step renames only a text alternative. */
  lemma LabelOriginOriginal(columns: seq<string>)
    ensures var c1 := Resolved(columns, TextColumn, TextAlternatives);
      var o := Origin(c1, LabelColumn, LabelAlternatives);
      o.Some? && o.value in c1 ==> o.value in columns
  {
    var c1 := Resolved(columns, TextColumn, TextAlternatives);
    var o := Origin(c1, LabelColumn, LabelAlternatives);
    if o.Some? && o.value in c1 {
      assert o.value != TextColumn;
      var i :| 0 <= i < |c1| && c1[i] == o.value;
      assert columns[i] == o.value;
    }
  }
}
