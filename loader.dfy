/**
 * `load_and_prepare_data` of src/preprocess.py: the column rules applied to
 * the table read from the papers CSV (the reading itself is I/O and is not
 * modelled; the table arrives as a parameter).
 *
 * Prepare is the whole step as a function of the input table; the Frame
 * method LoadAndPrepareData performs it column by column, as the source does,
 * and is proved to produce Prepare's table.
 */
module Loader {
  import opened Common
  import opened Normalize
  import opened Frames

  /** The `ValueError`, `TypeError` and `KeyError` the step can raise. */
  datatype LoadError =
    | MissingColumn(name: string)   // "Missing required column: <name>"
    | NotText(column: string)       // a numeric title or abstract cannot be concatenated with " "
    | NotInIndex(name: string)      // a column looked up by `df[[...]]` that the table lacks

  datatype Outcome = Loaded | Failed(error: LoadError)

  /** `required_cols`, checked in this order. */
  const Required: seq<string> := ["paper_id", "title", "abstract"]

  /** The columns the step writes. */
  const Derived: seq<string> := ["authors_str", "references_str", "text_raw", "text_clean", "year", "n_citation"]

  /** `id` becomes `paper_id` when there is an `id` column and no `paper_id` column. */
  function Aliased(t: Table): (r: Table)
    requires WellFormed(t)
    ensures WellFormed(r) && r.rows == t.rows
  {
    if "id" in t.columns && "paper_id" !in t.columns then Renamed(t, "id", "paper_id") else t
  }

  /** The first of `names` that is not among `columns`, if any. */
  function FirstMissing(columns: seq<string>, names: seq<string>): (r: Option<string>)
    ensures r.None? <==> forall i :: 0 <= i < |names| ==> names[i] in columns
    ensures r.Some? ==> exists k :: 0 <= k < |names| && names[k] == r.value && names[k] !in columns &&
                                    (forall j :: 0 <= j < k ==> names[j] in columns)
  {
    if names == [] then None
    else if names[0] !in columns then Some(names[0])
    else
      var r := FirstMissing(columns, names[1..]);
      assert r.Some? ==> exists k :: 0 <= k < |names| && names[k] == r.value && names[k] !in columns &&
                                     (forall j :: 0 <= j < k ==> names[j] in columns) by {
        if r.Some? {
          var k :| 0 <= k < |names| - 1 && names[1..][k] == r.value && names[1..][k] !in columns &&
            forall j :: 0 <= j < k ==> names[1..][j] in columns;
          assert forall j :: 0 <= j < k + 1 ==> names[j] in columns by {
            forall j | 0 <= j < k + 1 ensures names[j] in columns {
              if j > 0 { assert names[j] == names[1..][j - 1]; }
            }
          }
        }
      }
      r
  }

  /** A column of empty strings: `df[...] = ""`. */
  function Blank(n: nat): (col: seq<Cell>)
    ensures |col| == n
  {
    seq(n, _ => Text(""))
  }

  /** `df[source].apply(parse_list_like)`. */
  function ParsedColumn(col: seq<Cell>, literal: string -> Option<seq<string>>): (r: seq<Cell>)
    ensures |r| == |col|
  {
    seq(|col|, i requires 0 <= i < |col| => Text(ParseListLike(CellString(col[i]), literal)))
  }

  /** `authors_str` / `references_str`: the parsed source column, or empty strings without one. */
  function ListColumn(t: Table, source: string, literal: string -> Option<seq<string>>): (col: seq<Cell>)
    requires WellFormed(t)
    ensures |col| == t.rows
  {
    if source in t.columns then ParsedColumn(t.cells[source], literal) else Blank(t.rows)
  }

  predicate HasNumber(col: seq<Cell>)
  {
    exists i :: 0 <= i < |col| && col[i].Number?
  }

  /** `fillna("")` of a title or abstract cell. */
  function FilledText(c: Cell): string
    requires !c.Number?
  {
    match c
    case Missing => ""
    case Text(s) => s
  }

  /** `df["title"].fillna("") + " " + df["abstract"].fillna("")`, row by row. */
  function RawTexts(titles: seq<Cell>, abstracts: seq<Cell>): (r: seq<string>)
    requires |titles| == |abstracts| && !HasNumber(titles) && !HasNumber(abstracts)
    ensures |r| == |titles|
  {
    seq(|titles|, i requires 0 <= i < |titles| => FilledText(titles[i]) + " " + FilledText(abstracts[i]))
  }

  function TextCells(texts: seq<string>): (col: seq<Cell>)
    ensures |col| == |texts|
  {
    seq(|texts|, i requires 0 <= i < |texts| => Text(texts[i]))
  }

  /** `df["text_raw"].apply(clean_text)`. */
  function CleanCells(texts: seq<string>): (col: seq<Cell>)
    ensures |col| == |texts|
  {
    seq(|texts|, i requires 0 <= i < |texts| => Text(CleanText(Some(texts[i]))))
  }

  /**
   * `pd.to_numeric(value, errors="coerce")` of one cell; `numeric` stands
   * for pandas' parse of a text, None when it does not read as a number.
   */
  function ToNumeric(c: Cell, numeric: string -> Option<int>): Cell
  {
    match c
    case Missing => Missing
    case Number(n) => Number(n)
    case Text(s) => if numeric(s).Some? then Number(numeric(s).value) else Missing
  }

  /** `pd.to_numeric(df["year"], errors="coerce").astype("Int64")`. */
  function YearCells(col: seq<Cell>, numeric: string -> Option<int>): (r: seq<Cell>)
    ensures |r| == |col|
  {
    seq(|col|, i requires 0 <= i < |col| => ToNumeric(col[i], numeric))
  }

  /** `pd.to_numeric(df["n_citation"], errors="coerce").fillna(0).astype(int)`. */
  function CitationCells(col: seq<Cell>, numeric: string -> Option<int>): (r: seq<Cell>)
    ensures |r| == |col|
  {
    seq(|col|, i requires 0 <= i < |col| =>
      if ToNumeric(col[i], numeric).Missing? then Number(0) else ToNumeric(col[i], numeric))
  }


  /** Every column of `t` outside `written` is in `r` with the same cells, and `r` has no other new column. */
  ghost predicate Keeps(t: Table, r: Table, written: seq<string>)
  {
    (forall c :: c in t.cells && c !in written ==> c in r.cells && r.cells[c] == t.cells[c]) &&
    (forall c :: c in r.cells ==> c in t.cells || c in written)
  }

  /** `authors_str` and `references_str`, written in that order. */
  function AddListColumns(a: Table, literal: string -> Option<seq<string>>): (r: Table)
    requires WellFormed(a)
    ensures WellFormed(r) && r.rows == a.rows && a.columns <= r.columns
    ensures Keeps(a, r, ["authors_str", "references_str"])
    ensures "authors_str" in r.cells && r.cells["authors_str"] == ListColumn(a, "authors", literal)
    ensures "references_str" in r.cells && r.cells["references_str"] == ListColumn(a, "references", literal)
  {
    var t1 := WithColumn(a, "authors_str", ListColumn(a, "authors", literal));
    assert ListColumn(t1, "references", literal) == ListColumn(a, "references", literal);
    WithColumn(t1, "references_str", ListColumn(t1, "references", literal))
  }

  /** `text_raw` (title, a space, abstract) and then `text_clean`. */
  function AddTextColumns(t: Table): (r: Table)
    requires WellFormed(t) && "title" in t.columns && "abstract" in t.columns
    requires !HasNumber(t.cells["title"]) && !HasNumber(t.cells["abstract"])
    ensures WellFormed(r) && r.rows == t.rows && t.columns <= r.columns
    ensures Keeps(t, r, ["text_raw", "text_clean"])
    ensures "text_raw" in r.cells && r.cells["text_raw"] == TextCells(RawTexts(t.cells["title"], t.cells["abstract"]))
    ensures "text_clean" in r.cells && r.cells["text_clean"] == CleanCells(RawTexts(t.cells["title"], t.cells["abstract"]))
  {
    var raw := RawTexts(t.cells["title"], t.cells["abstract"]);
    TwoColumns(t, "text_raw", TextCells(raw), "text_clean", CleanCells(raw));
    WithColumn(WithColumn(t, "text_raw", TextCells(raw)), "text_clean", CleanCells(raw))
  }

  /** Writing two different columns one after the other. */
  lemma TwoColumns(t: Table, first: string, c1: seq<Cell>, second: string, c2: seq<Cell>)
    requires WellFormed(t) && first != second && |c1| == |c2| == t.rows
    ensures var r := WithColumn(WithColumn(t, first, c1), second, c2);
      WellFormed(r) && r.rows == t.rows && t.columns <= r.columns &&
      Keeps(t, r, [first, second]) &&
      first in r.cells && r.cells[first] == c1 && second in r.cells && r.cells[second] == c2
  {
    var t1 := WithColumn(t, first, c1);
    var r := WithColumn(t1, second, c2);
    assert t.columns <= t1.columns;
    assert t1.columns <= r.columns;
    PrefixTransitive(t.columns, t1.columns, r.columns);
  }

  /** `year` coerced to a number, when the column exists. */
  function CoerceYear(t: Table, numeric: string -> Option<int>): (r: Table)
    requires WellFormed(t)
    ensures WellFormed(r) && r.rows == t.rows && r.columns == t.columns
    ensures Keeps(t, r, ["year"])
    ensures "year" in t.cells ==> "year" in r.cells && r.cells["year"] == YearCells(t.cells["year"], numeric)
  {
    if "year" in t.columns then WithColumn(t, "year", YearCells(t.cells["year"], numeric)) else t
  }

  /** `n_citation` coerced to an integer, when the column exists. */
  function CoerceCitations(t: Table, numeric: string -> Option<int>): (r: Table)
    requires WellFormed(t)
    ensures WellFormed(r) && r.rows == t.rows && r.columns == t.columns
    ensures Keeps(t, r, ["n_citation"])
    ensures "n_citation" in t.cells ==>
      "n_citation" in r.cells && r.cells["n_citation"] == CitationCells(t.cells["n_citation"], numeric)
  {
    if "n_citation" in t.columns then WithColumn(t, "n_citation", CitationCells(t.cells["n_citation"], numeric)) else t
  }

  /** `authors_str`, `references_str`, `text_raw` and `text_clean`, written in that order. */
  function TextStage(a: Table, literal: string -> Option<seq<string>>): (r: Table)
    requires WellFormed(a) && "title" in a.columns && "abstract" in a.columns
    requires !HasNumber(a.cells["title"]) && !HasNumber(a.cells["abstract"])
    ensures WellFormed(r) && r.rows == a.rows && a.columns <= r.columns
    ensures Keeps(a, r, ["authors_str", "references_str", "text_raw", "text_clean"])
    ensures "authors_str" in r.cells && "references_str" in r.cells && "text_raw" in r.cells && "text_clean" in r.cells
  {
    var t2 := AddListColumns(a, literal);
    assert "title" !in ["authors_str", "references_str"] && "abstract" !in ["authors_str", "references_str"];
    var r := AddTextColumns(t2);
    PrefixTransitive(a.columns, t2.columns, r.columns);
    r
  }

  /**
   * The derived columns, once the required columns are known present. A
   * title or abstract column holding a number stops the step when the text
   * columns are built; the list columns written before are then discarded
   * with the table.
   */
  function Derive(a: Table, literal: string -> Option<seq<string>>, numeric: string -> Option<int>): (r: Result<Table, LoadError>)
    requires WellFormed(a) && "title" in a.columns && "abstract" in a.columns
  {
    if HasNumber(a.cells["title"]) then Err(NotText("title"))
    else if HasNumber(a.cells["abstract"]) then Err(NotText("abstract"))
    else Ok(CoerceCitations(CoerceYear(TextStage(a, literal), numeric), numeric))
  }

  /** `load_and_prepare_data` on the table read from the CSV. */
  function Prepare(t: Table, literal: string -> Option<seq<string>>, numeric: string -> Option<int>): Result<Table, LoadError>
    requires WellFormed(t)
  {
    var a := Aliased(t);
    match FirstMissing(a.columns, Required)
    case Some(c) => Err(MissingColumn(c))
    case None =>
      assert Required[1] in a.columns && Required[2] in a.columns;
      Derive(a, literal, numeric)
  }

  /** The columns of the sample the step shows before returning. */
  const SampleColumns: seq<string> := ["paper_id", "title", "year"]

  /**
   * The step as written: after the columns are prepared it selects
   * `df[["paper_id", "title", "year"]]` for its progress output, and that
   * selection raises `KeyError` when a column is absent. Prepare leaves the
   * selection out, as the optional `year` column calls for.
   */
  function PrepareAsWritten(t: Table, literal: string -> Option<seq<string>>, numeric: string -> Option<int>)
    : Result<Table, LoadError>
    requires WellFormed(t)
  {
    match Prepare(t, literal, numeric)
    case Err(e) => Err(e)
    case Ok(u) => SampleCheck(u)
  }

  /** `df[["paper_id", "title", "year"]]` on the prepared table: `KeyError` for the first absent column. */
  function SampleCheck(u: Table): Result<Table, LoadError>
  {
    match FirstMissing(u.columns, SampleColumns)
    case Some(c) => Err(NotInIndex(c))
    case None => Ok(u)
  }

  /** `load_and_prepare_data`, column by column on the DataFrame. */
  method LoadAndPrepareData(df: Frame, literal: string -> Option<seq<string>>, numeric: string -> Option<int>)
    returns (outcome: Outcome)
    requires df.Valid()
    modifies df
    ensures df.Valid()
    ensures match Prepare(old(df.Value()), literal, numeric)
      case Ok(u) => outcome == Loaded && df.Value() == u
      case Err(e) => outcome == Failed(e)
  {
    AliasId(df);
    ghost var a := df.Value();
    var missing := CheckRequired(df);
    if missing.Some? {
      return Failed(MissingColumn(missing.value));
    }
    assert Required[1] in a.columns && Required[2] in a.columns;
    assert Prepare(old(df.Value()), literal, numeric) == Derive(a, literal, numeric);

    var failed := WriteTextStage(df, literal);
    if failed.Some? {
      return Failed(failed.value);
    }
    CoerceNumberColumns(df, numeric);
    return Loaded;
  }

  /** `df = df.rename(columns={"id": "paper_id"})` when there is `id` and no `paper_id`. */
  method AliasId(df: Frame)
    requires df.Valid()
    modifies df
    ensures df.Valid() && df.Value() == Aliased(old(df.Value()))
  {
    if df.Has("id") && !df.Has("paper_id") {
      df.RenameColumn("id", "paper_id");
    }
  }

  /** The loop over `required_cols`: the first one the table lacks, if any. */
  method CheckRequired(df: Frame) returns (missing: Option<string>)
    requires df.Valid()
    ensures missing == FirstMissing(df.columns, Required)
  {
    for i := 0 to |Required|
      invariant forall j :: 0 <= j < i ==> Required[j] in df.columns
    {
      if !df.Has(Required[i]) {
        FirstMissingAt(df.columns, Required, i);
        return Some(Required[i]);
      }
    }
    return None;
  }

  /** `df["authors_str"] = ...` and `df["references_str"] = ...`. */
  method WriteListColumns(df: Frame, literal: string -> Option<seq<string>>)
    requires df.Valid()
    modifies df
    ensures df.Valid() && df.Value() == AddListColumns(old(df.Value()), literal)
  {
    if df.Has("authors") {
      df.SetColumn("authors_str", ParsedColumn(df.Column("authors"), literal));
    } else {
      df.SetColumn("authors_str", Blank(df.rows));
    }
    if df.Has("references") {
      df.SetColumn("references_str", ParsedColumn(df.Column("references"), literal));
    } else {
      df.SetColumn("references_str", Blank(df.rows));
    }
  }

  /**
   * The list columns, then the text columns; a title or abstract column
   * holding a number stops before the text columns are written.
   */
  method WriteTextStage(df: Frame, literal: string -> Option<seq<string>>) returns (failed: Option<LoadError>)
    requires df.Valid() && df.Has("title") && df.Has("abstract")
    modifies df
    ensures df.Valid()
    ensures failed ==
      if HasNumber(old(df.Column("title"))) then Some(NotText("title"))
      else if HasNumber(old(df.Column("abstract"))) then Some(NotText("abstract"))
      else None
    ensures failed.None? ==> df.Value() == TextStage(old(df.Value()), literal)
  {
    ghost var a := df.Value();
    WriteListColumns(df, literal);
    assert "title" !in ["authors_str", "references_str"] && "abstract" !in ["authors_str", "references_str"];
    if HasNumber(df.Column("title")) {
      return Some(NotText("title"));
    }
    if HasNumber(df.Column("abstract")) {
      return Some(NotText("abstract"));
    }
    WriteTextColumns(df);
    return None;
  }

  /** `df["text_raw"] = ...` and `df["text_clean"] = df["text_raw"].apply(clean_text)`. */
  method WriteTextColumns(df: Frame)
    requires df.Valid() && df.Has("title") && df.Has("abstract")
    requires !HasNumber(df.Column("title")) && !HasNumber(df.Column("abstract"))
    modifies df
    ensures df.Valid() && df.Value() == AddTextColumns(old(df.Value()))
  {
    var raw := RawTexts(df.Column("title"), df.Column("abstract"));
    df.SetColumn("text_raw", TextCells(raw));
    df.SetColumn("text_clean", CleanCells(raw));
  }

  /** The `year` and `n_citation` coercions, each only when its column exists. */
  method CoerceNumberColumns(df: Frame, numeric: string -> Option<int>)
    requires df.Valid()
    modifies df
    ensures df.Valid() && df.Value() == CoerceCitations(CoerceYear(old(df.Value()), numeric), numeric)
  {
    if df.Has("year") {
      df.SetColumn("year", YearCells(df.Column("year"), numeric));
    }
    if df.Has("n_citation") {
      df.SetColumn("n_citation", CitationCells(df.Column("n_citation"), numeric));
    }
  }

  lemma {:induction false} FirstMissingAt(columns: seq<string>, names: seq<string>, i: nat)
    requires i < |names| && names[i] !in columns
    requires forall j :: 0 <= j < i ==> names[j] in columns
    ensures FirstMissing(columns, names) == Some(names[i])
    decreases i
  {
    if i > 0 {
      FirstMissingAt(columns, names[1..], i - 1);
    }
  }

  // ---------------------------------------------------------------------------
  // Properties of load_and_prepare_data
  // ---------------------------------------------------------------------------

  /**
   * `id` is renamed to `paper_id` only when `paper_id` is absent; after the
   * renaming the column keeps its place and cells, and `paper_id` is present
   * exactly when the input had `paper_id` or `id`.
   */
  lemma AliasRenamesIdOnlyWithoutPaperId(t: Table)
    requires WellFormed(t)
    ensures "paper_id" in t.columns || "id" !in t.columns ==> Aliased(t) == t
    ensures "id" in t.columns && "paper_id" !in t.columns ==>
      "paper_id" in Aliased(t).cells && Aliased(t).cells["paper_id"] == t.cells["id"] &&
      "id" !in Aliased(t).columns && |Aliased(t).columns| == |t.columns|
    ensures ("paper_id" in Aliased(t).columns) <==> ("paper_id" in t.columns || "id" in t.columns)
  {
  }

  /** A table whose first absent required column (in the order paper_id, title, abstract) is `Required[k]` fails naming it. */
  lemma PrepareReportsFirstMissingColumn(t: Table, literal: string -> Option<seq<string>>,
                                         numeric: string -> Option<int>, k: nat)
    requires WellFormed(t) && k < |Required|
    requires Required[k] !in Aliased(t).columns
    requires forall j :: 0 <= j < k ==> Required[j] in Aliased(t).columns
    ensures Prepare(t, literal, numeric) == Err(MissingColumn(Required[k]))
  {
    FirstMissingAt(Aliased(t).columns, Required, k);
  }

  /** The step fails only for an absent required column or a numeric title or abstract, and otherwise succeeds. */
  lemma PrepareErrors(t: Table, literal: string -> Option<seq<string>>, numeric: string -> Option<int>)
    requires WellFormed(t)
    ensures var a := Aliased(t);
      Prepare(t, literal, numeric).Err? <==>
        (exists c :: c in Required && c !in a.columns) ||
        ("title" in a.cells && HasNumber(a.cells["title"])) ||
        ("abstract" in a.cells && HasNumber(a.cells["abstract"]))
    ensures var a := Aliased(t);
      Prepare(t, literal, numeric).Err? ==>
        match Prepare(t, literal, numeric).error
        case MissingColumn(c) => c in Required && c !in a.columns
        case NotText(c) => (c == "title" || c == "abstract") && c in a.cells && HasNumber(a.cells[c])
        case NotInIndex(_) => false
  {
    var a := Aliased(t);
    if FirstMissing(a.columns, Required).None? {
      assert Required[1] in a.columns && Required[2] in a.columns;
    } else {
      var k :| 0 <= k < |Required| && Required[k] == FirstMissing(a.columns, Required).value && Required[k] !in a.columns;
    }
  }

  /** A successful step is the text stage and the two coercions applied to the aliased table, whose title and abstract hold no numbers. */
  lemma PrepareSteps(t: Table, literal: string -> Option<seq<string>>, numeric: string -> Option<int>)
    requires WellFormed(t) && Prepare(t, literal, numeric).Ok?
    ensures var a := Aliased(t);
      "paper_id" in a.columns && "title" in a.columns && "abstract" in a.columns &&
      !HasNumber(a.cells["title"]) && !HasNumber(a.cells["abstract"]) &&
      Prepare(t, literal, numeric).value == CoerceCitations(CoerceYear(TextStage(a, literal), numeric), numeric)
  {
    var a := Aliased(t);
    assert Required[0] in a.columns && Required[1] in a.columns && Required[2] in a.columns;
  }

  /**
   * On success the input's columns are kept in their order, with the new
   * columns after them; `paper_id`, `title`, `abstract`, `authors_str`,
   * `references_str`, `text_raw` and `text_clean` are present; and the row
   * count is unchanged.
   */
  lemma PrepareColumns(t: Table, literal: string -> Option<seq<string>>, numeric: string -> Option<int>)
    requires WellFormed(t) && Prepare(t, literal, numeric).Ok?
    ensures var u, a := Prepare(t, literal, numeric).value, Aliased(t);
      WellFormed(u) && u.rows == t.rows &&
      a.columns <= u.columns &&
      (forall c :: c in Required + ["authors_str", "references_str", "text_raw", "text_clean"] ==> c in u.columns)
  {
    var a := Aliased(t);
    PrepareSteps(t, literal, numeric);
    StageColumns(a, literal, numeric);
    assert forall c :: c in Required ==> c in a.columns;
  }

  lemma PrefixTransitive(a: seq<string>, b: seq<string>, c: seq<string>)
    requires a <= b && b <= c
    ensures a <= c
  {
    assert c[..|a|] == c[..|b|][..|a|];
  }

  /** Every column the step does not write keeps its cells, and the step adds no column beyond those it writes. */
  lemma PrepareKeepsOtherColumns(t: Table, literal: string -> Option<seq<string>>, numeric: string -> Option<int>)
    requires WellFormed(t) && Prepare(t, literal, numeric).Ok?
    ensures var u, a := Prepare(t, literal, numeric).value, Aliased(t);
      (forall c :: c in a.cells && c !in Derived ==> c in u.cells && u.cells[c] == a.cells[c]) &&
      (forall c :: c in u.cells ==> c in a.cells || c in Derived)
  {
    PrepareSteps(t, literal, numeric);
    StageKeepsOthers(Aliased(t), literal, numeric);
  }

  /** `paper_id`, `title` and `abstract` come out as they went in (after the `id` alias). */
  lemma PrepareKeepsRequired(t: Table, literal: string -> Option<seq<string>>, numeric: string -> Option<int>)
    requires WellFormed(t) && Prepare(t, literal, numeric).Ok?
    ensures var u, a := Prepare(t, literal, numeric).value, Aliased(t);
      forall c :: c in Required ==> c in a.cells && c in u.cells && u.cells[c] == a.cells[c]
  {
    var a := Aliased(t);
    PrepareSteps(t, literal, numeric);
    StageKeepsOthers(a, literal, numeric);
    RequiredNotDerived();
  }

  lemma RequiredNotDerived()
    ensures forall c :: c in Required ==> c !in Derived
  {
    assert Required == ["paper_id"] + ["title"] + ["abstract"];
    assert "paper_id" !in Derived && "title" !in Derived && "abstract" !in Derived;
  }

  /**
   * `authors_str` and `references_str` hold `parse_list_like` of the source
   * column row by row, or the empty string in every row when the source
   * column is absent.
   */
  lemma PrepareListColumns(t: Table, literal: string -> Option<seq<string>>, numeric: string -> Option<int>)
    requires WellFormed(t) && Prepare(t, literal, numeric).Ok?
    ensures var u, a := Prepare(t, literal, numeric).value, Aliased(t);
      "authors_str" in u.cells && "references_str" in u.cells &&
      u.cells["authors_str"] == ListColumn(a, "authors", literal) &&
      u.cells["references_str"] == ListColumn(a, "references", literal)
  {
    PrepareSteps(t, literal, numeric);
    StageListColumns(Aliased(t), literal, numeric);
  }

  lemma StageListColumns(a: Table, literal: string -> Option<seq<string>>, numeric: string -> Option<int>)
    requires WellFormed(a) && "title" in a.columns && "abstract" in a.columns
    requires !HasNumber(a.cells["title"]) && !HasNumber(a.cells["abstract"])
    ensures var u := CoerceCitations(CoerceYear(TextStage(a, literal), numeric), numeric);
      "authors_str" in u.cells && "references_str" in u.cells &&
      u.cells["authors_str"] == ListColumn(a, "authors", literal) &&
      u.cells["references_str"] == ListColumn(a, "references", literal)
  {
    TextStageListColumns(a, literal);
    var r := TextStage(a, literal);
    CoercionsKeep(r, numeric, "authors_str");
    CoercionsKeep(r, numeric, "references_str");
  }

  lemma TextStageListColumns(a: Table, literal: string -> Option<seq<string>>)
    requires WellFormed(a) && "title" in a.columns && "abstract" in a.columns
    requires !HasNumber(a.cells["title"]) && !HasNumber(a.cells["abstract"])
    ensures var r := TextStage(a, literal);
      r.cells["authors_str"] == ListColumn(a, "authors", literal) &&
      r.cells["references_str"] == ListColumn(a, "references", literal)
  {
    var t2 := AddListColumns(a, literal);
    var t4 := AddTextColumns(t2);
    assert TextStage(a, literal) == t4;
    assert "authors_str" !in ["text_raw", "text_clean"] && "references_str" !in ["text_raw", "text_clean"];
  }

  /** The two coercions leave every other column's cells alone. */
  lemma CoercionsKeep(r: Table, numeric: string -> Option<int>, c: string)
    requires WellFormed(r) && c in r.cells && c != "year" && c != "n_citation"
    ensures var u := CoerceCitations(CoerceYear(r, numeric), numeric);
      c in u.cells && u.cells[c] == r.cells[c]
  {
    assert c !in ["year"] && c !in ["n_citation"];
  }

  /** `text_raw` of each row is its title, a space and its abstract; `text_clean` is `clean_text` of that, and is clean text. */
  lemma PrepareTextClean(t: Table, literal: string -> Option<seq<string>>, numeric: string -> Option<int>, i: nat)
    requires WellFormed(t) && Prepare(t, literal, numeric).Ok? && i < t.rows
    ensures var u, a := Prepare(t, literal, numeric).value, Aliased(t);
      "title" in a.cells && "abstract" in a.cells && "text_raw" in u.cells && "text_clean" in u.cells &&
      |u.cells["text_raw"]| == |u.cells["text_clean"]| == t.rows &&
      !a.cells["title"][i].Number? && !a.cells["abstract"][i].Number? &&
      u.cells["text_raw"][i] == Text(FilledText(a.cells["title"][i]) + " " + FilledText(a.cells["abstract"][i])) &&
      u.cells["text_clean"][i] == Text(CleanText(Some(u.cells["text_raw"][i].text))) &&
      IsClean(u.cells["text_clean"][i].text)
  {
    var a := Aliased(t);
    PrepareSteps(t, literal, numeric);
    var t2 := AddListColumns(a, literal);
    assert "title" !in ["authors_str", "references_str"] && "abstract" !in ["authors_str", "references_str"];
    var t4 := AddTextColumns(t2);
    assert TextStage(a, literal) == t4;
    var u := Prepare(t, literal, numeric).value;
    assert "text_raw" !in ["year"] && "text_clean" !in ["year"];
    assert "text_raw" !in ["n_citation"] && "text_clean" !in ["n_citation"];
    assert u.cells["text_raw"] == t4.cells["text_raw"];
    assert u.cells["text_clean"] == t4.cells["text_clean"];
    assert !a.cells["title"][i].Number? && !a.cells["abstract"][i].Number?;
    CleanTextIsClean(Some(u.cells["text_raw"][i].text));
  }

  /** `n_citation` exists after the step exactly when it existed before, and is then the coerced input column. */
  lemma PrepareCitations(t: Table, literal: string -> Option<seq<string>>, numeric: string -> Option<int>)
    requires WellFormed(t) && Prepare(t, literal, numeric).Ok?
    ensures var u, a := Prepare(t, literal, numeric).value, Aliased(t);
      ("n_citation" in u.columns <==> "n_citation" in a.columns) &&
      ("n_citation" in a.columns ==> u.cells["n_citation"] == CitationCells(a.cells["n_citation"], numeric))
  {
    var a := Aliased(t);
    PrepareSteps(t, literal, numeric);
    StageCitations(a, literal, numeric);
  }

  /**
   * The coerced `n_citation` is an integer in every row: the number read
   * from the cell, or 0 where the cell was missing or does not read as a
   * number.
   */
  lemma CitationCellsAreNumbers(col: seq<Cell>, numeric: string -> Option<int>, i: nat)
    requires i < |col|
    ensures CitationCells(col, numeric)[i].Number?
    ensures col[i].Number? ==> CitationCells(col, numeric)[i] == col[i]
    ensures col[i].Missing? ==> CitationCells(col, numeric)[i] == Number(0)
    ensures col[i].Text? ==>
      CitationCells(col, numeric)[i] == Number(if numeric(col[i].text).Some? then numeric(col[i].text).value else 0)
  {
  }

  /** `year` exists after the step exactly when it existed before, and is then the coerced input column. */
  lemma PrepareYear(t: Table, literal: string -> Option<seq<string>>, numeric: string -> Option<int>)
    requires WellFormed(t) && Prepare(t, literal, numeric).Ok?
    ensures var u, a := Prepare(t, literal, numeric).value, Aliased(t);
      ("year" in u.columns <==> "year" in a.columns) &&
      ("year" in a.columns ==> u.cells["year"] == YearCells(a.cells["year"], numeric))
  {
    var a := Aliased(t);
    PrepareSteps(t, literal, numeric);
    StageYear(a, literal, numeric);
  }

  /** The coerced `year` is a number or missing in every row; numbers are kept and missing cells stay missing. */
  lemma YearCellsAreNumbersOrMissing(col: seq<Cell>, numeric: string -> Option<int>, i: nat)
    requires i < |col|
    ensures !YearCells(col, numeric)[i].Text?
    ensures !col[i].Text? ==> YearCells(col, numeric)[i] == col[i]
    ensures col[i].Text? ==> (YearCells(col, numeric)[i].Missing? <==> numeric(col[i].text).None?)
  {
  }

  lemma StageCitations(a: Table, literal: string -> Option<seq<string>>, numeric: string -> Option<int>)
    requires WellFormed(a) && "title" in a.columns && "abstract" in a.columns
    requires !HasNumber(a.cells["title"]) && !HasNumber(a.cells["abstract"])
    ensures var u := CoerceCitations(CoerceYear(TextStage(a, literal), numeric), numeric);
      ("n_citation" in u.columns <==> "n_citation" in a.columns) &&
      ("n_citation" in a.columns ==> u.cells["n_citation"] == CitationCells(a.cells["n_citation"], numeric))
  {
    assert "n_citation" !in ["authors_str", "references_str", "text_raw", "text_clean"];
    assert "n_citation" !in ["year"];
  }

  lemma StageYear(a: Table, literal: string -> Option<seq<string>>, numeric: string -> Option<int>)
    requires WellFormed(a) && "title" in a.columns && "abstract" in a.columns
    requires !HasNumber(a.cells["title"]) && !HasNumber(a.cells["abstract"])
    ensures var u := CoerceCitations(CoerceYear(TextStage(a, literal), numeric), numeric);
      ("year" in u.columns <==> "year" in a.columns) &&
      ("year" in a.columns ==> u.cells["year"] == YearCells(a.cells["year"], numeric))
  {
    assert "year" !in ["authors_str", "references_str", "text_raw", "text_clean"];
    assert "year" !in ["n_citation"];
  }

  lemma StageColumns(a: Table, literal: string -> Option<seq<string>>, numeric: string -> Option<int>)
    requires WellFormed(a) && "title" in a.columns && "abstract" in a.columns
    requires !HasNumber(a.cells["title"]) && !HasNumber(a.cells["abstract"])
    ensures var u := CoerceCitations(CoerceYear(TextStage(a, literal), numeric), numeric);
      forall c :: c in a.columns + ["authors_str", "references_str", "text_raw", "text_clean"] ==> c in u.columns
  {
    var t4 := TextStage(a, literal);
    forall c | c in a.columns + ["authors_str", "references_str", "text_raw", "text_clean"]
      ensures c in t4.columns
    {
      if c !in a.columns {
        assert c in t4.cells;
      }
    }
  }

  lemma StageKeepsOthers(a: Table, literal: string -> Option<seq<string>>, numeric: string -> Option<int>)
    requires WellFormed(a) && "title" in a.columns && "abstract" in a.columns
    requires !HasNumber(a.cells["title"]) && !HasNumber(a.cells["abstract"])
    ensures var u := CoerceCitations(CoerceYear(TextStage(a, literal), numeric), numeric);
      (forall c :: c in a.cells && c !in Derived ==> c in u.cells && u.cells[c] == a.cells[c]) &&
      (forall c :: c in u.cells ==> c in a.cells || c in Derived)
  {
    var u := CoerceCitations(CoerceYear(TextStage(a, literal), numeric), numeric);
    forall c | c in a.cells && c !in Derived
      ensures c in u.cells && u.cells[c] == a.cells[c]
    {
      assert c !in ["authors_str", "references_str", "text_raw", "text_clean"];
      assert c !in ["year"] && c !in ["n_citation"];
    }
    forall c | c in u.cells
      ensures c in a.cells || c in Derived
    {
    }
  }

  // ---------------------------------------------------------------------------
  // The sample selection
  // ---------------------------------------------------------------------------

  /**
   * As written, a table that prepares without error but has no `year`
   * column fails at the sample selection, although every column rule of
   * the step treats `year` as optional.
   */
  lemma SampleRejectsTableWithoutYear(t: Table, literal: string -> Option<seq<string>>, numeric: string -> Option<int>)
    requires WellFormed(t) && Prepare(t, literal, numeric).Ok? && "year" !in Aliased(t).columns
    ensures PrepareAsWritten(t, literal, numeric) == Err(NotInIndex("year"))
  {
    var u := Prepare(t, literal, numeric).value;
    PrepareSampleColumns(t, literal, numeric);
    SampleCheckMissing(u);
    AsWrittenAfterPrepare(t, literal, numeric);
  }

  /** The sample selection on a prepared table without `year` reports `year`. */
  lemma SampleCheckMissing(u: Table)
    requires SampleColumns[0] in u.columns && SampleColumns[1] in u.columns && SampleColumns[2] !in u.columns
    ensures SampleCheck(u) == Err(NotInIndex("year"))
  {
    FirstMissingAt(u.columns, SampleColumns, 2);
  }

  /** A successful step is followed by the sample selection on its result. */
  lemma AsWrittenAfterPrepare(t: Table, literal: string -> Option<seq<string>>, numeric: string -> Option<int>)
    requires WellFormed(t) && Prepare(t, literal, numeric).Ok?
    ensures PrepareAsWritten(t, literal, numeric) == SampleCheck(Prepare(t, literal, numeric).value)
  {
  }

  /** With a `year` column the sample selection succeeds and the step as written agrees with Prepare. */
  lemma SampleAcceptsTableWithYear(t: Table, literal: string -> Option<seq<string>>, numeric: string -> Option<int>)
    requires WellFormed(t) && "year" in Aliased(t).columns
    ensures PrepareAsWritten(t, literal, numeric) == Prepare(t, literal, numeric)
  {
    if Prepare(t, literal, numeric).Ok? {
      PrepareSampleColumns(t, literal, numeric);
    }
  }

  /** After a successful step `paper_id` and `title` are columns, and `year` is one exactly when the input had it. */
  lemma PrepareSampleColumns(t: Table, literal: string -> Option<seq<string>>, numeric: string -> Option<int>)
    requires WellFormed(t) && Prepare(t, literal, numeric).Ok?
    ensures var u := Prepare(t, literal, numeric).value;
      SampleColumns[0] in u.columns && SampleColumns[1] in u.columns &&
      (SampleColumns[2] in u.columns <==> "year" in Aliased(t).columns)
  {
    PrepareSteps(t, literal, numeric);
    StageSampleColumns(Aliased(t), literal, numeric);
  }

  lemma StageSampleColumns(a: Table, literal: string -> Option<seq<string>>, numeric: string -> Option<int>)
    requires WellFormed(a) && "paper_id" in a.columns && "title" in a.columns && "abstract" in a.columns
    requires !HasNumber(a.cells["title"]) && !HasNumber(a.cells["abstract"])
    ensures var u := CoerceCitations(CoerceYear(TextStage(a, literal), numeric), numeric);
      SampleColumns[0] in u.columns && SampleColumns[1] in u.columns &&
      (SampleColumns[2] in u.columns <==> "year" in a.columns)
  {
    var r := TextStage(a, literal);
    assert forall c :: c in a.columns ==> c in r.columns;
    StageYear(a, literal, numeric);
  }

  /**
   * The intended behaviour, which Prepare has: a table with the required
   * columns, text titles and abstracts and no `year` column loads, without
   * a `year` column.
   */
  lemma PrepareAcceptsTableWithoutYear(t: Table, literal: string -> Option<seq<string>>, numeric: string -> Option<int>)
    requires WellFormed(t) && "year" !in Aliased(t).columns
    requires "paper_id" in Aliased(t).columns && "title" in Aliased(t).columns && "abstract" in Aliased(t).columns
    requires !HasNumber(Aliased(t).cells["title"]) && !HasNumber(Aliased(t).cells["abstract"])
    ensures Prepare(t, literal, numeric).Ok?
    ensures "year" !in Prepare(t, literal, numeric).value.columns
  {
    var a := Aliased(t);
    assert forall i :: 0 <= i < |Required| ==> Required[i] in a.columns;
    assert Prepare(t, literal, numeric) == Derive(a, literal, numeric);
    PrepareYear(t, literal, numeric);
  }
}
