/**
 * `main` of src/build_index.py: prepare the papers table, hand its
 * `text_clean` column to the TF-IDF vectoriser, and save the metadata
 * columns the search page shows. The vectoriser and the files are library
 * calls and I/O; the index keeps the list of texts the vectoriser receives,
 * whose row i becomes row i of the embedding matrix.
 */
module IndexBuild {
  import opened Common
  import opened Normalize
  import opened Frames
  import opened Loader

  /** `meta_cols`, before the filter. */
  const MetaColumns: seq<string> :=
    ["paper_id", "title", "authors_str", "venue", "year", "n_citation", "references_str", "abstract"]

  lemma MetaColumnsDistinct()
    ensures Distinct(MetaColumns)
  {
  }

  /** What the build saves: the texts given to the vectoriser and the metadata table. */
  datatype Index = Index(texts: seq<string>, metadata: Table)

  /** `[c for c in names if c in existing]`. */
  function Keep(names: seq<string>, existing: seq<string>): (r: seq<string>)
    ensures |r| <= |names|
  {
    if names == [] then []
    else (if names[0] in existing then [names[0]] else []) + Keep(names[1..], existing)
  }

  /** The position of `c` in `names`. */
  function IndexOf(names: seq<string>, c: string): (i: nat)
    requires c in names
    ensures i < |names| && names[i] == c
    ensures forall j :: 0 <= j < i ==> names[j] != c
  {
    if names[0] == c then 0 else 1 + IndexOf(names[1..], c)
  }

  /** `df["text_clean"].tolist()`. */
  function Texts(col: seq<Cell>): (texts: seq<string>)
    requires forall i :: 0 <= i < |col| ==> col[i].Text?
    ensures |texts| == |col|
  {
    seq(|col|, i requires 0 <= i < |col| => col[i].text)
  }

  /** What load_and_prepare_data guarantees the build: the required and derived text columns exist, and `text_clean` holds texts. */
  ghost predicate Prepared(u: Table)
  {
    WellFormed(u) &&
    (forall c :: c in Required + ["authors_str", "references_str", "text_raw", "text_clean"] ==> c in u.columns) &&
    forall i :: 0 <= i < |u.cells["text_clean"]| ==> u.cells["text_clean"][i].Text?
  }

  /** Steps 2 and 4 on the prepared table: the texts for the vectoriser and the projected metadata. */
  function Project(u: Table): (ix: Index)
    requires Prepared(u)
  {
    KeepMembers(MetaColumns, u.columns);
    MetaColumnsDistinct();
    KeepDistinct(MetaColumns, u.columns);
    Index(Texts(u.cells["text_clean"]), Select(u, Keep(MetaColumns, u.columns)))
  }

  /** `main` of the build, from the table read from the CSV. */
  function BuildIndex(t: Table, literal: string -> Option<seq<string>>, numeric: string -> Option<int>)
    : (r: Result<Index, LoadError>)
    requires WellFormed(t)
  {
    match Prepare(t, literal, numeric)
    case Err(e) => Err(e)
    case Ok(u) =>
      PrepareGivesPrepared(t, literal, numeric);
      Ok(Project(u))
  }

  /** A successfully prepared table is what the build expects. */
  lemma PrepareGivesPrepared(t: Table, literal: string -> Option<seq<string>>, numeric: string -> Option<int>)
    requires WellFormed(t) && Prepare(t, literal, numeric).Ok?
    ensures Prepared(Prepare(t, literal, numeric).value)
  {
    PrepareColumns(t, literal, numeric);
    forall i | 0 <= i < t.rows
      ensures Prepare(t, literal, numeric).value.cells["text_clean"][i].Text?
    {
      PrepareTextClean(t, literal, numeric, i);
    }
  }

  // ---------------------------------------------------------------------------
  // The projection filter
  // ---------------------------------------------------------------------------

  /** A name is kept exactly when it is listed and exists. */
  lemma {:induction false} KeepMembers(names: seq<string>, existing: seq<string>)
    ensures forall c :: c in Keep(names, existing) <==> c in names && c in existing
  {
    if names != [] {
      KeepMembers(names[1..], existing);
      assert names == [names[0]] + names[1..];
    }
  }

  lemma DistinctTail(names: seq<string>)
    requires Distinct(names) && names != []
    ensures Distinct(names[1..]) && names[0] !in names[1..]
    ensures forall c :: c in names[1..] ==> c in names
  {
    var tail := names[1..];
    forall c | c in tail ensures c in names {
      var k :| 0 <= k < |tail| && tail[k] == c;
      assert names[k + 1] == c;
    }
    forall i, j | 0 <= i < j < |tail| ensures tail[i] != tail[j] {
      assert tail[i] == names[i + 1] && tail[j] == names[j + 1];
    }
    forall k | 0 <= k < |tail| ensures tail[k] != names[0] {
      assert tail[k] == names[k + 1];
    }
  }

  /** Filtering distinct names leaves distinct names. */
  lemma {:induction false} KeepDistinct(names: seq<string>, existing: seq<string>)
    requires Distinct(names)
    ensures Distinct(Keep(names, existing))
  {
    if names != [] {
      DistinctTail(names);
      KeepDistinct(names[1..], existing);
      KeepMembers(names[1..], existing);
      var rest := Keep(names[1..], existing);
      if names[0] in existing {
        var r := [names[0]] + rest;
        assert Keep(names, existing) == r;
        forall i, j | 0 <= i < j < |r| ensures r[i] != r[j] {
          assert r[j] == rest[j - 1];
          if i > 0 {
            assert r[i] == rest[i - 1];
          }
        }
      } else {
        assert Keep(names, existing) == rest;
      }
    }
  }

  /** Past the first name, positions are one more than in the tail. */
  lemma IndexOfTail(names: seq<string>, c: string)
    requires Distinct(names) && names != [] && c in names[1..]
    ensures c != names[0] && IndexOf(names, c) == 1 + IndexOf(names[1..], c)
  {
    DistinctTail(names);
  }

  /** The kept names appear in the order of the list they were filtered from. */
  lemma {:induction false} KeepKeepsOrder(names: seq<string>, existing: seq<string>)
    requires Distinct(names)
    ensures var r := Keep(names, existing);
      (forall c :: c in r ==> c in names) &&
      forall i, j :: 0 <= i < j < |r| ==> IndexOf(names, r[i]) < IndexOf(names, r[j])
  {
    KeepMembers(names, existing);
    if names != [] {
      DistinctTail(names);
      KeepKeepsOrder(names[1..], existing);
      var rest := Keep(names[1..], existing);
      ShiftOrdered(names, rest);
      if names[0] in existing {
        assert Keep(names, existing) == [names[0]] + rest;
        ConsOrdered(names, rest);
      } else {
        assert Keep(names, existing) == rest;
      }
    }
  }

  /** Names ordered within the tail keep their order within the whole list. */
  lemma ShiftOrdered(names: seq<string>, rest: seq<string>)
    requires Distinct(names) && names != []
    requires forall c :: c in rest ==> c in names[1..] && c in names
    requires forall i, j :: 0 <= i < j < |rest| ==> IndexOf(names[1..], rest[i]) < IndexOf(names[1..], rest[j])
    ensures forall i, j :: 0 <= i < j < |rest| ==> IndexOf(names, rest[i]) < IndexOf(names, rest[j])
  {
    forall i | 0 <= i < |rest| ensures IndexOf(names, rest[i]) == 1 + IndexOf(names[1..], rest[i]) {
      IndexOfTail(names, rest[i]);
    }
  }

  /** Putting the first name in front of names from the tail keeps them ordered. */
  lemma ConsOrdered(names: seq<string>, rest: seq<string>)
    requires Distinct(names) && names != []
    requires forall c :: c in rest ==> c in names[1..] && c in names
    requires forall i, j :: 0 <= i < j < |rest| ==> IndexOf(names, rest[i]) < IndexOf(names, rest[j])
    ensures var r := [names[0]] + rest;
      forall i, j :: 0 <= i < j < |r| ==> IndexOf(names, r[i]) < IndexOf(names, r[j])
  {
    var r := [names[0]] + rest;
    forall i, j | 0 <= i < j < |r| ensures IndexOf(names, r[i]) < IndexOf(names, r[j]) {
      assert rest[j - 1] in names[1..];
      if i > 0 {
        assert IndexOf(names, rest[i - 1]) < IndexOf(names, rest[j - 1]);
      }
      ConsPairOrdered(names, rest, i, j);
    }
  }

  lemma ConsPairOrdered(names: seq<string>, rest: seq<string>, i: nat, j: nat)
    requires Distinct(names) && names != [] && i < j <= |rest|
    requires rest[j - 1] in names[1..]
    requires i > 0 ==> rest[i - 1] in names && IndexOf(names, rest[i - 1]) < IndexOf(names, rest[j - 1])
    ensures var r := [names[0]] + rest; IndexOf(names, r[i]) < IndexOf(names, r[j])
  {
    var r := [names[0]] + rest;
    assert r[j] == rest[j - 1];
    IndexOfTail(names, rest[j - 1]);
    if i > 0 {
      assert r[i] == rest[i - 1];
    }
  }

  // ---------------------------------------------------------------------------
  // Properties of the saved index
  // ---------------------------------------------------------------------------

  /**
   * The build fails exactly when a required column is absent or the title
   * or abstract holds a number, and the error names that column.
   */
  lemma BuildIndexErrors(t: Table, literal: string -> Option<seq<string>>, numeric: string -> Option<int>)
    requires WellFormed(t)
    ensures var a := Aliased(t);
      BuildIndex(t, literal, numeric).Err? <==>
        (exists c :: c in Required && c !in a.columns) ||
        ("title" in a.cells && HasNumber(a.cells["title"])) ||
        ("abstract" in a.cells && HasNumber(a.cells["abstract"]))
    ensures var a := Aliased(t);
      BuildIndex(t, literal, numeric).Err? ==>
        match BuildIndex(t, literal, numeric).error
        case MissingColumn(c) => c in Required && c !in a.columns
        case NotText(c) => (c == "title" || c == "abstract") && c in a.cells && HasNumber(a.cells[c])
        case NotInIndex(_) => false
  {
    PrepareErrors(t, literal, numeric);
  }

  /** The metadata columns are exactly the entries of `meta_cols` that the prepared table has; no other column is saved. */
  lemma ProjectColumns(u: Table)
    requires Prepared(u)
    ensures var m := Project(u).metadata;
      (forall c :: c in m.columns <==> c in MetaColumns && c in u.columns) &&
      (forall c :: c in m.cells ==> c in MetaColumns)
  {
    KeepMembers(MetaColumns, u.columns);
  }

  /** The metadata columns keep the order of `meta_cols`. */
  lemma ProjectColumnsOrdered(u: Table)
    requires Prepared(u)
    ensures var m := Project(u).metadata;
      (forall c :: c in m.columns ==> c in MetaColumns) &&
      forall i, j :: 0 <= i < j < |m.columns| ==> IndexOf(MetaColumns, m.columns[i]) < IndexOf(MetaColumns, m.columns[j])
  {
    MetaColumnsDistinct();
    KeepKeepsOrder(MetaColumns, u.columns);
    var kept := Keep(MetaColumns, u.columns);
    var m := Project(u).metadata;
    assert m.columns == kept;
    forall i, j | 0 <= i < j < |m.columns|
      ensures IndexOf(MetaColumns, m.columns[i]) < IndexOf(MetaColumns, m.columns[j])
    {
      assert m.columns[i] == kept[i] && m.columns[j] == kept[j];
    }
  }

  /** `paper_id`, `title`, `abstract`, `authors_str` and `references_str` are always saved. */
  lemma ProjectKeepsCoreColumns(u: Table)
    requires Prepared(u)
    ensures forall c :: c in ["paper_id", "title", "abstract", "authors_str", "references_str"] ==> c in Project(u).metadata.columns
  {
    KeepMembers(MetaColumns, u.columns);
    forall c | c in ["paper_id", "title", "abstract", "authors_str", "references_str"]
      ensures c in MetaColumns && c in u.columns
    {
      assert c in Required + ["authors_str", "references_str", "text_raw", "text_clean"];
    }
  }

  /**
   * Within the build, row i of the vectoriser's texts and row i of the
   * metadata are row i of the prepared table: same number of rows, the text
   * is its `text_clean`, the metadata cells are its cells.
   */
  lemma ProjectRowsAligned(u: Table)
    requires Prepared(u)
    ensures var ix := Project(u);
      |ix.texts| == ix.metadata.rows == u.rows &&
      (forall i :: 0 <= i < u.rows ==> ix.texts[i] == u.cells["text_clean"][i].text) &&
      (forall c :: c in ix.metadata.cells ==> c in u.cells && ix.metadata.cells[c] == u.cells[c])
  {
  }

  /** The saved `paper_id`, `title` and `abstract` columns are the prepared table's. */
  lemma ProjectKeepsRequiredCells(u: Table)
    requires Prepared(u)
    ensures var m := Project(u).metadata;
      m.rows == u.rows && forall c :: c in Required ==> c in m.cells && m.cells[c] == u.cells[c]
  {
    ProjectKeepsCoreColumns(u);
    ProjectRowsAligned(u);
    forall c | c in Required ensures c in ["paper_id", "title", "abstract", "authors_str", "references_str"] { }
  }

  /**
   * Row alignment from the input, metadata side: the metadata has one row
   * per input paper, and its `paper_id`, `title` and `abstract` columns are
   * the input's, row for row.
   */
  lemma BuildIndexMetadataRows(t: Table, literal: string -> Option<seq<string>>, numeric: string -> Option<int>)
    requires WellFormed(t) && BuildIndex(t, literal, numeric).Ok?
    ensures var m, a := BuildIndex(t, literal, numeric).value.metadata, Aliased(t);
      m.rows == t.rows &&
      forall c :: c in Required ==> c in a.cells && c in m.cells && m.cells[c] == a.cells[c]
  {
    var u := Prepare(t, literal, numeric).value;
    PrepareGivesPrepared(t, literal, numeric);
    assert BuildIndex(t, literal, numeric).value == Project(u);
    ProjectKeepsRequiredCells(u);
    PrepareKeepsRequired(t, literal, numeric);
  }

  /**
   * Row alignment from the input, vectoriser side: one text per input paper,
   * and text i is `clean_text` of input row i's title and abstract.
   */
  lemma BuildIndexTextRows(t: Table, literal: string -> Option<seq<string>>, numeric: string -> Option<int>, i: nat)
    requires WellFormed(t) && BuildIndex(t, literal, numeric).Ok? && i < t.rows
    ensures var ix, a := BuildIndex(t, literal, numeric).value, Aliased(t);
      |ix.texts| == t.rows &&
      "title" in a.cells && "abstract" in a.cells &&
      !a.cells["title"][i].Number? && !a.cells["abstract"][i].Number? &&
      ix.texts[i] == CleanText(Some(FilledText(a.cells["title"][i]) + " " + FilledText(a.cells["abstract"][i])))
  {
    var u := Prepare(t, literal, numeric).value;
    PrepareGivesPrepared(t, literal, numeric);
    assert BuildIndex(t, literal, numeric).value == Project(u);
    ProjectRowsAligned(u);
    PrepareTextClean(t, literal, numeric, i);
  }
}
