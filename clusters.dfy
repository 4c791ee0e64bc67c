/**
 * The cluster summary of src/build_clusters.py. The clustering itself
 * (MiniBatchKMeans) is a library call: its `labels`, one per paper, and its
 * centroids arrive as inputs, each centroid with the `np.argsort` order of
 * its weights. From them the step writes the `cluster` column into the
 * paper table and builds one summary row per cluster: the ten heaviest
 * vocabulary terms of its centroid and the paper count, citation mean and
 * year range of the papers labelled with it.
 */
module Clusters {
  import opened Common
  import opened Frames
  import opened Ranking
  import opened Loader
  import opened IndexBuild

  /** How many terms describe a cluster. */
  const TopTermCount := 10

  /** One entry of `cluster_rows`. */
  datatype TermsRow = TermsRow(cluster: nat, topTerms: string)

  /**
   * One row of the summary. None is an empty (NaN) cell; a field whose
   * column the summary does not have is None too.
   */
  datatype SummaryRow = SummaryRow(cluster: nat, topTerms: string, nPapers: Option<nat>,
                                   avgCitations: Option<real>, minYear: Option<int>, maxYear: Option<int>)

  /** The summary table: its column names and its rows. */
  datatype Summary = Summary(columns: seq<string>, rows: seq<SummaryRow>)

  // ---------------------------------------------------------------------
  // The `cluster` column
  // ---------------------------------------------------------------------

  /** The cells `df["cluster"] = labels` writes. */
  function LabelCells(labels: seq<nat>): (col: seq<Cell>)
    ensures |col| == |labels|
    ensures forall i :: 0 <= i < |labels| ==> col[i] == Number(labels[i])
  {
    seq(|labels|, i requires 0 <= i < |labels| => Number(labels[i]))
  }

  /** `df["cluster"] = labels`. */
  method AssignClusters(df: Frame, labels: seq<nat>)
    requires df.Valid() && |labels| == df.rows
    modifies df
    ensures df.Valid() && df.Value() == WithColumn(old(df.Value()), "cluster", LabelCells(labels))
  {
    df.SetColumn("cluster", LabelCells(labels));
  }

  /**
   * After the assignment the `cluster` column holds the labels row for row,
   * every other column keeps its cells, and the only column that can be new
   * is `cluster`, added last.
   */
  lemma AssignedClusterColumn(t: Table, labels: seq<nat>)
    requires WellFormed(t) && |labels| == t.rows
    ensures var r := WithColumn(t, "cluster", LabelCells(labels));
      WellFormed(r) && r.rows == t.rows &&
      (forall i :: 0 <= i < t.rows ==> r.cells["cluster"][i] == Number(labels[i])) &&
      (forall c :: c in t.cells && c != "cluster" ==> c in r.cells && r.cells[c] == t.cells[c]) &&
      (forall c :: c in r.cells ==> c in t.cells || c == "cluster") &&
      r.columns[..|t.columns|] == t.columns
  {
  }

  // ---------------------------------------------------------------------
  // Top terms of a centroid
  // ---------------------------------------------------------------------

  /** Every position of `order` names a vocabulary term. */
  predicate IndexesTerms(order: seq<nat>, terms: seq<string>)
  {
    forall i :: 0 <= i < |order| ==> order[i] < |terms|
  }

  /** `terms[np.argsort(center)[::-1][:10]]`. */
  function TopTermList(terms: seq<string>, order: seq<nat>): (r: seq<string>)
    requires IndexesTerms(order, terms)
    ensures |r| == SliceLength(|order|, TopTermCount)
  {
    var top := TopIndices(order, TopTermCount);
    seq(|top|, i requires 0 <= i < |top| => terms[top[i]])
  }

  /** `", ".join(terms[top_idx])`. */
  function TopTerms(terms: seq<string>, order: seq<nat>): string
    requires IndexesTerms(order, terms)
  {
    Join(TopTermList(terms, order), ", ")
  }

  /**
   * A cluster is described by `min(10, vocabulary size)` distinct
   * vocabulary positions, in non-increasing centroid weight, and no
   * position left out weighs more than one chosen.
   */
  lemma TopTermsByWeight(terms: seq<string>, center: seq<real>, order: seq<nat>)
    requires |center| == |terms| && IsArgsort(order, center)
    ensures var top, list := TopIndices(order, TopTermCount), TopTermList(terms, order);
      |list| == |top| &&
      |list| == (if |terms| < TopTermCount then |terms| else TopTermCount) &&
      (forall i :: 0 <= i < |top| ==> top[i] < |terms| && list[i] == terms[top[i]]) &&
      (forall i, j :: 0 <= i < j < |top| ==> top[i] != top[j]) &&
      (forall i, j :: 0 <= i < j < |top| ==> center[top[i]] >= center[top[j]]) &&
      (forall p, i :: 0 <= p < |terms| && p !in top && 0 <= i < |top| ==> center[top[i]] >= center[p])
  {
    TopIndicesDistinct(order, center, TopTermCount);
    TopIndicesOrdered(order, center, TopTermCount);
    TopIndicesDominate(order, center, TopTermCount);
  }

  /** Each centroid has one weight per vocabulary term and comes with its ascending argsort. */
  ghost predicate CentersFit(terms: seq<string>, centers: seq<seq<real>>, orders: seq<seq<nat>>, nClusters: nat)
  {
    |centers| == nClusters && |orders| == nClusters &&
    forall k :: 0 <= k < nClusters ==> |centers[k]| == |terms| && IsArgsort(orders[k], centers[k])
  }

  /** The rows of `cluster_rows` once the loop is done. */
  function TermsRows(terms: seq<string>, orders: seq<seq<nat>>, nClusters: nat): (rows: seq<TermsRow>)
    requires |orders| == nClusters && forall k :: 0 <= k < nClusters ==> IndexesTerms(orders[k], terms)
    ensures |rows| == nClusters
  {
    seq(nClusters, k requires 0 <= k < nClusters => TermsRow(k, TopTerms(terms, orders[k])))
  }

  /** The `for k in range(n_clusters)` loop that fills `cluster_rows`: one row per cluster id, ascending. */
  method ClusterTopTerms(terms: seq<string>, centers: seq<seq<real>>, orders: seq<seq<nat>>, nClusters: nat)
    returns (rows: seq<TermsRow>)
    requires CentersFit(terms, centers, orders, nClusters)
    ensures |rows| == nClusters
    ensures forall k :: 0 <= k < nClusters ==> rows[k].cluster == k && rows[k].topTerms == TopTerms(terms, orders[k])
  {
    rows := [];
    var k := 0;
    while k < nClusters
      invariant k <= nClusters && |rows| == k
      invariant forall j :: 0 <= j < k ==> rows[j].cluster == j && rows[j].topTerms == TopTerms(terms, orders[j])
    {
      rows := rows + [TermsRow(k, TopTerms(terms, orders[k]))];
      k := k + 1;
    }
  }

  // ---------------------------------------------------------------------
  // Per-cluster statistics
  // ---------------------------------------------------------------------

  /** `count` of `paper_id` over the first `n` rows labelled `k`: the non-empty ones. */
  function CountPapers(ids: seq<Cell>, labels: seq<nat>, k: nat, n: nat): (c: nat)
    requires |ids| == |labels| && n <= |labels|
    ensures c <= n
  {
    if n == 0 then 0
    else CountPapers(ids, labels, k, n - 1) + if labels[n - 1] == k && !ids[n - 1].Missing? then 1 else 0
  }

  /** The rows among the first `n` labelled `k` whose `paper_id` is not empty. */
  ghost function PaperRows(ids: seq<Cell>, labels: seq<nat>, k: nat, n: nat): set<int>
    requires |ids| == |labels| && n <= |labels|
  {
    set i | 0 <= i < n && labels[i] == k && !ids[i].Missing?
  }

  /** The count is the number of rows labelled `k` whose `paper_id` is not empty. */
  lemma {:induction false} CountPapersIsGroupSize(ids: seq<Cell>, labels: seq<nat>, k: nat, n: nat)
    requires |ids| == |labels| && n <= |labels|
    ensures CountPapers(ids, labels, k, n) == |PaperRows(ids, labels, k, n)|
  {
    if n > 0 {
      CountPapersIsGroupSize(ids, labels, k, n - 1);
      PaperRowsStep(ids, labels, k, n);
    }
  }

  lemma PaperRowsStep(ids: seq<Cell>, labels: seq<nat>, k: nat, n: nat)
    requires |ids| == |labels| && 0 < n <= |labels|
    ensures |PaperRows(ids, labels, k, n)| ==
      |PaperRows(ids, labels, k, n - 1)| + if labels[n - 1] == k && !ids[n - 1].Missing? then 1 else 0
  {
    var before, after := PaperRows(ids, labels, k, n - 1), PaperRows(ids, labels, k, n);
    if labels[n - 1] == k && !ids[n - 1].Missing? {
      assert after == before + {n - 1} by {
        forall i | i in after ensures i in before + {n - 1} {
          if i < n - 1 { assert i in before; }
        }
      }
      AddFresh(before, n - 1);
    } else {
      assert after == before by {
        forall i | i in after ensures i in before {
          assert i < n - 1;
        }
      }
    }
  }

  lemma AddFresh(a: set<int>, x: int)
    requires x !in a
    ensures |a + {x}| == |a| + 1
  {
  }

  /** Sum of the `n_citation` values over the first `n` rows labelled `k`, empty cells skipped. */
  function CitationSum(cites: seq<Cell>, labels: seq<nat>, k: nat, n: nat): int
    requires |cites| == |labels| && n <= |labels|
  {
    if n == 0 then 0
    else CitationSum(cites, labels, k, n - 1) + if labels[n - 1] == k && cites[n - 1].Number? then cites[n - 1].n else 0
  }

  /** How many of the first `n` rows labelled `k` have an `n_citation` value. */
  function CitationCount(cites: seq<Cell>, labels: seq<nat>, k: nat, n: nat): (c: nat)
    requires |cites| == |labels| && n <= |labels|
    ensures c > 0 <==> exists i :: 0 <= i < n && labels[i] == k && cites[i].Number?
  {
    if n == 0 then 0
    else CitationCount(cites, labels, k, n - 1) + if labels[n - 1] == k && cites[n - 1].Number? then 1 else 0
  }

  /** `mean` of `n_citation` for cluster `k`: empty when the cluster has no citation value. */
  function MeanCitations(cites: seq<Cell>, labels: seq<nat>, k: nat): (m: Option<real>)
    requires |cites| == |labels|
    ensures m.Some? <==> exists i :: 0 <= i < |labels| && labels[i] == k && cites[i].Number?
  {
    var count := CitationCount(cites, labels, k, |labels|);
    if count == 0 then None
    else Some(CitationSum(cites, labels, k, |labels|) as real / count as real)
  }

  /** `min` of `year` over the first `n` rows labelled `k`, empty cells skipped. */
  function YearMin(years: seq<Cell>, labels: seq<nat>, k: nat, n: nat): (r: Option<int>)
    requires |years| == |labels| && n <= |labels|
    ensures r.Some? ==> exists i :: 0 <= i < n && labels[i] == k && years[i] == Number(r.value)
    ensures forall i :: 0 <= i < n && labels[i] == k && years[i].Number? ==> r.Some? && r.value <= years[i].n
  {
    if n == 0 then None
    else
      var rest := YearMin(years, labels, k, n - 1);
      if labels[n - 1] == k && years[n - 1].Number? then
        if rest.Some? && rest.value <= years[n - 1].n then rest else Some(years[n - 1].n)
      else rest
  }

  /** `max` of `year` over the first `n` rows labelled `k`, empty cells skipped. */
  function YearMax(years: seq<Cell>, labels: seq<nat>, k: nat, n: nat): (r: Option<int>)
    requires |years| == |labels| && n <= |labels|
    ensures r.Some? ==> exists i :: 0 <= i < n && labels[i] == k && years[i] == Number(r.value)
    ensures forall i :: 0 <= i < n && labels[i] == k && years[i].Number? ==> r.Some? && years[i].n <= r.value
  {
    if n == 0 then None
    else
      var rest := YearMax(years, labels, k, n - 1);
      if labels[n - 1] == k && years[n - 1].Number? then
        if rest.Some? && years[n - 1].n <= rest.value then rest else Some(years[n - 1].n)
      else rest
  }

  /**
   * What the aggregation needs of the paper table: one label per row, a
   * `paper_id` column, and no text in the `n_citation` and `year` columns
   * (pandas cannot take the mean or the minimum of text).
   */
  ghost predicate StatsInput(t: Table, labels: seq<nat>)
  {
    WellFormed(t) && |labels| == t.rows && "paper_id" in t.columns &&
    ("n_citation" in t.columns ==> forall i :: 0 <= i < t.rows ==> !t.cells["n_citation"][i].Text?) &&
    ("year" in t.columns ==> forall i :: 0 <= i < t.rows ==> !t.cells["year"][i].Text?)
  }

  /** The statistics columns of the paper table: `paper_id`, and `n_citation` and `year` where the table has them. */
  datatype StatsColumns = StatsColumns(ids: seq<Cell>, cites: Option<seq<Cell>>, years: Option<seq<Cell>>)

  /** The columns the aggregation reads from table `t`. */
  function StatsColumnsOf(t: Table): StatsColumns
    requires WellFormed(t) && "paper_id" in t.columns
  {
    StatsColumns(t.cells["paper_id"],
                 if "n_citation" in t.columns then Some(t.cells["n_citation"]) else None,
                 if "year" in t.columns then Some(t.cells["year"]) else None)
  }

  /** Every statistics column has one cell per label. */
  predicate StatsFit(cols: StatsColumns, labels: seq<nat>)
  {
    |cols.ids| == |labels| &&
    (cols.cites.Some? ==> |cols.cites.value| == |labels|) &&
    (cols.years.Some? ==> |cols.years.value| == |labels|)
  }

  /**
   * The summary row of cluster `row.cluster` after the left merge: the
   * cluster's statistics when some paper carries its label, all empty
   * otherwise.
   */
  function SummaryRowOf(cols: StatsColumns, labels: seq<nat>, row: TermsRow): (r: SummaryRow)
    requires StatsFit(cols, labels)
    ensures r.cluster == row.cluster && r.topTerms == row.topTerms
  {
    var k := row.cluster;
    if k !in labels then SummaryRow(k, row.topTerms, None, None, None, None)
    else
      SummaryRow(k, row.topTerms,
        Some(CountPapers(cols.ids, labels, k, |labels|)),
        if cols.cites.Some? then MeanCitations(cols.cites.value, labels, k) else None,
        if cols.years.Some? then YearMin(cols.years.value, labels, k, |labels|) else None,
        if cols.years.Some? then YearMax(cols.years.value, labels, k, |labels|) else None)
  }

  /** The merged rows, one per row of `cluster_rows`, in its order. */
  function MergedRows(cols: StatsColumns, labels: seq<nat>, rows: seq<TermsRow>): (r: seq<SummaryRow>)
    requires StatsFit(cols, labels)
    ensures |r| == |rows|
  {
    seq(|rows|, i requires 0 <= i < |rows| => SummaryRowOf(cols, labels, rows[i]))
  }

  // ---------------------------------------------------------------------
  // Summary columns
  // ---------------------------------------------------------------------

  datatype AggFunc = Count | Mean | Min | Max

  /** One entry of `agg_cols`: a column with one function, or with a list of them. */
  datatype AggEntry = One(column: string, f: AggFunc) | Many(column: string, fs: seq<AggFunc>)

  /** `agg_cols` once grown: the columns present in the paper table decide its entries. */
  function AggCols(hasCitation: bool, hasYear: bool): seq<AggEntry>
  {
    [One("paper_id", Count)] +
    (if hasCitation then [One("n_citation", Mean)] else []) +
    (if hasYear then [Many("year", [Min, Max])] else [])
  }

  /** Building `agg_cols` entry by entry, as the step does. */
  method BuildAggCols(df: Frame) returns (spec: seq<AggEntry>)
    ensures spec == AggCols(df.Has("n_citation"), df.Has("year"))
    ensures One("paper_id", Count) in spec
    ensures One("n_citation", Mean) in spec <==> df.Has("n_citation")
    ensures Many("year", [Min, Max]) in spec <==> df.Has("year")
  {
    spec := [One("paper_id", Count)];
    if df.Has("n_citation") {
      spec := spec + [One("n_citation", Mean)];
    }
    if df.Has("year") {
      spec := spec + [Many("year", [Min, Max])];
    }
  }

  function FuncName(f: AggFunc): string
  {
    match f
    case Count => "count"
    case Mean => "mean"
    case Min => "min"
    case Max => "max"
  }

  /**
   * The column names of `groupby(...).agg(spec)` after the flattening: when
   * some entry has a list of functions pandas labels every column with a
   * (column, function) pair, which the flattening joins with "_"; when none
   * has, every column keeps its plain name.
   */
  function AggColumnNames(spec: seq<AggEntry>): seq<string>
  {
    if exists e :: e in spec && e.Many? then Flattened(spec)
    else seq(|spec|, i requires 0 <= i < |spec| => spec[i].column)
  }

  function Flattened(spec: seq<AggEntry>): seq<string>
  {
    if spec == [] then []
    else
      (match spec[0]
       case One(c, f) => [c + "_" + FuncName(f)]
       case Many(c, fs) => seq(|fs|, j requires 0 <= j < |fs| => c + "_" + FuncName(fs[j]))) +
      Flattened(spec[1..])
  }

  /** The four conditional renames of the statistics columns. */
  function StatsName(name: string): string
  {
    if name == "paper_id_count" then "n_papers"
    else if name == "n_citation_mean" then "avg_citations"
    else if name == "year_min" then "min_year"
    else if name == "year_max" then "max_year"
    else name
  }

  /** The summary's columns as the step names them: the merge keys, then the renamed statistics. */
  function SummaryColumnsAsWritten(hasCitation: bool, hasYear: bool): seq<string>
  {
    var names := AggColumnNames(AggCols(hasCitation, hasYear));
    ["cluster", "top_terms"] + StatsNames(names)
  }

  /** `rename(columns=...)` over a list of names. */
  function StatsNames(names: seq<string>): (r: seq<string>)
    ensures |r| == |names| && forall i :: 0 <= i < |names| ==> r[i] == StatsName(names[i])
  {
    seq(|names|, i requires 0 <= i < |names| => StatsName(names[i]))
  }

  /** The summary's columns as intended: the count is always `n_papers`, the mean always `avg_citations`. */
  function SummaryColumns(hasCitation: bool, hasYear: bool): (cols: seq<string>)
  {
    ["cluster", "top_terms", "n_papers"] +
    (if hasCitation then ["avg_citations"] else []) +
    (if hasYear then ["min_year", "max_year"] else [])
  }

  /** The intended columns: each statistics column is there exactly when its source column is, and no name repeats. */
  lemma SummaryColumnsPresence(hasCitation: bool, hasYear: bool)
    ensures var cols := SummaryColumns(hasCitation, hasYear);
      cols[..3] == ["cluster", "top_terms", "n_papers"] &&
      ("avg_citations" in cols <==> hasCitation) &&
      ("min_year" in cols <==> hasYear) && ("max_year" in cols <==> hasYear) &&
      Distinct(cols)
  {
    var cols := SummaryColumns(hasCitation, hasYear);
    if !hasCitation {
      assert forall i :: 0 <= i < |cols| ==> cols[i] != "avg_citations";
    }
    if !hasYear {
      assert forall i :: 0 <= i < |cols| ==> cols[i] != "min_year" && cols[i] != "max_year";
    }
  }

  /** With a `year` column the columns come out as intended. */
  lemma SummaryColumnsWithYear(hasCitation: bool)
    ensures SummaryColumnsAsWritten(hasCitation, true) == SummaryColumns(hasCitation, true)
  {
    FlattenedWithYear(hasCitation);
    if hasCitation {
      FlatNamesRenamedWithCitation();
    } else {
      FlatNamesRenamed();
    }
  }

  /** The renames of the flattened names with a citation mean. */
  lemma FlatNamesRenamedWithCitation()
    ensures StatsNames(["paper_id_count", "n_citation_mean", "year_min", "year_max"]) ==
      ["n_papers", "avg_citations", "min_year", "max_year"]
  {
    var r := StatsNames(["paper_id_count", "n_citation_mean", "year_min", "year_max"]);
    assert r[0] == "n_papers" && r[1] == "avg_citations";
    assert r[2] == "min_year" && r[3] == "max_year";
  }

  /** The renames of the flattened names without a citation mean. */
  lemma FlatNamesRenamed()
    ensures StatsNames(["paper_id_count", "year_min", "year_max"]) == ["n_papers", "min_year", "max_year"]
  {
    var r := StatsNames(["paper_id_count", "year_min", "year_max"]);
    assert r[0] == "n_papers" && r[1] == "min_year" && r[2] == "max_year";
  }

  /** With a `year` entry every column is named `<column>_<function>`. */
  lemma FlattenedWithYear(hasCitation: bool)
    ensures AggColumnNames(AggCols(hasCitation, true)) ==
      if hasCitation then ["paper_id_count", "n_citation_mean", "year_min", "year_max"]
      else ["paper_id_count", "year_min", "year_max"]
  {
    var spec := AggCols(hasCitation, true);
    var year := [Many("year", [Min, Max])];
    assert spec[|spec| - 1].Many?;
    FlattenedYear();
    assert "paper_id" + "_" + FuncName(Count) == "paper_id_count";
    if hasCitation {
      assert "n_citation" + "_" + FuncName(Mean) == "n_citation_mean";
      FlattenedOne("n_citation", Mean, year);
      assert spec == [One("paper_id", Count)] + ([One("n_citation", Mean)] + year);
      FlattenedOne("paper_id", Count, [One("n_citation", Mean)] + year);
    } else {
      assert spec == [One("paper_id", Count)] + year;
      FlattenedOne("paper_id", Count, year);
    }
  }

  lemma FlattenedYear()
    ensures Flattened([Many("year", [Min, Max])]) == ["year_min", "year_max"]
  {
    var year := [Many("year", [Min, Max])];
    var names := seq(2, j requires 0 <= j < 2 => "year" + "_" + FuncName([Min, Max][j]));
    assert names[0] == "year_min" && names[1] == "year_max";
    assert Flattened(year) == names + Flattened(year[1..]);
    assert Flattened(year[1..]) == [];
  }

  lemma FlattenedOne(c: string, f: AggFunc, rest: seq<AggEntry>)
    ensures Flattened([One(c, f)] + rest) == [c + "_" + FuncName(f)] + Flattened(rest)
  {
    assert ([One(c, f)] + rest)[1..] == rest;
  }

  /**
   * Without a `year` column no entry has a list, so pandas keeps the plain
   * names: the count column is called `paper_id` and the mean `n_citation`,
   * and none of the renames applies.
   */
  lemma SummaryColumnsWithoutYear(hasCitation: bool)
    ensures SummaryColumnsAsWritten(hasCitation, false) ==
      ["cluster", "top_terms", "paper_id"] + (if hasCitation then ["n_citation"] else [])
    ensures "n_papers" !in SummaryColumnsAsWritten(hasCitation, false)
    ensures SummaryColumnsAsWritten(hasCitation, false) != SummaryColumns(hasCitation, false)
  {
    var spec := AggCols(hasCitation, false);
    assert forall e :: e in spec ==> e.One?;
    var cols := SummaryColumnsAsWritten(hasCitation, false);
    assert cols[2] == "paper_id";
  }

  // ---------------------------------------------------------------------
  // The whole step
  // ---------------------------------------------------------------------

  /** The summary of table `t` (before the `cluster` column is added) under the given labels and term rows. */
  function SummaryOf(t: Table, labels: seq<nat>, rows: seq<TermsRow>): (s: Summary)
    requires StatsInput(t, labels)
    ensures |s.rows| == |rows|
  {
    Summary(SummaryColumns("n_citation" in t.columns, "year" in t.columns),
            MergedRows(StatsColumnsOf(t), labels, rows))
  }

  /**
   * The clustering step after the fit: the `cluster` column is written into
   * the paper table, the top-terms loop runs, and the per-cluster
   * statistics are merged onto its rows.
   */
  method BuildClusters(df: Frame, labels: seq<nat>, terms: seq<string>, centers: seq<seq<real>>,
                       orders: seq<seq<nat>>, nClusters: nat)
    returns (summary: Summary)
    requires df.Valid() && StatsInput(df.Value(), labels)
    requires CentersFit(terms, centers, orders, nClusters)
    modifies df
    ensures df.Valid() && df.Value() == WithColumn(old(df.Value()), "cluster", LabelCells(labels))
    ensures summary == SummaryOf(old(df.Value()), labels, TermsRows(terms, orders, nClusters))
  {
    ghost var t := df.Value();
    AssignClusters(df, labels);
    var rows := ClusterTopTerms(terms, centers, orders, nClusters);
    assert rows == TermsRows(terms, orders, nClusters);
    var spec := BuildAggCols(df);
    var hasCitation, hasYear := One("n_citation", Mean) in spec, Many("year", [Min, Max]) in spec;
    var cites := if hasCitation then Some(df.Column("n_citation")) else None;
    var years := if hasYear then Some(df.Column("year")) else None;
    var cols := StatsColumns(df.Column("paper_id"), cites, years);
    assert cols == StatsColumnsOf(t);
    summary := Summary(SummaryColumns(hasCitation, hasYear), MergedRows(cols, labels, rows));
  }

  // ---------------------------------------------------------------------
  // Properties of the summary
  // ---------------------------------------------------------------------

  /** One row per cluster id `0..n_clusters-1`, ascending, each with its centroid's top terms. */
  lemma SummaryRowPerCluster(t: Table, labels: seq<nat>, terms: seq<string>, centers: seq<seq<real>>,
                             orders: seq<seq<nat>>, nClusters: nat)
    requires StatsInput(t, labels) && CentersFit(terms, centers, orders, nClusters)
    ensures var s := SummaryOf(t, labels, TermsRows(terms, orders, nClusters));
      |s.rows| == nClusters &&
      forall k :: 0 <= k < nClusters ==> s.rows[k].cluster == k && s.rows[k].topTerms == TopTerms(terms, orders[k])
  {
  }

  /**
   * `n_papers` of cluster `k` is the number of rows labelled `k` with a
   * `paper_id`; a cluster no paper is labelled with keeps its row, with
   * every statistic empty.
   */
  lemma SummaryCounts(t: Table, labels: seq<nat>, rows: seq<TermsRow>, k: nat)
    requires StatsInput(t, labels) && k < |rows|
    ensures var r := SummaryOf(t, labels, rows).rows[k];
      (rows[k].cluster in labels ==>
        r.nPapers == Some(|PaperRows(t.cells["paper_id"], labels, rows[k].cluster, |labels|)|)) &&
      (rows[k].cluster !in labels ==>
        r.nPapers.None? && r.avgCitations.None? && r.minYear.None? && r.maxYear.None?)
  {
    CountPapersIsGroupSize(t.cells["paper_id"], labels, rows[k].cluster, |labels|);
  }

  /**
   * `min_year <= max_year`, both are years of papers in the cluster, and
   * they are empty exactly when the table has no `year` column or no paper
   * of the cluster has a year.
   */
  lemma SummaryYears(t: Table, labels: seq<nat>, rows: seq<TermsRow>, k: nat)
    requires StatsInput(t, labels) && k < |rows|
    ensures var r, c := SummaryOf(t, labels, rows).rows[k], rows[k].cluster;
      (r.minYear.Some? <==> r.maxYear.Some?) &&
      (r.minYear.Some? <==> ("year" in t.columns &&
        exists i :: 0 <= i < |labels| && labels[i] == c && t.cells["year"][i].Number?)) &&
      (r.minYear.Some? ==>
        r.minYear.value <= r.maxYear.value &&
        (exists i :: 0 <= i < |labels| && labels[i] == c && t.cells["year"][i] == Number(r.minYear.value)) &&
        (exists i :: 0 <= i < |labels| && labels[i] == c && t.cells["year"][i] == Number(r.maxYear.value)))
  {
    var r, c := SummaryOf(t, labels, rows).rows[k], rows[k].cluster;
    if r.minYear.Some? {
      var i :| 0 <= i < |labels| && labels[i] == c && t.cells["year"][i] == Number(r.minYear.value);
    }
  }

  /**
   * `avg_citations` is present exactly when the table has `n_citation` and
   * some paper of the cluster has a citation count.
   */
  lemma SummaryCitations(t: Table, labels: seq<nat>, rows: seq<TermsRow>, k: nat)
    requires StatsInput(t, labels) && k < |rows|
    ensures var r, c := SummaryOf(t, labels, rows).rows[k], rows[k].cluster;
      r.avgCitations.Some? <==> ("n_citation" in t.columns &&
        exists i :: 0 <= i < |labels| && labels[i] == c && t.cells["n_citation"][i].Number?)
  {
    var c := rows[k].cluster;
    if "n_citation" in t.columns && exists i :: 0 <= i < |labels| && labels[i] == c && t.cells["n_citation"][i].Number? {
      var i :| 0 <= i < |labels| && labels[i] == c && t.cells["n_citation"][i].Number?;
      assert labels[i] == c;
    }
  }

  /** A statistics column the summary lacks is empty in every row. */
  lemma SummaryAbsentColumnsEmpty(t: Table, labels: seq<nat>, rows: seq<TermsRow>)
    requires StatsInput(t, labels)
    ensures var s := SummaryOf(t, labels, rows);
      ("avg_citations" !in s.columns ==> forall k :: 0 <= k < |s.rows| ==> s.rows[k].avgCitations.None?) &&
      ("min_year" !in s.columns ==> forall k :: 0 <= k < |s.rows| ==> s.rows[k].minYear.None? && s.rows[k].maxYear.None?)
  {
    SummaryColumnsPresence("n_citation" in t.columns, "year" in t.columns);
    MergedRowsAbsent(StatsColumnsOf(t), labels, rows);
  }

  /** A statistics column that was not given leaves its fields empty in every merged row. */
  lemma MergedRowsAbsent(cols: StatsColumns, labels: seq<nat>, rows: seq<TermsRow>)
    requires StatsFit(cols, labels)
    ensures var r := MergedRows(cols, labels, rows);
      (cols.cites.None? ==> forall k :: 0 <= k < |r| ==> r[k].avgCitations.None?) &&
      (cols.years.None? ==> forall k :: 0 <= k < |r| ==> r[k].minYear.None? && r[k].maxYear.None?)
  {
  }

  /**
   * The metadata the index build saves is a valid input here: for labels
   * of the right length (one per paper, as the embedding matrix has one row
   * per paper) it has a `paper_id` column, and its `year` and `n_citation`
   * columns, where present, hold no text.
   */
  lemma IndexMetadataFitsStats(t: Table, literal: string -> Option<seq<string>>, numeric: string -> Option<int>,
                               labels: seq<nat>)
    requires WellFormed(t) && BuildIndex(t, literal, numeric).Ok? && |labels| == t.rows
    ensures StatsInput(BuildIndex(t, literal, numeric).value.metadata, labels)
  {
    var u := Prepare(t, literal, numeric).value;
    var a := Aliased(t);
    PrepareGivesPrepared(t, literal, numeric);
    PrepareColumns(t, literal, numeric);
    var m := Project(u).metadata;
    assert BuildIndex(t, literal, numeric).value.metadata == m;
    ProjectKeepsCoreColumns(u);
    ProjectColumns(u);
    ProjectRowsAligned(u);
    if "year" in m.columns {
      PrepareYear(t, literal, numeric);
      forall i | 0 <= i < m.rows
        ensures !m.cells["year"][i].Text?
      {
        YearCellsAreNumbersOrMissing(a.cells["year"], numeric, i);
      }
    }
    if "n_citation" in m.columns {
      PrepareCitations(t, literal, numeric);
      forall i | 0 <= i < m.rows
        ensures !m.cells["n_citation"][i].Text?
      {
        CitationCellsAreNumbers(a.cells["n_citation"], numeric, i);
      }
    }
  }
}
