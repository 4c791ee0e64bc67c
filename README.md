# Academic paper search: a verified model of its data path

The repository is a small literature search engine:
1. it loads a CSV of papers and normalises it (`src/preprocess.py`);
2. it builds a TF-IDF index over the cleaned title and abstract, and saves the metadata columns the search page shows (`src/build_index.py`);
3. it answers a query with the `top_k` most similar papers (`search_papers` in `app/streamlit_app.py`);
4. optionally, it clusters the papers and writes a per-cluster summary (`src/build_clusters.py`).

This Dafny project models the logic of those four steps and proves what they promise.

- `common.dfy`, module `Common`: `Option` (pandas' NaN), `Result` (an exception as a value), and Python's `sep.join`.
- `normalize.dfy`, module `Normalize`: `clean_text` and `parse_list_like`.
  - `clean_text` is modelled as the code runs it: `lower()`, `re.sub(r"[^a-z0-9\s]", " ")`, `re.sub(r"\s+", " ")`, then `strip()`.
  - It is proved equal to an independent definition, the words of the substituted text joined by single spaces.
  - From that, the model proves: the output shape, keeping the words, fixing clean text, and idempotence.
  - `\s` and `strip()` use Python's `str.isspace` set.
- `frames.dfy`, module `Frames`: the tables passed between steps.
  - A `Table` value holds named columns of `Cell`s (NaN, text or integer).
  - A `Frame` class holds a DataFrame changed in place. Its methods are `df[name] = col` and `df.rename`.
- `loader.dfy`, module `Loader`: `load_and_prepare_data`.
  - `Prepare` is the step without the sample selection of src/preprocess.py:83 (see Findings); `PrepareAsWritten` adds that selection.
  - `LoadAndPrepareData` changes a `Frame` column by column, as the source does. It is proved to end in `Prepare`'s table or to report `Prepare`'s error.
- `ranking.dfy`, module `Ranking`: `np.argsort(s)[::-1][:k]`, as used by the search and by the cluster terms.
- `search.dfy`, module `Search`: `search_papers`.
- `index_build.dfy`, module `IndexBuild`: the `meta_cols` projection. It also covers the row alignment between the vectoriser's texts and the saved metadata.
- `clusters.dfy`, module `Clusters`:
  - the `cluster` column assignment;
  - the top-10-terms loop;
  - the per-cluster count, mean and year range;
  - the left merge onto one row per cluster;
  - the naming of the summary's columns.

Library calls enter as parameters:
- `ast.literal_eval` as `literal`;
- `pd.to_numeric` of a text as `numeric`;
- the TF-IDF transform with the cosine similarity as `score`;
- `np.argsort` as an `order` that must be an ascending sorting permutation;
- KMeans' labels and centroids as plain inputs.

Two facts about the code that the model keeps:
- `n_citation` is coerced with `fillna(0).astype(int)`; negative values stay negative.
- `np.argsort`'s default sort is not stable; tied scores come out in an unspecified order.

## Model

| member | source | states |
|---|---|---|
| Normalize.CleanTextMissing | src/preprocess.py:12-13 | a missing (NaN) text cleans to the empty string |
| Normalize.CleanTextIsJoinedWords | src/preprocess.py:14-16 | clean_text equals the whitespace-separated words of the lower-cased, substituted text joined by single spaces |
| Normalize.CleanTextIsClean | src/preprocess.py:10-17 | every output character is a-z, 0-9 or a space, with no leading, trailing or doubled space |
| Normalize.CleanTextKeepsWords | src/preprocess.py:15-16 | cleaning keeps exactly the words of the substituted text, in order |
| Normalize.CleanTextFixesClean | src/preprocess.py:14-16 | text already in clean shape is returned unchanged |
| Normalize.CleanTextIdempotent | src/preprocess.py:10-17 | clean_text(clean_text(t)) == clean_text(t) |
| Normalize.CleanTextOfAlnumText | src/preprocess.py:15-16 | text of lower-case letters, digits and whitespace keeps its words |
| Normalize.CleanTextOfAsciiText | src/preprocess.py:14-16 | ASCII text of letters of either case, digits and whitespace keeps the words of its lower-cased form |
| Normalize.LowerIdempotent | src/preprocess.py:14 | lower-casing twice is lower-casing once |
| Normalize.LowerAscii | app/streamlit_app.py:28 | on ASCII text lower() keeps the length and changes only A-Z, each to its lower-case letter |
| Normalize.StripIdempotent | src/preprocess.py:28 | stripping a stripped value changes nothing |
| Normalize.StripEnds | src/preprocess.py:28 | a stripped value is empty or starts and ends with non-whitespace |
| Normalize.ParseListLikeFallbackStripped | src/preprocess.py:28-40 | a value not turned into joined items comes back stripped and has no surrounding whitespace |
| Normalize.ParseListLikeKeepsPlainText | src/preprocess.py:19-40 | already clean, unbracketed text comes back unchanged |
| Normalize.ParseListLikeFallbackIdempotent | src/preprocess.py:28-40 | parsing the fallback result again changes nothing |
| Normalize.ParseListLikeExample | src/preprocess.py:21-37 | a list literal becomes "A, B"; comma-separated names and an unparsable bracket stay as they are |
| Frames.WithColumn | src/preprocess.py:59-61 | `df[name] = col` replaces an existing column in place or appends a new one, and leaves every other column unchanged |
| Frames.Renamed | src/preprocess.py:49 | the renamed column keeps its position and cells under the new name; the other columns are unchanged |
| Frames.Select | src/build_index.py:48 | `df[names]` has exactly the given columns in the given order, with the original cells and rows |
| Frames.Frame.SetColumn | src/preprocess.py:59-80 | the frame's new table is the old one with the column assigned |
| Frames.Frame.RenameColumn | src/preprocess.py:48-49 | the frame's new table is the old one with the column renamed |
| Loader.FirstMissing | src/preprocess.py:52-55 | None exactly when every required column is present; otherwise the first absent one, all earlier ones present |
| Loader.CheckRequired | src/preprocess.py:52-55 | the loop over required_cols reports the first absent required column, or none |
| Loader.AliasId | src/preprocess.py:48-49 | the frame's table becomes the aliased table |
| Loader.WriteListColumns | src/preprocess.py:58-66 | the frame gains authors_str and references_str as AddListColumns states |
| Loader.WriteTextStage | src/preprocess.py:58-72 | fails with the title/abstract error exactly when that input column holds a number; otherwise the frame holds TextStage's table |
| Loader.WriteTextColumns | src/preprocess.py:69-72 | the frame gains text_raw and text_clean as AddTextColumns states |
| Loader.CoerceNumberColumns | src/preprocess.py:74-80 | year and n_citation are coerced, each only when present |
| Loader.LoadAndPrepareData | src/preprocess.py:42-85 | the in-place step ends with Prepare's table, or reports Prepare's error |
| Loader.AddListColumns | src/preprocess.py:58-66 | the input columns keep their order and cells; authors_str/references_str are the parsed source column, or blanks without one |
| Loader.AddTextColumns | src/preprocess.py:69-72 | text_raw is title + " " + abstract with NaN as ""; text_clean is clean_text of it; nothing else changes |
| Loader.CoerceYear | src/preprocess.py:75-76 | year, if present, is replaced by its numeric coercion; the columns and all other cells are unchanged |
| Loader.CoerceCitations | src/preprocess.py:79-80 | n_citation, if present, is replaced by its integer coercion; the columns and all other cells are unchanged |
| Loader.TextStage | src/preprocess.py:57-72 | the four derived text columns are added after the input's columns, and the rest is kept |
| Loader.AliasRenamesIdOnlyWithoutPaperId | src/preprocess.py:48-49 | id is renamed only without paper_id; afterwards paper_id exists exactly when the input had paper_id or id |
| Loader.PrepareReportsFirstMissingColumn | src/preprocess.py:52-55 | the error names the first absent required column in the order paper_id, title, abstract |
| Loader.PrepareErrors | src/preprocess.py:51-72 | the step fails exactly when a required column is absent or the title/abstract holds a number, and the error says which |
| Loader.PrepareSteps | src/preprocess.py:48-80 | on success the result is the text stage and the two coercions applied to the aliased table |
| Loader.PrepareColumns | src/preprocess.py:57-72 | on success the input's columns keep their order and the required and derived text columns exist; the row count is kept |
| Loader.PrepareKeepsOtherColumns | src/preprocess.py:42-85 | every column the step does not write keeps its cells; no column beyond the written ones is added |
| Loader.PrepareKeepsRequired | src/preprocess.py:48-80 | paper_id, title and abstract come out as they went in, after the alias |
| Loader.PrepareListColumns | src/preprocess.py:58-66 | authors_str and references_str are parse_list_like of their source columns, or "" without one |
| Loader.PrepareTextClean | src/preprocess.py:69-72 | row i's text_raw is its title, a space and its abstract; text_clean is clean_text of it and is clean |
| Loader.PrepareCitations | src/preprocess.py:79-80 | n_citation exists afterwards exactly when before, and then is the coerced input column |
| Loader.CitationCellsAreNumbers | src/preprocess.py:80 | every coerced citation is an integer: the number read, or 0 for a missing or unreadable cell |
| Loader.PrepareYear | src/preprocess.py:75-76 | year exists afterwards exactly when before, and then is the coerced input column |
| Loader.YearCellsAreNumbersOrMissing | src/preprocess.py:76 | every coerced year is a number or missing, and it is missing exactly when the text does not read as a number |
| Loader.SampleRejectsTableWithoutYear | src/preprocess.py:83 | as written, a table that otherwise loads but has no year fails with a KeyError on year |
| Loader.SampleAcceptsTableWithYear | src/preprocess.py:83 | with a year column the step as written agrees with Prepare |
| Loader.PrepareAcceptsTableWithoutYear | src/preprocess.py:75 | a table with the required text columns and no year loads, and has no year column |
| Ranking.TopIndicesCount | app/streamlit_app.py:32 | k results for 0 <= k <= n, all n for larger k, max(n + k, 0) for negative k |
| Ranking.TopIndicesDistinct | app/streamlit_app.py:32 | the selected positions are distinct positions of the score list |
| Ranking.TopIndicesOrdered | app/streamlit_app.py:32 | the selected scores are non-increasing |
| Ranking.TopIndicesDominate | app/streamlit_app.py:32 | every selected score is at least every score left out |
| Ranking.TopIndicesMembers | app/streamlit_app.py:32 | a position is selected exactly when it is among the last m positions of the ascending order |
| Search.QueryText | app/streamlit_app.py:28 | an ASCII query keeps its length, and only its capitals change |
| Search.SearchPapers | app/streamlit_app.py:24-37 | returns the sliced number of results |
| Search.SearchCount | app/streamlit_app.py:32-34 | min(top_k, n) results for non-negative top_k; none from an empty corpus |
| Search.SearchHitsAreRows | app/streamlit_app.py:34-35 | each result is a distinct metadata row, with the similarity at that row's index |
| Search.SearchOrdered | app/streamlit_app.py:32-35 | results come in non-increasing similarity |
| Search.SearchDominates | app/streamlit_app.py:31-35 | no paper left out scores higher than a returned one |
| Search.SearchSeesOnlyLoweredQuery | app/streamlit_app.py:28-29 | queries with the same lower-case form give the same results |
| Search.QueryTextOfLowered | app/streamlit_app.py:28 | an already lower-cased query reaches the vectoriser unchanged |
| Search.QueryTextExample | app/streamlit_app.py:28 | "Q&A 2?" becomes "q&a 2?" |
| IndexBuild.MetaColumnsDistinct | src/build_index.py:36-45 | the meta_cols list names eight distinct columns |
| IndexBuild.KeepMembers | src/build_index.py:47 | a name is kept exactly when it is listed and exists |
| IndexBuild.KeepDistinct | src/build_index.py:47 | the filter of a list without repeats has none |
| IndexBuild.KeepKeepsOrder | src/build_index.py:47 | the kept names keep the meta_cols order |
| IndexBuild.PrepareGivesPrepared | src/build_index.py:24-28 | a prepared table has the text columns the build reads, with text in text_clean |
| IndexBuild.BuildIndexErrors | src/build_index.py:22-24 | the build fails exactly when a required column is absent or the title/abstract holds a number, and the error names that column |
| IndexBuild.ProjectColumns | src/build_index.py:46-48 | the saved columns are exactly the meta_cols entries the table has |
| IndexBuild.ProjectColumnsOrdered | src/build_index.py:36-48 | the saved columns keep the meta_cols order |
| IndexBuild.ProjectKeepsCoreColumns | src/build_index.py:36-48 | paper_id, title, abstract, authors_str and references_str are always saved |
| IndexBuild.ProjectRowsAligned | src/build_index.py:28-48 | text i and metadata row i both come from prepared row i; the row counts are equal |
| IndexBuild.ProjectKeepsRequiredCells | src/build_index.py:48 | the saved paper_id, title and abstract are the prepared table's columns |
| IndexBuild.BuildIndexMetadataRows | src/build_index.py:24-51 | one metadata row per input paper; paper_id, title and abstract equal the input's row for row |
| IndexBuild.BuildIndexTextRows | src/build_index.py:24-28 | one text per input paper; text i is clean_text of input row i's title and abstract |
| Clusters.AssignClusters | src/build_clusters.py:37 | the frame's new table is the old one with the cluster column assigned |
| Clusters.AssignedClusterColumn | src/build_clusters.py:37 | the cluster column equals the labels row for row; every other column keeps its cells and position |
| Clusters.TopTermList | src/build_clusters.py:49-50 | a centroid names the sliced number of terms |
| Clusters.TopTermsByWeight | src/build_clusters.py:48-50 | min(10, vocabulary size) distinct terms, in non-increasing centroid weight, none outweighed by a term left out |
| Clusters.TermsRows | src/build_clusters.py:46-57 | one entry per cluster |
| Clusters.ClusterTopTerms | src/build_clusters.py:46-57 | the loop gives one row per cluster id 0..n-1, ascending, each with its centroid's top terms |
| Clusters.CountPapersIsGroupSize | src/build_clusters.py:61-68 | the count is the number of rows labelled k with a non-empty paper_id |
| Clusters.CitationCount | src/build_clusters.py:64-68 | positive exactly when some row labelled k has a citation value |
| Clusters.MeanCitations | src/build_clusters.py:64-68 | a mean exists exactly when some row labelled k has a citation value |
| Clusters.YearMin | src/build_clusters.py:66-68 | the minimum is the year of some row labelled k, and no row labelled k has an earlier year; empty exactly when no such row has a year |
| Clusters.YearMax | src/build_clusters.py:66-68 | the maximum is the year of some row labelled k, and no row labelled k has a later year; empty exactly when no such row has a year |
| Clusters.SummaryRowOf | src/build_clusters.py:86 | the merged row keeps the cluster id and its top terms |
| Clusters.MergedRows | src/build_clusters.py:86 | the left merge keeps one row per cluster_rows entry |
| Clusters.BuildAggCols | src/build_clusters.py:60-66 | agg_cols always counts paper_id; it takes the mean of n_citation exactly when that column exists, and the min and max of year exactly when year exists |
| Clusters.SummaryColumnsPresence | src/build_clusters.py:63-84 | the summary has n_papers; it has avg_citations exactly with n_citation, and min_year/max_year exactly with year; no name repeats |
| Clusters.SummaryColumnsWithYear | src/build_clusters.py:60-84 | with a year column the flattened, renamed columns are the intended ones |
| Clusters.SummaryColumnsWithoutYear | src/build_clusters.py:60-84 | without a year column the columns are named paper_id and n_citation, and n_papers is missing |
| Clusters.SummaryOf | src/build_clusters.py:86 | one summary row per cluster_rows entry |
| Clusters.BuildClusters | src/build_clusters.py:37-86 | the frame gains the cluster column, and the summary is SummaryOf the input table, labels and the terms loop's rows |
| Clusters.SummaryRowPerCluster | src/build_clusters.py:46-86 | one summary row per cluster id 0..n-1, ascending, each with its centroid's top terms |
| Clusters.SummaryCounts | src/build_clusters.py:61-86 | n_papers is the number of rows labelled k with a paper_id; a cluster with no papers keeps its row, with every statistic empty |
| Clusters.SummaryYears | src/build_clusters.py:66-84 | min_year <= max_year, both are years of papers in the cluster, and they are empty exactly without a year column or a dated paper |
| Clusters.SummaryCitations | src/build_clusters.py:63-80 | avg_citations is present exactly with an n_citation column and some cited paper in the cluster |
| Clusters.SummaryAbsentColumnsEmpty | src/build_clusters.py:63-84 | a statistics column the summary lacks is empty in every row |
| Clusters.IndexMetadataFitsStats | src/build_clusters.py:24-68 | the metadata the index build saves satisfies what the aggregation needs: paper_id present, no text in year or n_citation |

## Left out

- Reading and writing CSV, joblib and npz files, `os.makedirs`, and the `print` progress output: these are I/O. Tables arrive as parameters, and a table written and read back is taken to be the same table.
- The Streamlit page and its `st.cache_*` decorators (app/streamlit_app.py:13-22, 39-69) are UI.
- The TF-IDF vectoriser and the cosine similarity are library numerics. The search takes their composition as `score`. The model keeps the list of texts the vectoriser receives.
- MiniBatchKMeans fitting, seeding and centroids are randomised library numerics. The labels, the centroids and each centroid's argsort are inputs. KMeans' own errors are not modelled, for example `n_clusters` larger than the number of papers.
- `np.argsort` is an input `order`, required to be a permutation that sorts the scores ascending. Ties come in an order the model does not fix, because NumPy's default sort is not stable.
- `ast.literal_eval`, together with the `isinstance(list)` test and `str(x)` of the items, is the parameter `literal`. Python literal parsing is not modelled.
- `pd.to_numeric` of a text is the parameter `numeric`, and numbers are integers. The following are not modelled:
  - fractional values;
  - the `Int64` cast of a fractional year, which raises;
  - the truncation by `astype(int)`;
  - floats printed differently from integers.
- Clusters.MeanCitations: the mean is exact rational arithmetic, not the float64 pandas computes.
- Search.QueryText: on non-ASCII text, `lower()` is modelled only for A-Z, KELVIN SIGN and U+0130; other non-ASCII capitals are passed on unchanged. For `clean_text` this is exact, because every other non-ASCII character is replaced by a space either way.
- Search.SearchPapers: requires as many metadata rows as scores. `df_meta.iloc[top_idx]` relies on this, and the build guarantees it (IndexBuild.ProjectRowsAligned).
- Clusters.BuildClusters: requires no text in the `year` and `n_citation` columns. pandas cannot take the min or mean of text, and the build's metadata never has any there (Clusters.IndexMetadataFitsStats).
- Clusters.BuildClusters: requires a `paper_id` column, whose absence makes `agg` raise `KeyError`. The saved metadata always has one (IndexBuild.ProjectKeepsCoreColumns).
- Clusters.BuildClusters: the statistics use the corrected column names (see Findings). The as-written names are modelled separately, in Clusters.SummaryColumnsAsWritten.
- Loader.LoadAndPrepareData: follows the corrected step, without the sample selection of line 83 (see Findings). The as-written step is Loader.PrepareAsWritten.
- IndexBuild.BuildIndex: prepares the table with the corrected Loader.Prepare. src/build_index.py:24 calls the loader as written, so there a CSV without `year` stops the build with `KeyError` (Loader.SampleRejectsTableWithoutYear); the model's build accepts it.
- IndexBuild.BuildIndexErrors, IndexBuild.BuildIndexMetadataRows, IndexBuild.BuildIndexTextRows: stated over the corrected build, so the `KeyError` for a table without `year` is not among the errors listed.
- Clusters.IndexMetadataFitsStats: stated over the corrected build. Metadata without `year` comes only from that build or from a file made some other way; the loader as written never lets such a table through.

## Findings

| source | as written | input that shows it | evidently intended | confidence | as-written member | corrected member |
|---|---|---|---|---|---|---|
| src/preprocess.py:83 | the progress output selects `df[["paper_id", "title", "year"]]`, which raises `KeyError` when the table has no `year` column | a CSV with `paper_id`, `title` and `abstract` but no `year` | `year` is optional, as lines 75-76 and the column rules treat it, so such a table loads | not executed | Loader.SampleRejectsTableWithoutYear | Loader.PrepareAcceptsTableWithoutYear |
| src/build_clusters.py:60-84 | without a `year` entry no aggregation is a list, so pandas keeps single-level column names; the statistics are then called `paper_id` and `n_citation`, and the renames to `n_papers` and `avg_citations` never apply | paper metadata without a `year` column (with or without `n_citation`); the loader as written never saves such metadata, since line 83 of src/preprocess.py rejects it, so it comes only from the corrected loader or from a file made some other way | the count is always `n_papers` and the mean always `avg_citations` | not executed | Clusters.SummaryColumnsWithoutYear | Clusters.SummaryColumnsPresence |
