/** The content-based recommender of music_ml/recommender.py: a feature matrix
    of one-hot genre and language blocks followed by four standardised numeric
    columns, and a ranking of all tracks by cosine similarity to a seed track.

    The dataset is a sequence of rows, so a row's position is its pandas index
    label: the source only behaves as modelled when the DataFrame carries the
    default RangeIndex, since the scaled numeric block is re-indexed 0..n-1 and
    the seed's index label is used as a position. */
module Recommender {
  import opened Results
  import opened Seqs
  import opened Ranking
  import Vocabulary
  import opened Vectors
  import opened Scaling

  datatype Track = Track(
    trackId: int,
    songName: string,
    artist: string,
    genre: string,
    language: string,
    durationSec: real,
    popularityScore: real,
    streamCount: real,
    releaseYear: real)

  datatype NumericField = DurationSec | PopularityScore | StreamCount | ReleaseYear

  /** The label of one feature column. */
  datatype Column =
    | GenreColumn(genre: string)
    | LanguageColumn(language: string)
    | NumericColumn(field: NumericField)

  datatype FeatureMatrix = FeatureMatrix(columns: seq<Column>, rows: seq<seq<real>>)

  datatype RecommendError =
    | EmptyDataset   // StandardScaler refuses a frame with no rows
    | TrackNotFound  // "Track_ID not found"

  /** A recommended row: the track with its `similarity` column. */
  datatype Scored = Scored(track: Track, similarity: real)

  /** The numeric columns, in the order the feature matrix lays them out. */
  const NumericFields: seq<NumericField> := [DurationSec, PopularityScore, StreamCount, ReleaseYear]

  function FieldValue(t: Track, f: NumericField): real
  {
    match f
    case DurationSec => t.durationSec
    case PopularityScore => t.popularityScore
    case StreamCount => t.streamCount
    case ReleaseYear => t.releaseYear
  }

  function ColumnValues(tracks: seq<Track>, f: NumericField): (col: seq<real>)
    ensures |col| == |tracks|
  {
    seq(|tracks|, i requires 0 <= i < |tracks| => FieldValue(tracks[i], f))
  }

  function Genres(tracks: seq<Track>): (g: seq<string>)
    ensures |g| == |tracks|
  {
    seq(|tracks|, i requires 0 <= i < |tracks| => tracks[i].genre)
  }

  function Languages(tracks: seq<Track>): (l: seq<string>)
    ensures |l| == |tracks|
  {
    seq(|tracks|, i requires 0 <= i < |tracks| => tracks[i].language)
  }

  /** The indicator block of `pd.get_dummies` for one row: one column per
      vocabulary entry, 1 where the entry is the row's value. */
  function OneHot(vocab: seq<string>, value: string): (r: seq<real>)
    ensures |r| == |vocab|
  {
    seq(|vocab|, j requires 0 <= j < |vocab| => if vocab[j] == value then 1.0 else 0.0)
  }

  /** What the cell of row `i` under column `c` holds, read off the column's label. */
  function Cell(tracks: seq<Track>, i: nat, c: Column, sqrt: real -> real): real
    requires i < |tracks| && IsSquareRoot(sqrt)
  {
    match c
    case GenreColumn(g) => if tracks[i].genre == g then 1.0 else 0.0
    case LanguageColumn(l) => if tracks[i].language == l then 1.0 else 0.0
    case NumericColumn(f) => Standardize(ColumnValues(tracks, f), sqrt)[i]
  }

  /** One column per vocabulary entry, labelled by the genre itself. */
  function GenreLabels(g: seq<string>): (cs: seq<Column>)
    ensures |cs| == |g|
  {
    seq(|g|, j requires 0 <= j < |g| => GenreColumn(g[j]))
  }

  /** One column per vocabulary entry, labelled by the language itself. */
  function LanguageLabels(l: seq<string>): (cs: seq<Column>)
    ensures |cs| == |l|
  {
    seq(|l|, j requires 0 <= j < |l| => LanguageColumn(l[j]))
  }

  const NumericLabels: seq<Column> :=
    [NumericColumn(DurationSec), NumericColumn(PopularityScore),
     NumericColumn(StreamCount), NumericColumn(ReleaseYear)]

  /** The columns `pd.concat([genre_dummies, lang_dummies, numeric_scaled], axis=1)`
      produces: sorted distinct genres, sorted distinct languages, then the four
      numeric columns. */
  function Layout(tracks: seq<Track>): seq<Column>
  {
    GenreLabels(Vocabulary.Build(Genres(tracks)))
    + LanguageLabels(Vocabulary.Build(Languages(tracks)))
    + NumericLabels
  }

  /** The standardised numeric values of row `i`, in `NumericFields` order. */
  function NumericRow(tracks: seq<Track>, sqrt: real -> real, i: nat): (row: seq<real>)
    requires IsSquareRoot(sqrt) && i < |tracks|
    ensures |row| == 4
  {
    seq(4, k requires 0 <= k < 4 => Standardize(ColumnValues(tracks, NumericFields[k]), sqrt)[i])
  }

  /** Row `i` of the matrix: its genre indicators, its language indicators and
      its standardised numeric values. */
  function FeatureRow(tracks: seq<Track>, sqrt: real -> real, i: nat): seq<real>
    requires IsSquareRoot(sqrt) && i < |tracks|
  {
    OneHot(Vocabulary.Build(Genres(tracks)), tracks[i].genre)
    + OneHot(Vocabulary.Build(Languages(tracks)), tracks[i].language)
    + NumericRow(tracks, sqrt, i)
  }

  /** Which label sits at column `j`: a genre, then a language, then a numeric field. */
  lemma LayoutAt(tracks: seq<Track>, j: nat)
    ensures var g := Vocabulary.Build(Genres(tracks));
      var l := Vocabulary.Build(Languages(tracks));
      && |Layout(tracks)| == |g| + |l| + 4
      && (j < |g| ==> Layout(tracks)[j] == GenreColumn(g[j]))
      && (|g| <= j < |g| + |l| ==> Layout(tracks)[j] == LanguageColumn(l[j - |g|]))
      && (|g| + |l| <= j < |g| + |l| + 4 ==>
            Layout(tracks)[j] == NumericColumn(NumericFields[j - |g| - |l|]))
  {
    var g := Vocabulary.Build(Genres(tracks));
    var l := Vocabulary.Build(Languages(tracks));
    var gs, ls, ns := GenreLabels(g), LanguageLabels(l), NumericLabels;
    assert Layout(tracks) == gs + ls + ns;
    if j < |g| {
      assert Layout(tracks)[j] == gs[j];
    } else if j < |g| + |l| {
      assert Layout(tracks)[j] == ls[j - |g|];
    } else if j < |g| + |l| + 4 {
      assert Layout(tracks)[j] == ns[j - |g| - |l|];
    }
  }

  /** Cell `j` of row `i` holds what its column's label says it should. */
  lemma FeatureRowCell(tracks: seq<Track>, sqrt: real -> real, i: nat, j: nat)
    requires IsSquareRoot(sqrt) && i < |tracks|
    ensures |FeatureRow(tracks, sqrt, i)| == |Layout(tracks)|
    ensures j < |Layout(tracks)| ==>
      FeatureRow(tracks, sqrt, i)[j] == Cell(tracks, i, Layout(tracks)[j], sqrt)
  {
    var g := Vocabulary.Build(Genres(tracks));
    var l := Vocabulary.Build(Languages(tracks));
    var gh, lh, nr := OneHot(g, tracks[i].genre), OneHot(l, tracks[i].language), NumericRow(tracks, sqrt, i);
    var row := FeatureRow(tracks, sqrt, i);
    assert row == gh + lh + nr;
    LayoutAt(tracks, j);
    if j < |g| {
      assert row[j] == gh[j];
    } else if j < |g| + |l| {
      assert row[j] == lh[j - |g|];
    } else if j < |g| + |l| + 4 {
      assert row[j] == nr[j - |g| - |l|];
    }
  }

  lemma FeatureRowCells(tracks: seq<Track>, sqrt: real -> real, i: nat)
    requires IsSquareRoot(sqrt) && i < |tracks|
    ensures |FeatureRow(tracks, sqrt, i)| == |Layout(tracks)|
    ensures forall j :: 0 <= j < |Layout(tracks)| ==>
      FeatureRow(tracks, sqrt, i)[j] == Cell(tracks, i, Layout(tracks)[j], sqrt)
  {
    FeatureRowCell(tracks, sqrt, i, 0);
    forall j | 0 <= j < |Layout(tracks)|
      ensures FeatureRow(tracks, sqrt, i)[j] == Cell(tracks, i, Layout(tracks)[j], sqrt)
    {
      FeatureRowCell(tracks, sqrt, i, j);
    }
  }

  /** `build_feature_matrix`. */
  function BuildFeatureMatrix(tracks: seq<Track>, sqrt: real -> real): (r: Result<FeatureMatrix, RecommendError>)
    requires IsSquareRoot(sqrt)
    ensures r.Err? <==> |tracks| == 0
    ensures r.Err? ==> r.error == EmptyDataset
    ensures r.Ok? ==> r.value.columns == Layout(tracks)
    ensures r.Ok? ==> |r.value.rows| == |tracks|
    ensures r.Ok? ==> forall i :: 0 <= i < |tracks| ==> |r.value.rows[i]| == |r.value.columns|
    ensures r.Ok? ==> forall i, j :: 0 <= i < |tracks| && 0 <= j < |r.value.columns| ==>
              r.value.rows[i][j] == Cell(tracks, i, r.value.columns[j], sqrt)
  {
    if |tracks| == 0 then Err(EmptyDataset)
    else
      var rows := seq(|tracks|, i requires 0 <= i < |tracks| => FeatureRow(tracks, sqrt, i));
      forall i | 0 <= i < |tracks|
        ensures |rows[i]| == |Layout(tracks)|
        ensures forall j :: 0 <= j < |Layout(tracks)| ==> rows[i][j] == Cell(tracks, i, Layout(tracks)[j], sqrt)
      {
        assert rows[i] == FeatureRow(tracks, sqrt, i);
        FeatureRowCells(tracks, sqrt, i);
      }
      Ok(FeatureMatrix(Layout(tracks), rows))
  }

  /** A one-hot block over a vocabulary that contains the value holds exactly
      one 1, at the value's own column, and 0 everywhere else. */
  lemma OneHotExactlyOne(vocab: seq<string>, value: string)
    requires Vocabulary.StrictlySorted(vocab) && value in vocab
    ensures var r := OneHot(vocab, value);
      var k := Vocabulary.IndexOf(vocab, value);
      && r[k] == 1.0
      && (forall j :: 0 <= j < |r| && j != k ==> r[j] == 0.0)
      && Sum(r) == 1.0
  {
    var r := OneHot(vocab, value);
    var k := Vocabulary.IndexOf(vocab, value);
    SumOfIndicator(r, k);
  }

  lemma {:induction false} SumOfIndicator(r: seq<real>, k: nat)
    requires k < |r| && r[k] == 1.0
    requires forall j :: 0 <= j < |r| && j != k ==> r[j] == 0.0
    ensures Sum(r) == 1.0
  {
    if k == 0 {
      SumOfZeros(r[1..]);
    } else {
      SumOfIndicator(r[1..], k - 1);
    }
  }

  lemma {:induction false} SumOfZeros(r: seq<real>)
    requires forall j :: 0 <= j < |r| ==> r[j] == 0.0
    ensures Sum(r) == 0.0
  {
    if |r| > 0 {
      SumOfZeros(r[1..]);
    }
  }

  /** Row i of the matrix is the row `FeatureRow` lays out. */
  lemma RowIsFeatureRow(tracks: seq<Track>, sqrt: real -> real, i: nat)
    requires IsSquareRoot(sqrt) && i < |tracks|
    ensures BuildFeatureMatrix(tracks, sqrt).Ok?
    ensures BuildFeatureMatrix(tracks, sqrt).value.rows[i] == FeatureRow(tracks, sqrt, i)
  {
  }

  /** The genre vocabulary holds exactly the genres that occur in the dataset. */
  lemma GenreVocabulary(tracks: seq<Track>)
    ensures forall x :: x in Vocabulary.Build(Genres(tracks)) <==>
      exists t :: 0 <= t < |tracks| && tracks[t].genre == x
  {
    var g := Vocabulary.Build(Genres(tracks));
    forall x
      ensures x in g <==> exists t :: 0 <= t < |tracks| && tracks[t].genre == x
    {
      if x in g {
        var t :| 0 <= t < |tracks| && Genres(tracks)[t] == x;
      }
      if exists t :: 0 <= t < |tracks| && tracks[t].genre == x {
        var t :| 0 <= t < |tracks| && tracks[t].genre == x;
        assert Genres(tracks)[t] == x;
      }
    }
  }

  /** The language vocabulary holds exactly the languages that occur in the dataset. */
  lemma LanguageVocabulary(tracks: seq<Track>)
    ensures forall x :: x in Vocabulary.Build(Languages(tracks)) <==>
      exists t :: 0 <= t < |tracks| && tracks[t].language == x
  {
    var l := Vocabulary.Build(Languages(tracks));
    forall x
      ensures x in l <==> exists t :: 0 <= t < |tracks| && tracks[t].language == x
    {
      if x in l {
        var t :| 0 <= t < |tracks| && Languages(tracks)[t] == x;
      }
      if exists t :: 0 <= t < |tracks| && tracks[t].language == x {
        var t :| 0 <= t < |tracks| && tracks[t].language == x;
        assert Languages(tracks)[t] == x;
      }
    }
  }

  /** The first |g| columns are labelled by the genres, in vocabulary order. */
  lemma GenreColumns(tracks: seq<Track>)
    ensures var g := Vocabulary.Build(Genres(tracks));
      && |Layout(tracks)| >= |g|
      && forall j :: 0 <= j < |g| ==> Layout(tracks)[j] == GenreColumn(g[j])
  {
    var g := Vocabulary.Build(Genres(tracks));
    var gs := GenreLabels(g);
    var rest := LanguageLabels(Vocabulary.Build(Languages(tracks))) + NumericLabels;
    assert Layout(tracks) == gs + rest;
    forall j | 0 <= j < |g|
      ensures Layout(tracks)[j] == GenreColumn(g[j])
    {
      assert (gs + rest)[j] == gs[j];
    }
  }

  /** The next |l| columns are labelled by the languages, in vocabulary order. */
  lemma LanguageColumns(tracks: seq<Track>)
    ensures var g := Vocabulary.Build(Genres(tracks));
      var l := Vocabulary.Build(Languages(tracks));
      && |Layout(tracks)| >= |g| + |l|
      && forall j :: 0 <= j < |l| ==> Layout(tracks)[|g| + j] == LanguageColumn(l[j])
  {
    var g := Vocabulary.Build(Genres(tracks));
    var l := Vocabulary.Build(Languages(tracks));
    var gs, ls, ns := GenreLabels(g), LanguageLabels(l), NumericLabels;
    forall j | 0 <= j < |l|
      ensures Layout(tracks)[|g| + j] == LanguageColumn(l[j])
    {
      MiddleAt(gs, ls, ns, j);
    }
  }

  /** The genre block of row i: one column per distinct genre of the dataset,
      in ascending order, and exactly one 1 in it, under the row's own genre. */
  lemma GenreBlock(tracks: seq<Track>, sqrt: real -> real, i: nat)
    requires IsSquareRoot(sqrt) && i < |tracks|
    ensures var m := BuildFeatureMatrix(tracks, sqrt).value;
      var g := Vocabulary.Build(Genres(tracks));
      && Vocabulary.StrictlySorted(g)
      && (forall x :: x in g <==> exists t :: 0 <= t < |tracks| && tracks[t].genre == x)
      && |m.rows[i]| >= |g|
      && (forall j :: 0 <= j < |g| ==> m.columns[j] == GenreColumn(g[j]))
      && m.rows[i][..|g|] == OneHot(g, tracks[i].genre)
      && tracks[i].genre in g
      && m.rows[i][Vocabulary.IndexOf(g, tracks[i].genre)] == 1.0
      && (forall j :: 0 <= j < |g| && g[j] != tracks[i].genre ==> m.rows[i][j] == 0.0)
      && Sum(m.rows[i][..|g|]) == 1.0
  {
    var m := BuildFeatureMatrix(tracks, sqrt).value;
    var g := Vocabulary.Build(Genres(tracks));
    var gh := OneHot(g, tracks[i].genre);
    GenreVocabulary(tracks);
    GenreColumns(tracks);
    RowIsFeatureRow(tracks, sqrt, i);
    ThreeParts(gh, OneHot(Vocabulary.Build(Languages(tracks)), tracks[i].language), NumericRow(tracks, sqrt, i));
    assert m.rows[i][..|g|] == gh;
    assert Genres(tracks)[i] == tracks[i].genre;
    OneHotExactlyOne(g, tracks[i].genre);
    forall j | 0 <= j < |g|
      ensures m.rows[i][j] == gh[j]
    {
      assert m.rows[i][..|g|][j] == m.rows[i][j];
    }
  }

  /** The language block of row i, laid out like the genre block and placed
      right after it. */
  lemma LanguageBlock(tracks: seq<Track>, sqrt: real -> real, i: nat)
    requires IsSquareRoot(sqrt) && i < |tracks|
    ensures var m := BuildFeatureMatrix(tracks, sqrt).value;
      var g := Vocabulary.Build(Genres(tracks));
      var l := Vocabulary.Build(Languages(tracks));
      && Vocabulary.StrictlySorted(l)
      && (forall x :: x in l <==> exists t :: 0 <= t < |tracks| && tracks[t].language == x)
      && |m.rows[i]| >= |g| + |l|
      && (forall j :: 0 <= j < |l| ==> m.columns[|g| + j] == LanguageColumn(l[j]))
      && m.rows[i][|g|..|g| + |l|] == OneHot(l, tracks[i].language)
      && Sum(m.rows[i][|g|..|g| + |l|]) == 1.0
  {
    var m := BuildFeatureMatrix(tracks, sqrt).value;
    var g := Vocabulary.Build(Genres(tracks));
    var l := Vocabulary.Build(Languages(tracks));
    var lh := OneHot(l, tracks[i].language);
    LanguageVocabulary(tracks);
    LanguageColumns(tracks);
    RowIsFeatureRow(tracks, sqrt, i);
    ThreeParts(OneHot(g, tracks[i].genre), lh, NumericRow(tracks, sqrt, i));
    assert m.rows[i][|g|..|g| + |l|] == lh;
    assert Languages(tracks)[i] == tracks[i].language;
    OneHotExactlyOne(l, tracks[i].language);
  }

  /** Column j of the matrix, read down the rows. */
  function ColumnAt(m: FeatureMatrix, j: nat): (col: seq<real>)
    requires forall i :: 0 <= i < |m.rows| ==> j < |m.rows[i]|
    ensures |col| == |m.rows|
  {
    seq(|m.rows|, i requires 0 <= i < |m.rows| => m.rows[i][j])
  }

  lemma NumericColumnLabel(tracks: seq<Track>, k: nat)
    requires k < 4
    ensures |Layout(tracks)| >= 4
    ensures Layout(tracks)[|Layout(tracks)| - 4 + k] == NumericColumn(NumericFields[k])
  {
    var g := GenreLabels(Vocabulary.Build(Genres(tracks)));
    var l := LanguageLabels(Vocabulary.Build(Languages(tracks)));
    var nums := NumericLabels;
    assert Layout(tracks) == g + l + nums;
    assert Layout(tracks)[|g| + |l| + k] == nums[k];
  }

  /** The last four columns are Duration_Sec, Popularity_Score, Stream_Count and
      Release_Year, each standardised over the whole dataset: it sums to zero,
      it is all zeros when the raw column is constant, and it has variance 1
      otherwise. */
  lemma NumericBlock(tracks: seq<Track>, sqrt: real -> real, k: nat)
    requires IsSquareRoot(sqrt) && |tracks| > 0 && k < 4
    ensures var m := BuildFeatureMatrix(tracks, sqrt).value;
      var j := |m.columns| - 4 + k;
      var raw := ColumnValues(tracks, NumericFields[k]);
      && |m.columns| >= 4
      && m.columns[j] == NumericColumn(NumericFields[k])
      && (forall i :: 0 <= i < |m.rows| ==> j < |m.rows[i]|)
      && ColumnAt(m, j) == Standardize(raw, sqrt)
      && Sum(ColumnAt(m, j)) == 0.0
      && (Variance(raw) == 0.0 ==> forall i :: 0 <= i < |tracks| ==> m.rows[i][j] == 0.0)
      && (Variance(raw) > 0.0 ==> Variance(ColumnAt(m, j)) == 1.0)
  {
    var m := BuildFeatureMatrix(tracks, sqrt).value;
    NumericColumnLabel(tracks, k);
    var j := |m.columns| - 4 + k;
    var raw := ColumnValues(tracks, NumericFields[k]);
    var z := Standardize(raw, sqrt);
    assert m.columns[j] == NumericColumn(NumericFields[k]);
    forall i | 0 <= i < |tracks|
      ensures m.rows[i][j] == z[i]
    {
      assert m.rows[i][j] == Cell(tracks, i, m.columns[j], sqrt);
    }
    assert ColumnAt(m, j) == z;
    StandardizeCentred(raw, sqrt);
    if Variance(raw) > 0.0 {
      StandardizeUnitVariance(raw, sqrt);
    }
    MeanZeroSum(z);
  }

  /** Row i is derived from track i alone, given the dataset-wide vocabularies
      and statistics: two tracks that agree on every feature attribute get the
      same feature vector, whatever their ids, names or artists. */
  lemma RowsFollowAttributes(tracks: seq<Track>, sqrt: real -> real, a: nat, b: nat)
    requires IsSquareRoot(sqrt) && a < |tracks| && b < |tracks|
    requires tracks[a].genre == tracks[b].genre && tracks[a].language == tracks[b].language
    requires forall f: NumericField :: FieldValue(tracks[a], f) == FieldValue(tracks[b], f)
    ensures var m := BuildFeatureMatrix(tracks, sqrt).value; m.rows[a] == m.rows[b]
  {
    var m := BuildFeatureMatrix(tracks, sqrt).value;
    forall j | 0 <= j < |m.columns|
      ensures m.rows[a][j] == m.rows[b][j]
    {
      match m.columns[j]
      case GenreColumn(_) =>
      case LanguageColumn(_) =>
      case NumericColumn(f) =>
        var raw := ColumnValues(tracks, f);
        var z := Standardize(raw, sqrt);
        var s := Scale(raw, sqrt);
        assert z[a] * s + Mean(raw) == z[b] * s + Mean(raw);
        RealArith.MulCancel(z[a], z[b], s);
    }
  }

  /** No feature vector is zero: the genre and language indicators alone give
      it squared length at least 1. */
  lemma RowNonZero(tracks: seq<Track>, sqrt: real -> real, i: nat)
    requires IsSquareRoot(sqrt) && i < |tracks|
    ensures var m := BuildFeatureMatrix(tracks, sqrt).value; Dot(m.rows[i], m.rows[i]) >= 1.0
  {
    var m := BuildFeatureMatrix(tracks, sqrt).value;
    GenreBlock(tracks, sqrt, i);
    var g := Vocabulary.Build(Genres(tracks));
    DotSelfAtLeastOne(m.rows[i], Vocabulary.IndexOf(g, tracks[i].genre));
  }

  /** The position of the first row whose Track_ID is `id`: the first entry of
      `df.index[df["Track_ID"] == track_id]`, read as a position. */
  function FindTrack(tracks: seq<Track>, id: int): (r: Option<nat>)
    ensures r.None? <==> forall i :: 0 <= i < |tracks| ==> tracks[i].trackId != id
    ensures r.Some? ==> r.value < |tracks| && tracks[r.value].trackId == id
    ensures r.Some? ==> forall i :: 0 <= i < r.value ==> tracks[i].trackId != id
  {
    FindFirst(tracks, HasId(id))
  }

  function HasId(id: int): Track -> bool
  {
    (t: Track) => t.trackId == id
  }

  function SimilarityOf(s: Scored): real
  {
    s.similarity
  }

  /** Every row with its cosine similarity to the seed row, in dataset order:
      `df` with the `similarity` column written in. */
  function ScoredRows(tracks: seq<Track>, seed: nat, sqrt: real -> real): (scored: seq<Scored>)
    requires IsSquareRoot(sqrt) && seed < |tracks|
    ensures |scored| == |tracks|
    ensures forall i :: 0 <= i < |tracks| ==> scored[i].track == tracks[i]
    ensures forall i :: 0 <= i < |tracks| ==> -1.0 <= scored[i].similarity <= 1.0
    ensures scored[seed].similarity == 1.0
  {
    var m := BuildFeatureMatrix(tracks, sqrt).value;
    RowNonZero(tracks, sqrt, seed);
    CosineSelf(m.rows[seed], sqrt);
    seq(|tracks|, i requires 0 <= i < |tracks| =>
      Scored(tracks[i], Cosine(m.rows[i], m.rows[seed], sqrt)))
  }

  /** All rows in non-increasing order of similarity to the seed. */
  function Ranked(tracks: seq<Track>, seed: nat, sqrt: real -> real): (ranked: seq<Scored>)
    requires IsSquareRoot(sqrt) && seed < |tracks|
    ensures |ranked| == |tracks|
    ensures IsRanking(ranked, ScoredRows(tracks, seed, sqrt), SimilarityOf)
  {
    Sort(ScoredRows(tracks, seed, sqrt), SimilarityOf)
  }

  /** `recommend(track_id, df, top_n)`: rank every row by similarity to the seed,
      drop the first-ranked row and keep the next `top_n`
      (`iloc[1:top_n+1]`). */
  function Recommend(trackId: int, tracks: seq<Track>, topN: int, sqrt: real -> real)
    : (r: Result<seq<Scored>, RecommendError>)
    requires IsSquareRoot(sqrt)
    ensures |tracks| == 0 ==> r == Err(EmptyDataset)
    ensures |tracks| > 0 ==>
      (r == Err(TrackNotFound) <==> forall i :: 0 <= i < |tracks| ==> tracks[i].trackId != trackId)
    ensures |tracks| > 0 && (exists i :: 0 <= i < |tracks| && tracks[i].trackId == trackId) ==> r.Ok?
    ensures r.Ok? && topN >= 0 ==>
      |r.value| == if topN < |tracks| - 1 then topN else |tracks| - 1
    ensures r.Ok? ==> SortedDesc(r.value, SimilarityOf)
    ensures r.Ok? ==> forall k :: 0 <= k < |r.value| ==>
      r.value[k].track in tracks && -1.0 <= r.value[k].similarity <= 1.0
  {
    if |tracks| == 0 then Err(EmptyDataset)
    else
      match FindTrack(tracks, trackId)
      case None => Err(TrackNotFound)
      case Some(seed) =>
        var recs := Slice(Ranked(tracks, seed, sqrt), 1, topN + 1);
        SlicedRowsFromInput(tracks, seed, sqrt, topN);
        Ok(recs)
  }

  lemma SlicedRowsFromInput(tracks: seq<Track>, seed: nat, sqrt: real -> real, topN: int)
    requires IsSquareRoot(sqrt) && seed < |tracks|
    ensures var recs := Slice(Ranked(tracks, seed, sqrt), 1, topN + 1);
      && (topN >= 0 ==> |recs| == if topN < |tracks| - 1 then topN else |tracks| - 1)
      && SortedDesc(recs, SimilarityOf)
      && forall k :: 0 <= k < |recs| ==> recs[k].track in tracks && -1.0 <= recs[k].similarity <= 1.0
  {
    var ranked := Ranked(tracks, seed, sqrt);
    var recs := Slice(ranked, 1, topN + 1);
    RankedRowsFromInput(tracks, seed, sqrt);
    SliceOfSorted(ranked, 1, topN + 1, SimilarityOf);
    if topN >= 0 {
      SliceFromOneLength(ranked, topN);
    }
    forall k | 0 <= k < |recs|
      ensures recs[k].track in tracks && -1.0 <= recs[k].similarity <= 1.0
    {
      SliceAt(ranked, 1, topN + 1, k);
    }
  }

  lemma RankedRowsFromInput(tracks: seq<Track>, seed: nat, sqrt: real -> real)
    requires IsSquareRoot(sqrt) && seed < |tracks|
    ensures forall k :: 0 <= k < |Ranked(tracks, seed, sqrt)| ==>
      Ranked(tracks, seed, sqrt)[k] in ScoredRows(tracks, seed, sqrt)
    ensures forall k :: 0 <= k < |Ranked(tracks, seed, sqrt)| ==>
      Ranked(tracks, seed, sqrt)[k].track in tracks &&
      -1.0 <= Ranked(tracks, seed, sqrt)[k].similarity <= 1.0
  {
    var ranked := Ranked(tracks, seed, sqrt);
    var scored := ScoredRows(tracks, seed, sqrt);
    forall k | 0 <= k < |ranked|
      ensures ranked[k] in scored
      ensures ranked[k].track in tracks && -1.0 <= ranked[k].similarity <= 1.0
    {
      assert ranked[k] in multiset(ranked);
      var i :| 0 <= i < |scored| && scored[i] == ranked[k];
    }
  }

  /** When the seed is found, the result is the Python slice `[1:top_n+1]` of
      the ranking, which holds one row per input row. */
  lemma RecommendIsSlice(trackId: int, tracks: seq<Track>, topN: int, sqrt: real -> real)
    requires IsSquareRoot(sqrt)
    requires |tracks| > 0 && FindTrack(tracks, trackId).Some?
    ensures var ranked := Ranked(tracks, FindTrack(tracks, trackId).value, sqrt);
      && |ranked| == |tracks|
      && Recommend(trackId, tracks, topN, sqrt) == Ok(Slice(ranked, 1, topN + 1))
  {
  }

  /** Whatever order pandas gives tied similarities, the result is the slice
      `[1:top_n+1]` of an ordering of all rows that is non-increasing in
      similarity. */
  lemma RecommendSlicesARanking(trackId: int, tracks: seq<Track>, topN: int, sqrt: real -> real)
    requires IsSquareRoot(sqrt)
    requires FindTrack(tracks, trackId).Some?
    ensures exists other: seq<Scored> ::
      && IsRanking(other, ScoredRows(tracks, FindTrack(tracks, trackId).value, sqrt), SimilarityOf)
      && Recommend(trackId, tracks, topN, sqrt) == Ok(Slice(other, 1, topN + 1))
  {
    var ranked := Ranked(tracks, FindTrack(tracks, trackId).value, sqrt);
    RecommendIsSlice(trackId, tracks, topN, sqrt);
    assert IsRanking(ranked, ScoredRows(tracks, FindTrack(tracks, trackId).value, sqrt), SimilarityOf);
  }

  /** The row that `iloc[1:]` drops is the first-ranked one, and it is exactly as
      similar to the seed as the seed is to itself; for `top_n >= 0` the result
      is the next `top_n` rows of the ranking. Exclusion is by rank position,
      not by Track_ID. */
  lemma RecommendDropsFirstRanked(trackId: int, tracks: seq<Track>, topN: int, sqrt: real -> real)
    requires IsSquareRoot(sqrt)
    requires |tracks| > 0 && FindTrack(tracks, trackId).Some?
    ensures var seed := FindTrack(tracks, trackId).value;
      var ranked := Ranked(tracks, seed, sqrt);
      && |ranked| == |tracks|
      && ranked[0].similarity == 1.0
      && multiset(ranked[1..]) + multiset{ranked[0]} == multiset(ScoredRows(tracks, seed, sqrt))
      && (topN >= 0 ==> Recommend(trackId, tracks, topN, sqrt) == Ok(Head(ranked[1..], topN)))
  {
    var seed := FindTrack(tracks, trackId).value;
    var ranked := Ranked(tracks, seed, sqrt);
    var scored := ScoredRows(tracks, seed, sqrt);
    RecommendIsSlice(trackId, tracks, topN, sqrt);
    DropFirstRanked(ranked, scored, SimilarityOf, topN);
    RankedRowsFromInput(tracks, seed, sqrt);
    assert SimilarityOf(scored[seed]) <= SimilarityOf(ranked[0]) <= 1.0;
  }

  /** pandas may order equal similarities either way; whatever order it picks,
      the similarity column of the result is the same. */
  lemma RecommendTieIndependent(trackId: int, tracks: seq<Track>, topN: int, sqrt: real -> real,
                                other: seq<Scored>)
    requires IsSquareRoot(sqrt)
    requires |tracks| > 0 && FindTrack(tracks, trackId).Some?
    requires IsRanking(other, ScoredRows(tracks, FindTrack(tracks, trackId).value, sqrt), SimilarityOf)
    ensures Recommend(trackId, tracks, topN, sqrt).Ok?
    ensures var recs := Recommend(trackId, tracks, topN, sqrt).value;
      var alt := Slice(other, 1, topN + 1);
      && |alt| == |recs|
      && forall k :: 0 <= k < |recs| ==> alt[k].similarity == recs[k].similarity
  {
    var seed := FindTrack(tracks, trackId).value;
    var ranked := Ranked(tracks, seed, sqrt);
    RecommendIsSlice(trackId, tracks, topN, sqrt);
    SliceKeysDetermined(ranked, other, ScoredRows(tracks, seed, sqrt), SimilarityOf, 1, topN + 1);
  }

  /** `top_n` is not checked: a negative value is a Python slice stop counted
      from the end, so `top_n = -1` gives nothing and `top_n = -2` gives every
      ranked row but the first and the last. */
  lemma RecommendNegativeTopN(trackId: int, tracks: seq<Track>, topN: int, sqrt: real -> real)
    requires IsSquareRoot(sqrt)
    requires |tracks| > 0 && FindTrack(tracks, trackId).Some? && topN < 0
    ensures var ranked := Ranked(tracks, FindTrack(tracks, trackId).value, sqrt);
      var recs := Recommend(trackId, tracks, topN, sqrt);
      && |ranked| == |tracks|
      && (topN == -1 ==> recs == Ok([]))
      && (topN < -1 && |tracks| + topN > 0 ==> recs == Ok(ranked[1..|tracks| + topN + 1]))
      && (topN < -1 && |tracks| + topN <= 0 ==> recs == Ok([]))
  {
    var seed := FindTrack(tracks, trackId).value;
    RecommendIsSlice(trackId, tracks, topN, sqrt);
    SliceFromOneNegative(Ranked(tracks, seed, sqrt), topN + 1);
  }

  /** A track and a twin with the same features are both exactly as similar
      to the track as it is to itself. */
  lemma TwinScores(seed: Track, twin: Track, sqrt: real -> real)
    requires IsSquareRoot(sqrt)
    requires twin.genre == seed.genre && twin.language == seed.language
    requires forall f: NumericField :: FieldValue(twin, f) == FieldValue(seed, f)
    ensures ScoredRows([twin, seed], 1, sqrt) == [Scored(twin, 1.0), Scored(seed, 1.0)]
  {
    var tracks := [twin, seed];
    var m := BuildFeatureMatrix(tracks, sqrt).value;
    RowsFollowAttributes(tracks, sqrt, 0, 1);
    RowNonZero(tracks, sqrt, 1);
    CosineSelf(m.rows[1], sqrt);
  }

  /** On the dataset [twin, seed], every admissible ordering gives both rows
      similarity 1, and the ordering with the seed first is admissible too: it
      drops the seed and recommends the twin. Which of the two rows `iloc[1:]`
      drops is decided by the tie order, not by the Track_ID. */
  lemma TieOrderDecidesExclusion(seed: Track, twin: Track, sqrt: real -> real)
    requires IsSquareRoot(sqrt)
    requires twin.genre == seed.genre && twin.language == seed.language
    requires forall f: NumericField :: FieldValue(twin, f) == FieldValue(seed, f)
    ensures forall other: seq<Scored> :: IsRanking(other, ScoredRows([twin, seed], 1, sqrt), SimilarityOf) ==>
      |other| == 2 && other[0].similarity == 1.0 && other[1].similarity == 1.0
    ensures IsRanking([Scored(seed, 1.0), Scored(twin, 1.0)], ScoredRows([twin, seed], 1, sqrt), SimilarityOf)
    ensures Slice([Scored(seed, 1.0), Scored(twin, 1.0)], 1, 2) == [Scored(twin, 1.0)]
  {
    TwinScores(seed, twin, sqrt);
    TiedPair(Scored(twin, 1.0), Scored(seed, 1.0), SimilarityOf);
    SliceSecond(Scored(seed, 1.0), Scored(twin, 1.0));
  }

  /** Exclusion is by rank position, not by id: when another track with the
      same features comes before the seed in the dataset, it takes the first
      rank, is the row dropped, and the seed itself is recommended. */
  lemma SeedMayBeRecommended(seed: Track, twin: Track, sqrt: real -> real)
    requires IsSquareRoot(sqrt)
    requires twin.trackId != seed.trackId
    requires twin.genre == seed.genre && twin.language == seed.language
    requires forall f: NumericField :: FieldValue(twin, f) == FieldValue(seed, f)
    ensures Recommend(seed.trackId, [twin, seed], 1, sqrt) == Ok([Scored(seed, 1.0)])
  {
    var tracks := [twin, seed];
    assert tracks[0] == twin && tracks[1] == seed;
    assert FindTrack(tracks, seed.trackId) == Some(1);
    TwinScores(seed, twin, sqrt);
    SortTie(Scored(twin, 1.0), Scored(seed, 1.0), SimilarityOf);
    SliceSecond(Scored(twin, 1.0), Scored(seed, 1.0));
    RecommendIsSlice(seed.trackId, tracks, 1, sqrt);
  }
}
