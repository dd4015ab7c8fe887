/** The data logic of the dark-neon Streamlit dashboard: the sidebar filter,
    the top-10-by-popularity table, the two-threshold mood rule and the
    heuristic content-based recommendations panel. */
module Dashboard {
  import opened Results
  import opened Seqs
  import opened Ranking

  /** One row of the dashboard's dataset (the columns its data logic reads). */
  datatype Song = Song(
    trackId: int,
    title: string,
    artist: string,
    genre: string,
    popularity: real,
    durationSec: real,
    danceability: real,
    energy: real,
    acousticness: real,
    valence: real)

  /** The sentinel entry of the artist select box that disables artist filtering. */
  const AnyArtist: string := "All"

  /** The sidebar's settings: the selected genres, the popularity floor and the
      duration range of the two sliders, and the artist choice. */
  datatype FilterSettings = FilterSettings(
    genres: set<string>,
    minPopularity: real,
    minDuration: real,
    maxDuration: real,
    artist: string)

  // ---------------------------------------------------------------------
  // Filters
  // ---------------------------------------------------------------------

  /** The first mask: genre selected, popularity at least the floor, duration
      inside the range with both ends included (`Series.between`). */
  function FirstMask(f: FilterSettings): Song -> bool
  {
    (r: Song) =>
      r.genre in f.genres && r.popularity >= f.minPopularity &&
      f.minDuration <= r.durationSec && r.durationSec <= f.maxDuration
  }

  /** The second mask, applied only when an artist is chosen. */
  function ArtistMask(f: FilterSettings): Song -> bool
  {
    (r: Song) => r.artist == f.artist
  }

  /** The rows `q` the filters are meant to keep, as one condition. */
  predicate Keep(f: FilterSettings, r: Song)
  {
    && r.genre in f.genres
    && r.popularity >= f.minPopularity
    && f.minDuration <= r.durationSec <= f.maxDuration
    && (f.artist == AnyArtist || r.artist == f.artist)
  }

  function KeepMask(f: FilterSettings): Song -> bool
  {
    (r: Song) => Keep(f, r)
  }

  /** The filtered frame `q`: the first mask over the whole dataset, then the
      artist mask unless the artist choice is the sentinel. */
  function ApplyFilters(df: seq<Song>, f: FilterSettings): (q: seq<Song>)
    ensures |q| <= |df|
    ensures forall i :: 0 <= i < |q| ==> q[i] in df && Keep(f, q[i])
    ensures forall i :: 0 <= i < |df| && Keep(f, df[i]) ==> df[i] in q
    ensures forall x :: multiset(q)[x] == if Keep(f, x) then multiset(df)[x] else 0
  {
    var stage := Filter(df, FirstMask(f));
    if f.artist != AnyArtist then Filter(stage, ArtistMask(f)) else stage
  }

  /** The two-stage filter is one pass of the combined condition. */
  lemma FiltersAsOnePass(df: seq<Song>, f: FilterSettings)
    ensures ApplyFilters(df, f) == Filter(df, KeepMask(f))
  {
    if f.artist != AnyArtist {
      FilterFuse(df, FirstMask(f), ArtistMask(f), KeepMask(f));
    } else {
      FilterCongruent(df, FirstMask(f), KeepMask(f));
    }
  }

  /** Filtering keeps the surviving rows in dataset order. */
  lemma FiltersPreserveOrder(df: seq<Song>, f: FilterSettings)
    ensures IsSubsequence(ApplyFilters(df, f), df)
  {
    FiltersAsOnePass(df, f);
    FilterIsSubsequence(df, KeepMask(f));
  }

  /** Filtering the filtered frame again changes nothing. */
  lemma FiltersIdempotent(df: seq<Song>, f: FilterSettings)
    ensures ApplyFilters(ApplyFilters(df, f), f) == ApplyFilters(df, f)
  {
    FiltersAsOnePass(df, f);
    FiltersAsOnePass(ApplyFilters(df, f), f);
    FilterIdempotent(df, KeepMask(f));
  }

  // ---------------------------------------------------------------------
  // Top 10 tracks
  // ---------------------------------------------------------------------

  /** The number of rows in the top-tracks table. */
  const TopCount: nat := 10

  function PopularityOf(r: Song): real
  {
    r.popularity
  }

  /** `q.sort_values("popularity", ascending=False).head(10)`. */
  function TopTracks(q: seq<Song>): (top: seq<Song>)
    ensures |top| == if |q| < TopCount then |q| else TopCount
    ensures forall i :: 0 <= i < |top| ==> top[i] in q
    ensures SortedDesc(top, PopularityOf)
  {
    var ranked := Sort(q, PopularityOf);
    HeadOfRanking(ranked, q, PopularityOf, TopCount);
    forall i | 0 <= i < |Head(ranked, TopCount)|
      ensures Head(ranked, TopCount)[i] in q
    {
      assert Head(ranked, TopCount)[i] in multiset(ranked);
    }
    Head(ranked, TopCount)
  }

  /** No row of `q` that misses the table is more popular than a row in it, and
      the table together with the rows it leaves out is exactly `q`. */
  lemma TopTracksDominate(q: seq<Song>)
    ensures var ranked := Sort(q, PopularityOf);
      var top := TopTracks(q);
      && multiset(top) + multiset(ranked[|top|..]) == multiset(q)
      && forall i, j :: 0 <= i < |top| <= j < |ranked| ==> ranked[j].popularity <= top[i].popularity
  {
    HeadOfRanking(Sort(q, PopularityOf), q, PopularityOf, TopCount);
  }

  /** Whatever order pandas gives rows of equal popularity, the popularity
      column of the table is the same. */
  lemma TopTracksTieIndependent(q: seq<Song>, other: seq<Song>)
    requires IsRanking(other, q, PopularityOf)
    ensures var top := TopTracks(q);
      && |Head(other, TopCount)| == |top|
      && forall i :: 0 <= i < |top| ==> Head(other, TopCount)[i].popularity == top[i].popularity
  {
    HeadKeysDetermined(Sort(q, PopularityOf), other, q, PopularityOf, TopCount);
  }

  // ---------------------------------------------------------------------
  // Mood
  // ---------------------------------------------------------------------

  datatype Mood = Positive | NeutralCalm

  /** The synthetic mood: positive when both valence and energy are above one half. */
  function MoodOf(r: Song): (m: Mood)
    ensures m == Positive <==> r.valence > 0.5 && r.energy > 0.5
    ensures m == NeutralCalm <==> r.valence <= 0.5 || r.energy <= 0.5
  {
    if r.valence > 0.5 && r.energy > 0.5 then Positive else NeutralCalm
  }

  /** Raising valence and energy never turns a positive row neutral, and the
      threshold itself is not positive. */
  lemma MoodMonotone(a: Song, b: Song)
    requires a.valence <= b.valence && a.energy <= b.energy
    ensures MoodOf(a) == Positive ==> MoodOf(b) == Positive
    ensures MoodOf(b) == NeutralCalm ==> MoodOf(a) == NeutralCalm
    ensures b.valence == 0.5 || b.energy == 0.5 ==> MoodOf(a) == NeutralCalm
  {
  }

  /** The number of rows of `q` in mood `m` (`value_counts` of the mood column). */
  function MoodCount(q: seq<Song>, m: Mood): (n: nat)
    ensures n <= |q|
    ensures n == 0 <==> forall i :: 0 <= i < |q| ==> MoodOf(q[i]) != m
  {
    if |q| == 0 then 0
    else
      assert forall i :: 1 <= i < |q| ==> q[i] == q[1..][i - 1];
      (if MoodOf(q[0]) == m then 1 else 0) + MoodCount(q[1..], m)
  }

  /** The two mood slices of the donut chart share out every filtered row. */
  lemma {:induction false} MoodSharesPartition(q: seq<Song>)
    ensures MoodCount(q, Positive) + MoodCount(q, NeutralCalm) == |q|
  {
    if |q| > 0 {
      MoodSharesPartition(q[1..]);
    }
  }

  // ---------------------------------------------------------------------
  // Heuristic recommendations
  // ---------------------------------------------------------------------

  /** The number of rows in the recommendations table. */
  const RecommendationCount: nat := 12

  /** The bonus for sharing the seed's genre. */
  const GenreBonus: real := 2.0

  function Abs(x: real): (a: real)
    ensures a >= 0.0 && (a == 0.0 <==> x == 0.0)
  {
    if x < 0.0 then -x else x
  }

  /** The summed absolute differences in the four audio features. */
  function FeatureDistance(a: Song, b: Song): (d: real)
    ensures d >= 0.0
    ensures d == 0.0 <==>
      a.danceability == b.danceability && a.energy == b.energy &&
      a.acousticness == b.acousticness && a.valence == b.valence
  {
    Abs(a.danceability - b.danceability) + Abs(a.energy - b.energy) +
    Abs(a.acousticness - b.acousticness) + Abs(a.valence - b.valence)
  }

  /** `score_row`: the genre bonus, minus the popularity gap over a hundred,
      minus the audio-feature distance. It never exceeds the bonus, reaches it
      exactly on a row that matches the seed in genre and in all five numbers,
      and is never positive for another genre. */
  function Score(seed: Song, r: Song): (s: real)
    ensures s <= GenreBonus
    ensures r.genre != seed.genre ==> s <= 0.0
    ensures s == GenreBonus <==>
      && r.genre == seed.genre && r.popularity == seed.popularity
      && r.danceability == seed.danceability && r.energy == seed.energy
      && r.acousticness == seed.acousticness && r.valence == seed.valence
  {
    (if r.genre == seed.genre then GenreBonus else 0.0)
    - Abs(r.popularity - seed.popularity) / 100.0
    - FeatureDistance(r, seed)
  }

  /** The seed scores the full bonus, so no row scores higher than the seed. */
  lemma ScoreSeedIsMaximal(seed: Song, r: Song)
    ensures Score(seed, seed) == GenreBonus
    ensures Score(seed, r) <= Score(seed, seed)
  {
  }

  /** The score is symmetric in the seed and the candidate. */
  lemma ScoreSymmetric(a: Song, b: Song)
    ensures Score(a, b) == Score(b, a)
  {
    AbsSymmetric(a.popularity, b.popularity);
    FeatureDistanceSymmetric(a, b);
  }

  lemma AbsSymmetric(x: real, y: real)
    ensures Abs(x - y) == Abs(y - x)
  {
  }

  lemma FeatureDistanceSymmetric(a: Song, b: Song)
    ensures FeatureDistance(a, b) == FeatureDistance(b, a)
  {
    AbsSymmetric(a.danceability, b.danceability);
    AbsSymmetric(a.energy, b.energy);
    AbsSymmetric(a.acousticness, b.acousticness);
    AbsSymmetric(a.valence, b.valence);
  }

  function ScoreBy(seed: Song): Song -> real
  {
    (r: Song) => Score(seed, r)
  }

  function NotId(id: int): Song -> bool
  {
    (r: Song) => r.trackId != id
  }

  function HasId(id: int): Song -> bool
  {
    (r: Song) => r.trackId == id
  }

  datatype DashboardError = SeedNotFound

  /** `df[df['track_id'] == seed_track].iloc[0]`: the first row of the full
      dataset with the chosen id, or an error when none has it. */
  function FindSeed(df: seq<Song>, id: int): (r: Result<Song, DashboardError>)
    ensures r.Err? <==> forall i :: 0 <= i < |df| ==> df[i].trackId != id
    ensures r.Ok? ==> r.value.trackId == id
    ensures r.Ok? ==>
      (exists k :: 0 <= k < |df| && df[k] == r.value && forall i :: 0 <= i < k ==> df[i].trackId != id)
  {
    match FindFirst(df, HasId(id))
    case None => Err(SeedNotFound)
    case Some(k) => Ok(df[k])
  }

  /** The recommendations panel: sort the FULL dataset by score, drop every row
      carrying the seed's id, keep the first twelve. */
  function Recommendations(df: seq<Song>, seedId: int): (r: Result<seq<Song>, DashboardError>)
    ensures r.Err? <==> FindSeed(df, seedId).Err?
    ensures r.Ok? ==> forall i :: 0 <= i < |r.value| ==>
      r.value[i] in df && r.value[i].trackId != seedId
    ensures r.Ok? ==> SortedDesc(r.value, ScoreBy(FindSeed(df, seedId).value))
    ensures r.Ok? ==>
      (var others := |Filter(df, NotId(seedId))|;
       |r.value| == if others < RecommendationCount then others else RecommendationCount)
  {
    match FindSeed(df, seedId)
    case Err(e) => Err(e)
    case Ok(seed) =>
      PanelOfCandidates(df, seed, seedId);
      Ok(Head(Filter(Sort(df, ScoreBy(seed)), NotId(seedId)), RecommendationCount))
  }

  /** The first twelve candidates come from the dataset, carry another id, are
      in non-increasing score, and are as many as there are such rows, up to twelve. */
  lemma PanelOfCandidates(df: seq<Song>, seed: Song, seedId: int)
    ensures var recs := Head(Filter(Sort(df, ScoreBy(seed)), NotId(seedId)), RecommendationCount);
      var others := |Filter(df, NotId(seedId))|;
      && (forall i :: 0 <= i < |recs| ==> recs[i] in df && recs[i].trackId != seedId)
      && SortedDesc(recs, ScoreBy(seed))
      && |recs| == if others < RecommendationCount then others else RecommendationCount
  {
    var candidates := Filter(Sort(df, ScoreBy(seed)), NotId(seedId));
    var recs := Head(candidates, RecommendationCount);
    CandidatesRanked(df, seed, seedId);
    HeadOfRanking(candidates, Filter(df, NotId(seedId)), ScoreBy(seed), RecommendationCount);
    forall i | 0 <= i < |recs|
      ensures recs[i] in df && recs[i].trackId != seedId
    {
      assert recs[i] == candidates[i];
    }
  }

  /** The score-sorted dataset without the seed's id ranks exactly the rows
      of the dataset without that id. */
  lemma CandidatesRanked(df: seq<Song>, seed: Song, seedId: int)
    ensures var candidates := Filter(Sort(df, ScoreBy(seed)), NotId(seedId));
      && IsRanking(candidates, Filter(df, NotId(seedId)), ScoreBy(seed))
      && |candidates| == |Filter(df, NotId(seedId))|
      && forall i :: 0 <= i < |candidates| ==> candidates[i] in df && candidates[i].trackId != seedId
  {
    var ranked := Sort(df, ScoreBy(seed));
    var candidates := Filter(ranked, NotId(seedId));
    FilterRanking(ranked, df, ScoreBy(seed), NotId(seedId));
    assert |candidates| == |multiset(candidates)| == |multiset(Filter(df, NotId(seedId)))|;
    forall i | 0 <= i < |candidates|
      ensures candidates[i] in df
    {
      assert candidates[i] in multiset(ranked);
    }
  }

  /** Among the rows whose id differs from the seed's, none left out of the
      panel scores above one shown in it, and the shown and the left-out rows
      together are exactly those rows. */
  lemma RecommendationsDominate(df: seq<Song>, seedId: int)
    requires FindSeed(df, seedId).Ok?
    ensures var seed := FindSeed(df, seedId).value;
      var candidates := Filter(Sort(df, ScoreBy(seed)), NotId(seedId));
      var recs := Recommendations(df, seedId).value;
      && recs == Head(candidates, RecommendationCount)
      && multiset(recs) + multiset(candidates[|recs|..]) == multiset(Filter(df, NotId(seedId)))
      && forall i, j :: 0 <= i < |recs| <= j < |candidates| ==>
           Score(seed, candidates[j]) <= Score(seed, recs[i])
  {
    var seed := FindSeed(df, seedId).value;
    var ranked := Sort(df, ScoreBy(seed));
    FilterRanking(ranked, df, ScoreBy(seed), NotId(seedId));
    HeadOfRanking(Filter(ranked, NotId(seedId)), Filter(df, NotId(seedId)), ScoreBy(seed), RecommendationCount);
  }

  /** Whatever order pandas gives rows of equal score, the score column of the
      panel is the same. */
  lemma RecommendationsTieIndependent(df: seq<Song>, seedId: int, other: seq<Song>)
    requires FindSeed(df, seedId).Ok?
    requires IsRanking(other, df, ScoreBy(FindSeed(df, seedId).value))
    ensures var seed := FindSeed(df, seedId).value;
      var alt := Head(Filter(other, NotId(seedId)), RecommendationCount);
      var recs := Recommendations(df, seedId).value;
      && |alt| == |recs|
      && forall i :: 0 <= i < |recs| ==> Score(seed, alt[i]) == Score(seed, recs[i])
  {
    var seed := FindSeed(df, seedId).value;
    var ranked := Sort(df, ScoreBy(seed));
    FilterRanking(ranked, df, ScoreBy(seed), NotId(seedId));
    FilterRanking(other, df, ScoreBy(seed), NotId(seedId));
    HeadKeysDetermined(Filter(ranked, NotId(seedId)), Filter(other, NotId(seedId)),
                       Filter(df, NotId(seedId)), ScoreBy(seed), RecommendationCount);
  }
}
