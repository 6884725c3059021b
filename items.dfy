/**
 * The data the newsletter collects: raw Jellyfin items (JSON objects read key by key),
 * Python dictionaries with their insertion order, and the per-series and per-movie records
 * that main.py builds for the email template.
 */
module Items {
  import opened Wrappers
  import Tmdb

  /**
   * A Jellyfin item as main.py reads it. None stands for a key the JSON object lacks
   * (indexing it raises KeyError). `DateCreated` also distinguishes a null value, because
   * main.py stores None there itself and tests for it.
   */
  datatype Item = Item(
    id: Option<string>,             // "Id"
    name: Option<string>,           // "Name"
    itemType: Option<string>,       // "Type"
    seriesId: Option<string>,       // "SeriesId"
    seriesName: Option<string>,     // "SeriesName"
    seasonName: Option<string>,     // "SeasonName"
    indexNumber: Option<int>,       // item.get("IndexNumber")
    dateCreated: Field<string>,     // "DateCreated"
    productionYear: Option<int>,    // "ProductionYear"
    tmdbId: Option<string>)         // item["ProviderIds"]["Tmdb"], when both keys exist

  /** A Python dict with string keys: its entries and the order in which the keys were first inserted. */
  datatype Dict<V> = Dict(order: seq<string>, entries: map<string, V>) {
    ghost predicate Valid() {
      && (forall i, j :: 0 <= i < j < |order| ==> order[i] != order[j])
      && (forall k :: k in entries <==> k in order)
    }

    /** `d[k] = v`: a new key goes to the end, an existing key keeps its position. */
    function Put(k: string, v: V): (r: Dict<V>)
      ensures r.entries == entries[k := v]
      ensures k in entries ==> r.order == order
      ensures k !in entries ==> r.order == order + [k]
    {
      if k in entries then Dict(order, entries[k := v]) else Dict(order + [k], entries[k := v])
    }
  }

  function EmptyDict<V>(): Dict<V> {
    Dict([], map[])
  }

  /** Insertion keeps a dictionary well formed, and existing keys keep their positions. */
  lemma PutValid<V>(d: Dict<V>, k: string, v: V)
    requires d.Valid()
    ensures d.Put(k, v).Valid()
    ensures d.order <= d.Put(k, v).order
    ensures |d.Put(k, v).order| == |d.order| + (if k in d.entries then 0 else 1)
  {
  }

  const PlaceholderPoster := "https://redthread.uoregon.edu" + "/files/original/affd16fd5264cab9197da4cd1a996f820e601ee4.png"
  const PosterBase := "https://image.tmdb.org/t/p/w500"
  const DefaultDescription := "No description available."

  /**
   * The poster expression shared by the movie and series code: the TMDB image URL when
   * `poster_path` is truthy, the placeholder when it is null or empty; None when the key is
   * missing, which raises KeyError.
   */
  function PosterUrl(posterPath: Field<string>): (r: Option<string>)
    ensures r.None? <==> posterPath.Absent?
    ensures r == Some(PlaceholderPoster) <==> posterPath.Null? || posterPath == Present("")
    ensures posterPath.Present? && posterPath.value != "" ==> r == Some(PosterBase + posterPath.value)
  {
    match posterPath
    case Absent => None
    case Null => Some(PlaceholderPoster)
    case Present(p) =>
      if p != "" then
        assert (PosterBase + p)[8] == PosterBase[8] == 'i';
        assert PlaceholderPoster[8] == 'r';
        Some(PosterBase + p)
      else Some(PlaceholderPoster)
  }

  /** The value stored under a series id in `series_items`. */
  datatype SeriesRecord = SeriesRecord(
    seriesName: string,
    episodes: seq<Option<int>>,   // IndexNumber of each episode, None when it had none
    seasons: seq<string>,
    createdOn: Option<string>,    // None: the JSON null; Some("undefined") for a missing DateCreated
    description: string,
    year: Option<int>,            // None: still the string "undefined"
    poster: string)

  /** The value stored under a movie id in `movie_items`. */
  datatype MovieRecord = MovieRecord(
    name: string,
    year: int,
    createdOn: Option<string>,    // None when DateCreated was missing or null
    description: string,
    poster: string)

  /**
   * The answers of the outside services: the Jellyfin library root, the items of a folder
   * (with the total count the server reports), the item of a folder with a given id, and
   * the two TMDB endpoints keyed by URL; plus the configured template language.
   */
  datatype Services = Services(
    rootItems: seq<Item>,
    folderItems: (string, string) -> (seq<Item>, int),   // (folder id, "movie" or "tv")
    itemById: (string, string) -> Option<Item>,          // (folder id, item id)
    search: string -> Tmdb.SearchResponse,
    fetch: string -> Tmdb.DetailResponse,
    templateLanguage: string)

  /** The `series_items` dictionary, which the collection functions update in place. */
  class SeriesItems {
    var order: seq<string>
    var entries: map<string, SeriesRecord>

    function Contents(): Dict<SeriesRecord>
      reads this
    {
      Dict(order, entries)
    }

    constructor ()
      ensures Contents() == EmptyDict()
    {
      order := [];
      entries := map[];
    }
  }
}
