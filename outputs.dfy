/**
 * What the dry-run and preview handlers share: the metadata dictionary that `get_metadata`
 * builds from the collected movies and series, the `strftime` stamps that replace the
 * placeholders of the configured file name, and the placeholder substitution itself.
 */
module OutputFiles {
  import opened Wrappers
  import opened Items
  import opened DateTimes
  import opened Numerals
  import opened PyPath
  import Text

  /** An entry of the metadata's "movies" list. */
  datatype MovieEntry = MovieEntry(name: string, addedDate: string, tmdbId: string)

  /** An entry of the metadata's "tv_shows" list. */
  datatype SeriesEntry = SeriesEntry(seriesName: string, seasons: seq<string>, episodes: seq<Option<int>>,
                                     addedDate: string)

  /** The "stats" entry; the email size is filled in later by the email controller, as text here. */
  datatype Stats = Stats(moviesCount: int, tvEpisodesCount: int, totalEmailSizeKb: string)

  /** The metadata dictionary returned by `get_metadata`, without its "configuration_hash". */
  datatype Metadata = Metadata(
    generationTimestamp: string,
    mode: string,
    smtpTested: bool,
    jellyfinServer: string,
    stats: Stats,
    movies: seq<MovieEntry>,
    tvShows: seq<SeriesEntry>,
    recipients: seq<string>,
    templateLanguage: string)

  /** The configuration values `get_metadata` copies: Jellyfin URL, recipients, template language. */
  datatype Settings = Settings(jellyfinUrl: string, recipients: seq<string>, templateLanguage: string)

  /**
   * `created_on.split('T')[0]`; None when `created_on` holds None, on which `split` raises
   * AttributeError.
   */
  function AddedDate(createdOn: Option<string>): Option<string> {
    match createdOn
    case None => None
    case Some(s) => Some(Text.BeforeFirst(s, 'T'))
  }

  /** The "movies" list for the movies under `keys`, in that order. */
  function MovieList(keys: seq<string>, entries: map<string, MovieRecord>): Option<seq<MovieEntry>>
    requires forall k :: k in keys ==> k in entries
  {
    if keys == [] then Some([])
    else
      var m := entries[keys[|keys| - 1]];
      match (MovieList(keys[..|keys| - 1], entries), AddedDate(m.createdOn))
      case (Some(list), Some(added)) => Some(list + [MovieEntry(m.name, added, "")])
      case _ => None
  }

  /** The "tv_shows" list for the series under `keys`, in that order. */
  function SeriesList(keys: seq<string>, entries: map<string, SeriesRecord>): Option<seq<SeriesEntry>>
    requires forall k :: k in keys ==> k in entries
  {
    if keys == [] then Some([])
    else
      var s := entries[keys[|keys| - 1]];
      match (SeriesList(keys[..|keys| - 1], entries), AddedDate(s.createdOn))
      case (Some(list), Some(added)) => Some(list + [SeriesEntry(s.seriesName, s.seasons, s.episodes, added)])
      case _ => None
  }

  /** The loop building `movies_list` over `movies.items()`. */
  method ProjectMovies(movies: Dict<MovieRecord>) returns (r: Option<seq<MovieEntry>>)
    requires movies.Valid()
    ensures r == MovieList(movies.order, movies.entries)
  {
    var list: seq<MovieEntry> := [];
    var i := 0;
    while i < |movies.order|
      invariant 0 <= i <= |movies.order|
      invariant MovieList(movies.order[..i], movies.entries) == Some(list)
    {
      assert movies.order[..i + 1][..i] == movies.order[..i];
      var data := movies.entries[movies.order[i]];
      if data.createdOn.None? {
        MovieListStaysNone(movies.order, i + 1, movies.entries);
        return None;
      }
      list := list + [MovieEntry(data.name, Text.BeforeFirst(data.createdOn.value, 'T'), "")];
      i := i + 1;
    }
    assert movies.order[..i] == movies.order;
    return Some(list);
  }

  lemma {:induction false} MovieListStaysNone(keys: seq<string>, n: nat, entries: map<string, MovieRecord>)
    requires n <= |keys| && forall k :: k in keys ==> k in entries
    requires MovieList(keys[..n], entries).None?
    ensures MovieList(keys, entries).None?
    decreases |keys| - n
  {
    if n < |keys| {
      assert keys[..n + 1][..n] == keys[..n];
      MovieListStaysNone(keys, n + 1, entries);
    } else {
      assert keys[..n] == keys;
    }
  }

  /** The loop building `series_list` over `series.items()`. */
  method ProjectSeries(series: Dict<SeriesRecord>) returns (r: Option<seq<SeriesEntry>>)
    requires series.Valid()
    ensures r == SeriesList(series.order, series.entries)
  {
    var list: seq<SeriesEntry> := [];
    var i := 0;
    while i < |series.order|
      invariant 0 <= i <= |series.order|
      invariant SeriesList(series.order[..i], series.entries) == Some(list)
    {
      assert series.order[..i + 1][..i] == series.order[..i];
      var data := series.entries[series.order[i]];
      if data.createdOn.None? {
        SeriesListStaysNone(series.order, i + 1, series.entries);
        return None;
      }
      list := list + [SeriesEntry(data.seriesName, data.seasons, data.episodes, Text.BeforeFirst(data.createdOn.value, 'T'))];
      i := i + 1;
    }
    assert series.order[..i] == series.order;
    return Some(list);
  }

  lemma {:induction false} SeriesListStaysNone(keys: seq<string>, n: nat, entries: map<string, SeriesRecord>)
    requires n <= |keys| && forall k :: k in keys ==> k in entries
    requires SeriesList(keys[..n], entries).None?
    ensures SeriesList(keys, entries).None?
    decreases |keys| - n
  {
    if n < |keys| {
      assert keys[..n + 1][..n] == keys[..n];
      SeriesListStaysNone(keys, n + 1, entries);
    } else {
      assert keys[..n] == keys;
    }
  }

  /**
   * The "movies" list has one entry per movie in dictionary order, with its name, the date
   * part of its creation stamp (no `T` left in it) and an empty TMDB id; it fails exactly
   * when some movie's creation date is None.
   */
  lemma MovieListSpec(keys: seq<string>, entries: map<string, MovieRecord>)
    requires forall k :: k in keys ==> k in entries
    ensures var r := MovieList(keys, entries);
      && (r.None? <==> exists i :: 0 <= i < |keys| && entries[keys[i]].createdOn.None?)
      && (r.Some? ==> |r.value| == |keys| && forall i :: 0 <= i < |keys| ==>
            && entries[keys[i]].createdOn.Some?
            && r.value[i].name == entries[keys[i]].name
            && r.value[i].addedDate <= entries[keys[i]].createdOn.value
            && 'T' !in r.value[i].addedDate
            && r.value[i].addedDate == Text.BeforeFirst(entries[keys[i]].createdOn.value, 'T')
            && r.value[i].tmdbId == "")
  {
    MovieListFails(keys, entries);
    MovieListEntries(keys, entries);
  }

  lemma {:induction false} MovieListFails(keys: seq<string>, entries: map<string, MovieRecord>)
    requires forall k :: k in keys ==> k in entries
    ensures MovieList(keys, entries).None? <==> exists i :: 0 <= i < |keys| && entries[keys[i]].createdOn.None?
  {
    if keys != [] {
      var init := keys[..|keys| - 1];
      MovieListFails(init, entries);
      if MovieList(init, entries).None? {
        var i :| 0 <= i < |init| && entries[init[i]].createdOn.None?;
        assert entries[keys[i]].createdOn.None?;
      }
      forall i | 0 <= i < |init| && entries[keys[i]].createdOn.None?
        ensures MovieList(init, entries).None?
      {
        assert init[i] == keys[i];
      }
    }
  }

  lemma {:induction false} MovieListEntries(keys: seq<string>, entries: map<string, MovieRecord>)
    requires forall k :: k in keys ==> k in entries
    ensures var r := MovieList(keys, entries);
      r.Some? ==> |r.value| == |keys| && forall i :: 0 <= i < |keys| ==>
            && entries[keys[i]].createdOn.Some?
            && r.value[i].name == entries[keys[i]].name
            && r.value[i].addedDate <= entries[keys[i]].createdOn.value
            && 'T' !in r.value[i].addedDate
            && r.value[i].addedDate == Text.BeforeFirst(entries[keys[i]].createdOn.value, 'T')
            && r.value[i].tmdbId == ""
  {
    if keys != [] {
      var init := keys[..|keys| - 1];
      MovieListEntries(init, entries);
      forall i | 0 <= i < |init|
        ensures init[i] == keys[i]
      {
      }
    }
  }


  /** Over a whole dictionary: the "movies" list exists exactly when every movie is dated. */
  lemma MoviesDated(movies: Dict<MovieRecord>)
    requires movies.Valid()
    ensures var r := MovieList(movies.order, movies.entries);
      && (r.Some? <==> forall k :: k in movies.entries ==> movies.entries[k].createdOn.Some?)
      && (r.Some? ==> |r.value| == |movies.order|)
  {
    MovieListSpec(movies.order, movies.entries);
    if MovieList(movies.order, movies.entries).None? {
      var i :| 0 <= i < |movies.order| && movies.entries[movies.order[i]].createdOn.None?;
    }
    forall k | k in movies.entries && movies.entries[k].createdOn.None?
      ensures MovieList(movies.order, movies.entries).None?
    {
      var i :| 0 <= i < |movies.order| && movies.order[i] == k;
    }
  }

  /** Over a whole dictionary: the "tv_shows" list exists exactly when every series is dated. */
  lemma SeriesDated(series: Dict<SeriesRecord>)
    requires series.Valid()
    ensures var r := SeriesList(series.order, series.entries);
      && (r.Some? <==> forall k :: k in series.entries ==> series.entries[k].createdOn.Some?)
      && (r.Some? ==> |r.value| == |series.order|)
  {
    SeriesListSpec(series.order, series.entries);
    if SeriesList(series.order, series.entries).None? {
      var i :| 0 <= i < |series.order| && series.entries[series.order[i]].createdOn.None?;
    }
    forall k | k in series.entries && series.entries[k].createdOn.None?
      ensures SeriesList(series.order, series.entries).None?
    {
      var i :| 0 <= i < |series.order| && series.order[i] == k;
    }
  }

  /**
   * The "tv_shows" list has one entry per series in dictionary order, carrying its name,
   * seasons and episodes unchanged and the date part of its creation stamp; it fails exactly
   * when some series' creation date is None.
   */
  lemma SeriesListSpec(keys: seq<string>, entries: map<string, SeriesRecord>)
    requires forall k :: k in keys ==> k in entries
    ensures var r := SeriesList(keys, entries);
      && (r.None? <==> exists i :: 0 <= i < |keys| && entries[keys[i]].createdOn.None?)
      && (r.Some? ==> |r.value| == |keys| && forall i :: 0 <= i < |keys| ==>
            && entries[keys[i]].createdOn.Some?
            && r.value[i].seriesName == entries[keys[i]].seriesName
            && r.value[i].seasons == entries[keys[i]].seasons
            && r.value[i].episodes == entries[keys[i]].episodes
            && 'T' !in r.value[i].addedDate
            && r.value[i].addedDate == Text.BeforeFirst(entries[keys[i]].createdOn.value, 'T'))
  {
    SeriesListFails(keys, entries);
    SeriesListEntries(keys, entries);
  }

  lemma {:induction false} SeriesListFails(keys: seq<string>, entries: map<string, SeriesRecord>)
    requires forall k :: k in keys ==> k in entries
    ensures SeriesList(keys, entries).None? <==> exists i :: 0 <= i < |keys| && entries[keys[i]].createdOn.None?
  {
    if keys != [] {
      var init := keys[..|keys| - 1];
      SeriesListFails(init, entries);
      if SeriesList(init, entries).None? {
        var i :| 0 <= i < |init| && entries[init[i]].createdOn.None?;
        assert entries[keys[i]].createdOn.None?;
      }
      forall i | 0 <= i < |init| && entries[keys[i]].createdOn.None?
        ensures SeriesList(init, entries).None?
      {
        assert init[i] == keys[i];
      }
    }
  }

  lemma {:induction false} SeriesListEntries(keys: seq<string>, entries: map<string, SeriesRecord>)
    requires forall k :: k in keys ==> k in entries
    ensures var r := SeriesList(keys, entries);
      r.Some? ==> |r.value| == |keys| && forall i :: 0 <= i < |keys| ==>
            && entries[keys[i]].createdOn.Some?
            && r.value[i].seriesName == entries[keys[i]].seriesName
            && r.value[i].seasons == entries[keys[i]].seasons
            && r.value[i].episodes == entries[keys[i]].episodes
            && 'T' !in r.value[i].addedDate
            && r.value[i].addedDate == Text.BeforeFirst(entries[keys[i]].createdOn.value, 'T')
  {
    if keys != [] {
      var init := keys[..|keys| - 1];
      SeriesListEntries(init, entries);
      forall i | 0 <= i < |init|
        ensures init[i] == keys[i]
      {
      }
    }
  }


  /**
   * The metadata dictionary for the given lists and recipients, or None when building a
   * list raised.
   */
  function MetadataOf(settings: Settings, movies: Dict<MovieRecord>, series: Dict<SeriesRecord>,
                      totalTv: int, totalMovie: int, mode: string, smtpTested: bool, now: DateTime,
                      recipients: seq<string>): Option<Metadata>
    requires movies.Valid() && series.Valid() && Valid(now)
  {
    match (MovieList(movies.order, movies.entries), SeriesList(series.order, series.entries))
    case (Some(ml), Some(sl)) =>
      Some(Metadata(IsoFormat(now), mode, smtpTested, settings.jellyfinUrl, Stats(totalMovie, totalTv, "0"),
                    ml, sl, recipients, settings.templateLanguage))
    case _ => None
  }

  /** Python's `str(b)` for a bool. */
  function BoolText(b: bool): string {
    if b then "True" else "False"
  }

  // ---------------------------------------------------------------------------------------
  // File-name placeholders
  // ---------------------------------------------------------------------------------------

  /** `now.strftime('%Y-%m-%d')`. */
  function DateStamp(now: DateTime): string
    requires Valid(now)
  {
    Pad(now.year, 4) + "-" + Pad(now.month, 2) + "-" + Pad(now.day, 2)
  }

  /** `now.strftime('%H%M%S')`. */
  function TimeStamp(now: DateTime): string
    requires Valid(now)
  {
    Pad(now.hour, 2) + Pad(now.minute, 2) + Pad(now.second, 2)
  }

  /** `now.strftime('%Y%m%d_%H%M%S')`. */
  function FullStamp(now: DateTime): string
    requires Valid(now)
  {
    Pad(now.year, 4) + Pad(now.month, 2) + Pad(now.day, 2) + "_" + TimeStamp(now)
  }

  /** Characters a stamp is made of. */
  predicate StampText(s: string) {
    |s| > 0 && forall i :: 0 <= i < |s| ==> IsDigit(s[i]) || s[i] == '-' || s[i] == '_'
  }

  lemma StampsAreStampText(now: DateTime)
    requires Valid(now)
    ensures StampText(DateStamp(now)) && StampText(TimeStamp(now)) && StampText(FullStamp(now))
  {
  }

  const DatePlaceholder := "{date}"
  const TimePlaceholder := "{time}"
  const TimestampPlaceholder := "{timestamp}"

  /** No placeholder left in `s`. */
  predicate NoPlaceholder(s: string) {
    && !Text.Occurs(DatePlaceholder, s)
    && !Text.Occurs(TimePlaceholder, s)
    && !Text.Occurs(TimestampPlaceholder, s)
  }

  /** Stamp text cannot overlap any placeholder, since every placeholder is made of braces and letters. */
  lemma StampIsolated(rep: string)
    requires StampText(rep)
    ensures Text.Isolated(rep, DatePlaceholder)
    ensures Text.Isolated(rep, TimePlaceholder)
    ensures Text.Isolated(rep, TimestampPlaceholder)
  {
    Text.DisjointIsolated(rep, DatePlaceholder);
    Text.DisjointIsolated(rep, TimePlaceholder);
    Text.DisjointIsolated(rep, TimestampPlaceholder);
  }

  /**
   * Replacing one placeholder by stamp text removes it and does not bring back the
   * placeholders already gone.
   */
  lemma ReplaceStep(s: string, pat: string, rep: string, gone: set<string>)
    requires StampText(rep)
    requires pat in {DatePlaceholder, TimePlaceholder, TimestampPlaceholder}
    requires gone <= {DatePlaceholder, TimePlaceholder, TimestampPlaceholder}
    requires forall q | q in gone :: !Text.Occurs(q, s)
    ensures !Text.Occurs(pat, Text.ReplaceAll(s, pat, rep))
    ensures forall q | q in gone :: !Text.Occurs(q, Text.ReplaceAll(s, pat, rep))
  {
    StampIsolated(rep);
    Text.ReplaceAllRemoves(s, pat, rep);
    forall q | q in gone
      ensures !Text.Occurs(q, Text.ReplaceAll(s, pat, rep))
    {
      Text.ReplaceAllKeepsAbsent(s, pat, rep, q);
    }
  }

  /**
   * Inserting `_suffix` before the extension of a text without placeholders leaves none, as
   * long as the suffix has no opening brace.
   */
  lemma SuffixKeepsNoPlaceholder(stem: string, suffix: string, ext: string)
    requires NoPlaceholder(stem + ext)
    requires '{' !in suffix
    ensures NoPlaceholder(stem + "_" + suffix + ext)
  {
    Text.OccursInConcat(DatePlaceholder, stem, ext);
    Text.OccursInConcat(TimePlaceholder, stem, ext);
    Text.OccursInConcat(TimestampPlaceholder, stem, ext);
    assert stem + "_" + suffix + ext == stem + ['_'] + (suffix + ext);
    OpeningBraceOutside(DatePlaceholder, stem, suffix, ext);
    OpeningBraceOutside(TimePlaceholder, stem, suffix, ext);
    OpeningBraceOutside(TimestampPlaceholder, stem, suffix, ext);
  }

  /**
   * The name after `_suffix` is inserted: no placeholder appears (for a suffix without '{'),
   * an empty suffix adds nothing, and a suffix without '.' or '/' goes right before the
   * extension, which is kept.
   */
  lemma SuffixedName(base: string, suffix: string)
    requires NoPlaceholder(base)
    ensures var name := InsertSuffix(base, suffix);
      && ('{' !in suffix ==> NoPlaceholder(name))
      && (suffix == "" ==> name == base)
      && (suffix != "" && '.' !in suffix && '/' !in suffix ==>
            SplitExt(name) == (SplitExt(base).0 + "_" + suffix, SplitExt(base).1))
  {
    if suffix != "" && '{' !in suffix {
      var parts := SplitExt(base);
      SuffixKeepsNoPlaceholder(parts.0, suffix, parts.1);
    }
    if suffix != "" && '.' !in suffix && '/' !in suffix {
      InsertSuffixKeepsExtension(base, suffix);
    }
  }

  lemma OpeningBraceOutside(q: string, stem: string, suffix: string, ext: string)
    requires |q| > 0 && q[0] == '{' && '_' !in q && '{' !in suffix
    requires !Text.Occurs(q, stem) && !Text.Occurs(q, ext)
    ensures !Text.Occurs(q, stem + ['_'] + (suffix + ext))
  {
    Text.OccursAroundSeparator(q, stem, '_', suffix + ext);
    StartsOutside(q, suffix, ext);
  }

  /** An occurrence whose first character the front part lacks lies in the back part. */
  lemma {:induction false} StartsOutside(q: string, a: string, b: string)
    requires |q| > 0 && q[0] !in a
    ensures Text.Occurs(q, a + b) ==> Text.Occurs(q, b)
    decreases |a|
  {
    if |a| > 0 {
      assert (a + b)[0] == a[0];
      assert (a + b)[1..] == a[1..] + b;
      StartsOutside(q, a[1..], b);
    } else {
      assert a + b == b;
    }
  }

  // ---------------------------------------------------------------------------------------
  // The metadata file name
  // ---------------------------------------------------------------------------------------

  /** `path.replace('.html', '.json')`, applied by both handlers to the whole "data" path. */
  function JsonPath(path: string): string {
    Text.ReplaceAll(path, ".html", ".json")
  }

  /**
   * No ".html" is left in the metadata path, and a path without ".html" is used unchanged
   * (so the metadata file gets no ".json" extension then).
   */
  lemma JsonPathSpec(path: string)
    ensures !Text.Occurs(".html", JsonPath(path))
    ensures !Text.Occurs(".html", path) ==> JsonPath(path) == path
  {
    var rep := ".json";
    var q := ".html";
    forall i | 0 <= i < |rep|
      ensures !Text.Agree(rep[i..], q)
    {
      if i == 0 {
        assert rep[i..][1] == 'j' != q[1];
      } else {
        assert rep[i..][0] == rep[i] != q[0];
      }
    }
    forall k | 1 <= k < |q|
      ensures !Text.Agree(rep, q[k..])
    {
      assert q[k..][0] == q[k] != rep[0];
    }
    Text.ReplaceAllRemoves(path, q, rep);
    if !Text.Occurs(q, path) {
      Text.ReplaceAllAbsent(path, q, rep);
    }
  }
}
