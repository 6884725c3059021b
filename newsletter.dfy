/**
 * `send_newsletter` of main.py: classify the library's root folders, collect the recent
 * movies and episodes of the watched ones (dropping those added before the last newsletter
 * when so configured), enrich the series, and decide whether an email goes out.
 */
module Newsletter {
  import opened Wrappers
  import opened Items
  import opened DateTimes
  import opened Tmdb
  import Text
  import Episodes
  import Enrichment
  import Watermark

  /** The `jellyfin` settings that `send_newsletter` reads. */
  datatype Config = Config(
    watchedFilmFolders: seq<string>,
    watchedTvFolders: seq<string>,
    ignoreItemAddedBeforeLastNewsletter: bool)

  /**
   * How a run ends: an exception escaped (KeyError, ValueError of strptime, or an error raised
   * by the TMDB client outside a handler), nothing was collected, or the email template is
   * filled with these dictionaries and totals.
   */
  datatype Outcome =
    | Crashed
    | NoEmail
    | Email(movies: Dict<MovieRecord>, series: Dict<SeriesRecord>, totalTv: int, totalMovie: int)

  const NoOverview := "No overview available."

  // ---------------------------------------------------------------------------------------
  // Root folders (main.py:111-125)
  // ---------------------------------------------------------------------------------------

  /**
   * The ids of the watched film folders and of the watched TV folders, in library order.
   * A folder without Name is skipped; a folder named in both lists is a film folder; a
   * watched folder without Id raises KeyError.
   */
  function WatchedFolders(folders: seq<Item>, config: Config): Option<(seq<string>, seq<string>)>
    decreases |folders|
  {
    if folders == [] then Some(([], []))
    else
      var f := folders[0];
      var rest := WatchedFolders(folders[1..], config);
      if f.name.None? then rest
      else if f.name.value in config.watchedFilmFolders then
        if f.id.None? then None else Prepend([f.id.value], [], rest)
      else if f.name.value in config.watchedTvFolders then
        if f.id.None? then None else Prepend([], [f.id.value], rest)
      else rest
  }

  function Prepend(film: seq<string>, tv: seq<string>, r: Option<(seq<string>, seq<string>)>)
    : Option<(seq<string>, seq<string>)>
  {
    match r
    case None => None
    case Some(ids) => Some((film + ids.0, tv + ids.1))
  }

  lemma PrependNested(a: seq<string>, b: seq<string>, c: seq<string>, e: seq<string>,
                      r: Option<(seq<string>, seq<string>)>)
    ensures Prepend(a, b, Prepend(c, e, r)) == Prepend(a + c, b + e, r)
    ensures Prepend([], [], r) == r
    ensures Prepend(a, b, Some(([], []))) == Some((a, b))
  {
    if r.Some? {
      assert a + (c + r.value.0) == (a + c) + r.value.0;
      assert b + (e + r.value.1) == (b + e) + r.value.1;
      assert [] + r.value.0 == r.value.0 && [] + r.value.1 == r.value.1;
    }
    assert a + [] == a && b + [] == b;
  }

  predicate FilmFolder(f: Item, config: Config) {
    f.name.Some? && f.name.value in config.watchedFilmFolders
  }

  predicate TvFolder(f: Item, config: Config) {
    f.name.Some? && f.name.value !in config.watchedFilmFolders && f.name.value in config.watchedTvFolders
  }

  /** The classification loop over the root folders. */
  method WatchedFolderIds(folders: seq<Item>, config: Config) returns (r: Option<(seq<string>, seq<string>)>)
    ensures r == WatchedFolders(folders, config)
  {
    var film: seq<string> := [];
    var tv: seq<string> := [];
    var i := 0;
    assert folders[0..] == folders;
    PrependNested([], [], [], [], WatchedFolders(folders, config));
    while i < |folders|
      invariant 0 <= i <= |folders|
      invariant WatchedFolders(folders, config) == Prepend(film, tv, WatchedFolders(folders[i..], config))
    {
      var f := folders[i];
      assert folders[i..][1..] == folders[i + 1..];
      ghost var rest := WatchedFolders(folders[i + 1..], config);
      PrependNested(film, tv, [], [], rest);
      if f.id.Some? {
        PrependNested(film, tv, [f.id.value], [], rest);
        PrependNested(film, tv, [], [f.id.value], rest);
      }
      if f.name.None? {
        // skipped with a warning
      } else if f.name.value in config.watchedFilmFolders {
        if f.id.None? {
          return None;
        }
        film := film + [f.id.value];
      } else if f.name.value in config.watchedTvFolders {
        if f.id.None? {
          return None;
        }
        tv := tv + [f.id.value];
      }
      i := i + 1;
    }
    PrependNested(film, tv, [], [], None);
    return Some((film, tv));
  }

  /**
   * The classification fails exactly when some watched folder lacks an Id; otherwise the
   * film ids are the Ids of the folders named in the film list, and the TV ids those of the
   * folders named in the TV list but not in the film list.
   */
  lemma WatchedFoldersSpec(folders: seq<Item>, config: Config)
    ensures var r := WatchedFolders(folders, config);
      && (r.None? <==> exists i :: 0 <= i < |folders| && (FilmFolder(folders[i], config) || TvFolder(folders[i], config))
                                                    && folders[i].id.None?)
      && (r.Some? ==> forall x :: x in r.value.0 <==>
            exists i :: 0 <= i < |folders| && FilmFolder(folders[i], config) && folders[i].id == Some(x))
      && (r.Some? ==> forall x :: x in r.value.1 <==>
            exists i :: 0 <= i < |folders| && TvFolder(folders[i], config) && folders[i].id == Some(x))
  {
    WatchedFoldersFails(folders, config);
    WatchedFoldersIds(folders, config);
  }

  lemma {:induction false} WatchedFoldersFails(folders: seq<Item>, config: Config)
    ensures WatchedFolders(folders, config).None? <==>
      exists i :: 0 <= i < |folders| && (FilmFolder(folders[i], config) || TvFolder(folders[i], config))
                                     && folders[i].id.None?
    decreases |folders|
  {
    if folders != [] {
      var rest := folders[1..];
      WatchedFoldersFails(rest, config);
      if WatchedFolders(rest, config).None? {
        var i :| 0 <= i < |rest| && (FilmFolder(rest[i], config) || TvFolder(rest[i], config)) && rest[i].id.None?;
        assert folders[i + 1] == rest[i];
      }
      forall i | 1 <= i < |folders| && (FilmFolder(folders[i], config) || TvFolder(folders[i], config))
                                    && folders[i].id.None?
        ensures WatchedFolders(rest, config).None?
      {
        assert rest[i - 1] == folders[i];
      }
    }
  }

  lemma {:induction false} WatchedFoldersIds(folders: seq<Item>, config: Config)
    ensures var r := WatchedFolders(folders, config);
      && (r.Some? ==> forall x :: x in r.value.0 <==>
            exists i :: 0 <= i < |folders| && FilmFolder(folders[i], config) && folders[i].id == Some(x))
      && (r.Some? ==> forall x :: x in r.value.1 <==>
            exists i :: 0 <= i < |folders| && TvFolder(folders[i], config) && folders[i].id == Some(x))
    decreases |folders|
  {
    if folders != [] {
      var rest := folders[1..];
      WatchedFoldersIds(rest, config);
      forall i | 0 <= i < |rest|
        ensures rest[i] == folders[i + 1]
      {
      }
      var r := WatchedFolders(folders, config);
      if r.Some? {
        forall x | exists i :: 0 <= i < |folders| && FilmFolder(folders[i], config) && folders[i].id == Some(x)
          ensures x in r.value.0
        {
          var i :| 0 <= i < |folders| && FilmFolder(folders[i], config) && folders[i].id == Some(x);
          if i > 0 {
            assert FilmFolder(rest[i - 1], config) && rest[i - 1].id == Some(x);
          }
        }
        forall x | exists i :: 0 <= i < |folders| && TvFolder(folders[i], config) && folders[i].id == Some(x)
          ensures x in r.value.1
        {
          var i :| 0 <= i < |folders| && TvFolder(folders[i], config) && folders[i].id == Some(x);
          if i > 0 {
            assert TvFolder(rest[i - 1], config) && rest[i - 1].id == Some(x);
          }
        }
      }
    }
  }

  // ---------------------------------------------------------------------------------------
  // The watermark filter (main.py:142-147 and 186-191)
  // ---------------------------------------------------------------------------------------

  /**
   * Whether an item is dropped as added before the last newsletter: Some(true) drops it,
   * Some(false) keeps it, None is an exception (a missing DateCreated, or a date part that
   * strptime rejects). The midnight of the item's day is compared with the watermark.
   */
  function SkipsItem(ignoreOld: bool, watermark: Option<DateTime>, dateCreated: Field<string>): Option<bool> {
    if !ignoreOld || watermark.None? then Some(false)
    else match dateCreated
      case Absent => None
      case Null => Some(false)
      case Present(s) =>
        match ParseYmd(Text.BeforeFirst(s, 'T'))
        case None => None
        case Some(day) => Some(Before(day, watermark.value))
  }

  /** The filter statement by statement, reading the watermark file again for every item. */
  method IsSkipped(item: Item, config: Config, watermarkFile: Watermark.WatermarkFile) returns (r: Option<bool>)
    ensures r == SkipsItem(config.ignoreItemAddedBeforeLastNewsletter,
                           Watermark.ParseWatermark(watermarkFile.contents), item.dateCreated)
  {
    if config.ignoreItemAddedBeforeLastNewsletter {
      var last := watermarkFile.Load();
      if last.Some? {
        if item.dateCreated.Absent? {
          return None;
        }
        if item.dateCreated.Present? {
          var day := ParseYmd(Text.BeforeFirst(item.dateCreated.value, 'T'));
          if day.None? {
            return None;
          }
          return Some(Before(day.value, last.value));
        }
      }
    }
    return Some(false);
  }

  /**
   * The filter applies only when configured and when a watermark exists; a null DateCreated
   * keeps the item; for a Jellyfin stamp `YYYY-MM-DD` + "T" + anything, the item is dropped
   * exactly when its day is earlier than the watermark's day, or is the same day while the
   * watermark is past midnight.
   */
  lemma WatermarkFilter(d: DateTime, rest: string, w: DateTime)
    requires Valid(d) && Valid(w)
    ensures forall wm, dc :: SkipsItem(false, wm, dc) == Some(false)
    ensures forall dc :: SkipsItem(true, None, dc) == Some(false)
    ensures SkipsItem(true, Some(w), Null) == Some(false)
    ensures SkipsItem(true, Some(w), Absent) == None
    ensures SkipsItem(true, Some(w), Present(IsoDate(d) + "T" + rest))
              == Some(DateBefore(d, w) || (SameDate(d, w) && Midnight(w) != w))
  {
    DayOfStamp(d, rest);
    MidnightBefore(d, w);
  }

  /**
   * An item added on the watermark's day but after the newsletter went out is dropped all
   * the same, unless the watermark is exactly midnight.
   */
  lemma LaterSameDayDropped(d: DateTime, rest: string, w: DateTime)
    requires Valid(d) && Valid(w)
    requires SameDate(d, w) && Before(w, d) && Midnight(w) != w
    ensures SkipsItem(true, Some(w), Present(IsoDate(d) + "T" + rest)) == Some(true)
  {
    WatermarkFilter(d, rest, w);
  }

  // ---------------------------------------------------------------------------------------
  // Movies (main.py:133-179)
  // ---------------------------------------------------------------------------------------

  /**
   * `movie_items` after one movie of a watched folder; None when it raises. Every path
   * reads `item['Name']` (in a log line, the title search or the stored record), so a movie
   * without Name always raises. The key check at main.py:137-141 only logs.
   */
  function MovieStep(m: Dict<MovieRecord>, item: Item, config: Config, watermark: Option<DateTime>,
                     env: Services): Option<Dict<MovieRecord>>
  {
    if item.name.None? then None
    else match SkipsItem(config.ignoreItemAddedBeforeLastNewsletter, watermark, item.dateCreated)
      case None => None
      case Some(true) => Some(m)
      case Some(false) =>
        var name := item.name.value;
        var year := item.productionYear.GetOr(0);
        var lookup :=
          if item.tmdbId.Some? then IdLookup(item.tmdbId.value, "movie", env.templateLanguage, env.fetch)
          else TitleLookup(name, "movie", Some(year), env.templateLanguage, env.search);
        match lookup
        case Raised => None
        case Returned(None) => Some(m)
        case Returned(Some(e)) =>
          match PosterUrl(e.posterPath)
          case None => None
          case Some(poster) =>
            if item.id.None? then None
            else Some(m.Put(item.id.value, MovieRecord(name, year, item.dateCreated.Get(), e.overview.GetOr(NoOverview), poster)))
  }

  /** One movie, statement by statement. */
  method AddMovie(m: Dict<MovieRecord>, item: Item, config: Config, env: Services,
                  watermarkFile: Watermark.WatermarkFile) returns (r: Option<Dict<MovieRecord>>)
    ensures r == MovieStep(m, item, config, Watermark.ParseWatermark(watermarkFile.contents), env)
  {
    var skip := IsSkipped(item, config, watermarkFile);
    if item.name.None? || skip.None? {
      return None;
    }
    if skip.value {
      return Some(m);
    }
    var name := item.name.value;
    var year := if item.productionYear.Some? then item.productionYear.value else 0;
    var createdOn := if item.dateCreated.Present? then Some(item.dateCreated.value) else None;
    var lookup;
    if item.tmdbId.Some? {
      lookup := IdLookup(item.tmdbId.value, "movie", env.templateLanguage, env.fetch);
    } else {
      lookup := GetMediaDetailFromTitle(name, "movie", Some(year), env.templateLanguage, env.search);
    }
    if lookup.Raised? {
      return None;
    }
    if lookup.info.None? {
      return Some(m);
    }
    var info := lookup.info.value;
    var description := if info.overview.Some? then info.overview.value else NoOverview;
    var poster := PosterUrl(info.posterPath);
    if poster.None? || item.id.None? {
      return None;
    }
    return Some(m.Put(item.id.value, MovieRecord(name, year, createdOn, description, poster.value)));
  }

  /** The movies of one folder, from `m`. */
  function MovieItems(m: Dict<MovieRecord>, items: seq<Item>, config: Config, watermark: Option<DateTime>,
                      env: Services): Option<Dict<MovieRecord>>
    decreases |items|
  {
    if items == [] then Some(m)
    else match MovieStep(m, items[0], config, watermark, env)
      case None => None
      case Some(m') => MovieItems(m', items[1..], config, watermark, env)
  }

  /** The remaining film folders, from `m` and the running `total_movie`. */
  function MovieFolders(m: Dict<MovieRecord>, total: int, folders: seq<string>, config: Config,
                        watermark: Option<DateTime>, env: Services): Option<(Dict<MovieRecord>, int)>
    decreases |folders|
  {
    if folders == [] then Some((m, total))
    else
      var answer := env.folderItems(folders[0], "movie");
      match MovieItems(m, answer.0, config, watermark, env)
      case None => None
      case Some(m') => MovieFolders(m', total + answer.1, folders[1..], config, watermark, env)
  }

  function ThenMovieFolders(r: Option<Dict<MovieRecord>>, total: int, folders: seq<string>, config: Config,
                            watermark: Option<DateTime>, env: Services): Option<(Dict<MovieRecord>, int)>
  {
    match r
    case None => None
    case Some(m) => MovieFolders(m, total, folders, config, watermark, env)
  }

  /** The movie loops: `movie_items` and `total_movie`, or None when an exception escapes. */
  method CollectMovies(filmFolders: seq<string>, config: Config, env: Services, watermarkFile: Watermark.WatermarkFile)
    returns (r: Option<(Dict<MovieRecord>, int)>)
    ensures r == MovieFolders(EmptyDict(), 0, filmFolders, config, Watermark.ParseWatermark(watermarkFile.contents), env)
  {
    ghost var w := Watermark.ParseWatermark(watermarkFile.contents);
    ghost var goal := MovieFolders(EmptyDict(), 0, filmFolders, config, w, env);
    var movies: Dict<MovieRecord> := EmptyDict();
    var total := 0;
    var i := 0;
    while i < |filmFolders|
      invariant 0 <= i <= |filmFolders|
      invariant goal == MovieFolders(movies, total, filmFolders[i..], config, w, env)
    {
      var answer := env.folderItems(filmFolders[i], "movie");
      assert filmFolders[i..][0] == filmFolders[i];
      assert filmFolders[i..][1..] == filmFolders[i + 1..];
      total := total + answer.1;
      assert goal == ThenMovieFolders(MovieItems(movies, answer.0, config, w, env), total,
                                      filmFolders[i + 1..], config, w, env);
      var next := AddFolderMovies(movies, answer.0, config, env, watermarkFile);
      if next.None? {
        return None;
      }
      movies := next.value;
      i := i + 1;
    }
    return Some((movies, total));
  }

  /** The inner loop over one folder's items, adding each movie to `movie_items`. */
  method AddFolderMovies(movies: Dict<MovieRecord>, items: seq<Item>, config: Config, env: Services,
                         watermarkFile: Watermark.WatermarkFile) returns (r: Option<Dict<MovieRecord>>)
    ensures r == MovieItems(movies, items, config, Watermark.ParseWatermark(watermarkFile.contents), env)
  {
    ghost var w := Watermark.ParseWatermark(watermarkFile.contents);
    ghost var goal := MovieItems(movies, items, config, w, env);
    var m := movies;
    var j := 0;
    while j < |items|
      invariant 0 <= j <= |items|
      invariant goal == MovieItems(m, items[j..], config, w, env)
    {
      var next := AddMovie(m, items[j], config, env, watermarkFile);
      assert items[j..][1..] == items[j + 1..];
      if next.None? {
        return None;
      }
      m := next.value;
      j := j + 1;
    }
    return Some(m);
  }

  /** The sum of the totals the server reports for the folders, filtered items included. */
  function SumCounts(folders: seq<string>, kind: string, env: Services): int {
    if folders == [] then 0 else env.folderItems(folders[0], kind).1 + SumCounts(folders[1..], kind, env)
  }

  /**
   * `total_movie` adds up the server's totals, whatever the filter drops; the dictionary stays
   * well formed, keeps its earlier keys in order and only gains Ids of the folders' movies.
   */
  lemma {:induction false} MovieFoldersSpec(m: Dict<MovieRecord>, total: int, folders: seq<string>, config: Config,
                                            watermark: Option<DateTime>, env: Services)
    requires m.Valid()
    ensures var r := MovieFolders(m, total, folders, config, watermark, env);
      r.Some? ==> r.value.1 == total + SumCounts(folders, "movie", env) && r.value.0.Valid() && m.order <= r.value.0.order
    decreases |folders|
  {
    if folders != [] {
      var answer := env.folderItems(folders[0], "movie");
      var r1 := MovieItems(m, answer.0, config, watermark, env);
      MovieItemsOrdered(m, answer.0, config, watermark, env);
      if r1.Some? {
        MovieFoldersSpec(r1.value, total + answer.1, folders[1..], config, watermark, env);
        assert MovieFolders(m, total, folders, config, watermark, env)
          == MovieFolders(r1.value, total + answer.1, folders[1..], config, watermark, env);
        assert SumCounts(folders, "movie", env) == answer.1 + SumCounts(folders[1..], "movie", env);
        var r := MovieFolders(r1.value, total + answer.1, folders[1..], config, watermark, env);
        if r.Some? {
          PrefixTransitive(m.order, r1.value.order, r.value.0.order);
        }
      }
    }
  }

  lemma PrefixTransitive(a: seq<string>, b: seq<string>, c: seq<string>)
    requires a <= b && b <= c
    ensures a <= c
  {
    assert c[..|a|] == b[..|a|];
  }

  /** A folder's items keep the dictionary well formed and its earlier keys in order. */
  lemma {:induction false} MovieItemsOrdered(m: Dict<MovieRecord>, items: seq<Item>, config: Config,
                                             watermark: Option<DateTime>, env: Services)
    requires m.Valid()
    ensures var r := MovieItems(m, items, config, watermark, env);
      r.Some? ==> r.value.Valid() && m.order <= r.value.order
    decreases |items|
  {
    if items != [] {
      var r1 := MovieStep(m, items[0], config, watermark, env);
      if r1.Some? {
        if items[0].id.Some? {
          PutValid(m, items[0].id.value, MovieRecord("", 0, None, "", ""));
        }
        MovieStepShape(m, items[0], config, watermark, env);
        MovieItemsOrdered(r1.value, items[1..], config, watermark, env);
      }
    }
  }

  lemma {:induction false} MovieItemsValid(m: Dict<MovieRecord>, items: seq<Item>, config: Config,
                                           watermark: Option<DateTime>, env: Services)
    requires m.Valid()
    ensures var r := MovieItems(m, items, config, watermark, env);
      r.Some? ==> r.value.Valid() && m.order <= r.value.order
                  && forall k :: k in r.value.entries ==> k in m.entries || exists i :: 0 <= i < |items| && items[i].id == Some(k)
    decreases |items|
  {
    if items != [] {
      var r1 := MovieStep(m, items[0], config, watermark, env);
      if r1.Some? {
        if items[0].id.Some? {
          PutValid(m, items[0].id.value, MovieRecord("", 0, None, "", ""));
        }
        MovieStepShape(m, items[0], config, watermark, env);
        MovieItemsValid(r1.value, items[1..], config, watermark, env);
        var r := MovieItems(m, items, config, watermark, env);
        if r.Some? {
          forall k | k in r.value.entries
            ensures k in m.entries || exists i :: 0 <= i < |items| && items[i].id == Some(k)
          {
            if k !in r1.value.entries {
              var i :| 0 <= i < |items[1..]| && items[1..][i].id == Some(k);
              assert items[i + 1].id == Some(k);
            } else if k !in m.entries {
              assert items[0].id == Some(k);
            }
          }
        }
      }
    }
  }

  /** One movie either leaves the dictionary as it is or stores a record under its Id. */
  lemma MovieStepShape(m: Dict<MovieRecord>, item: Item, config: Config, watermark: Option<DateTime>, env: Services)
    requires m.Valid()
    ensures var r := MovieStep(m, item, config, watermark, env);
      r.Some? ==> r.value == m || (item.id.Some? && exists v :: r.value == m.Put(item.id.value, v))
  {
    var r := MovieStep(m, item, config, watermark, env);
    if r.Some? && r.value != m {
      var e :| MovieStep(m, item, config, watermark, env) == Some(m.Put(item.id.value, e)) by {
        var name := item.name.value;
        var year := item.productionYear.GetOr(0);
        var lookup :=
          if item.tmdbId.Some? then IdLookup(item.tmdbId.value, "movie", env.templateLanguage, env.fetch)
          else TitleLookup(name, "movie", Some(year), env.templateLanguage, env.search);
        var info := lookup.info.value;
        var v := MovieRecord(name, year, item.dateCreated.Get(), info.overview.GetOr(NoOverview), PosterUrl(info.posterPath).value);
        assert r == Some(m.Put(item.id.value, v));
      }
    }
  }

  /**
   * A kept movie that TMDB finds is stored under its Id with its name, its production year
   * (0 when missing), its DateCreated, the TMDB overview or a default when TMDB has none,
   * and the poster URL. With a Tmdb id the title search is never consulted.
   */
  lemma MovieRecorded(m: Dict<MovieRecord>, item: Item, config: Config, watermark: Option<DateTime>,
                      env: Services, e: TmdbEntry)
    requires item.name.Some? && item.id.Some? && !e.posterPath.Absent?
    requires SkipsItem(config.ignoreItemAddedBeforeLastNewsletter, watermark, item.dateCreated) == Some(false)
    requires item.tmdbId.Some? ==> env.fetch(DetailUrl(item.tmdbId.value, "movie", env.templateLanguage)) == DetailResponse(200, e)
    requires item.tmdbId.None? ==>
               TitleLookup(item.name.value, "movie", Some(item.productionYear.GetOr(0)), env.templateLanguage, env.search)
               == Returned(Some(e))
    ensures var r := MovieStep(m, item, config, watermark, env);
      && r.Some? && item.id.value in r.value.entries
      && var v := r.value.entries[item.id.value];
      && v.name == item.name.value
      && v.year == (if item.productionYear.Some? then item.productionYear.value else 0)
      && v.createdOn == (if item.dateCreated.Present? then Some(item.dateCreated.value) else None)
      && (e.overview.Some? ==> v.description == e.overview.value)
      && (e.overview.None? ==> v.description == "No overview available.")
      && Some(v.poster) == PosterUrl(e.posterPath)
    ensures item.tmdbId.Some? ==>
              forall search :: MovieStep(m, item, config, watermark, env.(search := search)) == MovieStep(m, item, config, watermark, env)
  {
  }

  // ---------------------------------------------------------------------------------------
  // Episodes (main.py:182-193)
  // ---------------------------------------------------------------------------------------

  /** `series_items` after one item of a watched TV folder; None when it raises. */
  function TvStep(d: Dict<SeriesRecord>, item: Item, config: Config, watermark: Option<DateTime>): Option<Dict<SeriesRecord>> {
    match SkipsItem(config.ignoreItemAddedBeforeLastNewsletter, watermark, item.dateCreated)
    case None => None
    case Some(true) => Some(d)
    case Some(false) =>
      if item.itemType.None? then None
      else if item.itemType.value == "Episode" then Some(Episodes.FoldEpisode(d, item))
      else Some(d)
  }

  function TvItems(d: Dict<SeriesRecord>, items: seq<Item>, config: Config, watermark: Option<DateTime>)
    : Option<Dict<SeriesRecord>>
    decreases |items|
  {
    if items == [] then Some(d)
    else match TvStep(d, items[0], config, watermark)
      case None => None
      case Some(d') => TvItems(d', items[1..], config, watermark)
  }

  /** The remaining TV folders, from `d` and the running `total_tv`. */
  function TvFolders(d: Dict<SeriesRecord>, total: int, folders: seq<string>, config: Config,
                     watermark: Option<DateTime>, env: Services): Option<(Dict<SeriesRecord>, int)>
    decreases |folders|
  {
    if folders == [] then Some((d, total))
    else
      var answer := env.folderItems(folders[0], "tv");
      match TvItems(d, answer.0, config, watermark)
      case None => None
      case Some(d') => TvFolders(d', total + answer.1, folders[1..], config, watermark, env)
  }

  function ThenTvFolders(r: Option<Dict<SeriesRecord>>, total: int, folders: seq<string>, config: Config,
                         watermark: Option<DateTime>, env: Services): Option<(Dict<SeriesRecord>, int)>
  {
    match r
    case None => None
    case Some(d) => TvFolders(d, total, folders, config, watermark, env)
  }

  /** One item of a TV folder: the filter, then the fold of an episode; false when it raises. */
  method AddTvItem(seriesItems: SeriesItems, item: Item, config: Config, watermarkFile: Watermark.WatermarkFile)
    returns (ok: bool)
    modifies seriesItems
    ensures var r := TvStep(old(seriesItems.Contents()), item, config, Watermark.ParseWatermark(watermarkFile.contents));
      (ok <==> r.Some?) && (ok ==> seriesItems.Contents() == r.value)
  {
    var skip := IsSkipped(item, config, watermarkFile);
    if skip.None? {
      return false;
    }
    if !skip.value {
      if item.itemType.None? {
        return false;
      }
      if item.itemType.value == "Episode" {
        Episodes.PopulateSeriesItemFromEpisode(seriesItems, item);
      }
    }
    return true;
  }

  /** The TV loops: fills `seriesItems` and returns `total_tv`, or None when an exception escapes. */
  method CollectEpisodes(seriesItems: SeriesItems, tvFolders: seq<string>, config: Config, env: Services,
                         watermarkFile: Watermark.WatermarkFile) returns (totalTv: Option<int>)
    modifies seriesItems
    ensures var r := TvFolders(old(seriesItems.Contents()), 0, tvFolders, config,
                               Watermark.ParseWatermark(watermarkFile.contents), env);
      (totalTv.None? <==> r.None?) && (r.Some? ==> seriesItems.Contents() == r.value.0 && totalTv.value == r.value.1)
  {
    ghost var w := Watermark.ParseWatermark(watermarkFile.contents);
    ghost var goal := TvFolders(seriesItems.Contents(), 0, tvFolders, config, w, env);
    var total := 0;
    var i := 0;
    while i < |tvFolders|
      invariant 0 <= i <= |tvFolders|
      invariant goal == TvFolders(seriesItems.Contents(), total, tvFolders[i..], config, w, env)
    {
      var answer := env.folderItems(tvFolders[i], "tv");
      var items := answer.0;
      total := total + answer.1;
      assert tvFolders[i..][1..] == tvFolders[i + 1..];
      var j := 0;
      while j < |items|
        invariant 0 <= j <= |items|
        invariant goal == ThenTvFolders(TvItems(seriesItems.Contents(), items[j..], config, w), total,
                                        tvFolders[i + 1..], config, w, env)
      {
        assert items[j..][1..] == items[j + 1..];
        var ok := AddTvItem(seriesItems, items[j], config, watermarkFile);
        if !ok {
          return None;
        }
        j := j + 1;
      }
      i := i + 1;
    }
    return Some(total);
  }

  /** The episodes the TV loop folds: kept by the filter and of Type "Episode". */
  predicate FoldedEpisode(item: Item, config: Config, watermark: Option<DateTime>) {
    SkipsItem(config.ignoreItemAddedBeforeLastNewsletter, watermark, item.dateCreated) == Some(false)
    && item.itemType == Some("Episode")
  }

  function FoldedOf(items: seq<Item>, config: Config, watermark: Option<DateTime>): seq<Item> {
    if items == [] then []
    else (if FoldedEpisode(items[0], config, watermark) then [items[0]] else [])
         + FoldedOf(items[1..], config, watermark)
  }

  function FoldedInFolders(folders: seq<string>, config: Config, watermark: Option<DateTime>, env: Services): seq<Item> {
    if folders == [] then []
    else FoldedOf(env.folderItems(folders[0], "tv").0, config, watermark)
         + FoldedInFolders(folders[1..], config, watermark, env)
  }

  lemma {:induction false} FoldEpisodesAppend(d: Dict<SeriesRecord>, a: seq<Item>, b: seq<Item>)
    ensures Episodes.FoldEpisodes(d, a + b) == Episodes.FoldEpisodes(Episodes.FoldEpisodes(d, a), b)
    decreases |b|
  {
    if b == [] {
      assert a + b == a;
    } else {
      assert (a + b)[..|a + b| - 1] == a + b[..|b| - 1];
      assert (a + b)[|a + b| - 1] == b[|b| - 1];
      FoldEpisodesAppend(d, a, b[..|b| - 1]);
    }
  }

  /** A folder's items fold into the dictionary exactly as its kept episodes, in order. */
  lemma {:induction false} TvItemsFold(d: Dict<SeriesRecord>, items: seq<Item>, config: Config, watermark: Option<DateTime>)
    ensures var r := TvItems(d, items, config, watermark);
      r.Some? ==> r.value == Episodes.FoldEpisodes(d, FoldedOf(items, config, watermark))
    decreases |items|
  {
    if items != [] {
      var x := items[0];
      var r1 := TvStep(d, x, config, watermark);
      if r1.Some? {
        TvItemsFold(r1.value, items[1..], config, watermark);
        var rest := FoldedOf(items[1..], config, watermark);
        if FoldedEpisode(x, config, watermark) {
          FoldEpisodesAppend(d, [x], rest);
          assert [x][..0] == [];
          assert Episodes.FoldEpisodes(d, [x]) == Episodes.FoldEpisode(d, x);
        } else {
          assert FoldedOf(items, config, watermark) == rest;
        }
      }
    }
  }

  /**
   * The TV loops fold exactly the kept episodes of the watched TV folders, folder after
   * folder, and `total_tv` adds up the server's totals.
   */
  lemma {:induction false} TvFoldersFold(d: Dict<SeriesRecord>, total: int, folders: seq<string>, config: Config,
                                         watermark: Option<DateTime>, env: Services)
    ensures var r := TvFolders(d, total, folders, config, watermark, env);
      r.Some? ==> && r.value.0 == Episodes.FoldEpisodes(d, FoldedInFolders(folders, config, watermark, env))
                  && r.value.1 == total + SumCounts(folders, "tv", env)
    decreases |folders|
  {
    if folders == [] {
      assert FoldedInFolders(folders, config, watermark, env) == [];
    } else {
      var answer := env.folderItems(folders[0], "tv");
      var r1 := TvItems(d, answer.0, config, watermark);
      if r1.Some? {
        TvItemsFold(d, answer.0, config, watermark);
        TvFoldersFold(r1.value, total + answer.1, folders[1..], config, watermark, env);
        FoldEpisodesAppend(d, FoldedOf(answer.0, config, watermark), FoldedInFolders(folders[1..], config, watermark, env));
      }
    }
  }

  // ---------------------------------------------------------------------------------------
  // The run (main.py:109-206)
  // ---------------------------------------------------------------------------------------

  /** The outcome of `send_newsletter` for a configuration, a stored watermark and the services' answers. */
  function Newsletter(config: Config, watermark: Option<DateTime>, env: Services): Outcome {
    match WatchedFolders(env.rootItems, config)
    case None => Crashed
    case Some(ids) =>
      match MovieFolders(EmptyDict(), 0, ids.0, config, watermark, env)
      case None => Crashed
      case Some(movies) =>
        match TvFolders(EmptyDict(), 0, ids.1, config, watermark, env)
        case None => Crashed
        case Some(episodes) =>
          match Enrichment.EnrichFolders(Enrichment.State(episodes.0, Enrichment.Unbound), ids.1, env)
          case None => Crashed
          case Some(s) =>
            if |movies.0.order| + |s.series.order| > 0 then Email(movies.0, s.series, episodes.1, movies.1)
            else NoEmail
  }

  /** `send_newsletter`, reading the watermark file for every item when the filter is on. */
  method SendNewsletter(config: Config, env: Services, watermarkFile: Watermark.WatermarkFile) returns (outcome: Outcome)
    ensures outcome == Newsletter(config, Watermark.ParseWatermark(watermarkFile.contents), env)
  {
    var folders := WatchedFolderIds(env.rootItems, config);
    if folders.None? {
      return Crashed;
    }
    var filmIds := folders.value.0;
    var tvIds := folders.value.1;
    var movies := CollectMovies(filmIds, config, env, watermarkFile);
    if movies.None? {
      return Crashed;
    }
    var seriesItems := new SeriesItems();
    var totalTv := CollectEpisodes(seriesItems, tvIds, config, env, watermarkFile);
    if totalTv.None? {
      return Crashed;
    }
    var crashed := Enrichment.PopulateSeriesItemWithSeriesRelatedInformation(seriesItems, tvIds, env);
    if crashed {
      return Crashed;
    }
    var movieItems := movies.value.0;
    if |movieItems.order| + |seriesItems.order| > 0 {
      return Email(movieItems, seriesItems.Contents(), totalTv.value, movies.value.1);
    }
    return NoEmail;
  }

  /**
   * An email goes out only with at least one movie or series, in well-formed dictionaries;
   * its totals are the server's totals over the watched folders, and its series carry
   * exactly what folding the kept episodes produced. Without watched folders no email goes out.
   */
  lemma NewsletterOutcome(config: Config, watermark: Option<DateTime>, env: Services)
    ensures var o := Newsletter(config, watermark, env);
      o.Email? ==>
        && WatchedFolders(env.rootItems, config).Some?
        && var ids := WatchedFolders(env.rootItems, config).value;
        && o.movies.Valid() && o.series.Valid()
        && |o.movies.order| + |o.series.order| > 0
        && o.totalMovie == SumCounts(ids.0, "movie", env)
        && o.totalTv == SumCounts(ids.1, "tv", env)
        && Enrichment.SameEpisodes(Episodes.FoldEpisodes(EmptyDict(), FoldedInFolders(ids.1, config, watermark, env)), o.series)
    ensures WatchedFolders(env.rootItems, config) == Some(([], [])) ==> Newsletter(config, watermark, env) == NoEmail
  {
    var o := Newsletter(config, watermark, env);
    var r := WatchedFolders(env.rootItems, config);
    if r.Some? {
      var ids := r.value;
      var empty: Dict<SeriesRecord> := EmptyDict();
      MovieFoldersSpec(EmptyDict(), 0, ids.0, config, watermark, env);
      TvFoldersFold(empty, 0, ids.1, config, watermark, env);
      var t := TvFolders(empty, 0, ids.1, config, watermark, env);
      if t.Some? {
        Episodes.FoldEpisodesValid(empty, FoldedInFolders(ids.1, config, watermark, env));
        Enrichment.EnrichFoldersPreserves(Enrichment.State(t.value.0, Enrichment.Unbound), ids.1, env);
      }
    }
  }
}
