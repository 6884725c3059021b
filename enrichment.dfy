/**
 * `populate_series_item_with_series_related_information` of main.py: for every watched TV
 * folder and every collected series, fetch the series from Jellyfin and its details from
 * TMDB, and fill in the year, description and poster.
 */
module Enrichment {
  import opened Wrappers
  import opened Items
  import opened Tmdb

  /**
   * The local variable `tmdb_info`. It is not reset between series, so it can be unbound
   * (no assignment yet) or still hold what an earlier series obtained.
   */
  datatype Carry = Unbound | Bound(info: Option<TmdbEntry>)

  datatype State = State(series: Dict<SeriesRecord>, carry: Carry)

  /** A Jellyfin item the loop processes rather than skips: Type is "Series". */
  predicate IsSeries(item: Item) {
    item.itemType == Some("Series")
  }

  /**
   * `tmdb_info` after the id lookup and the title fallback (main.py:75-92); None when one
   * of them raises outside a handler.
   */
  function AfterLookups(item: Item, carry: Carry, env: Services): Option<Carry>
    requires item.productionYear.Some?
  {
    var afterId :=
      if item.tmdbId.None? then Some(carry)
      else match IdLookup(item.tmdbId.value, "tv", env.templateLanguage, env.fetch)
        case Raised => if item.name.None? then None else Some(carry)   // the handler reads item['Name']
        case Returned(info) => Some(Bound(info));
    if afterId.None? then None
    else
      var c := afterId.value;
      if item.tmdbId.Some? && c.Unbound? then None   // `tmdb_info is None` on an unbound name
      else if item.tmdbId.None? || c == Bound(None) then
        if item.name.None? then None
        else match TitleLookup(item.name.value, "tv", item.productionYear, env.templateLanguage, env.search)
          case Raised => Some(c)
          case Returned(info) => Some(Bound(info))
      else Some(c)
  }

  /** Writing what `tmdb_info` holds into the record under `key` (main.py:94-102). */
  function ApplyInfo(d: Dict<SeriesRecord>, key: string, item: Item, carry: Carry): Option<Dict<SeriesRecord>>
    requires key in d.entries
  {
    match carry
    case Unbound => None
    case Bound(None) => if item.name.None? then None else Some(d)
    case Bound(Some(e)) =>
      // "Overview" is written when "overview" is missing, then "overview" is read: KeyError
      if e.overview.None? then None
      else match PosterUrl(e.posterPath)
        case None => None
        case Some(poster) => Some(d.Put(key, d.entries[key].(description := e.overview.value, poster := poster)))
  }

  /** One iteration of the inner loop: series `seriesId` looked up in folder `folderId`. */
  function EnrichSeries(s: State, folderId: string, seriesId: string, env: Services): Option<State> {
    match env.itemById(folderId, seriesId)
    case None => Some(s)
    case Some(item) =>
      if !IsSeries(item) then Some(s)
      else if item.productionYear.None? || item.id.None? || item.id.value !in s.series.entries then None
      else
        var key := item.id.value;
        var d := s.series.Put(key, s.series.entries[key].(year := item.productionYear));
        match AfterLookups(item, s.carry, env)
        case None => None
        case Some(carry) =>
          match ApplyInfo(d, key, item, carry)
          case None => None
          case Some(d') => Some(State(d', carry))
  }

  /** The inner loop over the series ids `keys`, from state `s`; None when it raises. */
  function EnrichKeys(s: State, folderId: string, keys: seq<string>, env: Services): Option<State>
    decreases |keys|
  {
    if keys == [] then Some(s)
    else match EnrichSeries(s, folderId, keys[0], env)
      case None => None
      case Some(s') => EnrichKeys(s', folderId, keys[1..], env)
  }

  /** The outer loop over the remaining folders. */
  function EnrichFolders(s: State, folders: seq<string>, env: Services): Option<State>
    decreases |folders|
  {
    if folders == [] then Some(s)
    else match EnrichKeys(s, folders[0], s.series.order, env)
      case None => None
      case Some(s') => EnrichFolders(s', folders[1..], env)
  }

  function ThenFolders(r: Option<State>, folders: seq<string>, env: Services): Option<State> {
    match r
    case None => None
    case Some(s) => EnrichFolders(s, folders, env)
  }

  /** One series, statement by statement; `crashed` reports an exception escaping the function. */
  method EnrichOne(seriesItems: SeriesItems, folderId: string, seriesId: string, tmdbInfo: Carry, env: Services)
    returns (crashed: bool, carry: Carry)
    modifies seriesItems
    ensures var r := EnrichSeries(State(old(seriesItems.Contents()), tmdbInfo), folderId, seriesId, env);
      (crashed <==> r.None?) && (!crashed ==> State(seriesItems.Contents(), carry) == r.value)
  {
    carry := tmdbInfo;
    var found := env.itemById(folderId, seriesId);
    if found.None? {
      return false, carry;
    }
    var item := found.value;
    if item.itemType.None? || item.itemType.value != "Series" {
      return false, carry;
    }
    if item.productionYear.None? || item.id.None? || item.id.value !in seriesItems.entries {
      return true, carry;
    }
    var key := item.id.value;
    seriesItems.entries := seriesItems.entries[key := seriesItems.entries[key].(year := item.productionYear)];
    crashed, carry := LookUpInfo(item, tmdbInfo, env);
    if crashed {
      return;
    }
    crashed := WriteInfo(seriesItems, key, item, carry);
  }

  /** The id lookup and the title fallback, statement by statement (main.py:75-92). */
  method LookUpInfo(item: Item, tmdbInfo: Carry, env: Services) returns (crashed: bool, carry: Carry)
    requires item.productionYear.Some?
    ensures var r := AfterLookups(item, tmdbInfo, env);
      (crashed <==> r.None?) && (!crashed ==> carry == r.value)
  {
    carry := tmdbInfo;
    var tmdbId := item.tmdbId;
    if tmdbId.Some? {
      var byId := IdLookup(tmdbId.value, "tv", env.templateLanguage, env.fetch);
      if byId.Raised? {
        if item.name.None? {
          return true, carry;
        }
      } else {
        carry := Bound(byId.info);
      }
    }
    if tmdbId.Some? && carry.Unbound? {
      return true, carry;
    }
    if tmdbId.None? || carry == Bound(None) {
      if item.name.None? {
        return true, carry;
      }
      var byTitle := GetMediaDetailFromTitle(item.name.value, "tv", item.productionYear, env.templateLanguage, env.search);
      if byTitle.Returned? {
        carry := Bound(byTitle.info);
      }
    }
    return false, carry;
  }

  /** Writing `tmdb_info` into the record under `key`, statement by statement (main.py:94-102). */
  method WriteInfo(seriesItems: SeriesItems, key: string, item: Item, carry: Carry) returns (crashed: bool)
    requires key in seriesItems.entries
    modifies seriesItems
    ensures var r := ApplyInfo(old(seriesItems.Contents()), key, item, carry);
      (crashed <==> r.None?) && (!crashed ==> seriesItems.Contents() == r.value)
  {
    match carry {
      case Unbound =>
        return true;
      case Bound(None) =>
        return item.name.None?;
      case Bound(Some(e)) =>
        if e.overview.None? {
          return true;
        }
        seriesItems.entries := seriesItems.entries[key := seriesItems.entries[key].(description := e.overview.value)];
        if e.posterPath.Absent? {
          return true;
        }
        var poster := if e.posterPath.Present? && e.posterPath.value != "" then PosterBase + e.posterPath.value
                      else PlaceholderPoster;
        seriesItems.entries := seriesItems.entries[key := seriesItems.entries[key].(poster := poster)];
        return false;
    }
  }

  /** `populate_series_item_with_series_related_information`; `crashed` reports an escaping exception. */
  method PopulateSeriesItemWithSeriesRelatedInformation(seriesItems: SeriesItems, watchedTvFolders: seq<string>,
                                                        env: Services)
    returns (crashed: bool)
    modifies seriesItems
    ensures var r := EnrichFolders(State(old(seriesItems.Contents()), Unbound), watchedTvFolders, env);
      (crashed <==> r.None?) && (!crashed ==> seriesItems.Contents() == r.value.series)
  {
    ghost var goal := EnrichFolders(State(seriesItems.Contents(), Unbound), watchedTvFolders, env);
    var tmdbInfo := Unbound;
    var i := 0;
    while i < |watchedTvFolders|
      invariant 0 <= i <= |watchedTvFolders|
      invariant goal == EnrichFolders(State(seriesItems.Contents(), tmdbInfo), watchedTvFolders[i..], env)
    {
      var folderId := watchedTvFolders[i];
      var keys := seriesItems.order;
      var j := 0;
      while j < |keys|
        invariant 0 <= j <= |keys|
        invariant goal == ThenFolders(EnrichKeys(State(seriesItems.Contents(), tmdbInfo), folderId, keys[j..], env),
                                      watchedTvFolders[i + 1..], env)
      {
        var failed;
        ghost var before := State(seriesItems.Contents(), tmdbInfo);
        failed, tmdbInfo := EnrichOne(seriesItems, folderId, keys[j], tmdbInfo, env);
        assert keys[j..][1..] == keys[j + 1..];
        if failed {
          return true;
        }
        j := j + 1;
      }
      assert watchedTvFolders[i..][1..] == watchedTvFolders[i + 1..];
      i := i + 1;
    }
    return false;
  }

  /** Two dictionaries agree on everything the episode fold produced: keys, order, names, seasons, episodes, dates. */
  ghost predicate SameEpisodes(a: Dict<SeriesRecord>, b: Dict<SeriesRecord>) {
    && a.order == b.order
    && (forall k :: k in a.entries <==> k in b.entries)
    && (forall k :: k in a.entries ==>
          && b.entries[k].seriesName == a.entries[k].seriesName
          && b.entries[k].seasons == a.entries[k].seasons
          && b.entries[k].episodes == a.entries[k].episodes
          && b.entries[k].createdOn == a.entries[k].createdOn)
  }

  /** Enriching one series only rewrites year, description and poster of an existing record. */
  lemma EnrichSeriesPreserves(s: State, folderId: string, seriesId: string, env: Services)
    ensures EnrichSeries(s, folderId, seriesId, env).Some? ==>
              SameEpisodes(s.series, EnrichSeries(s, folderId, seriesId, env).value.series)
  {
  }

  lemma {:induction false} EnrichKeysPreserves(s: State, folderId: string, keys: seq<string>, env: Services)
    ensures EnrichKeys(s, folderId, keys, env).Some? ==>
              SameEpisodes(s.series, EnrichKeys(s, folderId, keys, env).value.series)
    decreases |keys|
  {
    if keys != [] {
      EnrichSeriesPreserves(s, folderId, keys[0], env);
      var r := EnrichSeries(s, folderId, keys[0], env);
      if r.Some? {
        EnrichKeysPreserves(r.value, folderId, keys[1..], env);
      }
    }
  }

  /**
   * The whole enrichment, when it does not raise, leaves the keys, their order, and every
   * series' name, seasons, episodes and creation date as the episode fold left them.
   */
  lemma {:induction false} EnrichFoldersPreserves(s: State, folders: seq<string>, env: Services)
    ensures EnrichFolders(s, folders, env).Some? ==>
              SameEpisodes(s.series, EnrichFolders(s, folders, env).value.series)
    decreases |folders|
  {
    if folders != [] {
      EnrichKeysPreserves(s, folders[0], s.series.order, env);
      var r := EnrichKeys(s, folders[0], s.series.order, env);
      if r.Some? {
        EnrichFoldersPreserves(r.value, folders[1..], env);
      }
    }
  }

  /**
   * When Jellyfin supplies a TMDB id and the lookup by id succeeds, the title search is not
   * consulted: the outcome is the same whatever the search endpoint would answer.
   */
  lemma IdLookupFirst(s: State, folderId: string, seriesId: string, env: Services,
                      otherSearch: string -> SearchResponse)
    requires env.itemById(folderId, seriesId).Some?
    requires var item := env.itemById(folderId, seriesId).value;
      item.tmdbId.Some? && IdLookup(item.tmdbId.value, "tv", env.templateLanguage, env.fetch).Returned?
    ensures EnrichSeries(s, folderId, seriesId, env) == EnrichSeries(s, folderId, seriesId, env.(search := otherSearch))
  {
    var item := env.itemById(folderId, seriesId).value;
    if IsSeries(item) && item.productionYear.Some? {
      var entry := env.fetch(DetailUrl(item.tmdbId.value, "tv", env.templateLanguage)).entry;
      assert IdLookup(item.tmdbId.value, "tv", env.templateLanguage, env.fetch) == Returned(Some(entry));
      assert AfterLookups(item, s.carry, env) == Some(Bound(Some(entry)));
      assert AfterLookups(item, s.carry, env.(search := otherSearch)) == Some(Bound(Some(entry)));
    }
  }

  /**
   * The title search runs exactly when there is no TMDB id or `tmdb_info` is None after the
   * id step: the id lookup, which never returns None for "tv", raised while the carried
   * `tmdb_info` was None. The search is given the item's Name and ProductionYear.
   */
  lemma TitleSearchWhenNeeded(item: Item, carry: Carry, env: Services)
    requires item.productionYear.Some? && item.name.Some?
    ensures item.tmdbId.None? ==>
      AfterLookups(item, carry, env) ==
        match TitleLookup(item.name.value, "tv", item.productionYear, env.templateLanguage, env.search)
        case Raised => Some(carry)
        case Returned(info) => Some(Bound(info))
    ensures (item.tmdbId.Some? && carry == Bound(None)
             && IdLookup(item.tmdbId.value, "tv", env.templateLanguage, env.fetch) == Raised) ==>
      AfterLookups(item, carry, env) ==
        match TitleLookup(item.name.value, "tv", item.productionYear, env.templateLanguage, env.search)
        case Raised => Some(Bound(None))
        case Returned(info) => Some(Bound(info))
  {
  }

  /**
   * The carried-over `tmdb_info`: when the id lookup raises and an earlier series left a
   * result in the variable, this series receives that earlier series' description and poster.
   */
  lemma CarriedOverInfo(s: State, folderId: string, seriesId: string, env: Services, e: TmdbEntry)
    requires s.carry == Bound(Some(e)) && e.overview.Some? && !e.posterPath.Absent?
    requires env.itemById(folderId, seriesId).Some?
    requires var item := env.itemById(folderId, seriesId).value;
      && IsSeries(item) && item.productionYear.Some? && item.name.Some?
      && item.id.Some? && item.id.value in s.series.entries
      && item.tmdbId.Some? && IdLookup(item.tmdbId.value, "tv", env.templateLanguage, env.fetch) == Raised
    ensures var key := env.itemById(folderId, seriesId).value.id.value;
      var r := EnrichSeries(s, folderId, seriesId, env);
      && r.Some? && r.value.carry == s.carry
      && r.value.series.entries[key].description == e.overview.value
      && Some(r.value.series.entries[key].poster) == PosterUrl(e.posterPath)
  {
  }

  /** When the id lookup raises before `tmdb_info` was ever assigned, the run fails. */
  lemma UnboundInfoRaises(s: State, folderId: string, seriesId: string, env: Services)
    requires s.carry == Unbound
    requires env.itemById(folderId, seriesId).Some?
    requires var item := env.itemById(folderId, seriesId).value;
      && IsSeries(item) && item.tmdbId.Some?
      && IdLookup(item.tmdbId.value, "tv", env.templateLanguage, env.fetch) == Raised
    ensures EnrichSeries(s, folderId, seriesId, env) == None
  {
  }

  /**
   * The outcome for a series record: the year becomes the item's ProductionYear; a found
   * TMDB entry sets the description to its overview and the poster by the poster rule, and
   * a TMDB entry without "overview" makes the run fail; when nothing was found, description
   * and poster stay as they were.
   */
  lemma EnrichSeriesEffect(s: State, folderId: string, seriesId: string, env: Services)
    requires env.itemById(folderId, seriesId).Some?
    requires var item := env.itemById(folderId, seriesId).value;
      IsSeries(item) && item.id.Some? && item.id.value in s.series.entries
    ensures var item := env.itemById(folderId, seriesId).value;
      var key, r := item.id.value, EnrichSeries(s, folderId, seriesId, env);
      && (r.Some? && r.value.carry == Bound(None) ==>
            && r.value.series.entries[key].year == item.productionYear
            && r.value.series.entries[key].description == s.series.entries[key].description
            && r.value.series.entries[key].poster == s.series.entries[key].poster)
      && (r.Some? && r.value.carry.Bound? && r.value.carry.info.Some? ==>
            var e := r.value.carry.info.value;
            && r.value.series.entries[key].year == item.productionYear
            && Some(r.value.series.entries[key].description) == e.overview
            && Some(r.value.series.entries[key].poster) == PosterUrl(e.posterPath))
      && (item.productionYear.Some? && AfterLookups(item, s.carry, env).Some? ==>
            var c := AfterLookups(item, s.carry, env).value;
            c.Bound? && c.info.Some? && c.info.value.overview.None? ==> r.None?)
  {
  }
}
