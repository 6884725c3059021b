/**
 * The TMDB client of source/TmdbAPI.py. The HTTP answers are inputs: a function from the
 * request URL to the response the server gives.
 */
module Tmdb {
  import opened Wrappers
  import opened Numerals

  /** One TMDB media object, as far as the newsletter reads it. */
  datatype TmdbEntry = TmdbEntry(
    overview: Option<string>,     // None: the JSON object has no "overview" key
    posterPath: Field<string>,    // "poster_path": missing, null or a string
    popularity: real)

  /** The answer to `/3/search/<type>`: its status and, on 200, the parsed body. */
  datatype SearchResponse = SearchResponse(status: int, totalResults: int, results: seq<TmdbEntry>)

  /** The answer to `/3/<type>/<id>`. */
  datatype DetailResponse = DetailResponse(status: int, entry: TmdbEntry)

  /** The outcome of a lookup: it raised an exception, or it returned a value (None or a result). */
  datatype Lookup = Raised | Returned(info: Option<TmdbEntry>)

  predicate ValidType(mediaType: string) {
    mediaType == "movie" || mediaType == "tv"
  }

  /** The `language=` parameter chosen from the configured template language. */
  function Language(templateLanguage: string): (lang: string)
    ensures lang == "fr-fr" <==> templateLanguage == "fr"
    ensures lang == "en-us" <==> templateLanguage != "fr"
  {
    if templateLanguage == "fr" then "fr-fr" else "en-us"
  }

  /** `f"&year={year}" if year else ""`: None and 0 are falsy. */
  function YearQuery(year: Option<int>): (q: string)
    ensures q == "" <==> year.None? || year.value == 0
    ensures q != "" ==> q == "&year=" + IntToString(year.value)
  {
    if year.Some? && year.value != 0 then "&year=" + IntToString(year.value) else ""
  }

  const SearchBase := "https://api.themoviedb.org/3/search/"
  const DetailBase := "https://api.themoviedb.org/3/"

  function SearchUrl(title: string, mediaType: string, year: Option<int>, templateLanguage: string): string {
    SearchBase + mediaType + "?query=" + title + "&language=" + Language(templateLanguage) + YearQuery(year)
  }

  function DetailUrl(id: string, mediaType: string, templateLanguage: string): string {
    DetailBase + mediaType + "/" + id + "?language=" + Language(templateLanguage)
  }

  /**
   * `(max_popularity, best_result)` after the selection loop has seen `rs`: a result replaces
   * the current best only when its popularity is strictly greater.
   */
  function Scan(rs: seq<TmdbEntry>): (real, Option<TmdbEntry>) {
    if rs == [] then (0.0, None)
    else
      var prev := Scan(rs[..|rs| - 1]);
      var e := rs[|rs| - 1];
      if e.popularity > prev.0 then (e.popularity, Some(e)) else prev
  }

  function Best(rs: seq<TmdbEntry>): Option<TmdbEntry> {
    Scan(rs).1
  }

  /** `k` is the earliest index holding the greatest popularity, and that popularity is positive. */
  predicate IsBest(rs: seq<TmdbEntry>, k: int) {
    && 0 <= k < |rs|
    && rs[k].popularity > 0.0
    && (forall j :: 0 <= j < |rs| ==> rs[j].popularity <= rs[k].popularity)
    && (forall j :: 0 <= j < k ==> rs[j].popularity < rs[k].popularity)
  }

  /** The selection loop of `get_media_detail_from_title`. */
  method SelectBest(results: seq<TmdbEntry>) returns (best: Option<TmdbEntry>)
    ensures best == Best(results)
  {
    var maxPopularity := 0.0;
    best := None;
    var i := 0;
    while i < |results|
      invariant 0 <= i <= |results|
      invariant (maxPopularity, best) == Scan(results[..i])
    {
      assert results[..i + 1][..i] == results[..i];
      if results[i].popularity > maxPopularity {
        maxPopularity := results[i].popularity;
        best := Some(results[i]);
      }
      i := i + 1;
    }
    assert results[..i] == results;
  }

  lemma {:induction false} ScanInvariant(rs: seq<TmdbEntry>)
    ensures Scan(rs).1.None? ==> Scan(rs).0 == 0.0 && forall j :: 0 <= j < |rs| ==> rs[j].popularity <= 0.0
    ensures Scan(rs).1.Some? ==> exists k :: IsBest(rs, k) && Scan(rs) == (rs[k].popularity, Some(rs[k]))
  {
    if rs != [] {
      var p := rs[..|rs| - 1];
      var e := rs[|rs| - 1];
      ScanInvariant(p);
      if e.popularity > Scan(p).0 {
        assert IsBest(rs, |rs| - 1) by {
          forall j | 0 <= j < |rs| - 1
            ensures rs[j].popularity < e.popularity
          {
            assert rs[j] == p[j];
            if Scan(p).1.Some? {
              var k :| IsBest(p, k) && Scan(p) == (p[k].popularity, Some(p[k]));
            }
          }
        }
      } else if Scan(p).1.Some? {
        var k :| IsBest(p, k) && Scan(p) == (p[k].popularity, Some(p[k]));
        assert rs[k] == p[k];
        assert IsBest(rs, k) by {
          forall j | 0 <= j < |rs|
            ensures rs[j].popularity <= rs[k].popularity
          {
            if j < |p| {
              assert rs[j] == p[j];
            }
          }
          forall j | 0 <= j < k
            ensures rs[j].popularity < rs[k].popularity
          {
            assert rs[j] == p[j];
          }
        }
      } else {
        forall j | 0 <= j < |rs|
          ensures rs[j].popularity <= 0.0
        {
          if j < |p| {
            assert rs[j] == p[j];
          }
        }
      }
    }
  }

  /**
   * The loop selects the earliest result of greatest popularity when that popularity is
   * positive, and selects nothing exactly when no popularity is positive.
   */
  lemma BestIsEarliestMaximum(rs: seq<TmdbEntry>)
    ensures Best(rs).None? <==> forall j :: 0 <= j < |rs| ==> rs[j].popularity <= 0.0
    ensures Best(rs).Some? ==> exists k :: IsBest(rs, k) && Best(rs) == Some(rs[k])
    ensures forall k :: IsBest(rs, k) ==> Best(rs) == Some(rs[k])
  {
    ScanInvariant(rs);
    if Best(rs).Some? {
      var k :| IsBest(rs, k) && Scan(rs) == (rs[k].popularity, Some(rs[k]));
    }
  }

  /** What `get_media_detail_from_title(title, type, year)` returns or raises. */
  function TitleLookup(title: string, mediaType: string, year: Option<int>, templateLanguage: string,
                       search: string -> SearchResponse): Lookup
  {
    if !ValidType(mediaType) then Returned(None)
    else
      var response := search(SearchUrl(title, mediaType, year, templateLanguage));
      if response.status != 200 then Raised
      else if response.totalResults == 1 then
        (if |response.results| == 0 then Raised else Returned(Some(response.results[0])))
      else if response.totalResults > 1 then
        (match Best(response.results)
         case None => Raised   // `best_result['id']` on None raises TypeError
         case Some(e) => Returned(Some(e)))
      else Returned(None)
  }

  /** `get_media_detail_from_title`, with the selection loop as a method. */
  method GetMediaDetailFromTitle(title: string, mediaType: string, year: Option<int>, templateLanguage: string,
                                 search: string -> SearchResponse) returns (r: Lookup)
    ensures r == TitleLookup(title, mediaType, year, templateLanguage, search)
  {
    var yearQuery := YearQuery(year);
    if mediaType != "movie" && mediaType != "tv" {
      return Returned(None);
    }
    var lang := Language(templateLanguage);
    var url := SearchBase + mediaType + "?query=" + title + "&language=" + lang + yearQuery;
    var response := search(url);
    if response.status != 200 {
      return Raised;
    }
    if response.totalResults == 1 {
      if |response.results| == 0 {
        return Raised;
      }
      return Returned(Some(response.results[0]));
    } else if response.totalResults > 1 {
      var best := SelectBest(response.results);
      if best.None? {
        return Raised;
      }
      return Returned(best);
    } else {
      return Returned(None);
    }
  }

  /** What `get_media_detail_from_id(id, type)` returns or raises. */
  function IdLookup(id: string, mediaType: string, templateLanguage: string,
                    fetch: string -> DetailResponse): (r: Lookup)
    ensures !ValidType(mediaType) ==> r == Returned(None)
    ensures ValidType(mediaType) ==>
              (r.Raised? <==> fetch(DetailUrl(id, mediaType, templateLanguage)).status != 200)
    ensures ValidType(mediaType) && r.Returned? ==>
              r.info == Some(fetch(DetailUrl(id, mediaType, templateLanguage)).entry)
  {
    if !ValidType(mediaType) then Returned(None)
    else
      var response := fetch(DetailUrl(id, mediaType, templateLanguage));
      if response.status != 200 then Raised else Returned(Some(response.entry))
  }

  /** A type other than "movie" or "tv" returns None whatever the server would answer. */
  lemma InvalidTypeNoRequest(title: string, mediaType: string, year: Option<int>, templateLanguage: string,
                             s1: string -> SearchResponse, s2: string -> SearchResponse)
    requires !ValidType(mediaType)
    ensures TitleLookup(title, mediaType, year, templateLanguage, s1) == Returned(None)
    ensures TitleLookup(title, mediaType, year, templateLanguage, s1)
              == TitleLookup(title, mediaType, year, templateLanguage, s2)
  {
  }

  /**
   * On a valid type the search outcome: a non-200 status raises; one result returns
   * the first one; several return the best one, or raise when none has positive popularity;
   * none returns None.
   */
  lemma TitleLookupOutcome(title: string, mediaType: string, year: Option<int>, templateLanguage: string,
                           search: string -> SearchResponse)
    requires ValidType(mediaType)
    ensures var resp := search(SearchUrl(title, mediaType, year, templateLanguage));
      var r := TitleLookup(title, mediaType, year, templateLanguage, search);
      && (resp.status != 200 ==> r == Raised)
      && (resp.status == 200 && resp.totalResults <= 0 ==> r == Returned(None))
      && (resp.status == 200 && resp.totalResults == 1 && |resp.results| > 0 ==> r == Returned(Some(resp.results[0])))
      && (resp.status == 200 && resp.totalResults > 1 ==>
            (r == Raised <==> forall j :: 0 <= j < |resp.results| ==> resp.results[j].popularity <= 0.0))
      && (resp.status == 200 && resp.totalResults > 1 && r.Returned? ==>
            exists k :: IsBest(resp.results, k) && r.info == Some(resp.results[k]))
  {
    var resp := search(SearchUrl(title, mediaType, year, templateLanguage));
    BestIsEarliestMaximum(resp.results);
  }
}
