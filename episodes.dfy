/**
 * `populate_series_item_from_episode` of main.py: folds one Jellyfin episode into the
 * `series_items` dictionary.
 */
module Episodes {
  import opened Wrappers
  import opened Items
  import opened DateTimes

  /** The episode has all of SeriesId, SeriesName and SeasonName. */
  predicate Complete(item: Item) {
    item.seriesId.Some? && item.seriesName.Some? && item.seasonName.Some?
  }

  /** `item.get("DateCreated", "undefined")`. */
  function CreatedOn(dateCreated: Field<string>): Option<string> {
    match dateCreated
    case Absent => Some("undefined")
    case Null => None
    case Present(s) => Some(s)
  }

  /** The record created on the first episode of a series. */
  function NewRecord(seriesName: string): SeriesRecord {
    SeriesRecord(seriesName, [], [], Some("undefined"), DefaultDescription, None, PlaceholderPoster)
  }

  /** The record after one more episode of its series. */
  function AddEpisode(r: SeriesRecord, item: Item): SeriesRecord
    requires Complete(item)
  {
    var season := item.seasonName.value;
    r.(seasons := if season in r.seasons then r.seasons else r.seasons + [season],
       episodes := r.episodes + [item.indexNumber],
       createdOn := CreatedOn(item.dateCreated))
  }

  /** The dictionary after `populate_series_item_from_episode(series_items, item)`. */
  function FoldEpisode(d: Dict<SeriesRecord>, item: Item): Dict<SeriesRecord> {
    if !Complete(item) then d
    else
      var id := item.seriesId.value;
      var r := if id in d.entries then d.entries[id] else NewRecord(item.seriesName.value);
      d.Put(id, AddEpisode(r, item))
  }

  /** The dictionary after folding a list of episodes in order. */
  function FoldEpisodes(d: Dict<SeriesRecord>, items: seq<Item>): Dict<SeriesRecord> {
    if items == [] then d else FoldEpisode(FoldEpisodes(d, items[..|items| - 1]), items[|items| - 1])
  }

  /**
   * `populate_series_item_from_episode`, statement by statement, including the comparison of
   * creation dates at main.py:48-53 whose result line 54 always overwrites.
   */
  method PopulateSeriesItemFromEpisode(seriesItems: SeriesItems, item: Item)
    modifies seriesItems
    ensures seriesItems.Contents() == FoldEpisode(old(seriesItems.Contents()), item)
  {
    if item.seriesId.None? || item.seriesName.None? || item.seasonName.None? {
      return;
    }
    var id := item.seriesId.value;
    if id !in seriesItems.entries {
      seriesItems.order := seriesItems.order + [id];
      seriesItems.entries := seriesItems.entries[id := NewRecord(item.seriesName.value)];
    }
    var record := seriesItems.entries[id];
    if item.seasonName.value !in record.seasons {
      record := record.(seasons := record.seasons + [item.seasonName.value]);
    }
    record := record.(episodes := record.episodes + [item.indexNumber]);
    if record.createdOn != Some("undefined") || record.createdOn.Some? {
      // fromisoformat raises on None, on "undefined" and on a missing DateCreated; the bare
      // except swallows it
      if record.createdOn.Some? && item.dateCreated.Present? {
        var previous := ParseIso(record.createdOn.value);
        var current := ParseIso(item.dateCreated.value);
        if previous.Some? && current.Some? && Before(previous.value, current.value) {
          record := record.(createdOn := Some(item.dateCreated.value));
        }
      }
    }
    record := record.(createdOn := CreatedOn(item.dateCreated));
    seriesItems.entries := seriesItems.entries[id := record];
  }

  /** An episode missing SeriesId, SeriesName or SeasonName changes nothing. */
  lemma IncompleteIgnored(d: Dict<SeriesRecord>, item: Item)
    requires !Complete(item)
    ensures FoldEpisode(d, item) == d
  {
  }

  /**
   * The first episode of a series appends its id to the key order and creates the record
   * with the default description, year and poster, the episode's series name, and this
   * episode's season, index and creation date.
   */
  lemma FirstEpisodeCreates(d: Dict<SeriesRecord>, item: Item)
    requires Complete(item) && item.seriesId.value !in d.entries
    ensures var r := FoldEpisode(d, item);
      && r.order == d.order + [item.seriesId.value]
      && r.entries[item.seriesId.value] == SeriesRecord(
           item.seriesName.value, [item.indexNumber], [item.seasonName.value],
           CreatedOn(item.dateCreated), "No description available.", None, PlaceholderPoster)
  {
  }

  /**
   * A later episode of a known series keeps the key order and the record's name,
   * description, year and poster, and appends exactly one index.
   */
  lemma LaterEpisodeKeeps(d: Dict<SeriesRecord>, item: Item)
    requires Complete(item) && item.seriesId.value in d.entries
    ensures var r := FoldEpisode(d, item);
      var before, after := d.entries[item.seriesId.value], r.entries[item.seriesId.value];
      && r.order == d.order
      && after.seriesName == before.seriesName && after.description == before.description
      && after.year == before.year && after.poster == before.poster
      && after.episodes == before.episodes + [item.indexNumber]
      && after.createdOn == CreatedOn(item.dateCreated)
  {
  }

  /** Every other series is left exactly as it was. */
  lemma OtherSeriesUntouched(d: Dict<SeriesRecord>, item: Item, k: string)
    requires !Complete(item) || k != item.seriesId.value
    ensures var r := FoldEpisode(d, item);
      (k in r.entries <==> k in d.entries) && (k in d.entries ==> r.entries[k] == d.entries[k])
  {
  }

  /** The fold keeps the dictionary well formed and only ever appends keys. */
  lemma FoldEpisodeValid(d: Dict<SeriesRecord>, item: Item)
    requires d.Valid()
    ensures FoldEpisode(d, item).Valid() && d.order <= FoldEpisode(d, item).order
  {
    if Complete(item) {
      var id := item.seriesId.value;
      var r := if id in d.entries then d.entries[id] else NewRecord(item.seriesName.value);
      PutValid(d, id, AddEpisode(r, item));
    }
  }

  lemma {:induction false} FoldEpisodesValid(d: Dict<SeriesRecord>, items: seq<Item>)
    requires d.Valid()
    ensures FoldEpisodes(d, items).Valid() && d.order <= FoldEpisodes(d, items).order
  {
    if items != [] {
      FoldEpisodesValid(d, items[..|items| - 1]);
      FoldEpisodeValid(FoldEpisodes(d, items[..|items| - 1]), items[|items| - 1]);
    }
  }

  predicate AllComplete(evs: seq<Item>) {
    forall i :: 0 <= i < |evs| ==> evs[i].seriesId.Some? && evs[i].seriesName.Some? && evs[i].seasonName.Some?
  }

  /** The complete episodes of series `id`, in order. */
  function EpisodesOf(items: seq<Item>, id: string): (evs: seq<Item>)
    ensures AllComplete(evs) && forall i :: 0 <= i < |evs| ==> evs[i].seriesId == Some(id)
  {
    if items == [] then []
    else
      var x := items[|items| - 1];
      EpisodesOf(items[..|items| - 1], id) + (if Complete(x) && x.seriesId == Some(id) then [x] else [])
  }

  function SeasonNames(evs: seq<Item>): (s: seq<string>)
    requires forall i :: 0 <= i < |evs| ==> evs[i].seasonName.Some?
    ensures |s| == |evs| && forall i :: 0 <= i < |evs| ==> s[i] == evs[i].seasonName.value
  {
    if evs == [] then [] else SeasonNames(evs[..|evs| - 1]) + [evs[|evs| - 1].seasonName.value]
  }

  function Indices(evs: seq<Item>): (s: seq<Option<int>>)
    ensures |s| == |evs| && forall i :: 0 <= i < |evs| ==> s[i] == evs[i].indexNumber
  {
    if evs == [] then [] else Indices(evs[..|evs| - 1]) + [evs[|evs| - 1].indexNumber]
  }

  /** `base` followed by the elements of `s` not seen before, each once, in first-seen order. */
  function AppendNew(base: seq<string>, s: seq<string>): seq<string> {
    if s == [] then base
    else
      var r := AppendNew(base, s[..|s| - 1]);
      if s[|s| - 1] in r then r else r + [s[|s| - 1]]
  }

  predicate Distinct(s: seq<string>) {
    forall i, j :: 0 <= i < j < |s| ==> s[i] != s[j]
  }

  /** AppendNew keeps the list duplicate-free, extends `base`, and holds exactly the values seen. */
  lemma {:induction false} AppendNewProperties(base: seq<string>, s: seq<string>)
    requires Distinct(base)
    ensures Distinct(AppendNew(base, s)) && base <= AppendNew(base, s)
    ensures forall x :: x in AppendNew(base, s) <==> x in base || x in s
  {
    if s != [] {
      var p := s[..|s| - 1];
      AppendNewProperties(base, p);
      assert forall x :: x in s <==> x in p || x == s[|s| - 1];
    }
  }

  /** A record grown by a list of its episodes, written out field by field. */
  function Grown(r: SeriesRecord, evs: seq<Item>): SeriesRecord
    requires AllComplete(evs)
  {
    r.(seasons := AppendNew(r.seasons, SeasonNames(evs)),
       episodes := r.episodes + Indices(evs),
       createdOn := if evs == [] then r.createdOn else CreatedOn(evs[|evs| - 1].dateCreated))
  }

  lemma GrownSnoc(r: SeriesRecord, evs: seq<Item>, x: Item)
    requires AllComplete(evs)
    requires Complete(x)
    ensures Grown(r, evs + [x]) == AddEpisode(Grown(r, evs), x)
  {
    var e := evs + [x];
    assert e[..|evs|] == evs && e[|evs|] == x;
    var names := SeasonNames(evs);
    assert SeasonNames(e) == names + [x.seasonName.value];
    var seasons := AppendNew(r.seasons, names);
    assert AppendNew(r.seasons, names + [x.seasonName.value])
      == if x.seasonName.value in seasons then seasons else seasons + [x.seasonName.value] by {
      assert (names + [x.seasonName.value])[..|names|] == names;
    }
    assert Indices(e) == Indices(evs) + [x.indexNumber];
  }

  /** The record of series `id` expected after its episodes `evs`, given what `d` held before. */
  function Expected(d: Dict<SeriesRecord>, evs: seq<Item>, id: string): Option<SeriesRecord>
    requires AllComplete(evs)
  {
    if id in d.entries then Some(Grown(d.entries[id], evs))
    else if evs == [] then None
    else Some(Grown(NewRecord(evs[0].seriesName.value), evs))
  }

  function Lookup(d: Dict<SeriesRecord>, id: string): Option<SeriesRecord> {
    if id in d.entries then Some(d.entries[id]) else None
  }

  lemma ExpectedSnoc(d: Dict<SeriesRecord>, evs: seq<Item>, id: string, x: Item)
    requires AllComplete(evs)
    requires Complete(x)
    ensures var e := Expected(d, evs, id);
      Expected(d, evs + [x], id)
        == Some(AddEpisode(if e.Some? then e.value else NewRecord(x.seriesName.value), x))
  {
    if id in d.entries {
      GrownSnoc(d.entries[id], evs, x);
    } else if evs != [] {
      assert (evs + [x])[0] == evs[0];
      GrownSnoc(NewRecord(evs[0].seriesName.value), evs, x);
    } else {
      var r := NewRecord(x.seriesName.value);
      GrownSnoc(r, [], x);
      assert Grown(r, []) == r;
      assert [] + [x] == [x];
    }
  }

  lemma FoldEpisodeLookup(d: Dict<SeriesRecord>, x: Item, id: string)
    ensures Complete(x) && x.seriesId == Some(id) ==>
      Lookup(FoldEpisode(d, x), id)
        == Some(AddEpisode(if id in d.entries then d.entries[id] else NewRecord(x.seriesName.value), x))
    ensures !(Complete(x) && x.seriesId == Some(id)) ==> Lookup(FoldEpisode(d, x), id) == Lookup(d, id)
  {
  }

  /**
   * After folding a list of episodes, the record of series `id` is determined by that
   * series' own episodes alone: its name comes from the record it already had or from its
   * first episode; its seasons are the previous ones followed by each new season name once,
   * in first-seen order; its episodes gain one index per episode; and its creation date is
   * that of its last episode.
   */
  lemma {:induction false} FoldPerSeries(d: Dict<SeriesRecord>, items: seq<Item>, id: string)
    ensures Lookup(FoldEpisodes(d, items), id) == Expected(d, EpisodesOf(items, id), id)
  {
    if items != [] {
      var p, x := items[..|items| - 1], items[|items| - 1];
      FoldPerSeries(d, p, id);
      var evsP := EpisodesOf(p, id);
      FoldEpisodeLookup(FoldEpisodes(d, p), x, id);
      if Complete(x) && x.seriesId == Some(id) {
        ExpectedSnoc(d, evsP, id, x);
        assert EpisodesOf(items, id) == evsP + [x];
      } else {
        assert EpisodesOf(items, id) == evsP;
      }
    } else if id in d.entries {
      assert Grown(d.entries[id], []) == d.entries[id];
    }
  }

  /**
   * The main.py properties for a whole run of episodes from an empty dictionary: a series is
   * present exactly when it had a complete episode; its seasons are duplicate-free and hold
   * exactly its season names; it has one episode entry per episode; and its creation date is
   * that of its last episode.
   */
  lemma FoldFromEmpty(items: seq<Item>, id: string)
    ensures var r, evs := FoldEpisodes(EmptyDict(), items), EpisodesOf(items, id);
      && (id in r.entries <==> |evs| > 0)
      && (|evs| > 0 ==>
            && r.entries[id].seriesName == evs[0].seriesName.value
            && Distinct(r.entries[id].seasons)
            && (forall s :: s in r.entries[id].seasons <==> exists i :: 0 <= i < |evs| && evs[i].seasonName == Some(s))
            && r.entries[id].episodes == Indices(evs)
            && |r.entries[id].episodes| == |evs|
            && r.entries[id].createdOn == CreatedOn(evs[|evs| - 1].dateCreated))
  {
    var evs := EpisodesOf(items, id);
    FoldPerSeries(EmptyDict(), items, id);
    var empty: Dict<SeriesRecord> := EmptyDict();
    var r := FoldEpisodes(empty, items);
    assert id in r.entries <==> Lookup(r, id).Some?;
    if |evs| > 0 {
      GrownFresh(evs[0].seriesName.value, evs);
      assert r.entries[id] == Grown(NewRecord(evs[0].seriesName.value), evs);
    }
  }

  /** A new series' record after its episodes `evs`. */
  lemma GrownFresh(name: string, evs: seq<Item>)
    requires AllComplete(evs) && |evs| > 0
    ensures var rec := Grown(NewRecord(name), evs);
      && rec.seriesName == name
      && Distinct(rec.seasons)
      && (forall s :: s in rec.seasons <==> exists i :: 0 <= i < |evs| && evs[i].seasonName == Some(s))
      && rec.episodes == Indices(evs)
      && rec.createdOn == CreatedOn(evs[|evs| - 1].dateCreated)
  {
    var rec := Grown(NewRecord(name), evs);
    var names := SeasonNames(evs);
    assert rec.seasons == AppendNew([], names);
    assert rec.episodes == [] + Indices(evs);
    AppendNewProperties([], names);
    SeasonNamesMembers(evs);
    forall s
      ensures s in rec.seasons <==> exists i :: 0 <= i < |evs| && evs[i].seasonName == Some(s)
    {
      assert s in rec.seasons <==> s in names;
    }
  }

  /** The season names of a list of episodes are exactly the names its episodes carry. */
  lemma SeasonNamesMembers(evs: seq<Item>)
    requires AllComplete(evs)
    ensures forall s :: s in SeasonNames(evs) <==> exists i :: 0 <= i < |evs| && evs[i].seasonName == Some(s)
  {
    var names := SeasonNames(evs);
    forall s
      ensures s in names <==> exists i :: 0 <= i < |evs| && evs[i].seasonName == Some(s)
    {
      if s in names {
        var i :| 0 <= i < |names| && names[i] == s;
        assert evs[i].seasonName == Some(s);
      }
      if exists i :: 0 <= i < |evs| && evs[i].seasonName == Some(s) {
        var i :| 0 <= i < |evs| && evs[i].seasonName == Some(s);
        assert names[i] == s;
      }
    }
  }
}
