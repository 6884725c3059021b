/**
 * The `PreviewHandler` class of source/preview_handler.py: preview file names under the
 * configured directory, the metadata comment (placed after the DOCTYPE when there is one),
 * and the metadata dictionary. Its configuration is read once and never changed, so the
 * handler is modelled by functions of that configuration.
 */
module Preview {
  import opened Wrappers
  import opened Items
  import opened DateTimes
  import opened Numerals
  import opened OutputFiles
  import opened PyPath
  import Text

  /** The `preview` section of the configuration. */
  datatype PreviewConfig = PreviewConfig(
    enabled: bool,
    outputDirectory: string,
    outputFilename: string,
    includeMetadata: bool,
    saveEmailData: bool)

  /** The file name after the placeholders are replaced, in the handler's order: date, time, timestamp. */
  function Substituted(template: string, now: DateTime): string
    requires Valid(now)
  {
    var withDate := Text.ReplaceAll(template, DatePlaceholder, DateStamp(now));
    var withTime := Text.ReplaceAll(withDate, TimePlaceholder, TimeStamp(now));
    Text.ReplaceAll(withTime, TimestampPlaceholder, FullStamp(now))
  }

  /** The path `_generate_filename(suffix)` returns at time `now`: the configured directory, joined as is. */
  function FileName(config: PreviewConfig, now: DateTime, suffix: string): string
    requires Valid(now)
  {
    Join(config.outputDirectory, InsertSuffix(Substituted(config.outputFilename, now), suffix))
  }

  /** `_generate_filename`, reassigning the name step by step. */
  method GenerateFilename(config: PreviewConfig, now: DateTime, suffix: string) returns (path: string)
    requires Valid(now)
    ensures path == FileName(config, now, suffix)
  {
    var filename := config.outputFilename;
    filename := Text.ReplaceAll(filename, DatePlaceholder, DateStamp(now));
    filename := Text.ReplaceAll(filename, TimePlaceholder, TimeStamp(now));
    filename := Text.ReplaceAll(filename, TimestampPlaceholder, FullStamp(now));
    if suffix != "" {
      var parts := SplitExt(filename);
      filename := parts.0 + "_" + suffix + parts.1;
    }
    path := Join(config.outputDirectory, filename);
  }

  /**
   * After substitution no placeholder is left, although "{time}" is replaced before
   * "{timestamp}": "{time}" does not occur inside "{timestamp}".
   */
  lemma SubstitutedSpec(template: string, now: DateTime)
    requires Valid(now)
    ensures NoPlaceholder(Substituted(template, now))
  {
    StampsAreStampText(now);
    var withDate := Text.ReplaceAll(template, DatePlaceholder, DateStamp(now));
    var withTime := Text.ReplaceAll(withDate, TimePlaceholder, TimeStamp(now));
    ReplaceStep(template, DatePlaceholder, DateStamp(now), {});
    ReplaceStep(withDate, TimePlaceholder, TimeStamp(now), {DatePlaceholder});
    ReplaceStep(withTime, TimestampPlaceholder, FullStamp(now), {DatePlaceholder, TimePlaceholder});
  }

  /**
   * The generated file name has no placeholder left (for a suffix without '{'); an empty
   * suffix adds nothing; a suffix without '.' or '/' goes right before the extension, which
   * is kept; a relative name is joined onto the configured directory, which starts the path.
   */
  lemma FileNameSpec(config: PreviewConfig, now: DateTime, suffix: string)
    requires Valid(now)
    ensures var base := Substituted(config.outputFilename, now);
      var name := InsertSuffix(base, suffix);
      && ('{' !in suffix ==> NoPlaceholder(name))
      && (suffix == "" ==> name == base)
      && (suffix != "" && '.' !in suffix && '/' !in suffix ==>
            SplitExt(name) == (SplitExt(base).0 + "_" + suffix, SplitExt(base).1))
      && (!IsAbs(name) ==> config.outputDirectory <= FileName(config, now, suffix)
                           && FileName(config, now, suffix)[|FileName(config, now, suffix)| - |name|..] == name)
      && (!IsAbs(name) && config.outputDirectory != "" && config.outputDirectory[|config.outputDirectory| - 1] != '/' ==>
            FileName(config, now, suffix) == config.outputDirectory + "/" + name)
  {
    var base := Substituted(config.outputFilename, now);
    SubstitutedSpec(config.outputFilename, now);
    SuffixedName(base, suffix);
  }

  /** The comment `_add_metadata_to_html` inserts, ending with a newline of its own. */
  function MetadataComment(m: Metadata): string {
    "<!--\n" + MetadataLines(m) + "-->\n"
  }

  function MetadataLines(m: Metadata): string {
    "=== JELLYFIN NEWSLETTER METADATA ===\nGenerated: " + m.generationTimestamp
    + "\nMode: " + m.mode
    + "\nMovies Found: " + IntToString(m.stats.moviesCount)
    + "\nTV Episodes Found: " + IntToString(m.stats.tvEpisodesCount)
    + "\nTemplate Language: " + m.templateLanguage
    + "\nSMTP Tested: " + BoolText(m.smtpTested)
    + "\n=== END METADATA ===\n"
  }

  /** `_add_metadata_to_html`. */
  function AddMetadataToHtml(config: PreviewConfig, html: string, m: Metadata): string {
    if !config.includeMetadata then html
    else if Text.Occurs("<!DOCTYPE", html) && Text.SplitOnce(html, '>').Some? then
      var parts := Text.SplitOnce(html, '>').value;
      parts.0 + ">\n" + MetadataComment(m) + "\n" + parts.1
    else MetadataComment(m) + "\n" + html
  }

  /**
   * Without metadata the HTML is unchanged. With a DOCTYPE and a '>', the comment block
   * goes right after the first '>' and the HTML is otherwise intact; otherwise the comment
   * block goes in front of the whole HTML.
   */
  lemma AddMetadataSpec(config: PreviewConfig, html: string, m: Metadata)
    ensures var r := AddMetadataToHtml(config, html, m);
      var block := "\n" + MetadataComment(m) + "\n";
      && (!config.includeMetadata ==> r == html)
      && (config.includeMetadata && Text.Occurs("<!DOCTYPE", html) && '>' in html ==>
            exists k :: 0 <= k < |html| && html[k] == '>' && '>' !in html[..k]
                        && r == html[..k + 1] + block + html[k + 1..])
      && (config.includeMetadata && !(Text.Occurs("<!DOCTYPE", html) && '>' in html) ==>
            r == MetadataComment(m) + "\n" + html)
  {
    if config.includeMetadata && Text.Occurs("<!DOCTYPE", html) && '>' in html {
      InsertedAfterFirst(html, MetadataComment(m));
    }
  }

  /** Writing `comment` after the text up to the first '>' keeps the rest of the text intact. */
  lemma InsertedAfterFirst(html: string, comment: string)
    requires '>' in html
    ensures var parts := Text.SplitOnce(html, '>').value;
      var k := |parts.0|;
      && 0 <= k < |html| && html[k] == '>' && '>' !in html[..k]
      && parts.0 + ">\n" + comment + "\n" + parts.1 == html[..k + 1] + ("\n" + comment + "\n") + html[k + 1..]
  {
    var parts := Text.SplitOnce(html, '>').value;
    var k := |parts.0|;
    assert html == parts.0 + ">" + parts.1;
    assert html[..k] == parts.0 && html[k] == '>';
    assert html[..k + 1] == parts.0 + ">";
    assert html[k + 1..] == parts.1;
  }

  /**
   * `save_preview`: the HTML path, the text written to it, and the metadata path; all None
   * when previews are disabled. `htmlNow` and `jsonNow` are the two readings of the clock.
   */
  method SavePreview(config: PreviewConfig, html: string, metadata: Metadata, htmlNow: DateTime, jsonNow: DateTime)
    returns (htmlFile: Option<string>, jsonFile: Option<string>, written: Option<string>)
    requires Valid(htmlNow) && Valid(jsonNow)
    ensures !config.enabled ==> htmlFile.None? && jsonFile.None? && written.None?
    ensures config.enabled ==> htmlFile == Some(FileName(config, htmlNow, ""))
    ensures config.enabled ==> written == Some(AddMetadataToHtml(config, html, metadata))
    ensures config.enabled ==>
              jsonFile == (if config.saveEmailData then Some(JsonPath(FileName(config, jsonNow, "data"))) else None)
  {
    if !config.enabled {
      return None, None, None;
    }
    var path := GenerateFilename(config, htmlNow, "");
    var content := html;
    if config.includeMetadata {
      content := AddMetadataToHtml(config, content, metadata);
    }
    jsonFile := None;
    if config.saveEmailData {
      var dataPath := GenerateFilename(config, jsonNow, "data");
      jsonFile := Some(JsonPath(dataPath));
    }
    return Some(path), jsonFile, Some(content);
  }

  /** The recipients recorded: the configured ones only for a "dry-run" run. */
  function Recipients(mode: string, configured: seq<string>): seq<string> {
    if mode == "dry-run" then configured else ["preview-mode"]
  }

  /** `get_metadata`: the two projection loops, then the dictionary. */
  method GetMetadata(settings: Settings, movies: Dict<MovieRecord>, series: Dict<SeriesRecord>,
                     totalTv: int, totalMovie: int, mode: string, smtpTested: bool, now: DateTime)
    returns (r: Option<Metadata>)
    requires movies.Valid() && series.Valid() && Valid(now)
    ensures r == MetadataOf(settings, movies, series, totalTv, totalMovie, mode, smtpTested, now,
                            Recipients(mode, settings.recipients))
  {
    var movieList := ProjectMovies(movies);
    if movieList.None? {
      return None;
    }
    var seriesList := ProjectSeries(series);
    if seriesList.None? {
      return None;
    }
    return Some(Metadata(IsoFormat(now), mode, smtpTested, settings.jellyfinUrl,
                         Stats(totalMovie, totalTv, "0"), movieList.value, seriesList.value,
                         Recipients(mode, settings.recipients), settings.templateLanguage));
  }

  /**
   * The recipients rule of the preview handler, both ways: the configured list for a
   * "dry-run" run and "preview-mode" otherwise; the lists and totals as for any metadata.
   */
  lemma GetMetadataSpec(settings: Settings, movies: Dict<MovieRecord>, series: Dict<SeriesRecord>,
                        totalTv: int, totalMovie: int, mode: string, smtpTested: bool, now: DateTime)
    requires movies.Valid() && series.Valid() && Valid(now)
    ensures var r := MetadataOf(settings, movies, series, totalTv, totalMovie, mode, smtpTested, now,
                                Recipients(mode, settings.recipients));
      && (r.Some? <==> (forall k :: k in movies.entries ==> movies.entries[k].createdOn.Some?)
                       && (forall k :: k in series.entries ==> series.entries[k].createdOn.Some?))
      && (r.Some? ==>
            && |r.value.movies| == |movies.order| && |r.value.tvShows| == |series.order|
            && r.value.stats == Stats(totalMovie, totalTv, "0")
            && r.value.generationTimestamp == IsoFormat(now)
            && (mode == "dry-run" ==> r.value.recipients == settings.recipients)
            && (mode != "dry-run" ==> r.value.recipients == ["preview-mode"]))
  {
    MoviesDated(movies);
    SeriesDated(series);
  }
}
