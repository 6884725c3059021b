/**
 * The `DryRunHandler` class of source/dry_run_handler.py: where dry-run output goes, the
 * file names it uses, the metadata comment put in front of the HTML, and the metadata
 * dictionary. Its configuration is read once and never changed, so the handler is modelled
 * by functions of that configuration.
 */
module DryRun {
  import opened Wrappers
  import opened Items
  import opened DateTimes
  import opened Numerals
  import opened OutputFiles
  import opened PyPath
  import Text

  /** The `dry_run` section of the configuration. */
  datatype DryRunConfig = DryRunConfig(
    enabled: bool,
    outputDirectory: string,
    outputFilename: string,
    includeMetadata: bool,
    saveEmailData: bool)

  /**
   * What the handler learns from the machine it runs on: whether `/app` exists (the Docker
   * image), and `os.path.abspath`, which depends on the current directory.
   */
  datatype Host = Host(hasApp: bool, abspath: string -> string)

  /** `_resolve_output_directory`. */
  function ResolveOutputDirectory(outputDir: string, host: Host): string {
    if host.hasApp then
      if "/app" <= outputDir then outputDir
      else Join("/app", Text.LStrip(outputDir, {'.', '/'}))
    else if IsAbs(outputDir) then outputDir
    else host.abspath(outputDir)
  }

  /**
   * In the Docker image the directory always starts with "/app": one that already does is
   * kept, any other loses every leading '.' and '/' (a character set, not a prefix) and is
   * put under "/app/". Locally an absolute directory is kept and a relative one goes to
   * `abspath`.
   */
  lemma ResolveSpec(outputDir: string, host: Host)
    ensures var r := ResolveOutputDirectory(outputDir, host);
      && (host.hasApp ==> "/app" <= r)
      && (host.hasApp && "/app" <= outputDir ==> r == outputDir)
      && (host.hasApp && !("/app" <= outputDir) ==>
            exists k :: 0 <= k <= |outputDir| && r == "/app/" + outputDir[k..]
                        && (forall i :: 0 <= i < k ==> outputDir[i] in {'.', '/'})
                        && (k < |outputDir| ==> outputDir[k] !in {'.', '/'}))
      && (!host.hasApp && IsAbs(outputDir) ==> r == outputDir)
      && (!host.hasApp && !IsAbs(outputDir) ==> r == host.abspath(outputDir))
  {
    if host.hasApp && !("/app" <= outputDir) {
      var rest := Text.LStrip(outputDir, {'.', '/'});
      var k := |outputDir| - |rest|;
      assert rest == outputDir[k..];
      JoinUnderApp(rest);
      assert "/app" <= "/app/" + rest;
    }
  }

  /** `lstrip(chars)` drops a leading character from `chars` and carries on. */
  lemma LStripStep(c: char, rest: string, cs: set<char>)
    requires c in cs
    ensures Text.LStrip([c] + rest, cs) == Text.LStrip(rest, cs)
  {
    assert ([c] + rest)[1..] == rest;
  }

  /** Joining a relative part to "/app" puts exactly one '/' in between. */
  lemma JoinUnderApp(rest: string)
    requires rest == [] || rest[0] != '/'
    ensures Join("/app", rest) == "/app/" + rest
  {
    assert !IsAbs(rest);
  }

  /** In the Docker image a parent-relative directory is re-rooted under /app. */
  lemma ResolveParentRelative(host: Host, name: string)
    requires host.hasApp && |name| > 0 && name[0] !in {'.', '/'}
    ensures ResolveOutputDirectory("../" + name, host) == "/app/" + name
  {
    var dir := "../" + name;
    ParentPrefixStripped(name);
    assert !("/app" <= dir) by {
      assert dir[0] == '.';
    }
    JoinUnderApp(name);
  }

  /** `lstrip('./')` removes all of a leading "../". */
  lemma ParentPrefixStripped(name: string)
    requires |name| > 0 && name[0] !in {'.', '/'}
    ensures Text.LStrip("../" + name, {'.', '/'}) == name
  {
    var cs := {'.', '/'};
    var twice := ['/'] + name;
    var once := ['.'] + twice;
    assert once + [] == "./" + name;
    assert ['.'] + once == "../" + name;
    LStripStop(name, cs);
    LStripStep('/', name, cs);
    LStripStep('.', twice, cs);
    LStripStep('.', once, cs);
  }

  /** `lstrip(chars)` stops at the first character outside `chars`. */
  lemma LStripStop(s: string, cs: set<char>)
    requires |s| > 0 && s[0] !in cs
    ensures Text.LStrip(s, cs) == s
  {
  }

  /** In the Docker image an absolute directory outside /app is re-rooted under /app as well. */
  lemma ResolveAbsoluteOutside(host: Host, name: string)
    requires host.hasApp && |name| > 0 && name[0] !in {'.', '/'} && !("app" <= name)
    ensures ResolveOutputDirectory("/" + name, host) == "/app/" + name
  {
    var dir := "/" + name;
    assert dir == ['/'] + name;
    if |name| >= 3 {
      assert name[..3] != "app";
      assert dir[1..4] == name[..3];
      assert dir[..4] != "/app";
    }
    assert !("/app" <= dir);
    LStripStop(name, {'.', '/'});
    LStripStep('/', name, {'.', '/'});
    JoinUnderApp(name);
  }

  /** The file name after the placeholders are replaced, in the handler's order: date, timestamp, time. */
  function Substituted(template: string, now: DateTime): string
    requires Valid(now)
  {
    var withDate := Text.ReplaceAll(template, DatePlaceholder, DateStamp(now));
    var withTimestamp := Text.ReplaceAll(withDate, TimestampPlaceholder, FullStamp(now));
    Text.ReplaceAll(withTimestamp, TimePlaceholder, TimeStamp(now))
  }

  /** The path `_generate_filename(suffix)` returns at time `now`. */
  function FileName(config: DryRunConfig, now: DateTime, suffix: string, host: Host): string
    requires Valid(now)
  {
    Join(ResolveOutputDirectory(config.outputDirectory, host), InsertSuffix(Substituted(config.outputFilename, now), suffix))
  }

  /** `_generate_filename`, reassigning the name step by step. */
  method GenerateFilename(config: DryRunConfig, now: DateTime, suffix: string, host: Host) returns (path: string)
    requires Valid(now)
    ensures path == FileName(config, now, suffix, host)
  {
    var filename := config.outputFilename;
    filename := Text.ReplaceAll(filename, DatePlaceholder, DateStamp(now));
    filename := Text.ReplaceAll(filename, TimestampPlaceholder, FullStamp(now));
    filename := Text.ReplaceAll(filename, TimePlaceholder, TimeStamp(now));
    if suffix != "" {
      var parts := SplitExt(filename);
      filename := parts.0 + "_" + suffix + parts.1;
    }
    var outputDir := ResolveOutputDirectory(config.outputDirectory, host);
    path := Join(outputDir, filename);
  }

  /** After substitution no placeholder is left, whatever the configured name. */
  lemma SubstitutedSpec(template: string, now: DateTime)
    requires Valid(now)
    ensures NoPlaceholder(Substituted(template, now))
  {
    StampsAreStampText(now);
    var withDate := Text.ReplaceAll(template, DatePlaceholder, DateStamp(now));
    var withTimestamp := Text.ReplaceAll(withDate, TimestampPlaceholder, FullStamp(now));
    ReplaceStep(template, DatePlaceholder, DateStamp(now), {});
    ReplaceStep(withDate, TimestampPlaceholder, FullStamp(now), {DatePlaceholder});
    ReplaceStep(withTimestamp, TimePlaceholder, TimeStamp(now), {DatePlaceholder, TimestampPlaceholder});
  }

  /**
   * The generated file name has no placeholder left (for a suffix without '{'); an empty
   * suffix adds nothing; a suffix without '.' or '/' goes right before the extension, which
   * is kept; the path ends with the file name under the resolved directory unless that name
   * is itself absolute.
   */
  lemma FileNameSpec(config: DryRunConfig, now: DateTime, suffix: string, host: Host)
    requires Valid(now)
    ensures var base := Substituted(config.outputFilename, now);
      var name := InsertSuffix(base, suffix);
      && ('{' !in suffix ==> NoPlaceholder(name))
      && (suffix == "" ==> name == base)
      && (suffix != "" && '.' !in suffix && '/' !in suffix ==>
            SplitExt(name) == (SplitExt(base).0 + "_" + suffix, SplitExt(base).1))
      && (!IsAbs(name) ==> ResolveOutputDirectory(config.outputDirectory, host) <= FileName(config, now, suffix, host)
                           && FileName(config, now, suffix, host)[|FileName(config, now, suffix, host)| - |name|..] == name)
  {
    var base := Substituted(config.outputFilename, now);
    SubstitutedSpec(config.outputFilename, now);
    SuffixedName(base, suffix);
  }

  /** The comment `_add_metadata_to_html` writes in front of the HTML. */
  function MetadataComment(m: Metadata): string {
    "<!--\n" + MetadataLines(m) + "-->"
  }

  function MetadataLines(m: Metadata): string {
    "Newsletter Generation Metadata:\nGenerated at: " + m.generationTimestamp
    + "\nMode: " + m.mode
    + "\nSMTP Tested: " + BoolText(m.smtpTested)
    + "\nMovies: " + IntToString(m.stats.moviesCount)
    + "\nTV Episodes: " + IntToString(m.stats.tvEpisodesCount)
    + "\nEmail Size: " + m.stats.totalEmailSizeKb + "KB\n"
  }

  /** `_add_metadata_to_html`. */
  function AddMetadataToHtml(config: DryRunConfig, html: string, m: Metadata): string {
    if !config.includeMetadata then html else MetadataComment(m) + "\n" + html
  }

  /**
   * Without metadata the HTML is unchanged; with it, the HTML is kept whole at the end,
   * behind a prefix that opens with "<!--" and ends with "-->" and a newline.
   */
  lemma AddMetadataSpec(config: DryRunConfig, html: string, m: Metadata)
    ensures var r := AddMetadataToHtml(config, html, m);
      && (!config.includeMetadata ==> r == html)
      && (config.includeMetadata ==>
            && |html| < |r| && r[|r| - |html|..] == html
            && "<!--" <= r
            && var head := r[..|r| - |html|];
            && |head| >= 4 && head[|head| - 4..] == "-->\n")
  {
    if config.includeMetadata {
      CommentInFront(MetadataLines(m), html);
    }
  }

  /** A comment with any body, put in front of the HTML with a newline, keeps the HTML whole. */
  lemma CommentInFront(body: string, html: string)
    ensures var r := "<!--\n" + body + "-->" + "\n" + html;
      && |html| < |r| && r[|r| - |html|..] == html
      && "<!--" <= r
      && var head := r[..|r| - |html|];
      && |head| >= 4 && head[|head| - 4..] == "-->\n"
  {
    var c := "<!--\n" + body + "-->";
    var r := c + "\n" + html;
    assert r[|r| - |html|..] == html;
    assert r[..|r| - |html|] == c + "\n";
    assert c[|c| - 3..] == "-->";
    assert r[..4] == c[..4] == "<!--";
  }

  /**
   * `save_dry_run_output`: the HTML path, the text written to it, and the metadata path;
   * all None when dry-run output is disabled. `htmlNow` and `jsonNow` are the two readings
   * of the clock, one per generated name.
   */
  method SaveDryRunOutput(config: DryRunConfig, html: string, metadata: Metadata, host: Host,
                          htmlNow: DateTime, jsonNow: DateTime)
    returns (htmlFile: Option<string>, jsonFile: Option<string>, written: Option<string>)
    requires Valid(htmlNow) && Valid(jsonNow)
    ensures !config.enabled ==> htmlFile.None? && jsonFile.None? && written.None?
    ensures config.enabled ==> htmlFile == Some(FileName(config, htmlNow, "", host))
    ensures config.enabled ==> written == Some(AddMetadataToHtml(config, html, metadata))
    ensures config.enabled ==>
              jsonFile == (if config.saveEmailData then Some(JsonPath(FileName(config, jsonNow, "data", host))) else None)
  {
    if !config.enabled {
      return None, None, None;
    }
    var path := GenerateFilename(config, htmlNow, "", host);
    var finalHtml := AddMetadataToHtml(config, html, metadata);
    jsonFile := None;
    if config.saveEmailData {
      var dataPath := GenerateFilename(config, jsonNow, "data", host);
      jsonFile := Some(JsonPath(dataPath));
    }
    return Some(path), jsonFile, Some(finalHtml);
  }

  /** The recipients recorded: the configured ones only for a "dry-run-smtp-only" run. */
  function Recipients(mode: string, configured: seq<string>): seq<string> {
    if mode == "dry-run-smtp-only" then configured else ["dry-run-mode"]
  }

  /** `get_metadata`: the two projection loops, then the dictionary. */
  method GetMetadata(settings: Settings, movies: Dict<MovieRecord>, series: Dict<SeriesRecord>,
                     totalTv: int, totalMovie: int, mode: string, smtpTested: bool, now: DateTime)
    returns (r: Option<Metadata>)
    requires movies.Valid() && series.Valid() && Valid(now)
    ensures r == MetadataOf(settings, movies, series, totalTv, totalMovie, mode, smtpTested, now,
                            Recipients(mode, settings.recipients))
  {
    var movieList := ProjectMovies(movies);
    if movieList.None? {
      return None;
    }
    var seriesList := ProjectSeries(series);
    if seriesList.None? {
      return None;
    }
    return Some(Metadata(IsoFormat(now), mode, smtpTested, settings.jellyfinUrl,
                         Stats(totalMovie, totalTv, "0"), movieList.value, seriesList.value,
                         Recipients(mode, settings.recipients), settings.templateLanguage));
  }

  /**
   * The metadata exists exactly when every movie and series has a creation date; it then
   * lists each movie and series once, in dictionary order, copies the totals, and records
   * the configured recipients for a "dry-run-smtp-only" run and "dry-run-mode" otherwise.
   */
  lemma GetMetadataSpec(settings: Settings, movies: Dict<MovieRecord>, series: Dict<SeriesRecord>,
                        totalTv: int, totalMovie: int, mode: string, smtpTested: bool, now: DateTime)
    requires movies.Valid() && series.Valid() && Valid(now)
    ensures var r := MetadataOf(settings, movies, series, totalTv, totalMovie, mode, smtpTested, now,
                                Recipients(mode, settings.recipients));
      && (r.Some? <==> (forall k :: k in movies.entries ==> movies.entries[k].createdOn.Some?)
                       && (forall k :: k in series.entries ==> series.entries[k].createdOn.Some?))
      && (r.Some? ==>
            && |r.value.movies| == |movies.order| && |r.value.tvShows| == |series.order|
            && r.value.stats == Stats(totalMovie, totalTv, "0")
            && r.value.generationTimestamp == IsoFormat(now)
            && (mode == "dry-run-smtp-only" ==> r.value.recipients == settings.recipients)
            && (mode != "dry-run-smtp-only" ==> r.value.recipients == ["dry-run-mode"]))
  {
    MoviesDated(movies);
    SeriesDated(series);
  }
}
