/**
 * The last-newsletter watermark of source/utils.py: a one-line text file holding the
 * `isoformat()` of the time the previous newsletter was sent.
 */
module Watermark {
  import opened Wrappers
  import opened DateTimes
  import Numerals
  import Text

  /** What reading the watermark file yields: None for a missing file or unparsable text. */
  function ParseWatermark(contents: Option<string>): Option<DateTime> {
    match contents
    case None => None
    case Some(text) => ParseIso(Text.Strip(text))
  }

  /** The file `./config/LAST_NEWSLETTER.txt`; `contents` is None while the file does not exist. */
  class WatermarkFile {
    var contents: Option<string>

    constructor (initial: Option<string>)
      ensures contents == initial
    {
      contents := initial;
    }

    /** `get_last_newsletter_date()`. */
    method Load() returns (date: Option<DateTime>)
      ensures contents.None? ==> date.None?
      ensures date == ParseWatermark(contents)
    {
      match contents {
        case None =>
          return None;
        case Some(text) =>
          var stripped := Text.Strip(text);
          date := ParseIso(stripped);
      }
    }

    /** `save_last_newsletter_date(date)`: overwrites the file with the ISO text of `date`. */
    method Save(date: DateTime)
      requires Valid(date)
      modifies this
      ensures contents == Some(IsoFormat(date))
      ensures ParseWatermark(contents) == Some(date)
    {
      contents := Some(IsoFormat(date));
      SavedReadsBack(date);
    }
  }

  /** A saved watermark reads back as the very same datetime. */
  lemma SavedReadsBack(d: DateTime)
    requires Valid(d)
    ensures ParseWatermark(Some(IsoFormat(d))) == Some(d)
  {
    IsoFormatEnds(d);
    var s := IsoFormat(d);
    assert s[0] !in Text.Whitespace && s[|s| - 1] !in Text.Whitespace;
    Text.StripClean(s);
    IsoRoundTrip(d);
  }

  /** Surrounding whitespace, such as the newline an editor adds, does not affect the reading. */
  lemma SurroundingWhitespaceIgnored(d: DateTime, before: string, after: string)
    requires Valid(d)
    requires forall i :: 0 <= i < |before| ==> before[i] in Text.Whitespace
    requires forall i :: 0 <= i < |after| ==> after[i] in Text.Whitespace
    ensures ParseWatermark(Some(before + IsoFormat(d) + after)) == Some(d)
  {
    IsoFormatEnds(d);
    StripSurrounded(IsoFormat(d), before, after);
    IsoRoundTrip(d);
  }

  lemma StripSurrounded(s: string, before: string, after: string)
    requires |s| > 0 && Numerals.IsDigit(s[0]) && Numerals.IsDigit(s[|s| - 1])
    requires forall i :: 0 <= i < |before| ==> before[i] in Text.Whitespace
    requires forall i :: 0 <= i < |after| ==> after[i] in Text.Whitespace
    ensures Text.Strip(before + s + after) == s
  {
    LStripPrefix(before, s + after);
    assert before + s + after == before + (s + after);
    RStripSuffix(s, after);
  }

  lemma {:induction false} LStripPrefix(w: string, s: string)
    requires forall i :: 0 <= i < |w| ==> w[i] in Text.Whitespace
    requires |s| > 0 && s[0] !in Text.Whitespace
    ensures Text.LStrip(w + s, Text.Whitespace) == s
  {
    if |w| > 0 {
      assert (w + s)[1..] == w[1..] + s;
      LStripPrefix(w[1..], s);
    }
  }

  lemma {:induction false} RStripSuffix(s: string, w: string)
    requires forall i :: 0 <= i < |w| ==> w[i] in Text.Whitespace
    requires |s| > 0 && s[|s| - 1] !in Text.Whitespace
    ensures Text.RStrip(s + w, Text.Whitespace) == s
  {
    if |w| > 0 {
      assert (s + w)[..|s + w| - 1] == s + w[..|w| - 1];
      RStripSuffix(s, w[..|w| - 1]);
    }
  }

  /**
   * Text without a digit is never an ISO time stamp: it reads as None (the handler's
   * `except ValueError`) rather than failing the run. "yesterday", an empty file and a file
   * of blanks are instances.
   */
  lemma GarbageReadsNone(text: string)
    requires forall i :: 0 <= i < |text| ==> !Numerals.IsDigit(text[i])
    ensures ParseWatermark(Some(text)) == None
  {
    var l := Text.LStrip(text, Text.Whitespace);
    var t := Text.RStrip(l, Text.Whitespace);
    if |t| >= 10 {
      assert t[0] == l[0] == text[|text| - |l|];
      assert !Numerals.AllDigits(t[..10][0..4]);
    }
  }
}
