/**
 * The Unity version compatibility check of the asset bundle data source.
 *
 * A Unity version reads `major.minor.patch` followed by a release tag such
 * as `f1` (`2023.1.0f1`). The check compares the version recommended by the
 * remote build guidelines with the version of the running editor: major and
 * minor must agree for a build to go ahead, and a different patch only
 * warrants a warning. The editor's version, a global of the host, is an
 * explicit argument here.
 */
module UnityVersion {
  import opened Outcomes
  import opened DotNetText

  /** The three outputs of the check. */
  datatype Compatibility = Compatibility(majorMinorIsEqual: bool, patchIsEqual: bool, minCompatibleVersion: string)

  /** The values the outputs start with, and keep when a version has no '.'. */
  const Defaults := Compatibility(false, false, "")

  /** A version as three 32-bit integers. */
  datatype Version = Version(major: int, minor: int, patch: int)

  /** The parts of the recommended version: split on '.', each part trimmed. */
  function RecommendedParts(recommended: string): (parts: seq<string>)
    ensures |parts| == |Split(recommended, '.')|
  {
    var raw := Split(recommended, '.');
    seq(|raw|, i requires 0 <= i < |raw| => Trim(raw[i]))
  }

  /** The parts of the editor's version: split on '.', not trimmed. */
  function CurrentParts(current: string): (parts: seq<string>)
    ensures |parts| < 2 <==> '.' !in current
  {
    SinglePartIffNoSeparator(current, '.');
    Split(current, '.')
  }

  /** The text of a patch part up to its first 'f' (`0f1` gives `0`). */
  function PatchText(part: string): (digits: string)
    ensures 'f' !in digits
    ensures digits <= part
    ensures digits == part || (|digits| < |part| && part[|digits|] == 'f')
  {
    var pieces := Split(part, 'f');
    SplitThenJoin(part, 'f');
    assert |pieces| > 1 ==> Join(pieces, 'f') == pieces[0] + ['f'] + Join(pieces[1..], 'f');
    pieces[0]
  }

  /** The outputs the check reports for two well-formed versions: major
      and minor compared as numbers, patch compared as a number, and the
      recommended `major.minor` as the minimum compatible version. */
  function Expected(rec: Version, cur: Version): Compatibility {
    Compatibility(
      rec.major == cur.major && rec.minor == cur.minor,
      rec.patch == cur.patch,
      IntToString(rec.major) + "." + IntToString(rec.minor))
  }

  /** The version that a list of parts denotes, if all three numbers parse. */
  function ParseVersion(parts: seq<string>): (v: Option<Version>)
    ensures v.Some? ==> |parts| >= 3
  {
    if |parts| < 3 then None
    else
      var major, minor, patch := ParseInt32(parts[0]), ParseInt32(parts[1]), ParseInt32(PatchText(parts[2]));
      if major.Success? && minor.Success? && patch.Success? then Some(Version(major.value, minor.value, patch.value))
      else None
  }

  /**
   * The check as the data source performs it, on the recommended version
   * and the editor's version. The parse steps run in the source's order, so
   * the exception that escapes is the first one the source would raise.
   * With fewer than two parts on either side the outputs keep their
   * defaults; otherwise the check throws exactly when a version does not
   * parse, and reports `Expected` of the two parsed versions when both do.
   */
  function CheckUnityVersionCompatibility(recommended: string, current: string): (r: Result<Compatibility>)
    ensures |RecommendedParts(recommended)| < 2 || |CurrentParts(current)| < 2 ==> r == Success(Defaults)
    ensures |RecommendedParts(recommended)| >= 2 && |CurrentParts(current)| >= 2 ==>
              (r.Failure? <==> ParseVersion(RecommendedParts(recommended)).None? || ParseVersion(CurrentParts(current)).None?)
    ensures ParseVersion(RecommendedParts(recommended)).Some? && ParseVersion(CurrentParts(current)).Some? ==>
              r == Success(Expected(ParseVersion(RecommendedParts(recommended)).value, ParseVersion(CurrentParts(current)).value))
    ensures r.Failure? ==> r.error == FormatException || r.error == OverflowException || r.error == IndexOutOfRangeException
  {
    var rec := RecommendedParts(recommended);
    var cur := CurrentParts(current);
    if |cur| < 2 || |rec| < 2 then Success(Defaults)
    else
      var curMinor :- ParseInt32(cur[1]);
      var recMinor :- ParseInt32(rec[1]);
      var curMajor :- ParseInt32(cur[0]);
      var recMajor :- ParseInt32(rec[0]);
      if |cur| < 3 || |rec| < 3 then Failure(IndexOutOfRangeException)
      else
        var curPatch :- ParseInt32(PatchText(cur[2]));
        var recPatch :- ParseInt32(PatchText(rec[2]));
        Success(Compatibility(
          curMajor == recMajor && curMinor == recMinor,
          curPatch == recPatch,
          IntToString(recMajor) + "." + IntToString(recMinor)))
  }

  /** Renders a version followed by a release tag such as `f1`. */
  function Render(v: Version, tag: string): string {
    IntToString(v.major) + "." + IntToString(v.minor) + "." + IntToString(v.patch) + tag
  }

  /** A tag that `Render` can append and the check can take off again. */
  predicate IsReleaseTag(tag: string) {
    '.' !in tag && (tag == [] || (tag[0] == 'f' && !IsWhiteSpace(tag[|tag| - 1])))
  }

  /** When either version has no '.', the outputs keep their initial values;
      a version with a '.' never leaves all three at their defaults. */
  lemma UndottedKeepsDefaults(recommended: string, current: string)
    ensures CheckUnityVersionCompatibility(recommended, current) == Success(Defaults)
        <==> '.' !in recommended || '.' !in current
  {
    SinglePartIffNoSeparator(recommended, '.');
    SinglePartIffNoSeparator(current, '.');
  }

  /** Parts are compared as numbers: zero-padding the minor part (`2023.01`
      for `2023.1`) denotes the same version. */
  lemma ZeroPaddedMinorSameVersion(parts: seq<string>)
    requires |parts| >= 2 && parts[1] != [] && AllDigits(parts[1])
    ensures ParseVersion(parts[1 := "0" + parts[1]]) == ParseVersion(parts)
  {
    ParseIgnoresLeadingZero(parts[1]);
  }

  /** When the major and minor parse but a version has only two parts, the
      unguarded access to the third part throws. */
  lemma TwoPartsThrow(recommended: string, current: string)
    requires |RecommendedParts(recommended)| >= 2 && |CurrentParts(current)| >= 2
    requires |RecommendedParts(recommended)| == 2 || |CurrentParts(current)| == 2
    requires ParseInt32(RecommendedParts(recommended)[0]).Success? && ParseInt32(RecommendedParts(recommended)[1]).Success?
    requires ParseInt32(CurrentParts(current)[0]).Success? && ParseInt32(CurrentParts(current)[1]).Success?
    ensures CheckUnityVersionCompatibility(recommended, current) == Failure(IndexOutOfRangeException)
  {
  }

  /** A rendered version splits back into its three rendered numbers. */
  lemma SplitRendered(v: Version, tag: string)
    requires IsReleaseTag(tag)
    ensures Split(Render(v, tag), '.') == [IntToString(v.major), IntToString(v.minor), IntToString(v.patch) + tag]
  {
    var a, b, c := IntToString(v.major), IntToString(v.minor), IntToString(v.patch) + tag;
    assert '.' !in a && '.' !in b && '.' !in c by {
      IntToStringAlphabet(v.major, '.');
      IntToStringAlphabet(v.minor, '.');
      IntToStringAlphabet(v.patch, '.');
    }
    assert Render(v, tag) == a + "." + b + "." + c;
    SplitThreeParts(a, b, c, '.');
  }

  /** The patch text of a rendered patch part is the rendered patch number. */
  lemma PatchOfRendered(patch: int, tag: string)
    requires IsReleaseTag(tag)
    ensures PatchText(IntToString(patch) + tag) == IntToString(patch)
  {
    IntToStringAlphabet(patch, 'f');
    SplitAfterPlainPrefix(IntToString(patch), tag, 'f');
    assert Split(tag, 'f')[0] == [];
  }

  /** The three rendered parts of a 32-bit version parse back to it. */
  lemma ParseRenderedParts(v: Version, tag: string)
    requires InInt32(v.major) && InInt32(v.minor) && InInt32(v.patch)
    requires IsReleaseTag(tag)
    ensures ParseVersion([IntToString(v.major), IntToString(v.minor), IntToString(v.patch) + tag]) == Some(v)
  {
    PatchOfRendered(v.patch, tag);
    ParseOfIntToString(v.major);
    ParseOfIntToString(v.minor);
    ParseOfIntToString(v.patch);
  }

  /** A rendered number, possibly followed by a release tag, is left as it is by trimming. */
  lemma TrimRenderedNumber(n: int, tag: string)
    requires IsReleaseTag(tag)
    ensures Trim(IntToString(n) + tag) == IntToString(n) + tag
  {
    var p := IntToString(n);
    var x := p + tag;
    assert x[0] == p[0];
    assert x[|x| - 1] == if tag == [] then p[|p| - 1] else tag[|tag| - 1];
    TrimKeepsTrimmed(x, CharWhiteSpace);
  }

  /** A version text of three parts that trimming leaves alone has the same
      parts, trimmed or not. */
  lemma RecommendedPartsOfThree(s: string, a: string, b: string, c: string)
    requires Split(s, '.') == [a, b, c]
    requires Trim(a) == a && Trim(b) == b && Trim(c) == c
    ensures RecommendedParts(s) == CurrentParts(s)
  {
    var parts := RecommendedParts(s);
    assert |parts| == 3;
    assert parts[0] == a && parts[1] == b && parts[2] == c;
  }

  /** Trimming leaves the rendered parts of a version as they are. */
  lemma TrimRenderedParts(v: Version, tag: string)
    requires IsReleaseTag(tag)
    ensures RecommendedParts(Render(v, tag)) == CurrentParts(Render(v, tag))
  {
    var a, b, c := IntToString(v.major), IntToString(v.minor), IntToString(v.patch) + tag;
    SplitRendered(v, tag);
    assert a + [] == a && b + [] == b;
    TrimRenderedNumber(v.major, []);
    TrimRenderedNumber(v.minor, []);
    TrimRenderedNumber(v.patch, tag);
    RecommendedPartsOfThree(Render(v, tag), a, b, c);
  }

  /** Rendering a 32-bit version and parsing it back, as either the
      recommended or the editor's version, gives the same version. */
  lemma ParseRendered(v: Version, tag: string)
    requires InInt32(v.major) && InInt32(v.minor) && InInt32(v.patch)
    requires IsReleaseTag(tag)
    ensures ParseVersion(CurrentParts(Render(v, tag))) == Some(v)
    ensures ParseVersion(RecommendedParts(Render(v, tag))) == Some(v)
  {
    SplitRendered(v, tag);
    ParseRenderedParts(v, tag);
    TrimRenderedParts(v, tag);
  }

  /** End to end: two rendered versions compare by their numbers only, so
      the release tag after the patch never matters. */
  lemma CompareRendered(rec: Version, recTag: string, cur: Version, curTag: string)
    requires InInt32(rec.major) && InInt32(rec.minor) && InInt32(rec.patch) && IsReleaseTag(recTag)
    requires InInt32(cur.major) && InInt32(cur.minor) && InInt32(cur.patch) && IsReleaseTag(curTag)
    ensures CheckUnityVersionCompatibility(Render(rec, recTag), Render(cur, curTag)) == Success(Compatibility(
              rec.major == cur.major && rec.minor == cur.minor,
              rec.patch == cur.patch,
              IntToString(rec.major) + "." + IntToString(rec.minor)))
  {
    ParseRendered(rec, recTag);
    ParseRendered(cur, curTag);
  }

  /** The minimum compatible version reported for two parsed versions
      splits back into the recommended major and minor. */
  lemma MinOfExpectedParsesBack(rec: Version, cur: Version)
    requires InInt32(rec.major) && InInt32(rec.minor)
    ensures var parts := Split(Expected(rec, cur).minCompatibleVersion, '.');
            |parts| == 2 && ParseInt32(parts[0]) == Success(rec.major) && ParseInt32(parts[1]) == Success(rec.minor)
  {
    IntToStringAlphabet(rec.major, '.');
    IntToStringAlphabet(rec.minor, '.');
    JoinThenSplit([IntToString(rec.major), IntToString(rec.minor)], '.');
    ParseOfIntToString(rec.major);
    ParseOfIntToString(rec.minor);
  }

  /** On success past the early return, the minimum compatible version is
      `major.minor` of the recommended version: it splits back into two
      parts that parse to the recommended major and minor. */
  lemma MinCompatibleVersionRoundTrip(recommended: string, current: string)
    requires CheckUnityVersionCompatibility(recommended, current).Success?
    requires '.' in recommended && '.' in current
    ensures var min := CheckUnityVersionCompatibility(recommended, current).value.minCompatibleVersion;
            var parts := Split(min, '.');
            && |parts| == 2
            && ParseInt32(parts[0]) == ParseInt32(RecommendedParts(recommended)[0])
            && ParseInt32(parts[1]) == ParseInt32(RecommendedParts(recommended)[1])
  {
    var rec := RecommendedParts(recommended);
    var cur := CurrentParts(current);
    assert |rec| >= 2 && |cur| >= 2 by {
      SinglePartIffNoSeparator(recommended, '.');
      SinglePartIffNoSeparator(current, '.');
    }
    var v := ParseVersion(rec).value;
    var w := ParseVersion(cur).value;
    assert ParseInt32(rec[0]) == Success(v.major) && ParseInt32(rec[1]) == Success(v.minor);
    assert CheckUnityVersionCompatibility(recommended, current) == Success(Expected(v, w));
    MinOfExpectedParsesBack(v, w);
  }
}
