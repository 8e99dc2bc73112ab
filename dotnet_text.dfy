/**
 * The parts of the .NET base library that the data source's string handling
 * relies on: `String.Split(char)`, `String.Trim()`, `Int32.Parse(string)`,
 * `Int32.ToString()` and the two `Path` helpers used on the staging paths.
 * Each is stated on `string`, a sequence of `char`, and paired with an
 * inverse or a reference property proved about it. A .NET string is a
 * sequence of UTF-16 code units, whereas a `char` here is a Unicode scalar
 * value: a supplementary character is one `char` rather than a surrogate
 * pair, and lone surrogates cannot occur. The operations modelled only
 * look for ASCII characters ('.', 'f', '/', digits, signs) and white space,
 * none of which is a surrogate, so nothing here depends on the difference.
 */
module DotNetText {
  import opened Outcomes

  // ---------------------------------------------------------------------------
  // String.Split(char)
  // ---------------------------------------------------------------------------

  /** `s.Split(sep)`: the runs between separators, empty runs kept, so that
      `k` separators always give `k + 1` parts. */
  function Split(s: string, sep: char): (parts: seq<string>)
    ensures |parts| >= 1
    ensures forall i :: 0 <= i < |parts| ==> sep !in parts[i]
    decreases |s|
  {
    if s == [] then [[]]
    else
      var rest := Split(s[1..], sep);
      if s[0] == sep then [[]] + rest
      else [[s[0]] + rest[0]] + rest[1..]
  }

  /** `String.Join(sep, parts)`: the inverse of `Split`. */
  function Join(parts: seq<string>, sep: char): string
    requires |parts| >= 1
    decreases |parts|
  {
    if |parts| == 1 then parts[0] else parts[0] + [sep] + Join(parts[1..], sep)
  }

  /** Joining the parts of a split gives back the original text. */
  lemma {:induction false} SplitThenJoin(s: string, sep: char)
    ensures Join(Split(s, sep), sep) == s
    decreases |s|
  {
    if s != [] {
      var rest := Split(s[1..], sep);
      SplitThenJoin(s[1..], sep);
      if s[0] == sep {
        assert Split(s, sep)[1..] == rest;
        assert s == [sep] + s[1..];
      } else if |rest| == 1 {
        assert s == [s[0]] + s[1..];
      } else {
        var parts := Split(s, sep);
        assert parts[1..] == rest[1..];
        calc {
          Join(parts, sep);
          ([s[0]] + rest[0]) + [sep] + Join(rest[1..], sep);
          [s[0]] + (rest[0] + [sep] + Join(rest[1..], sep));
          [s[0]] + Join(rest, sep);
          s;
        }
      }
    }
  }

  /** Prepending separator-free text only extends the first part. */
  lemma {:induction false} SplitAfterPlainPrefix(a: string, t: string, sep: char)
    requires sep !in a
    ensures Split(a + t, sep) == [a + Split(t, sep)[0]] + Split(t, sep)[1..]
    decreases |a|
  {
    if a != [] {
      var parts := Split(t, sep);
      var rest := Split(a[1..] + t, sep);
      assert rest == [a[1..] + parts[0]] + parts[1..] by {
        SplitAfterPlainPrefix(a[1..], t, sep);
      }
      assert Split(a + t, sep) == [[a[0]] + rest[0]] + rest[1..] by {
        assert (a + t)[0] == a[0] != sep && (a + t)[1..] == a[1..] + t;
      }
      assert [a[0]] + (a[1..] + parts[0]) == a + parts[0];
    } else {
      var parts := Split(t, sep);
      assert a + t == t && a + parts[0] == parts[0];
      assert parts == [parts[0]] + parts[1..];
    }
  }

  /** Splitting separator-free parts after joining them gives back the parts. */
  lemma {:induction false} JoinThenSplit(parts: seq<string>, sep: char)
    requires |parts| >= 1
    requires forall i :: 0 <= i < |parts| ==> sep !in parts[i]
    ensures Split(Join(parts, sep), sep) == parts
    decreases |parts|
  {
    if |parts| == 1 {
      SplitAfterPlainPrefix(parts[0], [], sep);
      assert parts[0] + [] == parts[0];
    } else {
      var tail := Join(parts[1..], sep);
      JoinThenSplit(parts[1..], sep);
      assert ([sep] + tail)[1..] == tail;
      var after := Split([sep] + tail, sep);
      assert after == [[]] + parts[1..];
      assert after[0] == [] && after[1..] == parts[1..];
      SplitAfterPlainPrefix(parts[0], [sep] + tail, sep);
      assert Join(parts, sep) == parts[0] + ([sep] + tail);
      assert parts[0] + [] == parts[0];
      assert parts == [parts[0]] + parts[1..];
    }
  }

  /** A text splits into a single part exactly when it holds no separator;
      so "fewer than two parts" means "no separator at all". */
  lemma SinglePartIffNoSeparator(s: string, sep: char)
    ensures |Split(s, sep)| == 1 <==> sep !in s
    ensures sep !in s ==> Split(s, sep) == [s]
  {
    if sep !in s {
      JoinThenSplit([s], sep);
    }
    if |Split(s, sep)| == 1 {
      SplitThenJoin(s, sep);
    }
  }

  /** Appending a separator and a separator-free tail adds one last part. */
  lemma {:induction false} SplitAppendPart(x: string, y: string, sep: char)
    requires sep !in y
    ensures Split(x + [sep] + y, sep) == Split(x, sep) + [y]
    decreases |x|
  {
    if x == [] {
      assert x + [sep] + y == [sep] + y;
      assert ([sep] + y)[1..] == y;
      SinglePartIffNoSeparator(y, sep);
    } else {
      SplitAppendPart(x[1..], y, sep);
      assert (x + [sep] + y)[1..] == x[1..] + [sep] + y;
    }
  }

  /** Three separator-free parts joined by the separator split back into them. */
  lemma SplitThreeParts(a: string, b: string, c: string, sep: char)
    requires sep !in a && sep !in b && sep !in c
    ensures Split(a + [sep] + b + [sep] + c, sep) == [a, b, c]
  {
    assert Split(a, sep) == [a] by {
      SinglePartIffNoSeparator(a, sep);
    }
    assert Split(a + [sep] + b, sep) == [a, b] by {
      SplitAppendPart(a, b, sep);
    }
    SplitAppendPart(a + [sep] + b, c, sep);
  }

  // ---------------------------------------------------------------------------
  // String.Trim()
  // ---------------------------------------------------------------------------

  /** `Char.IsWhiteSpace`: U+0009..U+000D, U+0085 and the Unicode space,
      line and paragraph separators. */
  predicate IsWhiteSpace(c: char) {
    c == ' ' || ('\t' <= c <= '\r') || c == '\U{85}' || c == '\U{A0}' || c == '\U{1680}'
    || ('\U{2000}' <= c <= '\U{200A}') || c == '\U{2028}' || c == '\U{2029}'
    || c == '\U{202F}' || c == '\U{205F}' || c == '\U{3000}'
  }

  /** The two notions of white space the library uses: `Char.IsWhiteSpace`
      for `Trim`, and the narrower set `Int32.Parse` skips. */
  datatype Spaces = CharWhiteSpace | NumberWhiteSpace

  predicate IsSpace(kind: Spaces, c: char) {
    match kind
    case CharWhiteSpace => IsWhiteSpace(c)
    case NumberWhiteSpace => IsNumberSpace(c)
  }

  /** Drops the leading characters of the given kind of white space. */
  function TrimStartBy(s: string, space: Spaces): (t: string)
    ensures |t| <= |s| && t == s[|s| - |t|..]
    ensures forall k :: 0 <= k < |s| - |t| ==> IsSpace(space, s[k])
    ensures t != [] ==> !IsSpace(space, t[0])
    decreases |s|
  {
    if s != [] && IsSpace(space, s[0]) then TrimStartBy(s[1..], space) else s
  }

  /** Drops the trailing characters of the given kind of white space. */
  function TrimEndBy(s: string, space: Spaces): (t: string)
    ensures |t| <= |s| && t == s[..|t|]
    ensures forall k :: |t| <= k < |s| ==> IsSpace(space, s[k])
    ensures t != [] ==> !IsSpace(space, t[|t| - 1])
    decreases |s|
  {
    if s != [] && IsSpace(space, s[|s| - 1]) then TrimEndBy(s[..|s| - 1], space) else s
  }

  /** Drops the characters of the given kind of white space at both ends. */
  function TrimBy(s: string, space: Spaces): (t: string)
    ensures t != [] ==> !IsSpace(space, t[0]) && !IsSpace(space, t[|t| - 1])
  {
    TrimEndBy(TrimStartBy(s, space), space)
  }

  /** `s.Trim()`. */
  function Trim(s: string): string {
    TrimBy(s, CharWhiteSpace)
  }

  /** Text that neither starts nor ends with white space is left as it is. */
  lemma TrimKeepsTrimmed(s: string, space: Spaces)
    requires s != [] && !IsSpace(space, s[0]) && !IsSpace(space, s[|s| - 1])
    ensures TrimBy(s, space) == s
  {
    assert TrimStartBy(s, space) == s;
    assert TrimEndBy(s, space) == s;
  }

  /** Trimming leaves exactly the middle slice between two white runs. */
  lemma TrimIsMiddleSlice(s: string)
    ensures exists i, j ::
              && 0 <= i <= j <= |s| && Trim(s) == s[i..j]
              && (forall k :: 0 <= k < i ==> IsWhiteSpace(s[k]))
              && (forall k :: j <= k < |s| ==> IsWhiteSpace(s[k]))
  {
    var u := TrimStartBy(s, CharWhiteSpace);
    var t := TrimEndBy(u, CharWhiteSpace);
    var i := |s| - |u|;
    assert t == s[i..i + |t|];
    forall k | i + |t| <= k < |s| ensures IsWhiteSpace(s[k]) {
      assert s[k] == u[k - i];
    }
  }

  // ---------------------------------------------------------------------------
  // Int32.Parse(string) and Int32.ToString()
  // ---------------------------------------------------------------------------

  predicate IsDigit(c: char) {
    '0' <= c <= '9'
  }

  /** The white space that `NumberStyles.Integer` admits around a number. */
  predicate IsNumberSpace(c: char) {
    c == ' ' || ('\t' <= c <= '\r')
  }

  predicate AllDigits(s: string) {
    forall i :: 0 <= i < |s| ==> IsDigit(s[i])
  }

  /** The value of a run of decimal digits, most significant first. */
  function DigitsValue(ds: string): nat
    requires AllDigits(ds)
    decreases |ds|
  {
    if ds == [] then 0 else DigitsValue(ds[..|ds| - 1]) * 10 + (ds[|ds| - 1] as int - '0' as int)
  }

  const Int32Min: int := -0x8000_0000
  const Int32Max: int := 0x7FFF_FFFF

  predicate InInt32(n: int) {
    Int32Min <= n <= Int32Max
  }

  /** `int.Parse(s)` with the invariant culture: optional white space, an
      optional `+` or `-`, one or more ASCII digits, optional white space.
      Anything else is a FormatException; a well-formed number outside the
      32-bit range is an OverflowException. */
  function ParseInt32(s: string): (r: Result<int>)
    ensures r.Success? ==> InInt32(r.value)
    ensures r.Failure? ==> r.error == FormatException || r.error == OverflowException
  {
    var t := TrimBy(s, NumberWhiteSpace);
    var negative := t != [] && t[0] == '-';
    var digits := if t != [] && (t[0] == '-' || t[0] == '+') then t[1..] else t;
    if digits == [] || !AllDigits(digits) then Failure(FormatException)
    else
      var n: int := if negative then -(DigitsValue(digits) as int) else DigitsValue(digits);
      if InInt32(n) then Success(n) else Failure(OverflowException)
  }

  function DigitChar(d: nat): (c: char)
    requires d < 10
    ensures IsDigit(c) && c as int - '0' as int == d
  {
    ('0' as int + d) as char
  }

  /** The decimal digits of `n`, with no leading zero. */
  function NatToString(n: nat): (s: string)
    ensures s != [] && AllDigits(s) && DigitsValue(s) == n
    ensures |s| > 1 ==> s[0] != '0'
    decreases n
  {
    if n < 10 then [DigitChar(n)]
    else
      var high := NatToString(n / 10);
      var s := high + [DigitChar(n % 10)];
      assert s[..|s| - 1] == high;
      s
  }

  /** `n.ToString()`: a `-` for negative numbers, then the digits. */
  function IntToString(n: int): (s: string)
    ensures s != [] && IsDigit(s[|s| - 1])
    ensures (n < 0) == (s[0] == '-')
    ensures forall i :: 0 < i < |s| ==> IsDigit(s[i])
    ensures n >= 0 ==> IsDigit(s[0])
  {
    if n < 0 then "-" + NatToString(-n) else NatToString(n)
  }

  /** Every character of a rendered integer is a digit or the leading sign. */
  lemma IntToStringAlphabet(n: int, c: char)
    requires c != '-' && !IsDigit(c)
    ensures c !in IntToString(n)
  {
    var s := IntToString(n);
    assert forall i :: 0 <= i < |s| ==> s[i] == '-' || IsDigit(s[i]);
  }

  /** `int.Parse(n.ToString()) == n` for every 32-bit `n`. */
  lemma ParseOfIntToString(n: int)
    requires InInt32(n)
    ensures ParseInt32(IntToString(n)) == Success(n)
  {
    var s := IntToString(n);
    assert TrimBy(s, NumberWhiteSpace) == s by {
      TrimKeepsTrimmed(s, NumberWhiteSpace);
    }
    if n < 0 {
      assert s[0] == '-' && s[1..] == NatToString(-n);
    } else {
      assert s == NatToString(n) && IsDigit(s[0]);
    }
  }

  /** Leading zeros do not change the parsed value ("01" parses as 1). */
  lemma {:induction false} LeadingZeroIgnored(ds: string)
    requires AllDigits(ds)
    ensures AllDigits("0" + ds) && DigitsValue("0" + ds) == DigitsValue(ds)
    decreases |ds|
  {
    var z := "0" + ds;
    if ds != [] {
      LeadingZeroIgnored(ds[..|ds| - 1]);
      assert z[..|z| - 1] == "0" + ds[..|ds| - 1];
    }
  }

  /** `int.Parse` ignores a leading zero in front of a run of digits. */
  lemma ParseIgnoresLeadingZero(ds: string)
    requires ds != [] && AllDigits(ds)
    ensures ParseInt32("0" + ds) == ParseInt32(ds)
  {
    var z := "0" + ds;
    assert z[0] == '0' && z[|z| - 1] == ds[|ds| - 1];
    TrimKeepsTrimmed(z, NumberWhiteSpace);
    TrimKeepsTrimmed(ds, NumberWhiteSpace);
    LeadingZeroIgnored(ds);
  }

  // ---------------------------------------------------------------------------
  // System.IO.Path, with '/' as the directory separator
  // ---------------------------------------------------------------------------

  /** `Path.GetFileNameWithoutExtension(path)`: the last component, cut at its last '.'. */
  function FileNameWithoutExtension(path: string): string {
    var components := Split(path, '/');
    var file := components[|components| - 1];
    var pieces := Split(file, '.');
    if |pieces| == 1 then file else Join(pieces[..|pieces| - 1], '.')
  }

  /** `Path.GetDirectoryName(path)`: everything before the last separator. */
  function DirectoryName(path: string): string {
    var components := Split(path, '/');
    if |components| == 1 then "" else Join(components[..|components| - 1], '/')
  }

  /** The two `Path` helpers take a path apart at its last separator. */
  lemma PathOfAppendedFile(dir: string, file: string)
    requires '/' !in file
    ensures DirectoryName(dir + "/" + file) == dir
    ensures FileNameWithoutExtension(dir + "/" + file) == FileNameWithoutExtension(file)
  {
    var parts := Split(dir, '/');
    var components := Split(dir + "/" + file, '/');
    assert components == parts + [file] by {
      SplitAppendPart(dir, file, '/');
    }
    assert components[..|components| - 1] == parts && components[|components| - 1] == file;
    assert Join(parts, '/') == dir by {
      SplitThenJoin(dir, '/');
    }
    assert Split(file, '/') == [file] by {
      SinglePartIffNoSeparator(file, '/');
    }
  }

  /** A file name with one extension loses exactly that extension. */
  lemma FileNameOfNameAndExtension(name: string, ext: string)
    requires '/' !in name && '.' !in name && '/' !in ext && '.' !in ext
    ensures FileNameWithoutExtension(name + "." + ext) == name
  {
    var file := name + "." + ext;
    assert '/' !in file;
    SinglePartIffNoSeparator(file, '/');
    JoinThenSplit([name, ext], '.');
  }
}
