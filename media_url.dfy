/**
 * DefaultMediaUrlProvider: builds the public URL of a media file. The file's
 * path is cleaned and normalised (dots, forbidden characters, runs of spaces,
 * empty segments, space encoding), a six-character hash of the last write time
 * busts caches, and stores other than the default one get a path prefix.
 *
 * The data store, `UrlUtils.Combine`, the extension `Path.GetExtension` finds,
 * the IIS-servable table, the pipeline mode and `DateTime.GetHashCode` are
 * oracles held by a `MediaEnvironment` value; the ArgumentException
 * `Path.GetExtension` throws on an invalid path character is modelled.
 */
module MediaUrlProvider {
  import opened Wrappers
  import opened Text

  const DefaultMediaStore: string := "MediaArchive"
  const ForbiddenUrlCharacters: string := "<>*%&\\?#\""

  // ---------------------------------------------------------------------------
  // RemoveFilePathIllegalCharacters
  // ---------------------------------------------------------------------------

  /** The characters RemoveFilePathIllegalCharacters turns into a space: the quote,
      angle brackets, the bar and the control characters U+0000..U+001E. */
  predicate IsFilePathIllegal(c: char)
  {
    c == '"' || c == '<' || c == '>' || c == '|' || (c as int) < 31
  }

  function FilePathLegal(path: string): (r: string)
  {
    seq(|path|, k requires 0 <= k < |path| => if IsFilePathIllegal(path[k]) then ' ' else path[k])
  }

  /** Replaces the four punctuation characters, then each code 0..30, by a space. */
  method RemoveFilePathIllegalCharacters(path: string) returns (r: string)
    ensures |r| == |path|
    ensures forall k :: 0 <= k < |path| ==> r[k] == (if IsFilePathIllegal(path[k]) then ' ' else path[k])
    ensures r == FilePathLegal(path)
  {
    r := ReplaceChar(ReplaceChar(ReplaceChar(ReplaceChar(path, '"', ' '), '<', ' '), '>', ' '), '|', ' ');
    for i := 0 to 31
      invariant |r| == |path|
      invariant forall k :: 0 <= k < |path| ==>
        r[k] == (if path[k] in "\"<>|" || (path[k] as int) < i then ' ' else path[k])
    {
      r := ReplaceChar(r, i as char, ' ');
    }
  }

  // ---------------------------------------------------------------------------
  // Path.GetExtension
  // ---------------------------------------------------------------------------

  /** U+001F, the one control character RemoveFilePathIllegalCharacters keeps. */
  const UnitSeparator: char := 31 as char

  /** The characters `Path.GetExtension` rejects on the .NET Framework: the quote, angle
      brackets, the bar and every control character U+0000..U+001F. */
  predicate IsInvalidPathChar(c: char)
  {
    c == '"' || c == '<' || c == '>' || c == '|' || (c as int) < 32
  }

  /** The ArgumentException ("Illegal characters in path.") `Path.GetExtension` throws. */
  datatype PathError = IllegalCharactersInPath

  /** `Path.GetExtension`: throws on an invalid path character, otherwise the extension
      `extensionOf` finds. */
  function GetExtension(path: string, extensionOf: string -> string): Result<string, PathError>
  {
    if exists k :: 0 <= k < |path| && IsInvalidPathChar(path[k]) then Failure(IllegalCharactersInPath)
    else Success(extensionOf(path))
  }

  /** The cleaned path still makes `Path.GetExtension` throw exactly when the original path
      holds U+001F: the cleaning stops at code 30. */
  lemma CleanedPathRejected(path: string, extensionOf: string -> string)
    ensures GetExtension(FilePathLegal(path), extensionOf).Failure? <==> UnitSeparator in path
  {
    var legal := FilePathLegal(path);
    forall k | 0 <= k < |path|
      ensures IsInvalidPathChar(legal[k]) <==> path[k] == UnitSeparator
    {
    }
    if UnitSeparator in path {
      var k :| 0 <= k < |path| && path[k] == UnitSeparator;
      assert IsInvalidPathChar(legal[k]);
    }
  }

  /** "a", U+001F, ".png" keeps its U+001F through the cleaning, so normalising it throws. */
  lemma UnitSeparatorBreaksNormalize(extensionOf: string -> string, isIisServable: string -> bool)
    ensures Normalize(['a', UnitSeparator, '.', 'p', 'n', 'g'], extensionOf, isIisServable) == Failure(IllegalCharactersInPath)
  {
    var path := ['a', UnitSeparator, '.', 'p', 'n', 'g'];
    assert path[1] == UnitSeparator;
    assert IsInvalidPathChar(FilePathLegal(path)[1]);
  }

  /** The cleaning evidently intended: every character `Path.GetExtension` rejects, U+001F
      included, becomes a space, and every other character is kept. */
  function FilePathLegalIntended(path: string): (r: string)
    ensures |r| == |path|
    ensures forall k :: 0 <= k < |r| ==> !IsInvalidPathChar(r[k])
    ensures forall k :: 0 <= k < |path| && !IsInvalidPathChar(path[k]) ==> r[k] == path[k]
  {
    seq(|path|, k requires 0 <= k < |path| => if IsInvalidPathChar(path[k]) then ' ' else path[k])
  }

  /** With the intended cleaning, `Path.GetExtension` never throws. */
  lemma IntendedCleaningAccepted(path: string, extensionOf: string -> string)
    ensures GetExtension(FilePathLegalIntended(path), extensionOf) == Success(extensionOf(FilePathLegalIntended(path)))
  {
  }

  // ---------------------------------------------------------------------------
  // RemoveForbiddenCharactersAndNormalize, stage by stage
  // ---------------------------------------------------------------------------

  /** Lines 84-90: dots become underscores unless the cleaned path's extension is IIS-servable. */
  function DotsReplaced(path: string, servable: bool): (r: string)
    ensures servable ==> r == path
    ensures !servable ==> '.' !in r && |r| == |path|
    ensures !servable ==> forall k :: 0 <= k < |path| ==> r[k] == (if path[k] == '.' then '_' else path[k])
  {
    if servable then path else ReplaceChar(path, '.', '_')
  }

  /** Every character in `cs` masked to '#'. */
  function Mask(s: string, cs: string): (r: string)
  {
    seq(|s|, k requires 0 <= k < |s| => if s[k] in cs then '#' else s[k])
  }

  /** `s` with every character of `cs` deleted. */
  function RemoveAll(s: string, cs: string): (r: string)
    ensures forall c :: c in r ==> c in s && c !in cs
  {
    if s == [] then [] else (if s[0] in cs then [] else [s[0]]) + RemoveAll(s[1..], cs)
  }

  /** Lines 92-99 as the source means them: '+' becomes a space and the forbidden URL
      characters are removed. */
  function ForbiddenRemoved(path: string): (r: string)
    ensures '+' !in r
    ensures forall c :: c in ForbiddenUrlCharacters ==> c !in r
    ensures forall c :: c in r ==> c in path || c == ' '
  {
    var p := ReplaceChar(path, '+', ' ');
    assert forall c :: c in p ==> c in path || c == ' ';
    RemoveAll(p, ForbiddenUrlCharacters)
  }

  /** Masking with '#' and then deleting every '#' deletes exactly the masked characters. */
  lemma {:induction false} MaskThenRemove(s: string, cs: string)
    requires '#' in cs
    ensures RemoveChar(Mask(s, cs), '#') == RemoveAll(s, cs)
  {
    if s != [] {
      MaskThenRemove(s[1..], cs);
      assert Mask(s, cs) == [Mask(s, cs)[0]] + Mask(s[1..], cs);
    }
  }

  /** One pass of `Replace("  ", " ")`: left to right, non-overlapping. */
  function ReplaceDoubleSpaces(s: string): (r: string)
    ensures |r| <= |s|
    ensures HasDoubleSpace(s) ==> |r| < |s|
    ensures |r| == 0 <==> |s| == 0
    ensures |s| > 0 ==> r[0] == s[0]
    ensures forall c :: c in r ==> c in s
  {
    if |s| >= 2 && s[0] == ' ' && s[1] == ' ' then
      var rest := ReplaceDoubleSpaces(s[2..]);
      assert forall c :: c in rest ==> c in s;
      " " + rest
    else if s == [] then []
    else
      var rest := ReplaceDoubleSpaces(s[1..]);
      assert forall c :: c in rest ==> c in s;
      [s[0]] + rest
  }

  /** Lines 102-105: `Replace("  ", " ")` repeated while the path contains two spaces. */
  function CollapseSpaces(s: string): (r: string)
    ensures !HasDoubleSpace(r)
    ensures forall c :: c in r ==> c in s
    decreases |s|
  {
    if HasDoubleSpace(s) then CollapseSpaces(ReplaceDoubleSpaces(s)) else s
  }

  /** The independent reference for CollapseSpaces: every run of spaces becomes one space. */
  function Squeeze(s: string): (r: string)
    ensures |s| > 0 ==> |r| > 0 && r[0] == s[0]
  {
    if |s| >= 2 && s[0] == ' ' && s[1] == ' ' then Squeeze(s[1..])
    else if s == [] then []
    else [s[0]] + Squeeze(s[1..])
  }

  function ConsSpace(t: string): string
  {
    if |t| > 0 && t[0] == ' ' then t else " " + t
  }

  lemma SqueezeSpace(x: string)
    ensures Squeeze(" " + x) == ConsSpace(Squeeze(x))
  {
    assert (" " + x)[1..] == x;
  }

  lemma {:induction false} SqueezeReplaceDoubleSpaces(s: string)
    ensures Squeeze(ReplaceDoubleSpaces(s)) == Squeeze(s)
    decreases |s|
  {
    if |s| >= 2 && s[0] == ' ' && s[1] == ' ' {
      SqueezeReplaceDoubleSpaces(s[2..]);
      SqueezeSpace(ReplaceDoubleSpaces(s[2..]));
      SqueezeSpace(s[2..]);
      assert s[1..] == " " + s[2..];
    } else if s != [] {
      SqueezeReplaceDoubleSpaces(s[1..]);
      var rest := ReplaceDoubleSpaces(s[1..]);
      assert ReplaceDoubleSpaces(s) == [s[0]] + rest;
      if s[0] == ' ' {
        SqueezeSpace(rest);
        SqueezeSpace(s[1..]);
        assert s == " " + s[1..];
      } else {
        assert ([s[0]] + rest)[1..] == rest;
      }
    }
  }

  lemma {:induction false} SqueezeWithoutDoubleSpace(s: string)
    requires !HasDoubleSpace(s)
    ensures Squeeze(s) == s
  {
    if s != [] {
      SqueezeWithoutDoubleSpace(s[1..]);
    }
  }

  /** The collapsing loop leaves each maximal run of spaces as a single space and
      changes nothing else. */
  lemma {:induction false} CollapseSpacesIsSqueeze(s: string)
    ensures CollapseSpaces(s) == Squeeze(s)
    decreases |s|
  {
    if HasDoubleSpace(s) {
      CollapseSpacesIsSqueeze(ReplaceDoubleSpaces(s));
      SqueezeReplaceDoubleSpaces(s);
    } else {
      SqueezeWithoutDoubleSpace(s);
    }
  }

  /** Lines 112-116 for one part: "/" + the trimmed part, or nothing if that is empty. */
  function Segment(part: string): string
  {
    var t := Trim(part);
    if |t| > 0 then "/" + t else ""
  }

  /** Lines 107-117: the segments of all parts, in order. */
  function JoinTrimmed(parts: seq<string>): string
  {
    if parts == [] then "" else JoinTrimmed(parts[..|parts| - 1]) + Segment(parts[|parts| - 1])
  }

  /** A segment is empty or '/' followed by a trimmed part holding neither '/' nor `x`. */
  lemma SegmentShape(part: string, x: char)
    requires '/' !in part && x !in part && x != '/'
    ensures var seg := Segment(part);
      && (seg == [] || (seg[0] == '/' && seg[|seg| - 1] != '/'))
      && NoAdjacent(seg, '/')
      && x !in seg
  {
    var t := Trim(part);
    if |t| > 0 {
      var seg := "/" + t;
      assert t[|t| - 1] in t;
      forall i | 0 < i < |seg| ensures seg[i] != '/' {
        assert seg[i] == t[i - 1];
      }
    }
  }

  /** The joined path is empty or starts with '/', never ends with '/', has no "//",
      and brings in no character other than '/' and those of the parts. */
  lemma {:induction false} JoinTrimmedShape(parts: seq<string>, x: char)
    requires forall i :: 0 <= i < |parts| ==> '/' !in parts[i] && x !in parts[i]
    requires x != '/'
    ensures var r := JoinTrimmed(parts);
      && (r == [] || (r[0] == '/' && r[|r| - 1] != '/'))
      && NoAdjacent(r, '/')
      && x !in r
  {
    if parts != [] {
      var init := parts[..|parts| - 1];
      JoinTrimmedShape(init, x);
      var a := JoinTrimmed(init);
      var seg := Segment(parts[|parts| - 1]);
      SegmentShape(parts[|parts| - 1], x);
      NoAdjacentConcat(a, seg, '/');
      assert JoinTrimmed(parts) == a + seg;
    }
  }

  /** Line 120: `Replace(" ", "%20")`. */
  function EncodeSpaces(s: string): (r: string)
    ensures ' ' !in r
    ensures |r| == 0 <==> |s| == 0
    ensures |s| > 0 && s[0] != ' ' ==> r[0] == s[0]
    ensures forall c :: c in r ==> c in s || c in "%20"
  {
    if s == [] then []
    else
      var rest := EncodeSpaces(s[1..]);
      assert forall c :: c in rest ==> c in s || c in "%20";
      (if s[0] == ' ' then "%20" else [s[0]]) + rest
  }

  /** Turns each "%20" back into a space. */
  function DecodeSpaces(s: string): string
  {
    if s == [] then []
    else if |s| >= 3 && s[..3] == "%20" then " " + DecodeSpaces(s[3..])
    else [s[0]] + DecodeSpaces(s[1..])
  }

  /** On a string without '%', encoding the spaces loses nothing. */
  lemma {:induction false} EncodeSpacesRoundTrip(s: string)
    requires '%' !in s
    ensures DecodeSpaces(EncodeSpaces(s)) == s
  {
    if s != [] {
      EncodeSpacesRoundTrip(s[1..]);
      var rest := EncodeSpaces(s[1..]);
      if s[0] == ' ' {
        assert ("%20" + rest)[..3] == "%20" && ("%20" + rest)[3..] == rest;
      } else {
        assert ([s[0]] + rest)[1..] == rest;
      }
    }
  }

  /** Encoding spaces cannot create "//". */
  lemma {:induction false} EncodeSpacesNoAdjacentSlash(s: string)
    requires NoAdjacent(s, '/')
    ensures NoAdjacent(EncodeSpaces(s), '/')
  {
    if s != [] {
      assert NoAdjacent(s[1..], '/') by {
        forall i | 0 < i < |s[1..]| ensures !(s[1..][i - 1] == '/' && s[1..][i] == '/') {
          assert s[1..][i - 1] == s[i] && s[1..][i] == s[i + 1];
        }
      }
      EncodeSpacesNoAdjacentSlash(s[1..]);
      var head := if s[0] == ' ' then "%20" else [s[0]];
      var rest := EncodeSpaces(s[1..]);
      assert NoAdjacent(head, '/');
      if |s| > 1 && s[0] == '/' {
        assert s[1] != '/';
        if s[1] == ' ' { assert rest[0] == '%'; } else { assert rest[0] == s[1]; }
      }
      NoAdjacentConcat(head, rest, '/');
    }
  }

  /** Lines 88-122: the normalised path, once the extension check has said whether the
      extension is IIS-servable. */
  function NormalizedPath(path: string, servable: bool): string
  {
    EncodeSpaces(JoinedPath(DotsReplaced(path, servable)))
  }

  /** Lines 80-123: the ArgumentException of `Path.GetExtension` on the cleaned path, or the
      normalised path. */
  function Normalize(path: string, extensionOf: string -> string, isIisServable: string -> bool): (r: Result<string, PathError>)
    ensures r.Failure? <==> UnitSeparator in path
    ensures r.Success? ==> r.value == NormalizedPath(path, isIisServable(extensionOf(FilePathLegal(path))))
  {
    CleanedPathRejected(path, extensionOf);
    match GetExtension(FilePathLegal(path), extensionOf)
    case Failure(e) => Failure(e)
    case Success(extension) => Success(NormalizedPath(path, isIisServable(extension)))
  }

  /** The parts split from the collapsed path hold neither '/', '+' nor a forbidden character. */
  lemma {:induction false} PartsClean(p1: string, x: char)
    requires x == '/' || x == '+' || x in ForbiddenUrlCharacters
    ensures forall i :: 0 <= i < |Split(CollapseSpaces(ForbiddenRemoved(p1)), '/')| ==>
      x !in Split(CollapseSpaces(ForbiddenRemoved(p1)), '/')[i]
  {
    var p2 := CollapseSpaces(ForbiddenRemoved(p1));
    assert x != '/' ==> x !in p2;
  }

  /** The joined segments, before the spaces are encoded. */
  function JoinedPath(p1: string): string
  {
    JoinTrimmed(Split(CollapseSpaces(ForbiddenRemoved(p1)), '/'))
  }

  lemma JoinedPathClean(p1: string, x: char)
    requires x == '+' || x in ForbiddenUrlCharacters
    ensures var j := JoinedPath(p1);
      (j == [] || j[0] == '/') && NoAdjacent(j, '/') && x !in j
  {
    var parts := Split(CollapseSpaces(ForbiddenRemoved(p1)), '/');
    PartsClean(p1, '/');
    PartsClean(p1, x);
    JoinTrimmedShape(parts, x);
  }

  /** Encoding spaces adds only '%', '2' and '0'. */
  lemma EncodeSpacesKeepsOut(s: string, x: char)
    requires x !in s && x !in "%20"
    ensures x !in EncodeSpaces(s)
  {
  }

  /** The joined segments are empty or rooted at '/', have no "//", no '+' and no forbidden character. */
  lemma JoinedPathShape(p1: string)
    ensures var j := JoinedPath(p1);
      && (j == [] || j[0] == '/')
      && NoAdjacent(j, '/')
      && '+' !in j
      && (forall c :: c in ForbiddenUrlCharacters ==> c !in j)
  {
    JoinedPathClean(p1, '+');
    forall c | c in ForbiddenUrlCharacters ensures c !in JoinedPath(p1) {
      JoinedPathClean(p1, c);
    }
  }

  /** Encoding the spaces of such a path keeps it rooted, without "//", '+' or a forbidden character other than '%'. */
  lemma EncodeSpacesShape(j: string)
    requires j == [] || j[0] == '/'
    requires NoAdjacent(j, '/')
    requires '+' !in j
    requires forall c :: c in ForbiddenUrlCharacters ==> c !in j
    ensures var r := EncodeSpaces(j);
      && (r == [] || r[0] == '/')
      && NoAdjacent(r, '/')
      && ' ' !in r
      && '+' !in r
      && (forall c :: c in ForbiddenUrlCharacters && c != '%' ==> c !in r)
  {
    EncodeSpacesKeepsOut(j, '+');
    EncodeSpacesNoAdjacentSlash(j);
    forall c | c in ForbiddenUrlCharacters && c != '%' ensures c !in EncodeSpaces(j) {
      EncodeSpacesKeepsOut(j, c);
    }
  }

  /** What the normalised path looks like: empty or rooted at '/', no "//", no space,
      no '+' and no forbidden character except the '%' of "%20". */
  lemma NormalizedPathShape(path: string, servable: bool)
    ensures var r := NormalizedPath(path, servable);
      && (r == [] || r[0] == '/')
      && NoAdjacent(r, '/')
      && ' ' !in r
      && '+' !in r
      && (forall c :: c in ForbiddenUrlCharacters && c != '%' ==> c !in r)
  {
    var p1 := DotsReplaced(path, servable);
    JoinedPathShape(p1);
    EncodeSpacesShape(JoinedPath(p1));
  }

  /** The "%20"s of the normalised path decode back to the spaces of the joined, trimmed segments. */
  lemma NormalizedPathDecodes(path: string, servable: bool)
    ensures DecodeSpaces(NormalizedPath(path, servable)) == JoinedPath(DotsReplaced(path, servable))
  {
    var p1 := DotsReplaced(path, servable);
    assert ForbiddenUrlCharacters[3] == '%';
    JoinedPathClean(p1, '%');
    EncodeSpacesRoundTrip(JoinedPath(p1));
  }

  /** Lines 92-99: '+' becomes a space, each forbidden character is masked to '#', and the
      '#'s are deleted. */
  method RemoveForbidden(path: string) returns (p: string)
    ensures p == ForbiddenRemoved(path)
  {
    p := ReplaceChar(path, '+', ' ');
    ghost var plus := p;
    for k := 0 to |ForbiddenUrlCharacters|
      invariant p == Mask(plus, ForbiddenUrlCharacters[..k])
    {
      p := ReplaceChar(p, ForbiddenUrlCharacters[k], '#');
      assert ForbiddenUrlCharacters[..k + 1] == ForbiddenUrlCharacters[..k] + [ForbiddenUrlCharacters[k]];
    }
    assert ForbiddenUrlCharacters[..|ForbiddenUrlCharacters|] == ForbiddenUrlCharacters;
    p := RemoveChar(p, '#');
    MaskThenRemove(plus, ForbiddenUrlCharacters);
  }

  /** Lines 101-105: one `Replace("  ", " ")` pass after another while two spaces remain. */
  method CollapseDoubleSpaces(path: string) returns (p: string)
    ensures p == CollapseSpaces(path) && p == Squeeze(path)
  {
    p := path;
    while HasDoubleSpace(p)
      invariant CollapseSpaces(p) == CollapseSpaces(path)
      decreases |p|
    {
      p := ReplaceDoubleSpaces(p);
    }
    CollapseSpacesIsSqueeze(path);
  }

  /** Lines 107-117: "/" and the trimmed part appended for each part that is not blank. */
  method JoinParts(parts: seq<string>) returns (result: string)
    ensures result == JoinTrimmed(parts)
  {
    result := "";
    for i := 0 to |parts|
      invariant result == JoinTrimmed(parts[..i])
    {
      JoinTrimmedStep(parts, i);
      var trimmedPart := Trim(parts[i]);
      SegmentAppend(result, trimmedPart);
      if |trimmedPart| > 0 {
        result := result + "/" + trimmedPart;
      }
    }
    assert parts[..|parts|] == parts;
  }

  lemma JoinTrimmedStep(parts: seq<string>, i: nat)
    requires i < |parts|
    ensures JoinTrimmed(parts[..i + 1]) == JoinTrimmed(parts[..i]) + Segment(parts[i])
  {
    var prefix := parts[..i + 1];
    assert prefix[..i] == parts[..i] && prefix[i] == parts[i];
  }

  /** Appending "/" and a non-empty part, or nothing for an empty one, appends its segment. */
  lemma SegmentAppend(joined: string, t: string)
    ensures (if |t| > 0 then joined + "/" + t else joined) == joined + (if |t| > 0 then "/" + t else "")
  {
    if |t| > 0 {
      assert joined + "/" + t == joined + ("/" + t);
    } else {
      assert joined + "" == joined;
    }
  }

  /** RemoveForbiddenCharactersAndNormalize, statement by statement. */
  method RemoveForbiddenCharactersAndNormalize(path: string, getExtension: string -> string, isIisServable: string -> bool)
    returns (r: Result<string, PathError>)
    ensures r == Normalize(path, getExtension, isIisServable)
    ensures r.Failure? <==> UnitSeparator in path
    ensures r.Success? ==> (r.value == [] || r.value[0] == '/') && NoAdjacent(r.value, '/') && ' ' !in r.value
  {
    var legalFilePath := RemoveFilePathIllegalCharacters(path);
    var extension :- GetExtension(legalFilePath, getExtension);
    var p := path;
    if !isIisServable(extension) {
      p := ReplaceChar(p, '.', '_');
    }
    ghost var p1 := p;
    assert p1 == DotsReplaced(path, isIisServable(extension));

    p := RemoveForbidden(p);
    p := CollapseDoubleSpaces(p);
    var parts := Split(p, '/');
    var result := JoinParts(parts);
    r := Success(EncodeSpaces(result));
    NormalizedPathShape(path, isIisServable(extension));
  }

  // ---------------------------------------------------------------------------
  // GetDateTimeHash
  // ---------------------------------------------------------------------------

  /** The Base64 digit of value v (section 4 of RFC 4648). */
  function Base64Digit(v: int): char
    requires 0 <= v < 64
  {
    if v < 26 then ('A' as int + v) as char
    else if v < 52 then ('a' as int + v - 26) as char
    else if v < 62 then ('0' as int + v - 52) as char
    else if v == 62 then '+'
    else '/'
  }

  /** Base64 encoding with '=' padding (section 4 of RFC 4648). */
  function Base64Encode(bytes: seq<Byte>): (r: string)
    ensures |r| == (|bytes| + 2) / 3 * 4
  {
    if |bytes| == 0 then []
    else if |bytes| == 1 then
      var b0 := bytes[0];
      [Base64Digit(b0 / 4), Base64Digit(b0 % 4 * 16), '=', '=']
    else if |bytes| == 2 then
      var b0, b1 := bytes[0], bytes[1];
      [Base64Digit(b0 / 4), Base64Digit(b0 % 4 * 16 + b1 / 16), Base64Digit(b1 % 16 * 4), '=']
    else
      var b0, b1, b2 := bytes[0], bytes[1], bytes[2];
      [Base64Digit(b0 / 4), Base64Digit(b0 % 4 * 16 + b1 / 16), Base64Digit(b1 % 16 * 4 + b2 / 64), Base64Digit(b2 % 64)]
        + Base64Encode(bytes[3..])
  }

  /** A .NET `int`. */
  type Int32 = x: int | -0x8000_0000 <= x < 0x8000_0000

  /** The two's-complement bit pattern of an `int`, read as an unsigned number. */
  function Unsigned(hash: Int32): (n: int)
    ensures 0 <= n < 0x1_0000_0000
  {
    if hash < 0 then hash + 0x1_0000_0000 else hash
  }

  /** BitConverter.GetBytes(int) on a little-endian machine: the low byte first. */
  function Int32Bytes(hash: Int32): (r: seq<Byte>)
    ensures |r| == 4
    ensures Unsigned(hash) == r[0] as int + 256 * (r[1] as int + 256 * (r[2] as int + 256 * r[3] as int))
  {
    var n := Unsigned(hash);
    var q1 := n / 256;
    var q2 := q1 / 256;
    [n % 256, q1 % 256, q2 % 256, q2 / 256]
  }

  /** GetDateTimeHash, given `DateTime.GetHashCode()` of the UTC time. */
  function GetDateTimeHash(hash: Int32): (r: string)
  {
    ReplaceChar(ReplaceChar(Base64Encode(Int32Bytes(hash))[..6], '+', '-'), '/', '_')
  }

  /** The character GetDateTimeHash leaves in place of a Base64 digit. */
  function UrlSafe(c: char): char
  {
    if c == '+' then '-' else if c == '/' then '_' else c
  }

  /** The URL-safe digit that GetDateTimeHash leaves in place of Base64Digit(v). */
  function UrlSafeDigit(v: int): (c: char)
    requires 0 <= v < 64
    ensures c == UrlSafe(Base64Digit(v))
    ensures IsUrlSafeChar(c)
  {
    if v == 62 then '-' else if v == 63 then '_' else Base64Digit(v)
  }

  predicate IsUrlSafeChar(c: char)
  {
    ('A' <= c <= 'Z') || ('a' <= c <= 'z') || ('0' <= c <= '9') || c == '-' || c == '_'
  }

  /** The first six 6-bit groups of four bytes, the last one padded with zero bits. */
  function Sextets(b: seq<Byte>): (r: seq<int>)
    requires |b| == 4
    ensures |r| == 6 && forall i :: 0 <= i < 6 ==> 0 <= r[i] < 64
  {
    [b[0] / 4, b[0] % 4 * 16 + b[1] / 16, b[1] % 16 * 4 + b[2] / 64, b[2] % 64, b[3] / 4, b[3] % 4 * 16]
  }

  /** No bit is lost: the six groups give the four bytes back. */
  lemma SextetsInjective(a: seq<Byte>, b: seq<Byte>)
    requires |a| == 4 && |b| == 4 && Sextets(a) == Sextets(b)
    ensures a == b
  {
    var sa, sb := Sextets(a), Sextets(b);
    assert sa[1] / 16 == a[0] % 4 && sb[1] / 16 == b[0] % 4;
    assert a[0] == sa[0] * 4 + sa[1] / 16 && b[0] == sb[0] * 4 + sb[1] / 16;
    assert sa[2] / 4 == a[1] % 16 && sb[2] / 4 == b[1] % 16;
    assert a[1] == sa[1] % 16 * 16 + sa[2] / 4 && b[1] == sb[1] % 16 * 16 + sb[2] / 4;
    assert a[2] == sa[2] % 4 * 64 + sa[3] && b[2] == sb[2] % 4 * 64 + sb[3];
    assert a[3] == sa[4] * 4 + sa[5] / 16 && b[3] == sb[4] * 4 + sb[5] / 16;
  }

  /** The first six characters of the Base64 form of four bytes are the digits of their six groups. */
  lemma Base64OfFourBytes(bytes: seq<Byte>)
    requires |bytes| == 4
    ensures var d := Sextets(bytes);
      Base64Encode(bytes)[..6] == [Base64Digit(d[0]), Base64Digit(d[1]), Base64Digit(d[2]), Base64Digit(d[3]),
        Base64Digit(d[4]), Base64Digit(d[5])]
  {
    assert bytes[3..] == [bytes[3]];
  }

  /** The two replacements of GetDateTimeHash act character by character. */
  lemma UrlSafePrefix(e: string)
    requires |e| >= 6
    ensures ReplaceChar(ReplaceChar(e[..6], '+', '-'), '/', '_')
      == [UrlSafe(e[0]), UrlSafe(e[1]), UrlSafe(e[2]), UrlSafe(e[3]), UrlSafe(e[4]), UrlSafe(e[5])]
  {
  }

  /** The six characters of GetDateTimeHash, group by group from the four little-endian bytes. */
  lemma GetDateTimeHashDigits(hash: Int32)
    ensures var d := Sextets(Int32Bytes(hash));
      GetDateTimeHash(hash) == [UrlSafeDigit(d[0]), UrlSafeDigit(d[1]), UrlSafeDigit(d[2]),
        UrlSafeDigit(d[3]), UrlSafeDigit(d[4]), UrlSafeDigit(d[5])]
  {
    var bytes := Int32Bytes(hash);
    Base64OfFourBytes(bytes);
    UrlSafePrefix(Base64Encode(bytes));
  }

  /** GetDateTimeHash gives six URL-safe characters: never '+', '/' or '='. */
  lemma GetDateTimeHashShape(hash: Int32)
    ensures |GetDateTimeHash(hash)| == 6
    ensures forall c :: c in GetDateTimeHash(hash) ==> IsUrlSafeChar(c)
    ensures '+' !in GetDateTimeHash(hash) && '/' !in GetDateTimeHash(hash) && '=' !in GetDateTimeHash(hash)
  {
    GetDateTimeHashDigits(hash);
  }

  lemma UrlSafeDigitInjective(v: int, w: int)
    requires 0 <= v < 64 && 0 <= w < 64 && UrlSafeDigit(v) == UrlSafeDigit(w)
    ensures v == w
  {
  }

  lemma UrlSafeDigitsInjective(d1: seq<int>, d2: seq<int>)
    requires |d1| == 6 && |d2| == 6
    requires forall i :: 0 <= i < 6 ==> 0 <= d1[i] < 64 && 0 <= d2[i] < 64
    requires [UrlSafeDigit(d1[0]), UrlSafeDigit(d1[1]), UrlSafeDigit(d1[2]), UrlSafeDigit(d1[3]), UrlSafeDigit(d1[4]), UrlSafeDigit(d1[5])]
          == [UrlSafeDigit(d2[0]), UrlSafeDigit(d2[1]), UrlSafeDigit(d2[2]), UrlSafeDigit(d2[3]), UrlSafeDigit(d2[4]), UrlSafeDigit(d2[5])]
    ensures d1 == d2
  {
    forall i | 0 <= i < 6
      ensures d1[i] == d2[i]
    {
      UrlSafeDigitInjective(d1[i], d2[i]);
    }
  }

  /** BitConverter.GetBytes(int) loses nothing. */
  lemma Int32BytesInjective(h1: Int32, h2: Int32)
    requires Int32Bytes(h1) == Int32Bytes(h2)
    ensures h1 == h2
  {
    var b := Int32Bytes(h1);
    var n: int := b[0] as int + 256 * (b[1] as int + 256 * (b[2] as int + 256 * b[3] as int));
    assert Unsigned(h1) == n == Unsigned(h2);
  }

  /** The six characters keep all 32 bits: different hashes give different strings,
      so a changed hash always changes the URL. */
  lemma GetDateTimeHashInjective(h1: Int32, h2: Int32)
    requires GetDateTimeHash(h1) == GetDateTimeHash(h2)
    ensures h1 == h2
  {
    var b1, b2 := Int32Bytes(h1), Int32Bytes(h2);
    GetDateTimeHashDigits(h1);
    GetDateTimeHashDigits(h2);
    UrlSafeDigitsInjective(Sextets(b1), Sextets(b2));
    SextetsInjective(b1, b2);
    Int32BytesInjective(h1, h2);
  }

  // ---------------------------------------------------------------------------
  // GetUrl
  // ---------------------------------------------------------------------------

  /** The fields of IMediaFile that GetUrl reads; `lastWriteTime` is in ticks. */
  datatype MediaFile = MediaFile(storeId: string, id: string, folderPath: string, fileName: string, lastWriteTime: Option<int>)

  datatype MediaUrlData = MediaUrlData(mediaStore: string, mediaId: string, queryParameters: Option<seq<(string, string)>>)

  /** The UrlBuilder GetUrl fills: its path, its PathInfo and the query parameters added to it. */
  datatype MediaUrl = MediaUrl(filePath: string, pathInfo: string, queryParameters: Option<seq<(string, string)>>)

  datatype MediaEnvironment = MediaEnvironment(
    mediaFiles: seq<MediaFile>,                           // DataFacade.GetData<IMediaFile>() in the public scope
    combine: (string, string) -> string,                  // UrlUtils.Combine
    getExtension: string -> string,                       // the extension Path.GetExtension finds
    isIisServable: string -> bool,                        // MimeTypeInfo.IsIisServable
    usingIntegratedPipeline: bool,                        // HttpRuntime.UsingIntegratedPipeline
    publicRootPath: string,                               // UrlUtils.PublicRootPath
    utcTicksHash: int -> Int32)                           // ToUniversalTime().GetHashCode()

  /** Lines 126-141: the first media file of the store with the id, or null. */
  function GetFileById(files: seq<MediaFile>, storeId: string, fileId: string): (r: Option<MediaFile>)
    ensures r.None? <==> forall k :: 0 <= k < |files| ==> !(files[k].id == fileId && files[k].storeId == storeId)
    ensures r.Some? ==> r.value.id == fileId && r.value.storeId == storeId
    ensures r.Some? ==>
      exists k :: 0 <= k < |files| && files[k] == r.value &&
        forall j :: 0 <= j < k ==> !(files[j].id == fileId && files[j].storeId == storeId)
  {
    if files == [] then None
    else if files[0].id == fileId && files[0].storeId == storeId then
      assert files[0] == files[0];
      Some(files[0])
    else
      var r := GetFileById(files[1..], storeId, fileId);
      if r.Some? then
        var k :| 0 <= k < |files[1..]| && files[1..][k] == r.value
          && r.value.id == fileId && r.value.storeId == storeId
          && forall j :: 0 <= j < k ==> !(files[1..][j].id == fileId && files[1..][j].storeId == storeId);
        assert files[k + 1] == r.value;
        r
      else r
  }

  /** Lines 44-49: no prefix for the default store, otherwise the store name and a slash. */
  function MediaStorePrefix(mediaStore: string): (r: string)
    ensures r == [] <==> EqualsIgnoreCase(mediaStore, DefaultMediaStore)
    ensures r != [] ==> r == mediaStore + "/"
  {
    if EqualsIgnoreCase(mediaStore, DefaultMediaStore) then "" else mediaStore + "/"
  }

  /** Lines 35-42: the path cut before its first '.', if it has one. */
  function TruncateAtFirstDot(path: string): (r: string)
    ensures '.' !in r
    ensures |r| <= |path| && r == path[..|r|]
    ensures '.' !in path ==> r == path
    ensures '.' in path ==> |r| < |path| && path[|r|] == '.'
  {
    var dotOffset := IndexOf(path, '.');
    if dotOffset >= 0 then path[..dotOffset] else path
  }

  /** The path info joins the hash segment and the normalised path without a space or, in
      the classic pipeline, a '.'. */
  lemma PathInfoShape(hashPart: string, normalized: string, integrated: bool)
    requires hashPart == [] || hashPart[0] == '/'
    requires forall c :: c in hashPart ==> c != ' ' && c != '.'
    requires ' ' !in normalized && (normalized == [] || normalized[0] == '/')
    ensures var p := hashPart + (if integrated then normalized else TruncateAtFirstDot(normalized));
      && ' ' !in p
      && (p == [] || p[0] == '/')
      && (!integrated ==> '.' !in p)
  {
    var t := TruncateAtFirstDot(normalized);
    assert forall k :: 0 <= k < |t| ==> t[k] == normalized[k];
  }

  /** Lines 54-56: the hash segment of the last write time, or nothing. */
  function HashPart(lastWriteTime: Option<int>, utcTicksHash: int -> Int32): string
  {
    if lastWriteTime.Some? then "/" + GetDateTimeHash(utcTicksHash(lastWriteTime.value)) else ""
  }

  /** The hash segment is empty or rooted at '/', with neither a space nor a '.'. */
  lemma HashPartShape(lastWriteTime: Option<int>, utcTicksHash: int -> Int32)
    ensures var h := HashPart(lastWriteTime, utcTicksHash);
      (h == [] || h[0] == '/') && forall c :: c in h ==> c != ' ' && c != '.'
  {
    if lastWriteTime.Some? {
      GetDateTimeHashShape(utcTicksHash(lastWriteTime.value));
      assert !IsUrlSafeChar(' ') && !IsUrlSafeChar('.');
    }
  }

  /** The path UrlUtils.Combine gives for the folder and file name of `file`. */
  function FilePath(file: MediaFile, env: MediaEnvironment): string
  {
    env.combine(file.folderPath, file.fileName)
  }

  /** Lines 54-62: the PathInfo of the URL of `file`, the hash segment of its last write time
      (if it has one) followed by its normalised path, which loses everything from its first
      '.' in the classic pipeline. */
  function UrlPathInfo(file: MediaFile, normalized: string, env: MediaEnvironment): string
  {
    HashPart(file.lastWriteTime, env.utcTicksHash) + (if env.usingIntegratedPipeline then normalized else TruncateAtFirstDot(normalized))
  }

  /** Whenever the path normalises, the path info never holds a space and is empty or rooted at
      '/'; in the classic pipeline it never holds a '.', so the web server cannot mistake the
      URL for a static file. */
  lemma UrlPathInfoShape(file: MediaFile, env: MediaEnvironment)
    ensures var n := Normalize(FilePath(file, env), env.getExtension, env.isIisServable);
      n.Success? ==>
        var p := UrlPathInfo(file, n.value, env);
        && ' ' !in p
        && (p == [] || p[0] == '/')
        && (!env.usingIntegratedPipeline ==> '.' !in p)
  {
    var path := FilePath(file, env);
    var n := Normalize(path, env.getExtension, env.isIisServable);
    if n.Success? {
      var servable := env.isIisServable(env.getExtension(FilePathLegal(path)));
      NormalizedPathShape(path, servable);
      HashPartShape(file.lastWriteTime, env.utcTicksHash);
      PathInfoShape(HashPart(file.lastWriteTime, env.utcTicksHash), n.value, env.usingIntegratedPipeline);
    }
  }

  /** Appending only a non-empty string appends it. */
  lemma AppendUnlessEmpty(a: string, b: string)
    ensures (if |b| > 0 then a + b else a) == a + b
  {
    if |b| == 0 {
      assert b == [];
    }
  }

  /** Lines 22-70: null when the store has no such file; the ArgumentException of
      `Path.GetExtension` when its path holds U+001F; otherwise the URL of the file under
      "/media/", its store prefix and its id, with the path info and query parameters. */
  method GetUrl(mediaUrlData: MediaUrlData, env: MediaEnvironment) returns (r: Result<Option<MediaUrl>, PathError>)
    ensures var file := GetFileById(env.mediaFiles, mediaUrlData.mediaStore, mediaUrlData.mediaId);
      && (r == Success(None) <==> file.None?)
      && (r.Failure? <==> file.Some? && UnitSeparator in FilePath(file.value, env))
    ensures r.Success? && r.value.Some? ==>
      var file := GetFileById(env.mediaFiles, mediaUrlData.mediaStore, mediaUrlData.mediaId).value;
      var n := Normalize(FilePath(file, env), env.getExtension, env.isIisServable);
      && n.Success?
      && r.value.value.filePath == env.publicRootPath + "/media/" + MediaStorePrefix(mediaUrlData.mediaStore) + mediaUrlData.mediaId
      && r.value.value.pathInfo == UrlPathInfo(file, n.value, env)
      && r.value.value.queryParameters == mediaUrlData.queryParameters
  {
    var file := GetFileById(env.mediaFiles, mediaUrlData.mediaStore, mediaUrlData.mediaId);
    if file.None? {
      return Success(None);
    }
    var pathToFile := env.combine(file.value.folderPath, file.value.fileName);
    pathToFile :- RemoveForbiddenCharactersAndNormalize(pathToFile, env.getExtension, env.isIisServable);
    ghost var normalized := pathToFile;
    if !env.usingIntegratedPipeline {
      var dotOffset := IndexOf(pathToFile, '.');
      if dotOffset >= 0 {
        pathToFile := pathToFile[..dotOffset];
      }
      assert pathToFile == TruncateAtFirstDot(normalized);
    }
    var mediaStore := "";
    if !EqualsIgnoreCase(mediaUrlData.mediaStore, DefaultMediaStore) {
      mediaStore := mediaUrlData.mediaStore + "/";
    }
    assert mediaStore == MediaStorePrefix(mediaUrlData.mediaStore);
    var pathInfo := "";
    if file.value.lastWriteTime.Some? {
      pathInfo := "/" + GetDateTimeHash(env.utcTicksHash(file.value.lastWriteTime.value));
    }
    assert pathInfo == HashPart(file.value.lastWriteTime, env.utcTicksHash);
    AppendUnlessEmpty(pathInfo, pathToFile);
    if |pathToFile| > 0 {
      pathInfo := pathInfo + pathToFile;
    }
    assert pathInfo == UrlPathInfo(file.value, normalized, env);
    r := Success(Some(MediaUrl(env.publicRootPath + "/media/" + mediaStore + mediaUrlData.mediaId, pathInfo, mediaUrlData.queryParameters)));
  }
}
