/**
  The Content-Type resolver: sanitizeContentTypeHeader and parseContentType
  (parser.go:116-128, 590-615).
*/
module ContentType {
  import opened GoStrings
  import opened Platform
  import opened EmailTypes

  /** The key of a `name=value` segment: the lower-cased text before its first '='. */
  function KeyOf(segment: string): string {
    ToLower(Split(segment, "=")[0])
  }

  /** A segment with an '=' takes part in de-duplication; the others are always kept. */
  predicate IsParam(segment: string) {
    Contains(segment, "=")
  }

  /** The loop skips an empty segment and a parameter whose key it has seen. */
  predicate Skips(p: string, seen: set<string>) {
    p == "" || (IsParam(p) && KeyOf(p) in seen)
  }

  /** The keys seen once segment `p` is kept. */
  function SeenAfter(p: string, seen: set<string>): set<string> {
    if IsParam(p) then seen + {KeyOf(p)} else seen
  }

  /**
    The segments the sanitizer's loop keeps from `params` when the keys in
    `seen` have been met already: each is trimmed, empty ones are skipped,
    and a parameter whose key was seen before is dropped.
  */
  function Kept(params: seq<string>, seen: set<string>): seq<string> {
    if params == [] then []
    else
      var p := TrimSpace(params[0]);
      if Skips(p, seen) then Kept(params[1..], seen)
      else [p] + Kept(params[1..], SeenAfter(p, seen))
  }

  /** The string sanitizeContentTypeHeader returns. */
  function Sanitized(contentType: string): string {
    Join(Kept(Split(contentType, ";"), {}), "; ")
  }

  /** An empty header sanitizes to the empty string. */
  lemma SanitizeEmpty()
    ensures Sanitized("") == ""
  {
    SplitSingle("", ";");
    assert TrimSpace("") == "";
  }

  /** One step of Kept over the tail of `params` that starts at `i`. */
  lemma KeptStep(params: seq<string>, i: nat, seen: set<string>)
    requires i < |params|
    ensures var p := TrimSpace(params[i]);
      Kept(params[i..], seen) ==
        if Skips(p, seen) then Kept(params[i + 1..], seen)
        else [p] + Kept(params[i + 1..], SeenAfter(p, seen))
  {
    assert params[i..][1..] == params[i + 1..];
  }

  lemma ConcatAssoc(a: seq<string>, b: seq<string>, c: seq<string>)
    ensures a + (b + c) == (a + b) + c
  {
  }

  /** sanitizeContentTypeHeader: drops duplicate parameters, keeping the first of each key. */
  method SanitizeContentTypeHeader(contentType: string) returns (r: string)
    ensures r == Sanitized(contentType)
  {
    var params := Split(contentType, ";");
    var seen: set<string> := {};
    var result: seq<string> := [];
    var i := 0;
    while i < |params|
      invariant 0 <= i <= |params|
      invariant result + Kept(params[i..], seen) == Kept(params, {})
    {
      var p := TrimSpace(params[i]);
      KeptStep(params, i, seen);
      i := i + 1;
      var keep := p != "";
      if keep && Contains(p, "=") {
        var split := Split(p, "=");
        var key := ToLower(split[0]);
        assert key == KeyOf(p);
        if key in seen {
          keep := false;
        } else {
          seen := seen + {key};
        }
      }
      if keep {
        ConcatAssoc(result, [p], Kept(params[i..], seen));
        result := result + [p];
      }
    }
    assert result == Kept(params, {});
    r := Join(result, "; ");
  }

  /**
    parseContentType: an empty header means text/plain with no parameters;
    any other header is sanitized and handed to mime.ParseMediaType, whose
    failure is reported with the raw header.
  */
  function ParseContentType(lib: Library, header: string): (r: Result<MediaType>)
    ensures header == "" ==> r == Ok(MediaType("text/plain", map[]))
    ensures header != "" && r.Ok? ==> lib.parseMediaType(Sanitized(header)) == Some(r.value)
    ensures r.Err? <==> header != "" && lib.parseMediaType(Sanitized(header)).None?
    ensures r.Err? ==> r.error == InvalidContentType(header)
  {
    if header == "" then Ok(MediaType("text/plain", map[]))
    else
      match lib.parseMediaType(Sanitized(header))
      case None => Err(InvalidContentType(header))
      case Some(mt) => Ok(mt)
  }

  // ---------------------------------------------------------------------
  // Properties of the sanitizer

  /** Every kept segment is non-empty and has no white space at either end. */
  lemma {:induction false} KeptSegmentsAreTrimmed(params: seq<string>, seen: set<string>)
    ensures forall i :: 0 <= i < |Kept(params, seen)| ==>
              Kept(params, seen)[i] != "" && Trimmed(Kept(params, seen)[i], Whitespace)
  {
    if params != [] {
      var p := TrimSpace(params[0]);
      if Skips(p, seen) {
        KeptSegmentsAreTrimmed(params[1..], seen);
      } else {
        KeptSegmentsAreTrimmed(params[1..], SeenAfter(p, seen));
      }
    }
  }

  /** A byte that occurs in none of the pieces occurs in no kept segment. */
  lemma {:induction false} KeptAvoids(params: seq<string>, seen: set<string>, c: char)
    requires forall i :: 0 <= i < |params| ==> c !in params[i]
    ensures forall i :: 0 <= i < |Kept(params, seen)| ==> c !in Kept(params, seen)[i]
  {
    if params != [] {
      var p := TrimSpace(params[0]);
      TrimKeepsAbsent(params[0], Whitespace, c);
      var next := if Skips(p, seen) then seen else SeenAfter(p, seen);
      KeptAvoids(params[1..], next, c);
      var rest := Kept(params[1..], next);
      assert Kept(params, seen) == (if Skips(p, seen) then rest else [p] + rest);
    }
  }

  /** No kept parameter has a key that was seen before. */
  lemma {:induction false} KeptKeysUnseen(params: seq<string>, seen: set<string>)
    ensures forall i :: 0 <= i < |Kept(params, seen)| && IsParam(Kept(params, seen)[i]) ==>
              KeyOf(Kept(params, seen)[i]) !in seen
  {
    if params != [] {
      var p := TrimSpace(params[0]);
      if Skips(p, seen) {
        KeptKeysUnseen(params[1..], seen);
      } else {
        KeptKeysUnseen(params[1..], SeenAfter(p, seen));
      }
    }
  }

  /** The keys of the parameter segments of `segments`. */
  function KeysOf(segments: seq<string>): set<string> {
    if segments == [] then {}
    else (if IsParam(segments[0]) then {KeyOf(segments[0])} else {}) + KeysOf(segments[1..])
  }

  /** No two parameter segments of `segments` share a key. */
  predicate DistinctKeys(segments: seq<string>) {
    segments == [] ||
    ((IsParam(segments[0]) ==> KeyOf(segments[0]) !in KeysOf(segments[1..])) && DistinctKeys(segments[1..]))
  }

  /** The key of every parameter segment is among the keys. */
  lemma {:induction false} KeysOfHolds(segments: seq<string>, i: nat)
    requires i < |segments| && IsParam(segments[i])
    ensures KeyOf(segments[i]) in KeysOf(segments)
  {
    if i > 0 {
      KeysOfHolds(segments[1..], i - 1);
    }
  }

  /** DistinctKeys, stated over positions. */
  lemma {:induction false} DistinctKeysPairwise(segments: seq<string>)
    requires DistinctKeys(segments)
    ensures forall i, j ::
              (0 <= i < j < |segments| && IsParam(segments[i]) && IsParam(segments[j])) ==>
              KeyOf(segments[i]) != KeyOf(segments[j])
  {
    if segments != [] {
      var rest := segments[1..];
      DistinctKeysPairwise(rest);
      forall i, j | 0 <= i < j < |segments| && IsParam(segments[i]) && IsParam(segments[j])
        ensures KeyOf(segments[i]) != KeyOf(segments[j])
      {
        assert segments[j] == rest[j - 1];
        if i == 0 {
          KeysOfHolds(rest, j - 1);
        } else {
          assert segments[i] == rest[i - 1];
        }
      }
    }
  }

  /** The kept segments have distinct keys, none of them seen before. */
  lemma {:induction false} KeptHasDistinctKeys(params: seq<string>, seen: set<string>)
    ensures DistinctKeys(Kept(params, seen))
    ensures KeysOf(Kept(params, seen)) !! seen
  {
    if params != [] {
      var p := TrimSpace(params[0]);
      if Skips(p, seen) {
        KeptHasDistinctKeys(params[1..], seen);
      } else {
        var rest := Kept(params[1..], SeenAfter(p, seen));
        KeptHasDistinctKeys(params[1..], SeenAfter(p, seen));
        assert ([p] + rest)[1..] == rest;
      }
    }
  }

  /** The kept parameters have pairwise distinct keys. */
  lemma KeptKeysDistinct(params: seq<string>, seen: set<string>)
    ensures forall i, j ::
              (0 <= i < j < |Kept(params, seen)| &&
               IsParam(Kept(params, seen)[i]) && IsParam(Kept(params, seen)[j])) ==>
              KeyOf(Kept(params, seen)[i]) != KeyOf(Kept(params, seen)[j])
  {
    KeptHasDistinctKeys(params, seen);
    DistinctKeysPairwise(Kept(params, seen));
  }

  /** The trimmed, non-empty segments without '=', in order. */
  function Plain(params: seq<string>): seq<string> {
    if params == [] then []
    else
      var p := TrimSpace(params[0]);
      (if p != "" && !IsParam(p) then [p] else []) + Plain(params[1..])
  }

  /** Segments without '=' are never dropped: the kept ones are exactly the input's, in order. */
  lemma {:induction false} KeptKeepsPlainSegments(params: seq<string>, seen: set<string>)
    ensures Plain(Kept(params, seen)) == Plain(params)
  {
    if params != [] {
      var p := TrimSpace(params[0]);
      if Skips(p, seen) {
        KeptKeepsPlainSegments(params[1..], seen);
      } else {
        TrimmedFixpoint(p, Whitespace);
        var rest := Kept(params[1..], SeenAfter(p, seen));
        KeptKeepsPlainSegments(params[1..], SeenAfter(p, seen));
        assert ([p] + rest)[1..] == rest;
      }
    }
  }

  /** The first parameter segment (trimmed) whose key is `key`. */
  function FirstWithKey(params: seq<string>, key: string): Option<string> {
    if params == [] then None
    else
      var p := TrimSpace(params[0]);
      if IsParam(p) && KeyOf(p) == key then Some(p) else FirstWithKey(params[1..], key)
  }

  /** First occurrence wins: every kept parameter is the first one with its key. */
  lemma {:induction false} KeptParamsComeFirst(params: seq<string>, seen: set<string>)
    ensures forall i :: 0 <= i < |Kept(params, seen)| && IsParam(Kept(params, seen)[i]) ==>
              FirstWithKey(params, KeyOf(Kept(params, seen)[i])) == Some(Kept(params, seen)[i])
  {
    if params != [] {
      var p := TrimSpace(params[0]);
      var kept := Kept(params, seen);
      if Skips(p, seen) {
        KeptParamsComeFirst(params[1..], seen);
        KeptKeysUnseen(params[1..], seen);
      } else {
        var after := SeenAfter(p, seen);
        var rest := Kept(params[1..], after);
        KeptKeysUnseen(params[1..], after);
        KeptParamsComeFirst(params[1..], after);
        assert kept == [p] + rest;
        forall i | 0 <= i < |kept| && IsParam(kept[i])
          ensures FirstWithKey(params, KeyOf(kept[i])) == Some(kept[i])
        {
          if i > 0 {
            assert kept[i] == rest[i - 1];
          }
        }
      }
    }
  }

  /** First occurrence wins: the first parameter of every key not seen before is kept. */
  lemma {:induction false} KeptKeepsFirstOfEachKey(params: seq<string>, seen: set<string>, key: string)
    requires key !in seen && FirstWithKey(params, key).Some?
    ensures FirstWithKey(params, key).value in Kept(params, seen)
  {
    var p := TrimSpace(params[0]);
    if !(IsParam(p) && KeyOf(p) == key) {
      var after := SeenAfter(p, seen);
      if Skips(p, seen) {
        KeptKeepsFirstOfEachKey(params[1..], seen, key);
      } else {
        KeptKeepsFirstOfEachKey(params[1..], after, key);
      }
    }
  }

  // ---------------------------------------------------------------------
  // Idempotence and the cases of parser_test.go

  /** A list of segments the sanitizer leaves alone: trimmed, non-empty, free of ';', distinct keys. */
  predicate Clean(segments: seq<string>) {
    (forall i :: 0 <= i < |segments| ==> Segment(segments[i])) && DistinctKeys(segments)
  }

  /** A segment as the sanitizer emits it: non-empty, trimmed, free of ';'. */
  predicate Segment(s: string) {
    s != "" && Trimmed(s, Whitespace) && ';' !in s
  }

  /** Each segment after the first with one leading space, as a "; " join leaves them after a split on ';'. */
  function Spaced(segments: seq<string>): (r: seq<string>)
    requires |segments| > 0
    ensures |r| == |segments| && r[0] == segments[0]
    ensures forall i :: 0 < i < |segments| ==> r[i] == " " + segments[i]
  {
    seq(|segments|, i requires 0 <= i < |segments| => if i == 0 then segments[0] else " " + segments[i])
  }

  lemma JoinConsPrefix(c: string, a: string, rest: seq<string>, sep: string)
    ensures Join([c + a] + rest, sep) == c + Join([a] + rest, sep)
  {
    assert ([c + a] + rest)[1..] == rest;
    assert ([a] + rest)[1..] == rest;
  }

  /** Joining with "; " is joining the spaced segments with ";". */
  lemma {:induction false} JoinSpaced(segments: seq<string>)
    requires |segments| > 0
    ensures Join(segments, "; ") == Join(Spaced(segments), ";")
    decreases |segments|
  {
    if |segments| > 1 {
      var tail := segments[1..];
      JoinSpaced(tail);
      var sp := Spaced(segments);
      assert sp[1..] == [" " + tail[0]] + Spaced(tail)[1..];
      assert Spaced(tail) == [tail[0]] + Spaced(tail)[1..];
      JoinConsPrefix(" ", tail[0], Spaced(tail)[1..], ";");
      assert Join(sp, ";") == sp[0] + ";" + Join(sp[1..], ";");
      assert "; " == ";" + " ";
    }
  }

  /** Pieces whose trimmed forms are a clean list are kept exactly as those forms. */
  lemma {:induction false} KeptOfClean(pieces: seq<string>, segments: seq<string>, seen: set<string>)
    requires |pieces| == |segments|
    requires forall i :: 0 <= i < |pieces| ==> TrimSpace(pieces[i]) == segments[i]
    requires Clean(segments) && KeysOf(segments) !! seen
    ensures Kept(pieces, seen) == segments
  {
    if pieces != [] {
      var p := TrimSpace(pieces[0]);
      assert p == segments[0];
      var after := SeenAfter(p, seen);
      if IsParam(p) {
        KeysOfHolds(segments, 0);
      }
      CleanTail(segments);
      assert KeysOf(segments[1..]) !! after;
      KeptOfClean(pieces[1..], segments[1..], after);
    }
  }

  lemma CleanTail(segments: seq<string>)
    requires Clean(segments) && segments != []
    ensures Clean(segments[1..])
    ensures KeysOf(segments[1..]) <= KeysOf(segments)
    ensures IsParam(segments[0]) ==> KeyOf(segments[0]) !in KeysOf(segments[1..])
  {
  }

  /** The sanitizer returns a clean list joined with "; " unchanged. */
  lemma SanitizeCleanIsIdentity(segments: seq<string>)
    requires Clean(segments)
    ensures Sanitized(Join(segments, "; ")) == Join(segments, "; ")
  {
    if segments == [] {
      assert Split("", ";") == [""];
    } else {
      var sp := Spaced(segments);
      JoinSpaced(segments);
      SplitJoin(sp, ";");
      forall i | 0 <= i < |sp|
        ensures TrimSpace(sp[i]) == segments[i]
      {
        TrimmedFixpoint(segments[i], Whitespace);
        if i > 0 {
          TrimSkipsLeading(' ', segments[i], Whitespace);
        }
      }
      KeptOfClean(sp, segments, {});
    }
  }

  /** What the sanitizer returns is a clean list joined with "; ". */
  lemma KeptIsClean(contentType: string)
    ensures Clean(Kept(Split(contentType, ";"), {}))
  {
    var pieces := Split(contentType, ";");
    SplitPiecesAvoidSeparator(contentType, ";");
    KeptSegmentsAreTrimmed(pieces, {});
    KeptAvoids(pieces, {}, ';');
    KeptHasDistinctKeys(pieces, {});
  }

  /** Sanitizing twice is sanitizing once. */
  lemma SanitizeIsIdempotent(contentType: string)
    ensures Sanitized(Sanitized(contentType)) == Sanitized(contentType)
  {
    KeptIsClean(contentType);
    SanitizeCleanIsIdentity(Kept(Split(contentType, ";"), {}));
  }

  /** A `key=value` segment whose key has no '=' is a parameter with the lower-cased key. */
  lemma ParamKey(key: string, value: string)
    requires '=' !in key
    ensures IsParam(key + "=" + value) && KeyOf(key + "=" + value) == ToLower(key)
  {
    IndexAfter(key, "=", value);
    SplitCons(key, "=", value);
  }

  /** Three segments joined with "; " split back on ';' into the segments, the later two with their space. */
  lemma SplitThree(a: string, b: string, c: string)
    requires ';' !in a && ';' !in b && ';' !in c
    ensures Split(a + "; " + b + "; " + c, ";") == [a, " " + b, " " + c]
  {
    var segments := [a, b, c];
    JoinThree(a, b, c, "; ");
    JoinSpaced(segments);
    var sp := Spaced(segments);
    assert sp == [a, " " + b, " " + c];
    SplitJoin(sp, ";");
  }

  /** Kept on a list that starts with `x`. */
  lemma KeptCons(x: string, rest: seq<string>, seen: set<string>)
    ensures var p := TrimSpace(x);
      Kept([x] + rest, seen) ==
        if Skips(p, seen) then Kept(rest, seen) else [p] + Kept(rest, SeenAfter(p, seen))
  {
    assert ([x] + rest)[1..] == rest;
  }

  /** A segment with one leading space trims back to itself. */
  lemma TrimSpacedSegment(s: string)
    requires Segment(s)
    ensures TrimSpace(" " + s) == s
  {
    TrimSkipsLeading(' ', s, Whitespace);
    TrimmedFixpoint(s, Whitespace);
  }

  /** Once a key is seen, a later parameter with that key is dropped. */
  lemma KeptDropsSeenKey(again: string, seen: set<string>)
    requires Segment(again) && IsParam(again) && KeyOf(again) in seen
    ensures Kept([" " + again], seen) == []
  {
    TrimSpacedSegment(again);
    KeptCons(" " + again, [], seen);
  }

  /** The first parameter is kept, and a later one with the same key is dropped. */
  lemma KeptKeepsFirstParam(first: string, again: string)
    requires Segment(first) && Segment(again)
    requires IsParam(first) && IsParam(again) && KeyOf(again) == KeyOf(first)
    ensures Kept([" " + first, " " + again], {}) == [first]
  {
    var last := [" " + again];
    var seen := {KeyOf(first)};
    KeptDropsSeenKey(again, seen);
    TrimSpacedSegment(first);
    KeptCons(" " + first, last, {});
    assert !Skips(first, {}) && SeenAfter(first, {}) == seen;
    assert [" " + first, " " + again] == [" " + first] + last;
  }

  /** The loop keeps the media type and the first parameter, and drops the repeated key. */
  lemma KeptDropsRepeatedKey(mediaType: string, first: string, again: string)
    requires Segment(mediaType) && Segment(first) && Segment(again) && !IsParam(mediaType)
    requires IsParam(first) && IsParam(again) && KeyOf(again) == KeyOf(first)
    ensures Kept([mediaType, " " + first, " " + again], {}) == [mediaType, first]
  {
    var tail := [" " + first, " " + again];
    KeptKeepsFirstParam(first, again);
    TrimmedFixpoint(mediaType, Whitespace);
    KeptCons(mediaType, tail, {});
    assert [mediaType, " " + first, " " + again] == [mediaType] + tail;
  }

  /** A repeated key is dropped in favour of its first occurrence. */
  lemma SanitizeDropsRepeatedKey(mediaType: string, first: string, again: string)
    requires Segment(mediaType) && Segment(first) && Segment(again) && !IsParam(mediaType)
    requires IsParam(first) && IsParam(again) && KeyOf(again) == KeyOf(first)
    ensures Sanitized(mediaType + "; " + first + "; " + again) == mediaType + "; " + first
  {
    SplitThree(mediaType, first, again);
    KeptDropsRepeatedKey(mediaType, first, again);
    JoinTwo(mediaType, first, "; ");
  }

  /** A media type followed by one parameter passes through unchanged. */
  lemma SanitizeKeepsSingleParam(mediaType: string, param: string)
    requires Segment(mediaType) && Segment(param) && !IsParam(mediaType)
    ensures Sanitized(mediaType + "; " + param) == mediaType + "; " + param
  {
    var segments := [mediaType, param];
    assert segments[1..] == [param];
    assert KeysOf([param][1..]) == {};
    assert Join(segments, "; ") == mediaType + "; " + Join([param], "; ");
    SanitizeCleanIsIdentity(segments);
  }

  // The cases of parser_test.go, with each header written as the concatenation of its segments.

  /** A `key=value` segment as the sanitizer emits it. */
  lemma ParamSegment(key: string, value: string)
    requires key != "" && value != "" && ';' !in key && ';' !in value
    requires key[0] !in Whitespace && value[|value| - 1] !in Whitespace
    ensures Segment(key + "=" + value)
  {
    var segment := key + "=" + value;
    assert segment[0] == key[0];
    assert segment[|segment| - 1] == value[|value| - 1];
  }

  /** The media type of the parser_test.go headers is a segment... */
  lemma TestMediaTypeIsSegment()
    ensures Segment("text/plain")
  {
  }

  /** ... without '='. */
  lemma TestMediaTypeIsPlain()
    ensures !IsParam("text/plain")
  {
    IndexAbsent("text/plain", "=");
  }

  /** The charset parameters of the parser_test.go headers all have the key "charset". */
  lemma TestCharsetParam(value: string)
    requires value == "utf-8" || value == "UTF-8" || value == "\"UTF-8\""
    ensures Segment("charset" + "=" + value)
    ensures IsParam("charset" + "=" + value) && KeyOf("charset" + "=" + value) == "charset"
  {
    ParamSegment("charset", value);
    ParamKey("charset", value);
    CharsetIsLowerCase();
  }

  /** The key "charset" is already lower case. */
  lemma CharsetIsLowerCase()
    ensures ToLower("charset") == "charset"
  {
  }

  /** parser_test.go, "Without duplicate params". */
  lemma SanitizeTestWithoutDuplicates()
    ensures var charset := "charset" + "=" + "utf-8";
      Sanitized("text/plain" + "; " + charset) == "text/plain" + "; " + charset
  {
    TestMediaTypeIsSegment();
    TestMediaTypeIsPlain();
    TestCharsetParam("utf-8");
    SanitizeKeepsSingleParam("text/plain", "charset" + "=" + "utf-8");
  }

  /** parser_test.go, "With duplicate params in same case". */
  lemma SanitizeTestSameCase()
    ensures var charset := "charset" + "=" + "utf-8";
      Sanitized("text/plain" + "; " + charset + "; " + charset) == "text/plain" + "; " + charset
  {
    TestMediaTypeIsSegment();
    TestMediaTypeIsPlain();
    TestCharsetParam("utf-8");
    SanitizeDropsRepeatedKey("text/plain", "charset" + "=" + "utf-8", "charset" + "=" + "utf-8");
  }

  /** parser_test.go, "With duplicate params in different case". */
  lemma SanitizeTestDifferentCase()
    ensures var charset, upper := "charset" + "=" + "utf-8", "charset" + "=" + "UTF-8";
      Sanitized("text/plain" + "; " + charset + "; " + upper) == "text/plain" + "; " + charset
  {
    TestMediaTypeIsSegment();
    TestMediaTypeIsPlain();
    TestCharsetParam("utf-8");
    TestCharsetParam("UTF-8");
    SanitizeDropsRepeatedKey("text/plain", "charset" + "=" + "utf-8", "charset" + "=" + "UTF-8");
  }

  /** parser_test.go, "With duplicate params in different case and with quotes". */
  lemma SanitizeTestDifferentCaseQuoted()
    ensures var charset, quoted := "charset" + "=" + "utf-8", "charset" + "=" + "\"UTF-8\"";
      Sanitized("text/plain" + "; " + charset + "; " + quoted) == "text/plain" + "; " + charset
  {
    TestMediaTypeIsSegment();
    TestMediaTypeIsPlain();
    TestCharsetParam("utf-8");
    TestCharsetParam("\"UTF-8\"");
    SanitizeDropsRepeatedKey("text/plain", "charset" + "=" + "utf-8", "charset" + "=" + "\"UTF-8\"");
  }
}
