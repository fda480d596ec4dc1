/**
  Header decoding: decodeKoi8, decodeMimeSentence and decodeHeaderMime
  (parser.go:347-429).

  A header value is either one KOI8-R encoded word read by the decoder's
  own fast path, or a sequence of space-separated tokens, each of which is
  handed to the RFC 2047 (section 2) word decoder of the Library.
*/
module HeaderDecoding {
  import opened GoStrings
  import opened Platform
  import opened EmailTypes
  import opened TransferDecoding

  /** The lower-cased start that sends a value down the KOI8-R path. */
  const Koi8Marker: string := "=?koi8-r"

  /** The length of "=?KOI8-R?B?" and "=?KOI8-R?Q?". */
  const PrefixLen: nat := 11

  /** What decodeKoi8 does, as written: decoded text, a decline, or a run-time panic. */
  datatype Koi8Outcome = Koi8Text(text: string) | NotKoi8 | SlicePanic

  /**
    The payload of a KOI8-R encoded word: the bytes between the prefix and
    the two last bytes, decoded as base64 or quoted-printable according to
    the lower-cased byte at index 9, then mapped through the KOI8-R table.
  */
  function Koi8Payload(lib: Library, s: string): (r: Option<string>)
    requires |s| >= PrefixLen + 2
  {
    var prefix := ToLower(s[..PrefixLen]);
    var origin := s[PrefixLen..|s| - 2];
    var decoded :=
      if prefix[PrefixLen - 2] == 'b' then lib.decodeBase64(origin)
      else if prefix[PrefixLen - 2] == 'q' then lib.decodeQuotedPrintable(origin)
      else None;
    match decoded
    case None => None
    case Some(b) => Some(Transcode(lib, KOI8R, b))
  }

  /**
    decodeKoi8 as written: once the marker is seen, `s[0:11]` and
    `s[11:len(s)-2]` are sliced without a length check, which panics for a
    value shorter than 13 bytes.
  */
  function DecodeKoi8AsWritten(lib: Library, s: string): (r: Koi8Outcome)
    ensures r.Koi8Text? ==> HasPrefix(ToLower(s), Koi8Marker)
    ensures r == SlicePanic <==> HasPrefix(ToLower(s), Koi8Marker) && |s| < PrefixLen + 2
  {
    if !HasPrefix(ToLower(s), Koi8Marker) then NotKoi8
    else if |s| < PrefixLen || |s| - 2 < PrefixLen then SlicePanic
    else match Koi8Payload(lib, s)
      case None => NotKoi8
      case Some(text) => Koi8Text(text)
  }

  /**
    decodeKoi8 with the length check it lacks: a value too short to hold
    the prefix and the closing "?=" is declined like any other value that is
    not a KOI8-R word.  None is Go's `(false, "")`.
  */
  function DecodeKoi8(lib: Library, s: string): (r: Option<string>)
    ensures r.Some? ==> HasPrefix(ToLower(s), Koi8Marker) && |s| >= PrefixLen + 2
  {
    if !HasPrefix(ToLower(s), Koi8Marker) || |s| < PrefixLen + 2 then None
    else Koi8Payload(lib, s)
  }

  /** What one space-separated token contributes, at position `index` of the value. */
  function Piece(lib: Library, word: string, index: nat): (r: string)
    ensures lib.decodeWord(word).Some? ==> r == lib.decodeWord(word).value
    ensures lib.decodeWord(word).None? ==> r == (if index == 0 then word else " " + word)
  {
    match lib.decodeWord(word)
    case Some(w) => w
    case None => if index == 0 then word else " " + word
  }

  /** The contributions of all the tokens, in order. */
  function Pieces(lib: Library, words: seq<string>): (r: seq<string>)
    ensures |r| == |words|
    ensures forall i :: 0 <= i < |words| ==> r[i] == Piece(lib, words[i], i)
  {
    seq(|words|, i requires 0 <= i < |words| => Piece(lib, words[i], i))
  }

  /**
    decodeMimeSentence: the KOI8-R text when the fast path succeeds,
    otherwise the contributions of the tokens, joined without separator.
  */
  function MimeSentence(lib: Library, s: string): string {
    match DecodeKoi8(lib, s)
    case Some(text) => text
    case None => Join(Pieces(lib, Split(s, " ")), "")
  }

  /** decodeMimeSentence, with its loop over the tokens. */
  method DecodeMimeSentence(lib: Library, s: string) returns (r: string)
    ensures r == MimeSentence(lib, s)
  {
    var koi8 := DecodeKoi8(lib, s);
    if koi8.Some? {
      return koi8.value;
    }
    var words := Split(s, " ");
    var result: seq<string> := [];
    for i := 0 to |words|
      invariant result == Pieces(lib, words)[..i]
    {
      var w: string;
      match lib.decodeWord(words[i]) {
        case Some(d) =>
          w := d;
        case None =>
          if |result| == 0 {
            w := words[i];
          } else {
            w := " " + words[i];
          }
      }
      result := result + [w];
    }
    assert result == Pieces(lib, words);
    r := Join(result, "");
  }

  /** The values of one header field, each decoded. */
  function DecodedValues(lib: Library, values: seq<string>): (r: seq<string>)
    ensures |r| == |values|
    ensures forall i :: 0 <= i < |values| ==> r[i] == MimeSentence(lib, values[i])
  {
    seq(|values|, i requires 0 <= i < |values| => MimeSentence(lib, values[i]))
  }

  /** The header decodeHeaderMime builds: the same fields, every value decoded. */
  function DecodedHeader(lib: Library, h: Header): (r: Header)
    ensures r.Keys == h.Keys
    ensures forall k :: k in r ==> r[k] == DecodedValues(lib, h[k])
  {
    map k | k in h :: DecodedValues(lib, h[k])
  }

  /** decodeHeaderMime: every field, in no particular order; the error it returns is always nil. */
  method DecodeHeaderMime(lib: Library, header: Header) returns (parsed: Header, err: Option<Error>)
    ensures parsed.Keys == header.Keys
    ensures forall k :: k in parsed ==> parsed[k] == DecodedValues(lib, header[k])
    ensures parsed == DecodedHeader(lib, header)
    ensures err == None
  {
    parsed := map[];
    var pending := header.Keys;
    while pending != {}
      invariant pending <= header.Keys
      invariant parsed.Keys == header.Keys - pending
      invariant forall k :: k in parsed ==> parsed[k] == DecodedValues(lib, header[k])
      decreases pending
    {
      var name :| name in pending;
      var data := header[name];
      var values: seq<string> := [];
      for j := 0 to |data|
        invariant values == DecodedValues(lib, data)[..j]
      {
        var v := DecodeMimeSentence(lib, data[j]);
        values := values + [v];
      }
      assert values == DecodedValues(lib, data);
      parsed := parsed[name := values];
      pending := pending - {name};
    }
    assert parsed.Keys == DecodedHeader(lib, header).Keys;
    err := None;
  }

  // ---------------------------------------------------------------------
  // decodeKoi8

  /** Outside the panic, the corrected member decodes exactly what the code as written decodes. */
  lemma Koi8AgreesWhenLongEnough(lib: Library, s: string)
    ensures DecodeKoi8AsWritten(lib, s) != SlicePanic ==>
              (DecodeKoi8(lib, s).Some? <==> DecodeKoi8AsWritten(lib, s).Koi8Text?)
    ensures DecodeKoi8(lib, s).Some? ==> DecodeKoi8AsWritten(lib, s) == Koi8Text(DecodeKoi8(lib, s).value)
    ensures DecodeKoi8AsWritten(lib, s) == SlicePanic ==> DecodeKoi8(lib, s) == None
  {
  }

  /** Lower-casing a string without capitals leaves it as it is. */
  lemma {:induction false} ToLowerOfLower(s: string)
    requires forall i :: 0 <= i < |s| ==> !('A' <= s[i] <= 'Z')
    ensures ToLower(s) == s
  {
    if s != [] {
      ToLowerOfLower(s[1..]);
    }
  }

  /** A lower-case value that starts with the marker and closes right after it. */
  lemma ShortMarkedValue()
    ensures var s := Koi8Marker + "?="; ToLower(s) == s && HasPrefix(s, Koi8Marker) && |s| == 10
  {
    var s := Koi8Marker + "?=";
    ToLowerOfLower(s);
    assert s[..|Koi8Marker|] == Koi8Marker;
  }

  /** "=?koi8-r?=" makes the code as written slice out of range. */
  lemma Koi8ShortValuePanics(lib: Library)
    ensures DecodeKoi8AsWritten(lib, Koi8Marker + "?=") == SlicePanic
  {
    ShortMarkedValue();
  }

  /** The corrected member declines "=?koi8-r?=", so decodeMimeSentence falls through to the word path. */
  lemma Koi8ShortValueFallsThrough(lib: Library)
    ensures DecodeKoi8(lib, Koi8Marker + "?=") == None
    ensures MimeSentence(lib, Koi8Marker + "?=") == Join(Pieces(lib, Split(Koi8Marker + "?=", " ")), "")
  {
    ShortMarkedValue();
  }

  /** The lower-cased byte at index 9 of the value is that byte, lower-cased. */
  lemma SelectorByte(s: string)
    requires |s| >= PrefixLen
    ensures ToLower(s[..PrefixLen])[PrefixLen - 2] == LowerChar(s[PrefixLen - 2])
  {
    ToLowerAt(s[..PrefixLen], PrefixLen - 2);
  }

  /**
    The fast path looks only at the marker, at the byte at index 9 and at
    the bytes between index 11 and the two last bytes: the bytes at
    indices 8 and 10 and the two last bytes are never checked.
  */
  lemma Koi8ReadsOnlySelectorAndPayload(lib: Library, s: string, t: string)
    requires HasPrefix(ToLower(s), Koi8Marker) && HasPrefix(ToLower(t), Koi8Marker)
    requires |s| >= PrefixLen + 2 && |t| >= PrefixLen + 2
    requires LowerChar(s[PrefixLen - 2]) == LowerChar(t[PrefixLen - 2])
    requires s[PrefixLen..|s| - 2] == t[PrefixLen..|t| - 2]
    ensures DecodeKoi8(lib, s) == DecodeKoi8(lib, t)
  {
    SelectorByte(s);
    SelectorByte(t);
  }

  /** A selector other than 'b' or 'q', in either case, declines the value. */
  lemma Koi8UnknownSelectorDeclines(lib: Library, s: string)
    requires |s| >= PrefixLen + 2
    requires LowerChar(s[PrefixLen - 2]) != 'b' && LowerChar(s[PrefixLen - 2]) != 'q'
    ensures DecodeKoi8(lib, s) == None
  {
    SelectorByte(s);
  }

  /** With selector 'b' or 'B', the fast path succeeds exactly when base64 decoding of the payload does. */
  lemma Koi8Base64Selector(lib: Library, s: string)
    requires HasPrefix(ToLower(s), Koi8Marker) && |s| >= PrefixLen + 2
    requires LowerChar(s[PrefixLen - 2]) == 'b'
    ensures DecodeKoi8(lib, s).Some? <==> lib.decodeBase64(s[PrefixLen..|s| - 2]).Some?
    ensures DecodeKoi8(lib, s).Some? ==>
              DecodeKoi8(lib, s).value == Transcode(lib, KOI8R, lib.decodeBase64(s[PrefixLen..|s| - 2]).value)
  {
    SelectorByte(s);
  }

  /** With selector 'q' or 'Q', the fast path succeeds exactly when quoted-printable decoding of the payload does. */
  lemma Koi8QuotedPrintableSelector(lib: Library, s: string)
    requires HasPrefix(ToLower(s), Koi8Marker) && |s| >= PrefixLen + 2
    requires LowerChar(s[PrefixLen - 2]) == 'q'
    ensures DecodeKoi8(lib, s).Some? <==> lib.decodeQuotedPrintable(s[PrefixLen..|s| - 2]).Some?
    ensures DecodeKoi8(lib, s).Some? ==>
              DecodeKoi8(lib, s).value == Transcode(lib, KOI8R, lib.decodeQuotedPrintable(s[PrefixLen..|s| - 2]).value)
  {
    SelectorByte(s);
  }

  // ---------------------------------------------------------------------
  // decodeMimeSentence

  /** Join with the empty separator is the first piece followed by the join of the others. */
  lemma JoinEmptyFirst(ps: seq<string>)
    requires |ps| > 0
    ensures Join(ps, "") == ps[0] + Join(ps[1..], "")
  {
    if |ps| == 1 {
      assert ps[1..] == [];
    }
  }

  /** Pieces that are the words, each after a space, join to the words joined by spaces, after a space. */
  lemma {:induction false} JoinSpacePrefixed(ps: seq<string>, ws: seq<string>)
    requires |ps| == |ws| > 0
    requires forall i :: 0 <= i < |ws| ==> ps[i] == " " + ws[i]
    ensures Join(ps, "") == " " + Join(ws, " ")
    decreases |ws|
  {
    JoinEmptyFirst(ps);
    if |ws| > 1 {
      JoinSpacePrefixed(ps[1..], ws[1..]);
      assert ps[0] + (" " + Join(ws[1..], " ")) == " " + (ws[0] + " " + Join(ws[1..], " "));
    }
  }

  /** The first word as it is and the others each after a space join to the words joined by spaces. */
  lemma JoinFirstThenSpaced(ps: seq<string>, ws: seq<string>)
    requires |ps| == |ws| > 0 && ps[0] == ws[0]
    requires forall i :: 1 <= i < |ws| ==> ps[i] == " " + ws[i]
    ensures Join(ps, "") == Join(ws, " ")
  {
    JoinEmptyFirst(ps);
    if |ws| > 1 {
      JoinSpacePrefixed(ps[1..], ws[1..]);
      assert ws[0] + (" " + Join(ws[1..], " ")) == ws[0] + " " + Join(ws[1..], " ");
    }
  }

  /** When no token decodes, the pieces join back into the tokens separated by single spaces. */
  lemma UndecodedPiecesRejoin(lib: Library, words: seq<string>)
    requires |words| > 0
    requires forall i :: 0 <= i < |words| ==> lib.decodeWord(words[i]).None?
    ensures Join(Pieces(lib, words), "") == Join(words, " ")
  {
    JoinFirstThenSpaced(Pieces(lib, words), words);
  }

  /** A value that the fast path declines and of which no token decodes comes back unchanged. */
  lemma UndecodedSentenceUnchanged(lib: Library, s: string)
    requires DecodeKoi8(lib, s).None?
    requires forall i :: 0 <= i < |Split(s, " ")| ==> lib.decodeWord(Split(s, " ")[i]).None?
    ensures MimeSentence(lib, s) == s
  {
    UndecodedPiecesRejoin(lib, Split(s, " "));
    JoinSplit(s, " ");
  }

  /**
    A value that does not start, in any case, with "=?koi8-r" and holds no
    "=?" comes back unchanged: the word decoder only takes tokens that
    start with "=?".
  */
  lemma PlainSentenceUnchanged(lib: Library, s: string)
    requires lib.Valid()
    requires !HasPrefix(ToLower(s), Koi8Marker)
    requires !Contains(s, "=?")
    ensures MimeSentence(lib, s) == s
  {
    var words := Split(s, " ");
    forall i | 0 <= i < |words|
      ensures lib.decodeWord(words[i]).None?
    {
      if lib.decodeWord(words[i]).Some? {
        SplitPiecePrefixOccurs(s, " ", i, "=?");
        assert false;
      }
    }
    UndecodedSentenceUnchanged(lib, s);
  }

  /** An absent header field decodes to the empty string. */
  lemma EmptySentenceUnchanged(lib: Library)
    requires lib.Valid()
    ensures MimeSentence(lib, "") == ""
  {
    assert Index("", "=?") == -1;
    PlainSentenceUnchanged(lib, "");
  }

  /** Two encoded words separated by one space decode to their texts with nothing between them. */
  lemma AdjacentWordsJoinWithoutSpace(lib: Library, w1: string, w2: string)
    requires ' ' !in w1 && ' ' !in w2
    requires DecodeKoi8(lib, w1 + " " + w2).None?
    requires lib.decodeWord(w1).Some? && lib.decodeWord(w2).Some?
    ensures MimeSentence(lib, w1 + " " + w2) == lib.decodeWord(w1).value + lib.decodeWord(w2).value
  {
    SplitCons(w1, " ", w2);
    SplitSingle(w2, " ");
    assert Split(w1 + " " + w2, " ") == [w1, w2];
    assert Pieces(lib, [w1, w2]) == [lib.decodeWord(w1).value, lib.decodeWord(w2).value];
    JoinTwo(lib.decodeWord(w1).value, lib.decodeWord(w2).value, "");
  }

  /** A token that does not decode after one that does keeps its space in front. */
  lemma PlainWordAfterEncodedKeepsSpace(lib: Library, w1: string, w2: string)
    requires ' ' !in w1 && ' ' !in w2
    requires DecodeKoi8(lib, w1 + " " + w2).None?
    requires lib.decodeWord(w1).Some? && lib.decodeWord(w2).None?
    ensures MimeSentence(lib, w1 + " " + w2) == lib.decodeWord(w1).value + " " + w2
  {
    SplitCons(w1, " ", w2);
    SplitSingle(w2, " ");
    assert Split(w1 + " " + w2, " ") == [w1, w2];
    assert Pieces(lib, [w1, w2]) == [lib.decodeWord(w1).value, " " + w2];
    JoinTwo(lib.decodeWord(w1).value, " " + w2, "");
  }

  // ---------------------------------------------------------------------
  // decodeHeaderMime

  /** Get on the decoded header finds the field's first value, decoded, and "" for a field without values. */
  lemma DecodedHeaderGet(lib: Library, h: Header, name: string)
    ensures var key := CanonicalKey(name);
            Get(DecodedHeader(lib, h), name) ==
              (if key in h && |h[key]| > 0 then MimeSentence(lib, Get(h, name)) else "")
  {
  }

  /** A header none of whose values starts with the marker or holds "=?" is kept as it is. */
  lemma PlainHeaderUnchanged(lib: Library, h: Header)
    requires lib.Valid()
    requires forall k, i :: k in h && 0 <= i < |h[k]| ==>
               !HasPrefix(ToLower(h[k][i]), Koi8Marker) && !Contains(h[k][i], "=?")
    ensures DecodedHeader(lib, h) == h
  {
    forall k | k in h
      ensures DecodedValues(lib, h[k]) == h[k]
    {
      forall i | 0 <= i < |h[k]|
        ensures MimeSentence(lib, h[k][i]) == h[k][i]
      {
        PlainSentenceUnchanged(lib, h[k][i]);
      }
    }
  }
}
