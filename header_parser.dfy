/**
  The typed header fields: headerParser and createEmailFromHeader
  (parser.go:78-114, 514-588).

  Every method of headerParser has a value receiver, so the `hp.err = ...`
  assignments in their bodies change the method's own copy of the parser
  and never the caller's.  The parser that createEmailFromHeader holds
  keeps a nil error, every field is parsed on its own, and a malformed
  field is left at its zero value.
*/
module HeaderParsing {
  import opened GoStrings
  import opened Platform
  import opened EmailTypes
  import opened HeaderDecoding

  /** The bytes that make an address value blank. */
  const BlankCutset: string := [' ', '\n']

  /** The bytes a message identifier is stripped of. */
  const IdCutset: string := ['<', '>', ' ']

  /** The layouts parseTime tries, in order: time.RFC1123Z, then the variants with a one-digit day and a zone name. */
  const TimeLayouts: seq<string> := [
    "Mon, 02 Jan 2006 15:04:05 -0700",
    "Mon, 2 Jan 2006 15:04:05 -0700",
    "Mon, 02 Jan 2006 15:04:05 -0700 (MST)",
    "Mon, 2 Jan 2006 15:04:05 -0700 (MST)"
  ]

  /** The address parseAddress returns on a parser without error: nil for a blank value or a malformed one. */
  function AddressOf(lib: Library, s: string): (r: Option<Address>)
    ensures Trim(s, BlankCutset) == "" ==> r == None
    ensures Trim(s, BlankCutset) != "" ==> r == lib.parseAddress(s)
  {
    if Trim(s, BlankCutset) != "" then lib.parseAddress(s) else None
  }

  /** The list parseAddressList returns on a parser without error: nil for a blank value or a malformed one. */
  function AddressListOf(lib: Library, s: string): (r: seq<Address>)
    ensures Trim(s, BlankCutset) == "" ==> r == []
    ensures lib.parseAddressList(s).None? ==> r == []
    ensures Trim(s, BlankCutset) != "" && lib.parseAddressList(s).Some? ==> r == lib.parseAddressList(s).value
  {
    if Trim(s, BlankCutset) != "" then
      match lib.parseAddressList(s)
      case None => []
      case Some(list) => list
    else []
  }

  /** The time the first of `layouts` that accepts `s` gives, or the zero time when none does. */
  function FirstParsed(lib: Library, layouts: seq<string>, s: string): Time
    decreases |layouts|
  {
    if layouts == [] then ZeroTime
    else match lib.parseTime(layouts[0], s)
      case Some(t) => t
      case None => FirstParsed(lib, layouts[1..], s)
  }

  /** The time parseTime returns on a parser without error. */
  function TimeOf(lib: Library, s: string): (r: Time)
    ensures s == "" ==> r == ZeroTime
  {
    if s == "" then ZeroTime else FirstParsed(lib, TimeLayouts, s)
  }

  /** parseMessageId on a parser without error. */
  function MessageIdOf(s: string): (r: string)
    ensures Trimmed(r, IdCutset)
    ensures |r| <= |s|
  {
    Trim(s, IdCutset)
  }

  /** Whether parseMessageIdList keeps a token: one that is not made only of spaces and newlines. */
  predicate KeptToken(p: string) {
    Trim(p, BlankCutset) != ""
  }

  /** The identifiers parseMessageIdList collects from `tokens`, in order. */
  function MessageIdsOf(tokens: seq<string>): (r: seq<string>)
    ensures |r| <= |tokens|
    decreases |tokens|
  {
    if tokens == [] then []
    else
      var last := tokens[|tokens| - 1];
      MessageIdsOf(tokens[..|tokens| - 1]) + (if KeptToken(last) then [MessageIdOf(last)] else [])
  }

  /** One more token adds its identifier, if it is kept. */
  lemma MessageIdsStep(tokens: seq<string>, i: nat)
    requires i < |tokens|
    ensures MessageIdsOf(tokens[..i + 1]) ==
              MessageIdsOf(tokens[..i]) + (if KeptToken(tokens[i]) then [MessageIdOf(tokens[i])] else [])
  {
    assert tokens[..i + 1][..i] == tokens[..i];
  }

  /** The identifiers of a space-separated list. */
  function MessageIdListOf(s: string): seq<string> {
    MessageIdsOf(Split(s, " "))
  }

  /** headerParser: the header it reads and the error its methods consult. */
  datatype HeaderParser = HeaderParser(header: Header, err: Option<Error>) {

    /** hp.parseAddress. */
    method ParseAddress(lib: Library, s: string) returns (ma: Option<Address>)
      ensures ma == (if err.Some? then None else AddressOf(lib, s))
    {
      var hp := this;  // the value receiver
      if hp.err.Some? {
        return None;
      }
      if Trim(s, BlankCutset) != "" {
        ma := lib.parseAddress(s);
        hp := hp.(err := if ma.None? then Some(MalformedAddress(s)) else None);
        return ma;
      }
      return None;
    }

    /** hp.parseAddressList. */
    method ParseAddressList(lib: Library, s: string) returns (ma: seq<Address>)
      ensures ma == (if err.Some? then [] else AddressListOf(lib, s))
    {
      var hp := this;  // the value receiver
      if hp.err.Some? {
        return [];
      }
      if Trim(s, BlankCutset) != "" {
        var parsed := lib.parseAddressList(s);
        ma := if parsed.Some? then parsed.value else [];
        hp := hp.(err := if parsed.None? then Some(MalformedAddress(s)) else None);
        return ma;
      }
      return [];
    }

    /** hp.parseTime: the layouts in order, stopping at the first that accepts the value. */
    method ParseTime(lib: Library, s: string) returns (t: Time)
      ensures t == (if err.Some? then ZeroTime else TimeOf(lib, s))
    {
      var hp := this;  // the value receiver
      t := ZeroTime;
      if hp.err.Some? || s == "" {
        return;
      }
      var i := 0;
      while i < |TimeLayouts|
        invariant 0 <= i <= |TimeLayouts|
        invariant FirstParsed(lib, TimeLayouts[i..], s) == TimeOf(lib, s)
        invariant t == ZeroTime
      {
        var parsed := lib.parseTime(TimeLayouts[i], s);
        t := if parsed.Some? then parsed.value else ZeroTime;
        hp := hp.(err := if parsed.None? then Some(MalformedDate(s)) else None);
        if hp.err.None? {
          return;
        }
        i := i + 1;
      }
    }

    /** hp.parseMessageId. */
    method ParseMessageId(s: string) returns (id: string)
      ensures id == (if err.Some? then "" else MessageIdOf(s))
    {
      if err.Some? {
        return "";
      }
      return Trim(s, IdCutset);
    }

    /** hp.parseMessageIdList. */
    method ParseMessageIdList(s: string) returns (result: seq<string>)
      ensures result == (if err.Some? then [] else MessageIdListOf(s))
    {
      if err.Some? {
        return [];
      }
      var tokens := Split(s, " ");
      result := [];
      for i := 0 to |tokens|
        invariant result == MessageIdsOf(tokens[..i])
      {
        MessageIdsStep(tokens, i);
        if Trim(tokens[i], BlankCutset) != "" {
          var id := ParseMessageId(tokens[i]);
          result := result + [id];
        }
      }
      assert tokens[..|tokens|] == tokens;
    }
  }

  /** The Email createEmailFromHeader builds from a message header. */
  function EmailFromHeader(lib: Library, h: Header): Email {
    EmptyEmail.(
      subject := MimeSentence(lib, Get(h, "Subject")),
      from := AddressListOf(lib, Get(h, "From")),
      sender := AddressOf(lib, Get(h, "Sender")),
      replyTo := AddressListOf(lib, Get(h, "Reply-To")),
      to := AddressListOf(lib, Get(h, "To")),
      cc := AddressListOf(lib, Get(h, "Cc")),
      bcc := AddressListOf(lib, Get(h, "Bcc")),
      date := TimeOf(lib, Get(h, "Date")),
      resentFrom := AddressListOf(lib, Get(h, "Resent-From")),
      resentSender := AddressOf(lib, Get(h, "Resent-Sender")),
      resentTo := AddressListOf(lib, Get(h, "Resent-To")),
      resentCc := AddressListOf(lib, Get(h, "Resent-Cc")),
      resentBcc := AddressListOf(lib, Get(h, "Resent-Bcc")),
      resentMessageId := MessageIdOf(Get(h, "Resent-Message-ID")),
      messageId := MessageIdOf(Get(h, "Message-ID")),
      inReplyTo := MessageIdListOf(Get(h, "In-Reply-To")),
      references := MessageIdListOf(Get(h, "References")),
      resentDate := TimeOf(lib, Get(h, "Resent-Date")),
      header := DecodedHeader(lib, h))
  }

  /** createEmailFromHeader: it never returns an error. */
  method CreateEmailFromHeader(lib: Library, header: Header) returns (email: Email, err: Option<Error>)
    ensures err == None
    ensures email == EmailFromHeader(lib, header)
  {
    var hp := HeaderParser(header, None);
    email := EmptyEmail;
    var subject := DecodeMimeSentence(lib, Get(header, "Subject"));
    email := email.(subject := subject);
    var from := hp.ParseAddressList(lib, Get(header, "From"));
    email := email.(from := from);
    var sender := hp.ParseAddress(lib, Get(header, "Sender"));
    email := email.(sender := sender);
    var replyTo := hp.ParseAddressList(lib, Get(header, "Reply-To"));
    email := email.(replyTo := replyTo);
    var to := hp.ParseAddressList(lib, Get(header, "To"));
    email := email.(to := to);
    var cc := hp.ParseAddressList(lib, Get(header, "Cc"));
    email := email.(cc := cc);
    var bcc := hp.ParseAddressList(lib, Get(header, "Bcc"));
    email := email.(bcc := bcc);
    var date := hp.ParseTime(lib, Get(header, "Date"));
    email := email.(date := date);
    var resentFrom := hp.ParseAddressList(lib, Get(header, "Resent-From"));
    email := email.(resentFrom := resentFrom);
    var resentSender := hp.ParseAddress(lib, Get(header, "Resent-Sender"));
    email := email.(resentSender := resentSender);
    var resentTo := hp.ParseAddressList(lib, Get(header, "Resent-To"));
    email := email.(resentTo := resentTo);
    var resentCc := hp.ParseAddressList(lib, Get(header, "Resent-Cc"));
    email := email.(resentCc := resentCc);
    var resentBcc := hp.ParseAddressList(lib, Get(header, "Resent-Bcc"));
    email := email.(resentBcc := resentBcc);
    var resentMessageId := hp.ParseMessageId(Get(header, "Resent-Message-ID"));
    email := email.(resentMessageId := resentMessageId);
    var messageId := hp.ParseMessageId(Get(header, "Message-ID"));
    email := email.(messageId := messageId);
    var inReplyTo := hp.ParseMessageIdList(Get(header, "In-Reply-To"));
    email := email.(inReplyTo := inReplyTo);
    var references := hp.ParseMessageIdList(Get(header, "References"));
    email := email.(references := references);
    var resentDate := hp.ParseTime(lib, Get(header, "Resent-Date"));
    email := email.(resentDate := resentDate);

    // The methods above assigned their own copies: the caller's parser still has no error.
    assert hp.err == None;

    var decoded;
    decoded, err := DecodeHeaderMime(lib, header);
    email := email.(header := decoded);
  }

  // ---------------------------------------------------------------------
  // Properties

  /** The first layout that accepts the value decides the time. */
  lemma {:induction false} FirstAcceptingLayoutWins(lib: Library, layouts: seq<string>, s: string, i: nat)
    requires i < |layouts| && lib.parseTime(layouts[i], s).Some?
    requires forall j :: 0 <= j < i ==> lib.parseTime(layouts[j], s).None?
    ensures FirstParsed(lib, layouts, s) == lib.parseTime(layouts[i], s).value
    decreases i
  {
    if i > 0 {
      FirstAcceptingLayoutWins(lib, layouts[1..], s, i - 1);
    }
  }

  /** When no layout accepts the value, the time is the zero time. */
  lemma {:induction false} NoLayoutGivesZeroTime(lib: Library, layouts: seq<string>, s: string)
    requires forall j :: 0 <= j < |layouts| ==> lib.parseTime(layouts[j], s).None?
    ensures FirstParsed(lib, layouts, s) == ZeroTime
    decreases |layouts|
  {
    if layouts != [] {
      NoLayoutGivesZeroTime(lib, layouts[1..], s);
    }
  }

  /** parseTime returns the time of the first of its four layouts that accepts the value, and the zero time when none does. */
  lemma TimeOfFirstAcceptingLayout(lib: Library, s: string, i: nat)
    requires s != "" && i < |TimeLayouts| && lib.parseTime(TimeLayouts[i], s).Some?
    requires forall j :: 0 <= j < i ==> lib.parseTime(TimeLayouts[j], s).None?
    ensures TimeOf(lib, s) == lib.parseTime(TimeLayouts[i], s).value
  {
    FirstAcceptingLayoutWins(lib, TimeLayouts, s, i);
  }

  /** A date that no layout accepts is left at the zero time. */
  lemma MalformedDateIsZeroTime(lib: Library, s: string)
    requires forall j :: 0 <= j < |TimeLayouts| ==> lib.parseTime(TimeLayouts[j], s).None?
    ensures TimeOf(lib, s) == ZeroTime
  {
    NoLayoutGivesZeroTime(lib, TimeLayouts, s);
  }

  /** A message identifier as it is written in a header: between angle brackets. */
  function Bracketed(id: string): string {
    "<" + id + ">"
  }

  /** A bare identifier: not empty, without spaces, and not starting or ending with a bracket. */
  predicate BareId(id: string) {
    id != "" && ' ' !in id && Trimmed(id, IdCutset)
  }

  /** parseMessageId strips the brackets of a bracketed bare identifier. */
  lemma MessageIdOfBracketed(id: string)
    requires BareId(id)
    ensures MessageIdOf(Bracketed(id)) == id
    ensures KeptToken(Bracketed(id))
  {
    assert Bracketed(id) == ['<'] + id + ['>'];
    TrimWrapped('<', id, '>', IdCutset);
    TrimKeepsOthers(Bracketed(id), BlankCutset, '<');
  }

  /** A non-empty sequence is its front followed by its last element. */
  lemma LastSplit(s: seq<string>)
    requires s != []
    ensures s == s[..|s| - 1] + [s[|s| - 1]]
  {
  }

  /** The identifiers of bracketed bare identifiers are the identifiers. */
  lemma {:induction false} MessageIdsOfBracketed(ids: seq<string>, tokens: seq<string>)
    requires |tokens| == |ids|
    requires forall i :: 0 <= i < |ids| ==> BareId(ids[i]) && tokens[i] == Bracketed(ids[i])
    ensures MessageIdsOf(tokens) == ids
    decreases |ids|
  {
    if ids != [] {
      var n := |ids| - 1;
      MessageIdsOfBracketed(ids[..n], tokens[..n]);
      MessageIdOfBracketed(ids[n]);
      LastSplit(ids);
    }
  }

  /**
    A References or In-Reply-To value written as bracketed bare
    identifiers separated by single spaces gives back the identifiers.
  */
  lemma MessageIdListRoundTrip(ids: seq<string>)
    requires forall i :: 0 <= i < |ids| ==> BareId(ids[i])
    ensures var tokens := seq(|ids|, i requires 0 <= i < |ids| => Bracketed(ids[i]));
            MessageIdListOf(Join(tokens, " ")) == ids
  {
    var tokens := seq(|ids|, i requires 0 <= i < |ids| => Bracketed(ids[i]));
    if ids == [] {
      SplitSingle("", " ");
      assert !KeptToken("");
    } else {
      forall i | 0 <= i < |tokens|
        ensures " "[0] !in tokens[i]
      {
        assert tokens[i] == ['<'] + ids[i] + ['>'];
      }
      SplitJoin(tokens, " ");
      MessageIdsOfBracketed(ids, tokens);
    }
  }

  /** Get ignores the fields of another canonical name. */
  lemma GetOtherField(h: Header, key: string, values: seq<string>, name: string)
    requires CanonicalKey(name) != key
    ensures Get(h[key := values], name) == Get(h, name)
  {
  }

  /** The canonical form of a field name starts with the name's first byte, upper-cased. */
  lemma CanonicalFirst(name: string)
    requires name != ""
    ensures CanonicalKey(name)[0] == UpperChar(name[0])
  {
  }

  /** Replacing the From field leaves Get of a name of another length as it was. */
  lemma GetIgnoresFrom(h: Header, values: seq<string>, name: string)
    requires |name| != |"From"|
    ensures Get(h[CanonicalKey("From") := values], name) == Get(h, name)
  {
    GetOtherField(h, CanonicalKey("From"), values, name);
  }

  /** Replacing the From field leaves the Date field as it was. */
  lemma DateIgnoresFrom(h: Header, values: seq<string>)
    ensures Get(h[CanonicalKey("From") := values], "Date") == Get(h, "Date")
  {
    CanonicalFirst("Date");
    CanonicalFirst("From");
    GetOtherField(h, CanonicalKey("From"), values, "Date");
  }

  /**
    Header errors never stop the parsing: whatever the From field holds,
    malformed or not, every other typed field comes out the same.
  */
  lemma FromFieldIsParsedOnItsOwn(lib: Library, h: Header, values: seq<string>)
    ensures var h2 := h[CanonicalKey("From") := values];
            EmailFromHeader(lib, h2).(from := [], header := map[]) == EmailFromHeader(lib, h).(from := [], header := map[])
  {
    DateIgnoresFrom(h, values);
    GetIgnoresFrom(h, values, "Subject");
    GetIgnoresFrom(h, values, "Sender");
    GetIgnoresFrom(h, values, "Reply-To");
    GetIgnoresFrom(h, values, "To");
    GetIgnoresFrom(h, values, "Cc");
    GetIgnoresFrom(h, values, "Bcc");
    GetIgnoresFrom(h, values, "Resent-From");
    GetIgnoresFrom(h, values, "Resent-Sender");
    GetIgnoresFrom(h, values, "Resent-To");
    GetIgnoresFrom(h, values, "Resent-Cc");
    GetIgnoresFrom(h, values, "Resent-Bcc");
    GetIgnoresFrom(h, values, "Resent-Message-ID");
    GetIgnoresFrom(h, values, "Message-ID");
    GetIgnoresFrom(h, values, "In-Reply-To");
    GetIgnoresFrom(h, values, "References");
    GetIgnoresFrom(h, values, "Resent-Date");
  }

  /** A malformed address list is left nil. */
  lemma MalformedFromIsNil(lib: Library, h: Header)
    requires lib.parseAddressList(Get(h, "From")).None?
    ensures EmailFromHeader(lib, h).from == []
  {
  }
}
