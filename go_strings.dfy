/**
  The functions of Go's `strings` package that the decoder relies on.

  Go strings and byte slices are both sequences of bytes; this model
  writes both as Dafny `string`, one `char` per byte.  Case mapping and
  white-space trimming cover the ASCII range only.  Go's `ToLower` also
  folds non-ASCII letters and replaces invalid UTF-8 by U+FFFD, and its
  `TrimSpace` also trims Unicode spaces; those cases are not modelled, so
  a parameter key, charset name or encoding name with non-ASCII letters
  can compare differently here than in Go.
*/
module GoStrings {

  /** ASCII lower-casing of one byte. */
  function LowerChar(c: char): char {
    if 'A' <= c <= 'Z' then (c as int + 32) as char else c
  }

  /** ASCII upper-casing of one byte. */
  function UpperChar(c: char): char {
    if 'a' <= c <= 'z' then (c as int - 32) as char else c
  }

  /** strings.ToLower. */
  function ToLower(s: string): (r: string)
    ensures |r| == |s|
  {
    if s == [] then [] else [LowerChar(s[0])] + ToLower(s[1..])
  }

  /** strings.ToLower maps every byte on its own. */
  lemma {:induction false} ToLowerAt(s: string, i: nat)
    requires i < |s|
    ensures ToLower(s)[i] == LowerChar(s[i])
  {
    if i > 0 {
      ToLowerAt(s[1..], i - 1);
    }
  }

  /** strings.HasPrefix. */
  predicate HasPrefix(s: string, prefix: string) {
    |prefix| <= |s| && s[..|prefix|] == prefix
  }

  /** strings.HasSuffix. */
  predicate HasSuffix(s: string, suffix: string) {
    |suffix| <= |s| && s[|s| - |suffix|..] == suffix
  }

  /** strings.TrimSuffix: drops one copy of `suffix` from the end, if it is there. */
  function TrimSuffix(s: string, suffix: string): (r: string)
    ensures HasSuffix(s, suffix) ==> r + suffix == s
    ensures !HasSuffix(s, suffix) ==> r == s
  {
    if HasSuffix(s, suffix) then s[..|s| - |suffix|] else s
  }

  /** `sep` occurs in `s` starting at position `i`. */
  predicate OccursAt(s: string, sep: string, i: nat) {
    i + |sep| <= |s| && s[i..i + |sep|] == sep
  }

  /** The bytes of an occurrence are the bytes of `sep`. */
  lemma OccursAtByte(s: string, sep: string, i: nat, j: nat)
    requires OccursAt(s, sep, i) && j < |sep|
    ensures s[i + j] == sep[j]
  {
    assert s[i..i + |sep|][j] == s[i + j];
  }

  /** strings.Index: the first position at which `sep` occurs in `s`, or -1. */
  function Index(s: string, sep: string): (r: int)
    ensures -1 <= r <= |s|
    ensures r >= 0 ==> OccursAt(s, sep, r)
    decreases |s|
  {
    if |s| < |sep| then -1
    else if s[..|sep|] == sep then 0
    else
      var k := Index(s[1..], sep);
      if k < 0 then -1
      else
        assert s[1..][k..k + |sep|] == s[k + 1..k + 1 + |sep|];
        k + 1
  }

  /** No position before the one Index reports holds an occurrence of `sep`. */
  lemma {:induction false} IndexIsFirst(s: string, sep: string, i: nat)
    requires OccursAt(s, sep, i)
    ensures 0 <= Index(s, sep) <= i
    decreases |s|
  {
    if |s| >= |sep| && s[..|sep|] != sep {
      assert i > 0;
      assert s[1..][i - 1..i - 1 + |sep|] == s[i..i + |sep|];
      IndexIsFirst(s[1..], sep, i - 1);
    }
  }

  /** strings.Contains. */
  predicate Contains(s: string, sep: string) {
    Index(s, sep) >= 0
  }

  /** strings.Split for a non-empty separator: the pieces between the occurrences of `sep`. */
  function Split(s: string, sep: string): (r: seq<string>)
    requires |sep| > 0
    ensures |r| >= 1
    decreases |s|
  {
    var k := Index(s, sep);
    if k < 0 then [s] else [s[..k]] + Split(s[k + |sep|..], sep)
  }

  /** The first piece of a split is the text before the first occurrence, and a second piece exists exactly when there is one. */
  lemma SplitFirst(s: string, sep: string)
    requires |sep| > 0
    ensures Index(s, sep) < 0 ==> Split(s, sep) == [s]
    ensures Index(s, sep) >= 0 ==> |Split(s, sep)| >= 2 && Split(s, sep)[0] == s[..Index(s, sep)]
  {
  }

  /** strings.Join. */
  function Join(ss: seq<string>, sep: string): string {
    if ss == [] then "" else if |ss| == 1 then ss[0] else ss[0] + sep + Join(ss[1..], sep)
  }

  /** Join of two pieces. */
  lemma JoinTwo(a: string, b: string, sep: string)
    ensures Join([a, b], sep) == a + sep + b
  {
    assert [a, b][1..] == [b];
  }

  /** Join of three pieces. */
  lemma JoinThree(a: string, b: string, c: string, sep: string)
    ensures Join([a, b, c], sep) == a + sep + b + sep + c
  {
    assert [a, b, c][1..] == [b, c];
    JoinTwo(b, c, sep);
  }

  /** Drops every leading byte that is in `cutset`. */
  function TrimLeft(s: string, cutset: string): (r: string)
    ensures |r| <= |s| && r == s[|s| - |r|..]
    ensures r == [] || r[0] !in cutset
    decreases |s|
  {
    if s != [] && s[0] in cutset then TrimLeft(s[1..], cutset) else s
  }

  /** Drops every trailing byte that is in `cutset`. */
  function TrimRight(s: string, cutset: string): (r: string)
    ensures |r| <= |s| && r == s[..|r|]
    ensures r == [] || r[|r| - 1] !in cutset
    decreases |s|
  {
    if s != [] && s[|s| - 1] in cutset then TrimRight(s[..|s| - 1], cutset) else s
  }

  /** Every byte TrimLeft drops is in the cut set. */
  lemma {:induction false} TrimLeftDrops(s: string, cutset: string, i: nat)
    requires i < |s| - |TrimLeft(s, cutset)|
    ensures s[i] in cutset
    decreases |s|
  {
    if i > 0 {
      TrimLeftDrops(s[1..], cutset, i - 1);
    }
  }

  /** Every byte TrimRight drops is in the cut set. */
  lemma {:induction false} TrimRightDrops(s: string, cutset: string, i: nat)
    requires |TrimRight(s, cutset)| <= i < |s|
    ensures s[i] in cutset
    decreases |s|
  {
    if i < |s| - 1 {
      TrimRightDrops(s[..|s| - 1], cutset, i);
    }
  }

  /** strings.Trim: drops every leading and trailing byte that is in `cutset`. */
  function Trim(s: string, cutset: string): (r: string)
    ensures Trimmed(r, cutset)
  {
    TrimRight(TrimLeft(s, cutset), cutset)
  }

  /** `s` neither starts nor ends with a byte of `cutset`. */
  predicate Trimmed(s: string, cutset: string) {
    s == [] || (s[0] !in cutset && s[|s| - 1] !in cutset)
  }

  /** Trimming a string that is already trimmed changes nothing. */
  lemma TrimmedFixpoint(s: string, cutset: string)
    requires Trimmed(s, cutset)
    ensures Trim(s, cutset) == s
  {
  }

  /** A leading byte of the cut set makes no difference to the trimmed result. */
  lemma TrimSkipsLeading(x: char, t: string, cutset: string)
    requires x in cutset
    ensures Trim([x] + t, cutset) == Trim(t, cutset)
  {
    assert ([x] + t)[1..] == t;
  }

  /** A trailing byte of the cut set makes no difference to the trimmed result of a string that does not start with one. */
  lemma TrimSkipsTrailing(t: string, y: char, cutset: string)
    requires y in cutset && t != [] && t[0] !in cutset
    ensures Trim(t + [y], cutset) == Trim(t, cutset)
  {
    assert (t + [y])[0] == t[0];
    assert (t + [y])[..|t|] == t;
  }

  /** Trimming a trimmed string wrapped in one cut-set byte on each side gives the string back. */
  lemma TrimWrapped(x: char, s: string, y: char, cutset: string)
    requires x in cutset && y in cutset && s != [] && Trimmed(s, cutset)
    ensures Trim([x] + s + [y], cutset) == s
  {
    assert [x] + s + [y] == [x] + (s + [y]);
    TrimSkipsLeading(x, s + [y], cutset);
    TrimSkipsTrailing(s, y, cutset);
  }

  /** Trimming keeps every byte that is not in the cut set. */
  lemma TrimKeepsOthers(s: string, cutset: string, c: char)
    requires c in s && c !in cutset
    ensures c in Trim(s, cutset)
  {
    var l := TrimLeft(s, cutset);
    var j :| 0 <= j < |s| && s[j] == c;
    if j < |s| - |l| {
      TrimLeftDrops(s, cutset, j);
    }
    var k := j - (|s| - |l|);
    assert l[k] == c;
    var r := TrimRight(l, cutset);
    if k >= |r| {
      TrimRightDrops(l, cutset, k);
    }
    assert r[k] == c;
  }

  /** Trimming never introduces a byte that was not there. */
  lemma TrimKeepsAbsent(s: string, cutset: string, c: char)
    requires c !in s
    ensures c !in Trim(s, cutset)
  {
  }

  /** The ASCII white space that strings.TrimSpace removes. */
  const Whitespace: string := [' ', '\t', '\n', 11 as char, 12 as char, '\r']

  /** strings.TrimSpace. */
  function TrimSpace(s: string): string {
    Trim(s, Whitespace)
  }

  /** When the first byte of `sep` is absent from `a`, the first occurrence of `sep` in `a + sep + b` is right after `a`. */
  lemma IndexAfter(a: string, sep: string, b: string)
    requires |sep| > 0 && sep[0] !in a
    ensures Index(a + sep + b, sep) == |a|
  {
    var s := a + sep + b;
    assert s[|a|..|a| + |sep|] == sep;
    assert OccursAt(s, sep, |a|);
    IndexIsFirst(s, sep, |a|);
  }

  /** When the first byte of `sep` is absent from `a`, `sep` does not occur in `a`. */
  lemma IndexAbsent(a: string, sep: string)
    requires |sep| > 0 && sep[0] !in a
    ensures Index(a, sep) == -1
  {
  }

  /** Splitting peels off a leading piece that holds no byte of the separator's first byte. */
  lemma SplitCons(a: string, sep: string, b: string)
    requires |sep| > 0 && sep[0] !in a
    ensures Split(a + sep + b, sep) == [a] + Split(b, sep)
  {
    IndexAfter(a, sep, b);
    var s := a + sep + b;
    assert s[..|a|] == a;
    assert s[|a| + |sep|..] == b;
  }

  /** A string without the separator's first byte splits into itself. */
  lemma SplitSingle(a: string, sep: string)
    requires |sep| > 0 && sep[0] !in a
    ensures Split(a, sep) == [a]
  {
    IndexAbsent(a, sep);
  }

  /** What starts a prefix of `s` occurs in `s`. */
  lemma PrefixOfPrefixOccurs(s: string, k: nat, p: string)
    requires k <= |s| && HasPrefix(s[..k], p)
    ensures Contains(s, p)
  {
    assert s[..k][..|p|] == s[..|p|];
    IndexIsFirst(s, p, 0);
  }

  /** What occurs in a suffix of `s` occurs in `s`. */
  lemma SuffixOccurs(s: string, off: nat, p: string)
    requires off <= |s| && Contains(s[off..], p)
    ensures Contains(s, p)
  {
    var j := Index(s[off..], p);
    assert s[off + j..off + j + |p|] == s[off..][j..j + |p|];
    IndexIsFirst(s, p, off + j);
  }

  /** A prefix of any piece of a split occurs in the string that was split. */
  lemma {:induction false} SplitPiecePrefixOccurs(s: string, sep: string, i: nat, p: string)
    requires |sep| > 0 && i < |Split(s, sep)| && HasPrefix(Split(s, sep)[i], p)
    ensures Contains(s, p)
    decreases |s|
  {
    var k := Index(s, sep);
    if k < 0 {
      PrefixOfPrefixOccurs(s, |s|, p);
    } else if i == 0 {
      PrefixOfPrefixOccurs(s, k, p);
    } else {
      SplitPiecePrefixOccurs(s[k + |sep|..], sep, i - 1, p);
      SuffixOccurs(s, k + |sep|, p);
    }
  }

  /** Join of a piece in front of at least one more. */
  lemma JoinCons(a: string, rest: seq<string>, sep: string)
    requires rest != []
    ensures Join([a] + rest, sep) == a + sep + Join(rest, sep)
  {
    assert ([a] + rest)[1..] == rest;
  }

  /** A string is its three slices around two positions. */
  lemma SliceAround(s: string, i: nat, j: nat)
    requires i <= j <= |s|
    ensures s == s[..i] + s[i..j] + s[j..]
  {
  }

  /** Joining the pieces of a split with the same separator gives the string back. */
  lemma {:induction false} JoinSplit(s: string, sep: string)
    requires |sep| > 0
    ensures Join(Split(s, sep), sep) == s
    decreases |s|
  {
    var k := Index(s, sep);
    if k >= 0 {
      var rest := s[k + |sep|..];
      JoinSplit(rest, sep);
      var pieces := Split(rest, sep);
      JoinCons(s[..k], pieces, sep);
      SliceAround(s, k, k + |sep|);
    }
  }

  /** Splitting a join of pieces without the one-byte separator gives the pieces back. */
  lemma {:induction false} SplitJoin(ss: seq<string>, sep: string)
    requires |sep| == 1 && |ss| > 0
    requires forall i :: 0 <= i < |ss| ==> sep[0] !in ss[i]
    ensures Split(Join(ss, sep), sep) == ss
  {
    if |ss| == 1 {
      SplitSingle(ss[0], sep);
    } else {
      SplitJoin(ss[1..], sep);
      SplitCons(ss[0], sep, Join(ss[1..], sep));
    }
  }

  /** No piece of a split on a one-byte separator contains that byte. */
  lemma {:induction false} SplitPiecesAvoidSeparator(s: string, sep: string)
    requires |sep| == 1
    ensures forall i :: 0 <= i < |Split(s, sep)| ==> sep[0] !in Split(s, sep)[i]
    decreases |s|
  {
    var k := Index(s, sep);
    if k < 0 {
      if sep[0] in s {
        var j :| 0 <= j < |s| && s[j] == sep[0];
        assert s[j..j + 1] == sep;
        IndexIsFirst(s, sep, j);
      }
    } else {
      SplitPiecesAvoidSeparator(s[k + 1..], sep);
      if sep[0] in s[..k] {
        var j :| 0 <= j < k && s[j] == sep[0];
        assert s[j..j + 1] == sep;
        IndexIsFirst(s, sep, j);
      }
    }
  }

  /** The decimal digit of a value below ten. */
  function Digit(d: nat): char
    requires d < 10
  {
    ('0' as int + d) as char
  }

  /** The decimal digits of a natural number, most significant first, without leading zeros. */
  function Digits(n: nat): (r: string)
    ensures r != []
    decreases n
  {
    if n < 10 then [Digit(n)] else Digits(n / 10) + [Digit(n % 10)]
  }

  /** fmt's %d of an integer: an optional '-' and its decimal digits. */
  function FormatInt(n: int): (r: string)
    ensures r != []
  {
    if n < 0 then "-" + Digits(-n) else Digits(n)
  }

  predicate IsDigit(c: char) {
    '0' <= c <= '9'
  }

  /** The value of a string of decimal digits. */
  function DigitsValue(s: string): nat
    requires forall i :: 0 <= i < |s| ==> IsDigit(s[i])
    decreases |s|
  {
    if s == [] then 0
    else
      var last := s[|s| - 1];
      assert IsDigit(last);
      10 * DigitsValue(s[..|s| - 1]) + (last as int - '0' as int)
  }

  /** The value of an optional '-' followed by decimal digits. */
  function IntValue(s: string): int
    requires s != [] && (s[0] == '-' || IsDigit(s[0]))
    requires forall i :: 1 <= i < |s| ==> IsDigit(s[i])
  {
    if s[0] == '-' then -(DigitsValue(s[1..]) as int) else DigitsValue(s)
  }

  /** Digits writes only decimal digits, and reading them back gives the number. */
  lemma {:induction false} DigitsRoundTrip(n: nat)
    ensures forall i :: 0 <= i < |Digits(n)| ==> IsDigit(Digits(n)[i])
    ensures DigitsValue(Digits(n)) == n
    decreases n
  {
    if n >= 10 {
      DigitsRoundTrip(n / 10);
      var s := Digits(n);
      assert s[..|s| - 1] == Digits(n / 10);
    }
  }

  /** FormatInt can be read back: it is one-to-one. */
  lemma FormatIntRoundTrip(n: int)
    ensures var s := FormatInt(n);
            && (s[0] == '-' || IsDigit(s[0]))
            && (forall i :: 1 <= i < |s| ==> IsDigit(s[i]))
            && IntValue(s) == n
  {
    if n < 0 {
      DigitsRoundTrip(-n);
      assert FormatInt(n)[1..] == Digits(-n);
    } else {
      DigitsRoundTrip(n);
    }
  }

  /** Different integers format differently. */
  lemma FormatIntInjective(m: int, n: int)
    requires m != n
    ensures FormatInt(m) != FormatInt(n)
  {
    FormatIntRoundTrip(m);
    FormatIntRoundTrip(n);
  }
}
