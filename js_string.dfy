/** The JavaScript string operations the sources use: `trim`, `toUpperCase`
    and `split` with a one-character separator. */
module JsString {

  /** The WhiteSpace and LineTerminator code points of ECMAScript (sections
      12.2 and 12.3 of ECMA-262), the characters `String.prototype.trim`
      removes. */
  predicate IsWhitespace(c: char) {
    || c == '\t' || c == '\U{000B}' || c == '\U{000C}' || c == ' '
    || c == '\U{00A0}' || c == '\U{FEFF}' || c == '\U{1680}'
    || ('\U{2000}' <= c <= '\U{200A}')
    || c == '\U{202F}' || c == '\U{205F}' || c == '\U{3000}'
    || c == '\n' || c == '\r' || c == '\U{2028}' || c == '\U{2029}'
  }

  /** Neither the first nor the last character is whitespace. */
  predicate IsTrimmed(s: string) {
    s == [] || (!IsWhitespace(s[0]) && !IsWhitespace(s[|s| - 1]))
  }

  /** The number of whitespace characters at the start of `s`. */
  function LeadingWhitespace(s: string): (n: nat)
    ensures n <= |s|
    ensures n == |s| || !IsWhitespace(s[n])
  {
    if s == [] || !IsWhitespace(s[0]) then 0 else 1 + LeadingWhitespace(s[1..])
  }

  /** The length of `s` without its trailing whitespace. */
  function TrailingStart(s: string): (n: nat)
    ensures n <= |s|
    ensures n == 0 || !IsWhitespace(s[n - 1])
  {
    if s == [] || !IsWhitespace(s[|s| - 1]) then |s| else TrailingStart(s[..|s| - 1])
  }

  /** `String.prototype.trim`: the infix of `s` between its leading and its
      trailing whitespace. */
  function Trim(s: string): (r: string)
    ensures IsTrimmed(r)
    ensures LeadingWhitespace(s) + |r| <= |s|
    ensures r == s[LeadingWhitespace(s)..LeadingWhitespace(s) + |r|]
  {
    var t := s[LeadingWhitespace(s)..];
    t[..TrailingStart(t)]
  }

  /** What `Trim` removes is whitespace only. */
  lemma TrimRemovesWhitespace(s: string)
    ensures forall k :: 0 <= k < LeadingWhitespace(s) ==> IsWhitespace(s[k])
    ensures forall k :: LeadingWhitespace(s) + |Trim(s)| <= k < |s| ==> IsWhitespace(s[k])
  {
    var n := LeadingWhitespace(s);
    var t := s[n..];
    var m := TrailingStart(t);
    assert Trim(s) == t[..m];
    LeadingIsWhitespace(s);
    TrailingIsWhitespace(t);
    forall k | n + m <= k < |s|
      ensures IsWhitespace(s[k])
    {
      assert s[k] == t[k - n];
    }
  }

  lemma {:induction false} LeadingIsWhitespace(s: string)
    ensures forall k :: 0 <= k < LeadingWhitespace(s) ==> IsWhitespace(s[k])
    decreases |s|
  {
    if s != [] && IsWhitespace(s[0]) {
      LeadingIsWhitespace(s[1..]);
      forall k | 1 <= k < LeadingWhitespace(s)
        ensures IsWhitespace(s[k])
      {
        assert s[k] == s[1..][k - 1];
      }
    }
  }

  lemma {:induction false} TrailingIsWhitespace(s: string)
    ensures forall k :: TrailingStart(s) <= k < |s| ==> IsWhitespace(s[k])
    decreases |s|
  {
    if s != [] && IsWhitespace(s[|s| - 1]) {
      var init := s[..|s| - 1];
      TrailingIsWhitespace(init);
      forall k | TrailingStart(s) <= k < |s| - 1
        ensures IsWhitespace(s[k])
      {
        assert s[k] == init[k];
      }
    }
  }

  /** Trimming a string that is already trimmed changes nothing; in
      particular `Trim` is idempotent. */
  lemma TrimOfTrimmed(s: string)
    requires IsTrimmed(s)
    ensures Trim(s) == s
  {
  }

  /** Upper-cases the ASCII letters a-z and leaves every other character. */
  function UpperChar(c: char): char {
    if 'a' <= c <= 'z' then (c as int - 32) as char else c
  }

  /** `String.prototype.toUpperCase`, restricted to ASCII letters. */
  function ToUpperCase(s: string): (r: string)
    ensures |r| == |s|
    ensures forall i :: 0 <= i < |s| ==> r[i] == UpperChar(s[i])
  {
    seq(|s|, i requires 0 <= i < |s| => UpperChar(s[i]))
  }

  /** Joins at least one piece with the separator between them. */
  function Join(parts: seq<string>, sep: char): string
    requires |parts| >= 1
  {
    if |parts| == 1 then parts[0]
    else Join(parts[..|parts| - 1], sep) + [sep] + parts[|parts| - 1]
  }

  /** `String.prototype.split` with a one-character separator: the maximal
      separator-free pieces, always at least one (`"".split(",")` is `[""]`). */
  function Split(s: string, sep: char): (parts: seq<string>)
    ensures |parts| >= 1
    ensures forall p :: p in parts ==> sep !in p
  {
    if s == [] then [""]
    else
      var rest := Split(s[..|s| - 1], sep);
      var c := s[|s| - 1];
      if c == sep then rest + [""]
      else rest[..|rest| - 1] + [rest[|rest| - 1] + [c]]
  }

  /** Unfolds `Split` on a string with one more character. */
  lemma SplitSnoc(s: string, c: char, sep: char)
    ensures Split(s + [c], sep) ==
      var rest := Split(s, sep);
      if c == sep then rest + [""]
      else rest[..|rest| - 1] + [rest[|rest| - 1] + [c]]
  {
    assert (s + [c])[..|s|] == s;
  }

  lemma JoinSnoc(parts: seq<string>, last: string, sep: char)
    requires |parts| >= 1
    ensures Join(parts + [last], sep) == Join(parts, sep) + [sep] + last
  {
    assert (parts + [last])[..|parts|] == parts;
  }

  /** Appending a character to the last piece appends it to the join. */
  lemma JoinExtendLast(parts: seq<string>, c: char, sep: char)
    requires |parts| >= 1
    ensures Join(parts[..|parts| - 1] + [parts[|parts| - 1] + [c]], sep) == Join(parts, sep) + [c]
  {
    var n := |parts|;
    if n > 1 {
      JoinSnoc(parts[..n - 1], parts[n - 1] + [c], sep);
      JoinSnoc(parts[..n - 1], parts[n - 1], sep);
      assert parts[..n - 1] + [parts[n - 1]] == parts;
    }
  }

  /** Joining the pieces of a split gives back the original string. */
  lemma {:induction false} JoinSplit(s: string, sep: char)
    ensures Join(Split(s, sep), sep) == s
  {
    if s != [] {
      var init, c := s[..|s| - 1], s[|s| - 1];
      assert s == init + [c];
      JoinSplit(init, sep);
      SplitSnoc(init, c, sep);
      var rest := Split(init, sep);
      if c == sep {
        JoinSnoc(rest, "", sep);
      } else {
        JoinExtendLast(rest, c, sep);
      }
    }
  }

  /** Splitting a join of separator-free pieces gives back the pieces. */
  lemma {:induction false} SplitJoin(parts: seq<string>, sep: char)
    requires |parts| >= 1
    requires forall p :: p in parts ==> sep !in p
    ensures Split(Join(parts, sep), sep) == parts
    decreases |parts|, |parts[|parts| - 1]|, 1
  {
    var n := |parts|;
    if parts[n - 1] != [] {
      SplitJoinLonger(parts, sep);
    } else if n > 1 {
      SplitJoinNewPiece(parts, sep);
    } else {
      assert parts == [""];
    }
  }

  /** The case of `SplitJoin` whose last piece is empty: it follows a
      separator. */
  lemma {:induction false} SplitJoinNewPiece(parts: seq<string>, sep: char)
    requires |parts| >= 2 && parts[|parts| - 1] == []
    requires forall p :: p in parts ==> sep !in p
    ensures Split(Join(parts, sep), sep) == parts
    decreases |parts|, 0, 0
  {
    var init := parts[..|parts| - 1];
    assert forall p :: p in init ==> p in parts;
    SplitJoin(init, sep);
    assert init + [""] == parts;
    JoinSnoc(init, "", sep);
    assert Join(parts, sep) == Join(init, sep) + [sep];
    SplitSnoc(Join(init, sep), sep, sep);
  }

  /** The case of `SplitJoin` whose last piece is not empty: its last
      character extends the last piece. */
  lemma {:induction false} SplitJoinLonger(parts: seq<string>, sep: char)
    requires |parts| >= 1 && parts[|parts| - 1] != []
    requires forall p :: p in parts ==> sep !in p
    ensures Split(Join(parts, sep), sep) == parts
    decreases |parts|, |parts[|parts| - 1]|, 0
  {
    var n := |parts|;
    var last := parts[n - 1];
    var c, prefix := last[|last| - 1], last[..|last| - 1];
    assert last in parts;
    assert c in last;
    var shorter := parts[n - 1 := prefix];
    forall p | p in shorter
      ensures sep !in p
    {
      var i :| 0 <= i < n && shorter[i] == p;
      if i == n - 1 {
        assert forall x :: x in prefix ==> x in last;
      } else {
        assert parts[i] in parts;
      }
    }
    SplitJoin(shorter, sep);
    JoinExtendLast(shorter, c, sep);
    assert shorter[..n - 1] == parts[..n - 1];
    assert prefix + [c] == last;
    assert shorter[..n - 1] + [prefix + [c]] == parts;
    SplitSnoc(Join(shorter, sep), c, sep);
  }

  /** A string without the separator splits into itself alone. */
  lemma {:induction false} SplitWithoutSeparator(s: string, sep: char)
    requires sep !in s
    ensures Split(s, sep) == [s]
  {
    if s != [] {
      SplitWithoutSeparator(s[..|s| - 1], sep);
      assert s == s[..|s| - 1] + [s[|s| - 1]];
    }
  }
}
