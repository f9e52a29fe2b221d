/** The vote-ID argument of the administrator's bulk removal: a
    comma-separated list, each piece stripped of surrounding whitespace the
    way Python's `str.split(',')` and `str.strip()` do it.
 */
module IdList {
  import opened Model
  import opened Admin

  const COMMA: char := ','

  /** Python's `str.split(sep)` with an explicit one-character separator:
      every occurrence of `sep` ends a piece, so there is always one piece
      more than there are separators, and empty pieces are kept. */
  function Split(s: string, sep: char): (parts: seq<string>)
    ensures |parts| >= 1
    ensures forall i | 0 <= i < |parts| :: sep !in parts[i]
    decreases |s|
  {
    if |s| == 0 then [""]
    else
      var rest := Split(s[1..], sep);
      if s[0] == sep then [""] + rest
      else [[s[0]] + rest[0]] + rest[1..]
  }

  /** Python's `sep.join(parts)`. */
  function Join(parts: seq<string>, sep: char): string
    requires |parts| >= 1
  {
    if |parts| == 1 then parts[0] else parts[0] + [sep] + Join(parts[1..], sep)
  }

  function Occurrences(s: string, c: char): nat {
    if |s| == 0 then 0 else (if s[0] == c then 1 else 0) + Occurrences(s[1..], c)
  }

  /** Joining the pieces back with the separator restores the input. */
  lemma {:induction false} JoinSplit(s: string, sep: char)
    ensures Join(Split(s, sep), sep) == s
    decreases |s|
  {
    if |s| > 0 {
      var rest := Split(s[1..], sep);
      JoinSplit(s[1..], sep);
      if s[0] == sep {
        assert Split(s, sep)[1..] == rest;
      } else {
        if |rest| == 1 {
          assert Join(Split(s, sep), sep) == [s[0]] + rest[0];
        } else {
          assert Split(s, sep)[1..] == rest[1..];
          assert Join(rest, sep) == rest[0] + [sep] + Join(rest[1..], sep);
        }
      }
    }
  }

  /** A piece free of the separator splits to itself. */
  lemma {:induction false} SplitPlain(p: string, sep: char)
    requires sep !in p
    ensures Split(p, sep) == [p]
    decreases |p|
  {
    if |p| > 0 {
      SplitPlain(p[1..], sep);
      assert [p[0]] + p[1..] == p;
    }
  }

  /** A separator-free piece followed by the separator splits off as one piece. */
  lemma {:induction false} SplitAfter(p: string, sep: char, rest: string)
    requires sep !in p
    ensures Split(p + [sep] + rest, sep) == [p] + Split(rest, sep)
    decreases |p|
  {
    var s := p + [sep] + rest;
    if |p| == 0 {
      assert s[0] == sep && s[1..] == rest;
    } else {
      assert s[0] == p[0] && s[1..] == p[1..] + [sep] + rest;
      SplitAfter(p[1..], sep, rest);
      assert [p[0]] + p[1..] == p;
    }
  }

  /** Splitting a join of separator-free pieces gives the pieces back. */
  lemma {:induction false} SplitJoin(parts: seq<string>, sep: char)
    requires |parts| >= 1
    requires forall i | 0 <= i < |parts| :: sep !in parts[i]
    ensures Split(Join(parts, sep), sep) == parts
    decreases |parts|
  {
    if |parts| == 1 {
      SplitPlain(parts[0], sep);
    } else {
      SplitJoin(parts[1..], sep);
      SplitAfter(parts[0], sep, Join(parts[1..], sep));
    }
  }

  /** There is one piece more than there are separators. */
  lemma {:induction false} SplitCount(s: string, sep: char)
    ensures |Split(s, sep)| == Occurrences(s, sep) + 1
    decreases |s|
  {
    if |s| > 0 {
      SplitCount(s[1..], sep);
    }
  }

  /** Python's `str.isspace()` for one character: the ASCII whitespace and
      separator controls plus the Unicode space characters. */
  predicate IsSpace(c: char) {
    || ('\t' <= c <= '\r')
    || ('\U{1C}' <= c <= ' ')
    || c == '\U{85}' || c == '\U{A0}' || c == '\U{1680}'
    || ('\U{2000}' <= c <= '\U{200A}')
    || c == '\U{2028}' || c == '\U{2029}' || c == '\U{202F}' || c == '\U{205F}' || c == '\U{3000}'
  }

  /** The number of whitespace characters at the front of `s`. */
  function Leading(s: string): (n: nat)
    ensures n <= |s|
    ensures forall i | 0 <= i < n :: IsSpace(s[i])
    ensures n < |s| ==> !IsSpace(s[n])
  {
    if |s| == 0 || !IsSpace(s[0]) then 0 else 1 + Leading(s[1..])
  }

  /** The number of whitespace characters at the back of `s`. */
  function Trailing(s: string): (n: nat)
    ensures n <= |s|
    ensures forall i | |s| - n <= i < |s| :: IsSpace(s[i])
    ensures n < |s| ==> !IsSpace(s[|s| - n - 1])
  {
    if |s| == 0 || !IsSpace(s[|s| - 1]) then 0 else 1 + Trailing(s[..|s| - 1])
  }

  /** Python's `str.strip()`: the infix left after removing whitespace from
      both ends. It begins and ends with a non-space, and everything cut
      away is whitespace. */
  function Strip(s: string): (r: string)
    ensures r == [] || (!IsSpace(r[0]) && !IsSpace(r[|r| - 1]))
    ensures exists i, j | 0 <= i <= j <= |s| ::
      && r == s[i..j]
      && (forall k | 0 <= k < i :: IsSpace(s[k]))
      && (forall k | j <= k < |s| :: IsSpace(s[k]))
  {
    var i := Leading(s);
    var t := s[i..];
    var j := |t| - Trailing(t);
    assert forall k | i + j <= k < |s| :: s[k] == t[k - i];
    assert t[..j] == s[i..i + j];
    t[..j]
  }

  /** Stripping an already stripped string changes nothing. */
  lemma StripIdempotent(s: string)
    ensures Strip(Strip(s)) == Strip(s)
  {
    var r := Strip(s);
    assert Leading(r) == 0;
    assert Trailing(r) == 0;
  }

  /** The vote IDs named in the argument, in order. */
  function ParseIds(text: string): (ids: seq<VoteId>)
    ensures |ids| == |Split(text, COMMA)|
    ensures forall i | 0 <= i < |ids| :: ids[i] == Strip(Split(text, COMMA)[i]) && COMMA !in ids[i]
  {
    var parts := Split(text, COMMA);
    seq(|parts|, i requires 0 <= i < |parts| => Strip(parts[i]))
  }

  /** The bulk removal as invoked with its raw text argument. */
  function RepRemove(s: State, text: string): (r: (State, Report))
    ensures |r.1.success| + |r.1.reversed| + |r.1.invalid| == Occurrences(text, COMMA) + 1
  {
    var ids := ParseIds(text);
    SplitCount(text, COMMA);
    RemoveVotesPartition(s, ids);
    var r := RemoveVotes(s, ids);
    assert |multiset(ids)| == |multiset(r.1.success)| + |multiset(r.1.reversed)| + |multiset(r.1.invalid)|;
    r
  }

  /** A list of stripped, comma-free IDs written out with a bare comma
      between them parses back to exactly those IDs. */
  lemma {:induction false} ParseJoined(ids: seq<VoteId>)
    requires |ids| >= 1
    requires forall i | 0 <= i < |ids| :: COMMA !in ids[i] && Strip(ids[i]) == ids[i]
    ensures ParseIds(Join(ids, COMMA)) == ids
  {
    SplitJoin(ids, COMMA);
  }
}
