/**
  The `java.lang.String` operations the rule parser relies on, over `seq<char>`: ASCII
  upper-casing and `equalsIgnoreCase`, `trim`, `isBlank`, `startsWith`, `indexOf` from an
  index, the loop that collects every non-overlapping occurrence of a pattern, and `split`
  on the regular expression `(?i)\s+is\s+`.
*/
module RuleText {
  import opened Common

  /** `Character.toUpperCase` on the ASCII letters; every other character is kept. */
  function UpperChar(c: char): char {
    if 'a' <= c <= 'z' then (c as int - 32) as char else c
  }

  /** `toUpperCase()`, character by character. */
  function Upper(s: string): string {
    seq(|s|, i requires 0 <= i < |s| => UpperChar(s[i]))
  }

  /** `equalsIgnoreCase`, on ASCII letters. */
  predicate EqualsIgnoreCase(a: string, b: string) {
    Upper(a) == Upper(b)
  }

  lemma UpperAppend(a: string, b: string)
    ensures Upper(a + b) == Upper(a) + Upper(b)
  {
  }

  /** The characters `trim()` removes: every code point up to the space. */
  predicate Trimmable(c: char) {
    c <= ' '
  }

  /** `Character.isWhitespace`, which `isBlank()` tests on every character. */
  predicate JavaWhitespace(c: char) {
    var k := c as int;
    k == 0x20 || 0x09 <= k <= 0x0D || 0x1C <= k <= 0x1F || k == 0x1680 ||
    0x2000 <= k <= 0x2006 || 0x2008 <= k <= 0x200A || k == 0x2028 || k == 0x2029 ||
    k == 0x205F || k == 0x3000
  }

  /** `isBlank()`: empty, or white space only. */
  predicate IsBlank(s: string) {
    forall i :: 0 <= i < |s| ==> JavaWhitespace(s[i])
  }

  function TrimStart(s: string): string {
    if |s| > 0 && Trimmable(s[0]) then TrimStart(s[1..]) else s
  }

  function TrimEnd(s: string): string {
    if |s| > 0 && Trimmable(s[|s| - 1]) then TrimEnd(s[..|s| - 1]) else s
  }

  /** `trim()`: the string without its leading and trailing characters up to the space. */
  function Trim(s: string): string {
    TrimEnd(TrimStart(s))
  }

  /** `trim()` cuts a slice out of s: only trimmable characters go, the ends of what is left stay. */
  lemma TrimIsSlice(s: string)
    ensures exists i, j :: 0 <= i <= j <= |s| && Trim(s) == s[i..j] &&
              (forall k :: 0 <= k < i ==> Trimmable(s[k])) && (forall k :: j <= k < |s| ==> Trimmable(s[k]))
    ensures |Trim(s)| > 0 ==> !Trimmable(Trim(s)[0]) && !Trimmable(Trim(s)[|Trim(s)| - 1])
  {
    var i := TrimStartSlice(s);
    var j := TrimEndSlice(s[i..]);
    assert Trim(s) == s[i..][..j] == s[i..i + j];
    forall k | i + j <= k < |s| ensures Trimmable(s[k]) {
      assert s[k] == s[i..][k - i];
    }
  }

  lemma {:induction false} TrimStartSlice(s: string) returns (i: nat)
    ensures i <= |s| && TrimStart(s) == s[i..]
    ensures forall k :: 0 <= k < i ==> Trimmable(s[k])
    ensures |TrimStart(s)| > 0 ==> !Trimmable(TrimStart(s)[0])
  {
    if |s| > 0 && Trimmable(s[0]) {
      var rest := TrimStartSlice(s[1..]);
      i := rest + 1;
      assert s[1..][rest..] == s[i..];
      forall k | 0 <= k < i ensures Trimmable(s[k]) {
        if k > 0 {
          assert s[k] == s[1..][k - 1];
        }
      }
    } else {
      i := 0;
    }
  }

  lemma {:induction false} TrimEndSlice(s: string) returns (j: nat)
    ensures j <= |s| && TrimEnd(s) == s[..j]
    ensures forall k :: j <= k < |s| ==> Trimmable(s[k])
    ensures |TrimEnd(s)| > 0 ==> !Trimmable(TrimEnd(s)[|TrimEnd(s)| - 1])
    ensures |TrimEnd(s)| > 0 && |s| > 0 && !Trimmable(s[0]) ==> !Trimmable(TrimEnd(s)[0])
    ensures |s| > 0 && !Trimmable(s[0]) ==> j > 0
  {
    if |s| > 0 && Trimmable(s[|s| - 1]) {
      var prefix := s[..|s| - 1];
      j := TrimEndSlice(prefix);
      assert prefix[..j] == s[..j];
      forall k | j <= k < |s| ensures Trimmable(s[k]) {
        if k < |s| - 1 {
          assert s[k] == prefix[k];
        }
      }
    } else {
      j := |s|;
      assert s[..|s|] == s;
    }
  }

  /** `startsWith(prefix)`. */
  predicate StartsWith(s: string, prefix: string) {
    |prefix| <= |s| && s[..|prefix|] == prefix
  }

  /** `pat` occurs in s at index p. */
  predicate OccursAt(s: string, pat: string, p: int) {
    0 <= p && p + |pat| <= |s| && s[p..p + |pat|] == pat
  }

  /** `indexOf(pat, from)`: the first index at or after `from` where `pat` occurs, or -1. */
  function IndexOf(s: string, pat: string, from: nat): (r: int)
    ensures r == -1 || (from <= r && OccursAt(s, pat, r))
    decreases |s| - from
  {
    if from + |pat| > |s| then -1
    else if s[from..from + |pat|] == pat then from
    else IndexOf(s, pat, from + 1)
  }

  /** `indexOf` finds the first occurrence: none lies between `from` and its result, and -1 means none at all. */
  lemma {:induction false} IndexOfIsFirst(s: string, pat: string, from: nat, p: int)
    requires from <= p && OccursAt(s, pat, p)
    ensures IndexOf(s, pat, from) != -1 && IndexOf(s, pat, from) <= p
    decreases |s| - from
  {
    if from + |pat| <= |s| && s[from..from + |pat|] != pat {
      assert p != from;
      IndexOfIsFirst(s, pat, from + 1, p);
    }
  }

  /**
    The positions the `while ((pos = s.indexOf(pat, pos)) != -1) { add(pos); pos += pat.length(); }`
    loop collects from `from` on.
  */
  function Occurrences(s: string, pat: string, from: nat): seq<nat>
    requires |pat| > 0
    decreases |s| - from
  {
    var p := IndexOf(s, pat, from);
    if p == -1 then [] else [p as nat] + Occurrences(s, pat, p + |pat|)
  }

  /** Every collected position is an occurrence of `pat` at or after `from`. */
  lemma {:induction false} OccurrencesMatch(s: string, pat: string, from: nat)
    requires |pat| > 0
    ensures forall i :: 0 <= i < |Occurrences(s, pat, from)| ==>
              from <= Occurrences(s, pat, from)[i] && OccursAt(s, pat, Occurrences(s, pat, from)[i])
    decreases |s| - from
  {
    var first := IndexOf(s, pat, from);
    if first != -1 {
      OccurrencesMatch(s, pat, first + |pat|);
    }
  }

  /** The collected positions increase, each at least the pattern's length after the one before. */
  lemma {:induction false} OccurrencesApart(s: string, pat: string, from: nat)
    requires |pat| > 0
    ensures forall i :: 0 < i < |Occurrences(s, pat, from)| ==>
              Occurrences(s, pat, from)[i - 1] + |pat| <= Occurrences(s, pat, from)[i]
    decreases |s| - from
  {
    var first := IndexOf(s, pat, from);
    if first != -1 {
      var rest := Occurrences(s, pat, first + |pat|);
      OccurrencesApart(s, pat, first + |pat|);
      OccurrencesMatch(s, pat, first + |pat|);
      assert Occurrences(s, pat, from) == [first as nat] + rest;
    }
  }

  /** Every occurrence of `pat` at or after `from` is collected, or overlaps a collected one. */
  lemma {:induction false} OccurrencesComplete(s: string, pat: string, from: nat, p: nat)
    requires |pat| > 0 && from <= p && OccursAt(s, pat, p)
    ensures exists i :: 0 <= i < |Occurrences(s, pat, from)| &&
              Occurrences(s, pat, from)[i] <= p < Occurrences(s, pat, from)[i] + |pat|
    decreases |s| - from
  {
    IndexOfIsFirst(s, pat, from, p);
    var first := IndexOf(s, pat, from);
    var ps := Occurrences(s, pat, from);
    var rest := Occurrences(s, pat, first + |pat|);
    assert ps == [first as nat] + rest;
    if p < first + |pat| {
      assert ps[0] <= p < ps[0] + |pat|;
    } else {
      OccurrencesComplete(s, pat, first + |pat|, p);
      var k :| 0 <= k < |rest| && rest[k] <= p < rest[k] + |pat|;
      assert ps[k + 1] == rest[k];
    }
  }

  /** The position-collecting loop of `parse`, for one operator pattern. */
  method FindAll(s: string, pat: string) returns (ps: seq<nat>)
    requires |pat| > 0
    ensures ps == Occurrences(s, pat, 0)
  {
    ps := [];
    var pos: nat := 0;
    var found := IndexOf(s, pat, pos);
    while found != -1
      invariant pos <= |s| && found == IndexOf(s, pat, pos)
      invariant Occurrences(s, pat, 0) == ps + Occurrences(s, pat, pos)
      decreases |s| - pos
    {
      var next: nat := found + |pat|;
      ghost var rest := Occurrences(s, pat, next);
      assert Occurrences(s, pat, pos) == [found as nat] + rest;
      assert ps + ([found as nat] + rest) == (ps + [found as nat]) + rest;
      ps := ps + [found as nat];
      pos := next;
      found := IndexOf(s, pat, pos);
    }
    assert ps + [] == ps;
  }

  /** `\s` of `java.util.regex`: space, tab, line feed, vertical tab, form feed, carriage return. */
  predicate RegexSpace(c: char) {
    c == ' ' || '\t' <= c <= '\r'
  }

  /** The end of the run of `\s` characters that starts at index i. */
  function SpaceRunEnd(s: string, i: nat): (e: nat)
    requires i <= |s|
    ensures i <= e <= |s| && (e < |s| ==> !RegexSpace(s[e]))
    ensures forall k :: i <= k < e ==> RegexSpace(s[k])
    decreases |s| - i
  {
    if i < |s| && RegexSpace(s[i]) then SpaceRunEnd(s, i + 1) else i
  }

  /**
    The end of a match of `\s+is\s+`, case-insensitive, that starts at index p, if one does.
    The first `\s+` takes the whole run of white space, since the letters after it cannot be
    white space; the second takes the whole run after "is".
  */
  function MatchAt(s: string, p: nat): (r: Option<nat>)
    requires p <= |s|
    ensures r.Some? ==> p + 4 <= r.value <= |s|
  {
    if p < |s| && RegexSpace(s[p]) then
      var q := SpaceRunEnd(s, p);
      if q + 2 < |s| && s[q] in "iI" && s[q + 1] in "sS" && RegexSpace(s[q + 2]) then Some(SpaceRunEnd(s, q + 2))
      else None
    else None
  }

  /** `Matcher.find()` from index `from`: the leftmost match, as its start and end. */
  function NextMatch(s: string, from: nat): (r: Option<(nat, nat)>)
    requires from <= |s|
    ensures r.Some? ==> from <= r.value.0 < |s| && MatchAt(s, r.value.0) == Some(r.value.1)
    decreases |s| - from
  {
    if from == |s| then None
    else if MatchAt(s, from).Some? then Some((from, MatchAt(s, from).value))
    else NextMatch(s, from + 1)
  }

  /** The texts between successive matches from index `from` on, and the text after the last. */
  function SplitFrom(s: string, from: nat): seq<string>
    requires from <= |s|
    decreases |s| - from
  {
    match NextMatch(s, from)
    case None => [s[from..]]
    case Some((p, e)) => [s[from..p]] + SplitFrom(s, e)
  }

  function DropTrailingEmpty(parts: seq<string>): seq<string> {
    if |parts| > 0 && parts[|parts| - 1] == "" then DropTrailingEmpty(parts[..|parts| - 1]) else parts
  }

  /**
    `split("(?i)\\s+is\\s+")`: the string itself when nothing matches, otherwise the texts
    around the matches without the empty ones at the end.
  */
  function SplitIs(s: string): seq<string> {
    if NextMatch(s, 0).None? then [s] else DropTrailingEmpty(SplitFrom(s, 0))
  }

  predicate Letter(c: char) {
    'A' <= c <= 'Z' || 'a' <= c <= 'z'
  }

  /** A word of ASCII letters; the vocabulary of the rules is written in these. */
  predicate Word(w: string) {
    |w| > 0 && forall k :: 0 <= k < |w| ==> Letter(w[k])
  }

  /**
    Words joined by single spaces, where no word after the first starts with i or I: no
    match of `\s+is\s+` can start inside it.
  */
  predicate Phrase(v: string) {
    |v| > 0 && Letter(v[0]) && Letter(v[|v| - 1]) &&
    (forall k :: 0 <= k < |v| ==> v[k] == ' ' || Letter(v[k])) &&
    (forall k :: 0 <= k < |v| - 1 && v[k] == ' ' ==> Letter(v[k + 1]) && v[k + 1] != 'i' && v[k + 1] != 'I')
  }

  lemma WordPhrase(w: string)
    requires Word(w)
    ensures Phrase(w)
  {
  }

  lemma JoinPhrase(v: string, w: string)
    requires Phrase(v) && Word(w) && w[0] != 'i' && w[0] != 'I'
    ensures Phrase(v + " " + w)
  {
    var j := v + " " + w;
    forall k | |v| < k < |j| ensures Letter(j[k]) {
      assert j[k] == w[k - |v| - 1];
    }
    forall k | 0 <= k < |j| - 1 && j[k] == ' '
      ensures Letter(j[k + 1]) && j[k + 1] != 'i' && j[k + 1] != 'I'
    {
      if k == |v| {
        assert j[k + 1] == w[0];
      } else if k > |v| {
        assert false;
      } else {
        assert j[k] == v[k];
        assert k < |v| - 1;
        assert j[k + 1] == v[k + 1];
      }
    }
  }

  /** No match starts anywhere between `from` and `to`: the search goes on at `to`. */
  lemma {:induction false} SkipNoMatch(s: string, from: nat, to: nat)
    requires from <= to <= |s|
    requires forall p :: from <= p < to ==> MatchAt(s, p).None?
    ensures NextMatch(s, from) == NextMatch(s, to)
    decreases |s| - from
  {
    if from < to {
      SkipNoMatch(s, from + 1, to);
    }
  }

  /** No match starts inside a phrase that opens the string. */
  lemma NoMatchInLeadingPhrase(s: string, v: string, p: nat)
    requires Phrase(v) && |v| <= |s| && s[..|v|] == v && p < |v|
    ensures MatchAt(s, p).None?
  {
    assert s[p] == s[..|v|][p] == v[p];
    if RegexSpace(s[p]) {
      assert p < |v| - 1;
      assert s[p + 1] == s[..|v|][p + 1] == v[p + 1];
      assert SpaceRunEnd(s, p + 1) == p + 1;
    }
  }

  /** In a phrase followed by " is " and a phrase, the first match is that " is ". */
  lemma FirstMatchAfterPhrase(v: string, k: string)
    requires Phrase(v) && Phrase(k)
    ensures NextMatch(v + " is " + k, 0) == Some((|v|, |v| + 4))
  {
    var s := v + " is " + k;
    var n := |v|;
    assert s[..n] == v;
    forall p | 0 <= p < n ensures MatchAt(s, p).None? {
      NoMatchInLeadingPhrase(s, v, p);
    }
    SkipNoMatch(s, 0, n);
    assert s[n] == ' ' && s[n + 1] == 'i' && s[n + 2] == 's' && s[n + 3] == ' ' && s[n + 4] == k[0];
    assert SpaceRunEnd(s, n + 1) == n + 1;
    assert SpaceRunEnd(s, n + 4) == n + 4;
  }

  /** No match starts inside a phrase that ends the string. */
  lemma NoMatchInPhrase(s: string, from: nat)
    requires from < |s| && Phrase(s[from..])
    ensures NextMatch(s, from).None?
  {
    var t := s[from..];
    forall p | from <= p < |s| ensures MatchAt(s, p).None? {
      assert s[p] == t[p - from];
      if RegexSpace(s[p]) {
        assert p + 1 < |s| && s[p + 1] == t[p + 1 - from];
        assert SpaceRunEnd(s, p + 1) == p + 1;
      }
    }
    SkipNoMatch(s, from, |s|);
  }

  /** Two phrases around " is " split into the two phrases. */
  lemma SplitIsPhrase(v: string, k: string)
    requires Phrase(v) && Phrase(k)
    ensures SplitIs(v + " is " + k) == [v, k]
  {
    var s := v + " is " + k;
    var n := |v|;
    FirstMatchAfterPhrase(v, k);
    assert s[..n] == v && s[n + 4..] == k;
    NoMatchInPhrase(s, n + 4);
    assert SplitFrom(s, n + 4) == [k];
    assert SplitFrom(s, 0) == [v, k];
  }
}
