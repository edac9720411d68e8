/** The JavaScript string operations the extension relies on, over `string`
    (a sequence of characters): `indexOf`, `includes`, `startsWith`,
    `endsWith`, `split`, `join`, `trim`, `toLowerCase` on ASCII letters, and
    the global replacement of a two-character escape. */
module Text {
  import opened Wrappers

  /** `sub` occurs in `s` starting at index `i`. */
  predicate OccursAt(s: string, sub: string, i: int) {
    0 <= i && i + |sub| <= |s| && s[i..i + |sub|] == sub
  }

  /** `s.indexOf(sub, from)`: the first occurrence of `sub` at or after `from`. */
  function IndexOfFrom(s: string, sub: string, from: nat): (r: Option<nat>)
    ensures r.Some? ==> from <= r.value && OccursAt(s, sub, r.value)
    ensures r.Some? ==> forall k :: from <= k < r.value ==> !OccursAt(s, sub, k)
    ensures r.None? ==> forall k :: from <= k ==> !OccursAt(s, sub, k)
    decreases |s| - from
  {
    if from + |sub| > |s| then None
    else if OccursAt(s, sub, from) then Some(from)
    else IndexOfFrom(s, sub, from + 1)
  }

  /** `s.indexOf(sub)`, with `None` for -1. */
  function IndexOf(s: string, sub: string): Option<nat> {
    IndexOfFrom(s, sub, 0)
  }

  /** `s.includes(sub)`. */
  predicate Contains(s: string, sub: string) {
    IndexOf(s, sub).Some?
  }

  lemma ContainsAt(s: string, sub: string, i: int)
    requires OccursAt(s, sub, i)
    ensures Contains(s, sub)
  {
  }

  /** Whatever contains a string contains each of its prefixes; so a test for
      `"import "` can only succeed where a test for `"import"` already has. */
  lemma {:induction false} ContainsPrefixOf(s: string, sub: string, n: nat)
    requires Contains(s, sub) && n <= |sub|
    ensures Contains(s, sub[..n])
  {
    var i := IndexOf(s, sub).value;
    assert s[i..i + n] == s[i..i + |sub|][..n];
    ContainsAt(s, sub[..n], i);
  }

  /** An occurrence inside a slice is an occurrence in the whole string. */
  lemma {:induction false} ContainsInSlice(s: string, lo: nat, hi: nat, sub: string)
    requires lo <= hi <= |s| && Contains(s[lo..hi], sub)
    ensures exists k :: lo <= k && k + |sub| <= hi && OccursAt(s, sub, k)
  {
    var j := IndexOf(s[lo..hi], sub).value;
    assert OccursAt(s[lo..hi], sub, j);
    forall t | 0 <= t < |sub| ensures s[lo + j + t] == sub[t] {
      assert s[lo..hi][j..j + |sub|][t] == sub[t];
    }
    assert s[lo + j..lo + j + |sub|] == sub;
    assert OccursAt(s, sub, lo + j);
  }

  predicate StartsWith(s: string, prefix: string) {
    prefix <= s
  }

  predicate EndsWith(s: string, suffix: string) {
    |suffix| <= |s| && s[|s| - |suffix|..] == suffix
  }

  function Last<T>(xs: seq<T>): T
    requires |xs| > 0
  {
    xs[|xs| - 1]
  }

  /** `s.split(sep)` for a non-empty separator: the pieces between the
      occurrences of `sep`, found left to right without overlap. */
  function Split(s: string, sep: string): (parts: seq<string>)
    requires sep != ""
    ensures |parts| >= 1
    decreases |s|
  {
    match IndexOf(s, sep)
    case None => [s]
    case Some(i) => [s[..i]] + Split(s[i + |sep|..], sep)
  }

  /** The number of occurrences of `sep` that `Split` cuts at. */
  function Occurrences(s: string, sep: string): nat
    requires sep != ""
    decreases |s|
  {
    match IndexOf(s, sep)
    case None => 0
    case Some(i) => 1 + Occurrences(s[i + |sep|..], sep)
  }

  /** `parts.join(sep)`; the empty list joins to the empty string. */
  function Join(parts: seq<string>, sep: string): string {
    if |parts| == 0 then ""
    else if |parts| == 1 then parts[0]
    else parts[0] + sep + Join(parts[1..], sep)
  }

  lemma JoinCons(head: string, tail: seq<string>, sep: string)
    requires |tail| > 0
    ensures Join([head] + tail, sep) == head + sep + Join(tail, sep)
  {
    assert ([head] + tail)[1..] == tail;
  }

  /** N separators cut a string into N + 1 pieces. */
  lemma {:induction false} SplitLength(s: string, sep: string)
    requires sep != ""
    ensures |Split(s, sep)| == Occurrences(s, sep) + 1
    decreases |s|
  {
    match IndexOf(s, sep)
    case None =>
    case Some(i) => SplitLength(s[i + |sep|..], sep);
  }

  /** One step of `Split`: the piece before the first separator, then the
      split of what follows it. */
  lemma SplitStep(s: string, sep: string)
    requires sep != "" && IndexOf(s, sep).Some?
    ensures Split(s, sep)
         == [s[..IndexOf(s, sep).value]] + Split(s[IndexOf(s, sep).value + |sep|..], sep)
  {
  }

  lemma CutAround(s: string, sep: string, i: nat)
    requires OccursAt(s, sep, i)
    ensures s == s[..i] + sep + s[i + |sep|..]
  {
    assert s == s[..i] + s[i..i + |sep|] + s[i + |sep|..];
  }

  lemma EndsWithTransitive(s: string, t: string, u: string)
    requires EndsWith(s, t) && EndsWith(t, u)
    ensures EndsWith(s, u)
  {
    assert s[|s| - |u|..] == s[|s| - |t|..][|t| - |u|..];
  }

  lemma ConcatEnds(a: string, b: string, c: string)
    ensures a + (b + c) == a + b + c
    ensures StartsWith(a + (b + c), a + b)
    ensures EndsWith(a + (b + c), c)
  {
    assert a + (b + c) == (a + b) + c;
  }

  /** Splitting loses nothing: joining the pieces back gives the string. */
  lemma {:induction false} SplitJoin(s: string, sep: string)
    requires sep != ""
    ensures Join(Split(s, sep), sep) == s
    decreases |s|
  {
    var found := IndexOf(s, sep);
    if found.Some? {
      var i := found.value;
      var rest := s[i + |sep|..];
      SplitJoin(rest, sep);
      SplitStep(s, sep);
      JoinCons(s[..i], Split(rest, sep), sep);
      CutAround(s, sep, i);
    }
  }

  /** No piece of a split contains the separator. */
  lemma {:induction false} SplitPiecesAreFree(s: string, sep: string)
    requires sep != ""
    ensures forall k :: 0 <= k < |Split(s, sep)| ==> !Contains(Split(s, sep)[k], sep)
    decreases |s|
  {
    match IndexOf(s, sep)
    case None =>
    case Some(i) =>
      var rest := s[i + |sep|..];
      SplitPiecesAreFree(rest, sep);
      if Contains(s[..i], sep) {
        assert s[..i] == s[0..i];
        ContainsInSlice(s, 0, i, sep);
        assert false;
      }
      assert Split(s, sep) == [s[..i]] + Split(rest, sep);
  }

  /** The last piece of a split is the text after the last separator, or the
      whole string when there is no separator. */
  lemma LastPieceOfSplit(s: string, sep: string)
    requires sep != ""
    ensures EndsWith(s, Last(Split(s, sep)))
    ensures !Contains(Last(Split(s, sep)), sep)
    ensures Contains(s, sep) ==> EndsWith(s, sep + Last(Split(s, sep)))
    ensures !Contains(s, sep) ==> Last(Split(s, sep)) == s
  {
    SplitPiecesAreFree(s, sep);
    LastPieceIsSuffix(s, sep);
  }

  lemma {:induction false} LastPieceIsSuffix(s: string, sep: string)
    requires sep != ""
    ensures EndsWith(s, Last(Split(s, sep)))
    ensures Contains(s, sep) ==> EndsWith(s, sep + Last(Split(s, sep)))
    decreases |s|
  {
    var found := IndexOf(s, sep);
    if found.Some? {
      var i := found.value;
      var rest := s[i + |sep|..];
      LastPieceIsSuffix(rest, sep);
      SplitStep(s, sep);
      var last := Last(Split(rest, sep));
      assert Last(Split(s, sep)) == last;
      CutAround(s, sep, i);
      ConcatEnds(s[..i], sep, rest);
      EndsWithConcat(s[..i], sep + rest);
      EndsWithConcat(s[..i] + sep, rest);
      EndsWithTransitive(s, rest, last);
      if Contains(rest, sep) {
        EndsWithTransitive(s, rest, sep + last);
      }
    }
  }

  lemma EndsWithConcat(a: string, b: string)
    ensures EndsWith(a + b, b)
  {
    assert (a + b)[|a|..] == b;
  }

  /** Joining two non-empty lists puts one separator between their joins. */
  lemma {:induction false} JoinAppend(a: seq<string>, b: seq<string>, sep: string)
    requires |a| > 0 && |b| > 0
    ensures Join(a + b, sep) == Join(a, sep) + sep + Join(b, sep)
    decreases |a|
  {
    if |a| == 1 {
      assert (a + b)[1..] == b;
    } else {
      JoinAppend(a[1..], b, sep);
      assert (a + b)[1..] == a[1..] + b;
    }
  }

  /** The characters JavaScript's `trim` removes: white space and line
      terminators. */
  predicate IsWhiteSpace(c: char) {
    || c == '\t' || c == '\n' || c == '\U{000B}' || c == '\U{000C}' || c == '\r'
    || c == ' ' || c == '\U{00A0}' || c == '\U{1680}' || ('\U{2000}' <= c <= '\U{200A}')
    || c == '\U{2028}' || c == '\U{2029}' || c == '\U{202F}' || c == '\U{205F}'
    || c == '\U{3000}' || c == '\U{FEFF}'
  }

  /** `s` without its leading white space. */
  function TrimStart(s: string): (r: string)
    ensures |r| <= |s| && r == s[|s| - |r|..]
    ensures r == [] || !IsWhiteSpace(r[0])
    ensures forall i :: 0 <= i < |s| - |r| ==> IsWhiteSpace(s[i])
  {
    if s != [] && IsWhiteSpace(s[0]) then TrimStart(s[1..]) else s
  }

  /** `s` without its trailing white space. */
  function TrimEnd(s: string): (r: string)
    ensures |r| <= |s| && r == s[..|r|]
    ensures r == [] || !IsWhiteSpace(r[|r| - 1])
    ensures forall i :: |r| <= i < |s| ==> IsWhiteSpace(s[i])
  {
    if s != [] && IsWhiteSpace(s[|s| - 1]) then TrimEnd(s[..|s| - 1]) else s
  }

  /** `r` sits in `s` at offset `i`, and everything of `s` before and after
      it is white space. */
  predicate SurroundedBySpace(s: string, r: string, i: int) {
    && 0 <= i <= |s| - |r| && r == s[i..i + |r|]
    && (forall k :: 0 <= k < i ==> IsWhiteSpace(s[k]))
    && (forall k :: i + |r| <= k < |s| ==> IsWhiteSpace(s[k]))
  }

  /** `s.trim()`: the part of `s` left once the white space around it is
      removed. */
  function Trim(s: string): (r: string)
    ensures |r| <= |s|
    ensures r == [] || (!IsWhiteSpace(r[0]) && !IsWhiteSpace(r[|r| - 1]))
    ensures exists i :: SurroundedBySpace(s, r, i)
  {
    TrimBothEnds(s);
    TrimEnd(TrimStart(s))
  }

  /** Removing the trailing white space of `s` without its leading white
      space leaves a part of `s` with only white space around it. */
  lemma TrimBothEnds(s: string)
    ensures SurroundedBySpace(s, TrimEnd(TrimStart(s)), |s| - |TrimStart(s)|)
  {
    SurroundedFromHalves(s, TrimStart(s), TrimEnd(TrimStart(s)));
  }

  /** A suffix of `s` after white space, cut before white space, has only
      white space around it in `s`. */
  lemma SurroundedFromHalves(s: string, front: string, r: string)
    requires |front| <= |s| && front == s[|s| - |front|..]
    requires forall k :: 0 <= k < |s| - |front| ==> IsWhiteSpace(s[k])
    requires |r| <= |front| && r == front[..|r|]
    requires forall k :: |r| <= k < |front| ==> IsWhiteSpace(front[k])
    ensures SurroundedBySpace(s, r, |s| - |front|)
  {
    var i := |s| - |front|;
    assert r == s[i..i + |r|];
    forall k | i + |r| <= k < |s|
      ensures IsWhiteSpace(s[k])
    {
      assert s[k] == front[k - i];
    }
  }

  /** When the non-white-space of `s` starts at `lo` and ends just before
      `hi`, a non-empty trimmed part of `s` lies exactly between them. */
  lemma SurroundedExactly(s: string, r: string, i: int, lo: int, hi: int)
    requires SurroundedBySpace(s, r, i)
    requires r == [] || (!IsWhiteSpace(r[0]) && !IsWhiteSpace(r[|r| - 1]))
    requires 0 <= lo < hi <= |s|
    requires !IsWhiteSpace(s[lo]) && !IsWhiteSpace(s[hi - 1])
    requires forall k :: 0 <= k < lo ==> IsWhiteSpace(s[k])
    requires forall k :: hi <= k < |s| ==> IsWhiteSpace(s[k])
    ensures i == lo && i + |r| == hi
  {
    assert !IsWhiteSpace(s[i]) && !IsWhiteSpace(s[i + |r| - 1]) by {
      assert r[0] == s[i] && r[|r| - 1] == s[i + |r| - 1];
    }
  }

  /** Where the parts of a white-space-padded string sit. */
  lemma PaddedPositions(before: string, text: string, after: string)
    requires forall k :: 0 <= k < |before| ==> IsWhiteSpace(before[k])
    requires forall k :: 0 <= k < |after| ==> IsWhiteSpace(after[k])
    requires text != []
    ensures var s := before + text + after;
      && s[|before|] == text[0] && s[|before| + |text| - 1] == text[|text| - 1]
      && s[|before|..|before| + |text|] == text
      && (forall k :: 0 <= k < |before| ==> IsWhiteSpace(s[k]))
      && (forall k :: |before| + |text| <= k < |s| ==> IsWhiteSpace(s[k]))
  {
    var s := before + text + after;
    assert forall k :: 0 <= k < |before| ==> s[k] == before[k];
    assert forall k :: |before| + |text| <= k < |s| ==> s[k] == after[k - |before| - |text|];
  }

  /** White space around a string that neither starts nor ends with white
      space is exactly what trimming removes. */
  lemma TrimPadded(before: string, text: string, after: string)
    requires forall k :: 0 <= k < |before| ==> IsWhiteSpace(before[k])
    requires forall k :: 0 <= k < |after| ==> IsWhiteSpace(after[k])
    requires text != [] && !IsWhiteSpace(text[0]) && !IsWhiteSpace(text[|text| - 1])
    ensures Trim(before + text + after) == text
  {
    var s := before + text + after;
    var r := Trim(s);
    var i :| SurroundedBySpace(s, r, i);
    PaddedPositions(before, text, after);
    SurroundedExactly(s, r, i, |before|, |before| + |text|);
  }

  /** Trimming yields the empty string exactly for all-white-space input. */
  lemma TrimEmpty(s: string)
    ensures Trim(s) == "" <==> forall i :: 0 <= i < |s| ==> IsWhiteSpace(s[i])
  {
  }

  /** A string that neither starts nor ends with white space is its own trim. */
  lemma TrimUnchanged(s: string)
    requires s == [] || (!IsWhiteSpace(s[0]) && !IsWhiteSpace(s[|s| - 1]))
    ensures Trim(s) == s
  {
  }

  /** `s` without its trailing `c` characters. */
  function StripTrailing(s: string, c: char): (r: string)
    ensures |r| <= |s| && r == s[..|r|]
    ensures r == [] || r[|r| - 1] != c
    ensures forall i :: |r| <= i < |s| ==> s[i] == c
  {
    if s != [] && s[|s| - 1] == c then StripTrailing(s[..|s| - 1], c) else s
  }

  function LowerChar(c: char): char {
    if 'A' <= c <= 'Z' then (c as int + 32) as char else c
  }

  /** `s.toLowerCase()` on the ASCII letters; every other character is kept. */
  function ToLowerAscii(s: string): (r: string)
    ensures |r| == |s|
  {
    seq(|s|, i requires 0 <= i < |s| => LowerChar(s[i]))
  }

  /** The two-character escape `\` followed by `e` occurs in `s`. */
  ghost predicate HasEscape(s: string, e: char) {
    exists i :: 0 <= i < |s| - 1 && s[i] == '\\' && s[i + 1] == e
  }

  /** `s.replace(/\\e/g, c)`: each `\` followed by `e`, scanning left to
      right, becomes the single character `c`. */
  function ExpandEscape(s: string, e: char, c: char): (r: string)
    ensures |r| <= |s|
    decreases |s|
  {
    if |s| >= 2 && s[0] == '\\' && s[1] == e then [c] + ExpandEscape(s[2..], e, c)
    else if s == [] then []
    else [s[0]] + ExpandEscape(s[1..], e, c)
  }

  /** After the replacement no escape `\e` is left, as long as the
      replacement character cannot form a new one. */
  lemma {:induction false} ExpandEscapeComplete(s: string, e: char, c: char)
    requires c != '\\' && c != e
    ensures !HasEscape(ExpandEscape(s, e, c), e)
    decreases |s|
  {
    var r := ExpandEscape(s, e, c);
    if |s| >= 2 && s[0] == '\\' && s[1] == e {
      var t := ExpandEscape(s[2..], e, c);
      ExpandEscapeComplete(s[2..], e, c);
      forall i | 0 <= i < |r| - 1 ensures !(r[i] == '\\' && r[i + 1] == e) {
        if i > 0 {
          assert r[i] == t[i - 1] && r[i + 1] == t[i];
        }
      }
    } else if s != [] {
      var t := ExpandEscape(s[1..], e, c);
      ExpandEscapeComplete(s[1..], e, c);
      forall i | 0 <= i < |r| - 1 ensures !(r[i] == '\\' && r[i + 1] == e) {
        if i > 0 {
          assert r[i] == t[i - 1] && r[i + 1] == t[i];
        } else {
          ExpandEscapeHead(s[1..], e, c);
        }
      }
    }
  }

  /** Expanding one escape does not create another one, `\e2`, as long as
      the replacement character is not `e2`. */
  lemma {:induction false} ExpandEscapeKeepsOthersAbsent(s: string, e: char, c: char, e2: char)
    requires c != '\\' && c != e2 && !HasEscape(s, e2)
    ensures !HasEscape(ExpandEscape(s, e, c), e2)
    decreases |s|
  {
    var r := ExpandEscape(s, e, c);
    if |s| >= 2 && s[0] == '\\' && s[1] == e {
      var t := ExpandEscape(s[2..], e, c);
      NoEscapeInSuffix(s, 2, e2);
      ExpandEscapeKeepsOthersAbsent(s[2..], e, c, e2);
      forall i | 0 <= i < |r| - 1 ensures !(r[i] == '\\' && r[i + 1] == e2) {
        if i > 0 {
          assert r[i] == t[i - 1] && r[i + 1] == t[i];
        }
      }
    } else if s != [] {
      var t := ExpandEscape(s[1..], e, c);
      NoEscapeInSuffix(s, 1, e2);
      ExpandEscapeKeepsOthersAbsent(s[1..], e, c, e2);
      forall i | 0 <= i < |r| - 1 ensures !(r[i] == '\\' && r[i + 1] == e2) {
        if i > 0 {
          assert r[i] == t[i - 1] && r[i + 1] == t[i];
        } else {
          ExpandEscapeHead(s[1..], e, c);
        }
      }
    }
  }

  lemma NoEscapeInSuffix(s: string, k: nat, e: char)
    requires k <= |s| && !HasEscape(s, e)
    ensures !HasEscape(s[k..], e)
  {
  }

  /** The first character of an expansion. */
  lemma ExpandEscapeHead(s: string, e: char, c: char)
    requires s != []
    ensures ExpandEscape(s, e, c) != []
    ensures ExpandEscape(s, e, c)[0] == if |s| >= 2 && s[0] == '\\' && s[1] == e then c else s[0]
  {
  }
}
