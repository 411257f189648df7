/**
 * The string handling of the command shell (src/shell.cpp): `trimstr`,
 * `splitArgs`, the case-insensitive name matching of the command search and
 * the longest-common-prefix step of autocompletion.
 *
 * A C string is the sequence of its characters before the terminating NUL.
 * Only ' ' counts as white space.
 */
module ShellText {

  const NUL: char := '\0'
  const SPACE: char := ' '

  /** Buffer `a` holds a C string of length `n`: a NUL at `n` and none before it. */
  ghost predicate IsCString(a: seq<char>, n: nat)
  {
    n < |a| && a[n] == NUL && forall i :: 0 <= i < n ==> a[i] != NUL
  }

  predicate NoNul(s: seq<char>)
  {
    forall i :: 0 <= i < |s| ==> s[i] != NUL
  }

  /** The C string read from a buffer holding `s`: the characters before its first NUL. */
  function UpToNul(s: seq<char>): (r: seq<char>)
    ensures r <= s && NoNul(r)
    ensures |r| < |s| ==> s[|r|] == NUL
  {
    if s == [] || s[0] == NUL then [] else [s[0]] + UpToNul(s[1..])
  }

  /** A string without NUL reads back whole. */
  lemma {:induction false} UpToNulNoNul(s: seq<char>)
    requires NoNul(s)
    ensures UpToNul(s) == s
  {
    if s != [] {
      UpToNulNoNul(s[1..]);
    }
  }

  /** The C string read from `s` ends at the first NUL. */
  lemma {:induction false} UpToNulAt(s: seq<char>, n: nat)
    requires n <= |s| && NoNul(s[..n]) && (n == |s| || s[n] == NUL)
    ensures |UpToNul(s)| == n
  {
    if n > 0 {
      assert s[1..][..n - 1] == s[1..n];
      UpToNulAt(s[1..], n - 1);
    }
  }

  // ---------------------------------------------------------------------------
  // Leading spaces

  /** The number of leading spaces of `s`: the index of its first non-space. */
  function LeadingSpaces(s: seq<char>): (k: nat)
    ensures k <= |s| && (k == |s| || s[k] != SPACE)
    ensures forall i :: 0 <= i < k ==> s[i] == SPACE
  {
    if s != [] && s[0] == SPACE then 1 + LeadingSpaces(s[1..]) else 0
  }

  /** `s` without its leading spaces (the `while (*idx == ' ') idx++` loops). */
  function SkipSpaces(s: seq<char>): seq<char>
  {
    s[LeadingSpaces(s)..]
  }

  // ---------------------------------------------------------------------------
  // trimstr

  /** No two adjacent spaces. */
  predicate NoDoubleSpace(r: seq<char>)
  {
    forall i, j :: 0 <= i < |r| && 0 <= j < |r| && j == i + 1 ==> r[i] != SPACE || r[j] != SPACE
  }

  /**
   * The main loop of trimstr on the text after the leading spaces: runs of spaces
   * are remembered in `pending` and written as one space before the next word.
   */
  function Collapse(s: seq<char>, pending: bool): (r: seq<char>)
    ensures |r| <= |s| + (if pending then 1 else 0)
    decreases |s|
  {
    if s == [] then []
    else if s[0] == SPACE then Collapse(s[1..], true)
    else (if pending then [SPACE, s[0]] else [s[0]]) + Collapse(s[1..], false)
  }

  /**
   * The main loop never emits a trailing or doubled space, and emits a leading
   * space only after a run of spaces it was already in.
   */
  lemma {:induction false} CollapseShape(s: seq<char>, pending: bool)
    ensures var r := Collapse(s, pending);
      && (r == [] || r[|r| - 1] != SPACE)
      && (!pending && (s == [] || s[0] != SPACE) ==> r == [] || r[0] != SPACE)
      && NoDoubleSpace(r)
    decreases |s|
  {
    if s != [] {
      CollapseShape(s[1..], true);
      CollapseShape(s[1..], false);
    }
  }

  /** One step of the main loop of trimstr, at position `i` of `s[..n]`. */
  lemma CollapseStep(s: seq<char>, i: nat, n: nat, pending: bool)
    requires i < n <= |s|
    ensures s[i] == SPACE ==> Collapse(s[i..n], pending) == Collapse(s[i + 1..n], true)
    ensures s[i] != SPACE ==>
      Collapse(s[i..n], pending) == (if pending then [SPACE, s[i]] else [s[i]]) + Collapse(s[i + 1..n], false)
  {
    assert s[i..n][0] == s[i] && s[i..n][1..] == s[i + 1..n];
  }

  /** Every character the main loop emits is a space or comes from its input. */
  lemma {:induction false} CollapseChars(s: seq<char>, pending: bool)
    ensures forall i :: 0 <= i < |Collapse(s, pending)| ==> Collapse(s, pending)[i] == SPACE || Collapse(s, pending)[i] in s
    decreases |s|
  {
    if s != [] {
      CollapseChars(s[1..], s[0] == SPACE);
      CollapseChars(s[1..], false);
    }
  }

  /** trimstr: drop leading and trailing spaces and squeeze inner runs to one space. */
  function Trim(s: seq<char>): (r: seq<char>)
    ensures |r| <= |s|
  {
    Collapse(SkipSpaces(s), false)
  }

  /** No leading space, no trailing space, no two adjacent spaces. */
  predicate Normalised(r: seq<char>)
  {
    (r == [] || (r[0] != SPACE && r[|r| - 1] != SPACE))
    && NoDoubleSpace(r)
  }

  lemma TrimNormalised(s: seq<char>)
    ensures Normalised(Trim(s))
    ensures |Trim(s)| <= |s|
  {
    CollapseShape(SkipSpaces(s), false);
  }

  /** Every character of the trimmed string is a space or comes from the input. */
  lemma TrimNoNul(s: seq<char>)
    requires NoNul(s)
    ensures NoNul(Trim(s))
  {
    var t := SkipSpaces(s);
    CollapseChars(t, false);
    forall i | 0 <= i < |Trim(s)| ensures Trim(s)[i] != NUL {
      if Trim(s)[i] != SPACE {
        assert Trim(s)[i] in t;
      }
    }
  }

  /** The non-space characters of a string, in order. */
  function NonSpaces(s: seq<char>): seq<char>
  {
    if s == [] then [] else (if s[0] == SPACE then [] else [s[0]]) + NonSpaces(s[1..])
  }

  lemma {:induction false} NonSpacesAppend(a: seq<char>, b: seq<char>)
    ensures NonSpaces(a + b) == NonSpaces(a) + NonSpaces(b)
    decreases |a|
  {
    if a == [] {
      assert a + b == b;
    } else {
      assert (a + b)[0] == a[0] && (a + b)[1..] == a[1..] + b;
      NonSpacesAppend(a[1..], b);
    }
  }

  lemma {:induction false} NonSpacesCollapse(s: seq<char>, pending: bool)
    ensures NonSpaces(Collapse(s, pending)) == NonSpaces(s)
    decreases |s|
  {
    if s != [] {
      NonSpacesCollapse(s[1..], false);
      NonSpacesCollapse(s[1..], true);
      if s[0] != SPACE {
        var chunk := if pending then [SPACE, s[0]] else [s[0]];
        NonSpacesAppend(chunk, Collapse(s[1..], false));
        assert NonSpaces(chunk) == [s[0]] by {
          if pending {
            assert chunk[1..] == [s[0]];
          }
        }
      }
    }
  }

  lemma {:induction false} NonSpacesSkip(s: seq<char>)
    ensures NonSpaces(SkipSpaces(s)) == NonSpaces(s)
    decreases |s|
  {
    if s != [] && s[0] == SPACE {
      NonSpacesSkip(s[1..]);
    }
  }

  /** trimstr keeps every non-space character, in the original order. */
  lemma TrimKeepsNonSpaces(s: seq<char>)
    ensures NonSpaces(Trim(s)) == NonSpaces(s)
  {
    NonSpacesCollapse(SkipSpaces(s), false);
    NonSpacesSkip(s);
  }

  /** A string without trailing or doubled spaces passes through the main loop unchanged. */
  lemma {:induction false} CollapseFixed(r: seq<char>)
    requires r == [] || r[|r| - 1] != SPACE
    requires NoDoubleSpace(r)
    ensures Collapse(r, false) == r
    decreases |r|
  {
    if r != [] {
      if r[0] != SPACE {
        CollapseFixed(r[1..]);
        assert Collapse(r, false) == [r[0]] + r[1..];
      } else {
        var rest := r[1..];
        assert rest[0] != SPACE;
        CollapseFixed(rest[1..]);
        assert Collapse(r, false) == Collapse(rest, true);
        assert Collapse(rest, true) == [SPACE, rest[0]] + rest[1..];
      }
    }
  }

  /** trimstr is idempotent. */
  lemma TrimIdempotent(s: seq<char>)
    ensures Trim(Trim(s)) == Trim(s)
  {
    var t := Trim(s);
    TrimNormalised(s);
    assert LeadingSpaces(t) == 0;
    CollapseFixed(t);
  }

  /**
   * trimstr, in place on the NUL-terminated buffer `a`: skip the leading spaces,
   * squeeze the rest to the front, terminate it.
   */
  method TrimStr(a: array<char>, ghost n: nat)
    requires IsCString(a[..], n)
    modifies a
    ensures |Trim(old(a[..n]))| <= n
    ensures a[..] == Trim(old(a[..n])) + [NUL] + old(a[..])[|Trim(old(a[..n]))| + 1..]
  {
    ghost var s := a[..];
    var src := 0;
    while a[src] == SPACE
      invariant src <= n && a[..] == s
      invariant forall i :: 0 <= i < src ==> s[i] == SPACE
      decreases n - src
    {
      src := src + 1;
    }
    assert LeadingSpaces(s[..n]) == src;
    assert SkipSpaces(s[..n]) == s[src..n];
    var dst := Squeeze(a, n, src);
    ghost var before := a[..];
    assert before[..dst] == Trim(s[..n]) && before[dst + 1..] == s[dst + 1..];
    a[dst] := NUL;
    assert a[..] == before[dst := NUL];
    WriteAt(before, dst, NUL);
  }

  /**
   * The main loop of trimstr: `src` runs ahead of `dst`, so every character is
   * read before it can be overwritten.
   */
  method Squeeze(a: array<char>, ghost n: nat, start: nat) returns (dst: nat)
    requires IsCString(a[..], n) && start <= n
    modifies a
    ensures dst <= n
    ensures a[..dst] == Collapse(old(a[start..n]), false)
    ensures a[dst..] == old(a[dst..])
  {
    ghost var s := a[..];
    var src := start;
    dst := 0;
    var prevSpace := false;
    while a[src] != NUL
      invariant dst <= src <= n
      invariant prevSpace ==> dst < src
      invariant a[dst..] == s[dst..]
      invariant a[..dst] + Collapse(s[src..n], prevSpace) == Collapse(s[start..n], false)
      decreases n - src
    {
      dst, prevSpace := SqueezeStep(a, s, n, src, dst, prevSpace);
      src := src + 1;
    }
    assert a[src] == s[dst..][src - dst];
    assert src == n;
  }

  /** One turn of the main loop of trimstr: the character at `src` is copied or remembered as a space. */
  method SqueezeStep(a: array<char>, ghost s: seq<char>, ghost n: nat, src: nat, dst: nat, prevSpace: bool)
    returns (dst': nat, prevSpace': bool)
    requires a.Length == |s| && dst <= src < n <= |s|
    requires prevSpace ==> dst < src
    requires a[dst..] == s[dst..]
    modifies a
    ensures dst' <= src + 1 && (prevSpace' ==> dst' < src + 1)
    ensures a[dst'..] == s[dst'..]
    ensures a[..dst'] + Collapse(s[src + 1..n], prevSpace') == old(a[..dst]) + Collapse(s[src..n], prevSpace)
  {
    assert a[src] == s[dst..][src - dst];
    CollapseStep(s, src, n, prevSpace);
    ghost var done := a[..dst];
    ghost var rest := Collapse(s[src + 1..n], false);
    if a[src] == SPACE {
      return dst, true;
    }
    var c := a[src];
    if prevSpace {
      a[dst] := SPACE;
      a[dst + 1] := c;
      assert a[..dst + 2] == done + [SPACE, c];
      AppendAssoc(done, [SPACE], [c], rest);
      dst' := dst + 2;
    } else {
      a[dst] := c;
      assert a[..dst + 1] == done + [c];
      AppendAssoc(done, [], [c], rest);
      dst' := dst + 1;
    }
    prevSpace' := false;
  }

  lemma WriteAt(before: seq<char>, i: nat, x: char)
    requires i < |before|
    ensures before[i := x] == before[..i] + [x] + before[i + 1..]
  {
  }

  lemma AppendAssoc(d: seq<char>, x: seq<char>, y: seq<char>, r: seq<char>)
    ensures d + x + y + r == d + (x + y + r)
  {
  }

  // ---------------------------------------------------------------------------
  // splitArgs

  /** The index of the first space of `s`, or |s| when there is none (strchr). */
  function IndexOfSpace(s: seq<char>): (k: nat)
    ensures k <= |s| && (k < |s| ==> s[k] == SPACE)
    ensures forall i :: 0 <= i < k ==> s[i] != SPACE
  {
    if s == [] || s[0] == SPACE then 0 else 1 + IndexOfSpace(s[1..])
  }

  /**
   * splitArgs: the command word, the arguments, and whether a space followed the
   * command word.
   */
  function Split(s: seq<char>): (r: (seq<char>, seq<char>, bool))
    ensures !r.2 ==> r.1 == []
    ensures |r.0| + |r.1| + (if r.2 then 1 else 0) <= |s|
  {
    var t := SkipSpaces(s);
    var k := IndexOfSpace(t);
    if k == |t| then (t, [], false) else (t[..k], SkipSpaces(t[k + 1..]), true)
  }

  /**
   * The command word is the maximal run of non-spaces after the leading spaces;
   * the flag says whether a space follows it; the arguments are what follows
   * that space, without leading spaces, and are empty when there is no space.
   */
  lemma SplitParts(s: seq<char>)
    ensures var r := Split(s);
      && r.0 <= SkipSpaces(s)
      && (forall i :: 0 <= i < |r.0| ==> r.0[i] != SPACE)
      && (r.2 <==> |r.0| < |SkipSpaces(s)|)
      && (r.2 ==> SkipSpaces(s)[|r.0|] == SPACE && r.1 == SkipSpaces(SkipSpaces(s)[|r.0| + 1..]))
      && (!r.2 ==> r.0 == SkipSpaces(s) && r.1 == [])
  {
  }

  /**
   * On a trimmed line the arguments come out trimmed too: they are the text after
   * the first space, which neither starts nor ends with a space nor doubles one.
   */
  lemma SplitArgsNormalised(t: seq<char>)
    requires Normalised(t)
    ensures Normalised(Split(t).1)
  {
    assert LeadingSpaces(t) == 0;
    var k := IndexOfSpace(t);
    if k < |t| {
      NormalisedAfterSpace(t, k + 1);
    }
  }

  /** What follows a space of a trimmed string is itself trimmed. */
  lemma NormalisedAfterSpace(t: seq<char>, j: nat)
    requires Normalised(t) && 0 < j <= |t| && t[j - 1] == SPACE
    ensures j < |t| && LeadingSpaces(t[j..]) == 0 && Normalised(t[j..])
  {
    assert j < |t|;
    assert t[j] != SPACE by {
      assert t[j - 1] == SPACE;
    }
    var rest := t[j..];
    assert rest[|rest| - 1] == t[|t| - 1];
    forall i, i' | 0 <= i < |rest| && 0 <= i' < |rest| && i' == i + 1 ensures rest[i] != SPACE || rest[i'] != SPACE {
      assert rest[i] == t[j + i] && rest[i'] == t[j + i'];
    }
  }

  /** splitArgs with its scanning loops (the skip loops and strchr). */
  method SplitArgs(str: seq<char>) returns (cmd: seq<char>, args: seq<char>, tailSpace: bool)
    ensures (cmd, args, tailSpace) == Split(str)
  {
    var idx := SkipSpacesFrom(str, 0);
    var search := FindSpace(str, idx);
    if search == |str| {
      SplitAt(str, idx, search, search);
      cmd := str[idx..];
      args := [];
      tailSpace := false;
      return;
    }
    tailSpace := true;
    cmd := str[idx..search];
    var argStart := SkipSpacesFrom(str, search + 1);
    args := str[argStart..];
    SplitAt(str, idx, search, argStart);
  }

  /** Split in terms of the three positions splitArgs finds. */
  lemma SplitAt(str: seq<char>, idx: nat, search: nat, argStart: nat)
    requires idx <= search <= argStart <= |str|
    requires str[idx..] == SkipSpaces(str[0..])
    requires search == idx + IndexOfSpace(str[idx..])
    requires search < |str| ==> search < argStart && str[argStart..] == SkipSpaces(str[search + 1..])
    ensures Split(str) == if search == |str| then (str[idx..], [], false) else (str[idx..search], str[argStart..], true)
  {
    assert str[0..] == str;
    var t := str[idx..];
    if search < |str| {
      assert t[..search - idx] == str[idx..search];
      assert t[search - idx + 1..] == str[search + 1..];
    }
  }

  /** strchr for a space from `from` on: its index, or |str| when there is none. */
  method FindSpace(str: seq<char>, from: nat) returns (k: nat)
    requires from <= |str|
    ensures k == from + IndexOfSpace(str[from..])
  {
    k := from;
    while k < |str| && str[k] != SPACE
      invariant from <= k <= |str|
      invariant forall i :: from <= i < k ==> str[i] != SPACE
    {
      k := k + 1;
    }
    IndexOfSpaceAt(str[from..], k - from);
  }

  /** The `while (*idx == ' ') idx++` loops: the index of the first non-space from `from` on. */
  method SkipSpacesFrom(str: seq<char>, from: nat) returns (idx: nat)
    requires from <= |str|
    ensures from <= idx <= |str| && str[idx..] == SkipSpaces(str[from..])
  {
    idx := from;
    while idx < |str| && str[idx] == SPACE
      invariant from <= idx <= |str|
      invariant forall i :: from <= i < idx ==> str[i] == SPACE
    {
      idx := idx + 1;
    }
    assert LeadingSpaces(str[from..]) == idx - from;
    assert str[from..][idx - from..] == str[idx..];
  }

  lemma {:induction false} IndexOfSpaceAt(s: seq<char>, k: nat)
    requires k <= |s| && (k == |s| || s[k] == SPACE)
    requires forall i :: 0 <= i < k ==> s[i] != SPACE
    ensures IndexOfSpace(s) == k
  {
    if k > 0 {
      IndexOfSpaceAt(s[1..], k - 1);
    }
  }

  // ---------------------------------------------------------------------------
  // Case-insensitive matching (strcasecmp / strncasecmp)

  function ToLower(c: char): char
  {
    if 'A' <= c <= 'Z' then (c as int + 32) as char else c
  }

  /** The two strings are equal ignoring ASCII case. */
  predicate CaseEq(a: seq<char>, b: seq<char>)
  {
    |a| == |b| && forall i :: 0 <= i < |a| ==> ToLower(a[i]) == ToLower(b[i])
  }

  /**
   * The query matches the name: names shorter than the query are skipped; then a
   * full match needs case-insensitive equality, a prefix match a case-insensitive
   * prefix.
   */
  predicate NameMatches(fullmatch: bool, query: seq<char>, name: seq<char>)
  {
    |query| <= |name| && if fullmatch then CaseEq(query, name) else CaseEq(query, name[..|query|])
  }

  /** A full match is in particular a prefix match. */
  lemma FullMatchIsPrefixMatch(query: seq<char>, name: seq<char>)
    requires NameMatches(true, query, name)
    ensures NameMatches(false, query, name)
  {
    assert name[..|query|] == name;
  }

  // ---------------------------------------------------------------------------
  // Longest common prefix (autocompleteHandle)

  /**
   * `k` is the length of the longest common prefix of `names`, compared case-
   * sensitively: every name starts with the first `k` characters of the first
   * name, and some name ends at `k` or differs from the first there.
   */
  ghost predicate IsLcp(names: seq<seq<char>>, k: nat)
    requires |names| > 0
  {
    && k <= |names[0]|
    && (forall j :: 0 <= j < |names| ==> k <= |names[j]| && names[j][..k] == names[0][..k])
    && (exists j :: 0 <= j < |names| && (k == |names[j]| || (k < |names[0]| && names[j][k] != names[0][k])))
  }

  lemma LcpUnique(names: seq<seq<char>>, k1: nat, k2: nat)
    requires |names| > 0 && IsLcp(names, k1) && IsLcp(names, k2)
    ensures k1 == k2
  {
  }

  /**
   * The common prefix of `names` extended character by character from `i`, the
   * first `i` characters being shared already.
   */
  function LcpFrom(names: seq<seq<char>>, i: nat): (k: nat)
    requires |names| > 0 && i <= |names[0]|
    requires forall j :: 0 <= j < |names| ==> i <= |names[j]| && names[j][..i] == names[0][..i]
    ensures i <= k && IsLcp(names, k)
    decreases |names[0]| - i
  {
    if i < |names[0]| && forall j :: 0 <= j < |names| ==> i < |names[j]| && names[j][i] == names[0][i] then
      PrefixExtends(names, i);
      LcpFrom(names, i + 1)
    else
      i
  }

  lemma PrefixExtends(names: seq<seq<char>>, i: nat)
    requires |names| > 0 && i < |names[0]|
    requires forall j :: 0 <= j < |names| ==> i < |names[j]| && names[j][..i] == names[0][..i] && names[j][i] == names[0][i]
    ensures forall j :: 0 <= j < |names| ==> names[j][..i + 1] == names[0][..i + 1]
  {
    forall j | 0 <= j < |names|
      ensures names[j][..i + 1] == names[0][..i + 1]
    {
      assert names[j][..i + 1] == names[j][..i] + [names[j][i]];
      assert names[0][..i + 1] == names[0][..i] + [names[0][i]];
    }
  }

  /** The length of the longest common prefix of `names`. */
  function Lcp(names: seq<seq<char>>): (k: nat)
    requires |names| > 0
    ensures IsLcp(names, k)
  {
    LcpFrom(names, 0)
  }

  /** The character loops of autocompleteHandle that measure the common prefix. */
  method CommonPrefixLength(names: seq<seq<char>>) returns (lcpLen: nat)
    requires |names| > 0
    ensures lcpLen == Lcp(names)
  {
    // The shortest name length (the source starts from UINT32_MAX; no name is that long).
    var minLen := |names[0]|;
    var m := 1;
    while m < |names|
      invariant 1 <= m <= |names|
      invariant forall j :: 0 <= j < m ==> minLen <= |names[j]|
      invariant exists j :: 0 <= j < m && minLen == |names[j]|
    {
      if |names[m]| < minLen {
        minLen := |names[m]|;
      }
      m := m + 1;
    }
    lcpLen := 0;
    var finished := false;
    var i := 0;
    // Names hold no NUL, so the source's checks for a terminator below minLen never fire.
    while i < minLen
      invariant lcpLen == i <= minLen
      invariant forall j :: 0 <= j < |names| ==> names[j][..i] == names[0][..i]
      invariant !finished
    {
      var c := names[0][i];
      var idx := 0;
      while idx < |names|
        invariant idx <= |names|
        invariant !finished
        invariant forall j :: 0 <= j < idx ==> names[j][i] == c
      {
        if names[idx][i] != c {
          finished := true;
          break;
        }
        idx := idx + 1;
      }
      if finished {
        LcpUnique(names, lcpLen, Lcp(names));
        return;
      }
      PrefixExtends(names, i);
      lcpLen := lcpLen + 1;
      i := i + 1;
    }
    LcpUnique(names, lcpLen, Lcp(names));
  }
}
