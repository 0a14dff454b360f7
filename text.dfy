/** String operations the pipeline relies on: `str.strip`, `str.join`,
    `str.split`, substring search and ASCII case folding. */
module Text {
  import opened Wrappers

  /** Characters Python's `str.strip()` removes, restricted to ASCII. */
  predicate IsSpace(c: char)
  {
    c == ' ' || c == '\t' || c == '\n' || c == '\r' || c == '\U{0B}' || c == '\U{0C}'
    || c == '\U{1C}' || c == '\U{1D}' || c == '\U{1E}' || c == '\U{1F}'
  }

  predicate IsDigit(c: char)
  {
    '0' <= c <= '9'
  }

  /** `s` without its leading whitespace. */
  function StripLeading(s: string): string
  {
    if s != [] && IsSpace(s[0]) then StripLeading(s[1..]) else s
  }

  /** `s` without its trailing whitespace. */
  function StripTrailing(s: string): string
  {
    if s != [] && IsSpace(s[|s| - 1]) then StripTrailing(s[..|s| - 1]) else s
  }

  /** `s.strip()`. */
  function Strip(s: string): string
  {
    StripTrailing(StripLeading(s))
  }

  /** Stripping the front leaves a suffix of `s`. */
  lemma {:induction false} StripLeadingSuffix(s: string)
    ensures |StripLeading(s)| <= |s| && StripLeading(s) == s[|s| - |StripLeading(s)|..]
  {
    if s != [] && IsSpace(s[0]) {
      StripLeadingSuffix(s[1..]);
    }
  }

  /** Everything stripped from the front is whitespace. */
  lemma {:induction false} StripLeadingCut(s: string)
    ensures forall k :: 0 <= k < |s| - |StripLeading(s)| ==> IsSpace(s[k])
  {
    if s != [] && IsSpace(s[0]) {
      StripLeadingCut(s[1..]);
      forall k | 1 <= k < |s| - |StripLeading(s)| ensures IsSpace(s[k]) {
        assert s[k] == s[1..][k - 1];
      }
    }
  }

  /** What is left does not start with whitespace. */
  lemma {:induction false} StripLeadingStart(s: string)
    ensures StripLeading(s) == [] || !IsSpace(StripLeading(s)[0])
  {
    if s != [] && IsSpace(s[0]) {
      StripLeadingStart(s[1..]);
    }
  }

  /** Stripping the back leaves a prefix of `s`. */
  lemma {:induction false} StripTrailingPrefix(s: string)
    ensures |StripTrailing(s)| <= |s| && StripTrailing(s) == s[..|StripTrailing(s)|]
  {
    if s != [] && IsSpace(s[|s| - 1]) {
      StripTrailingPrefix(s[..|s| - 1]);
    }
  }

  /** Everything stripped from the back is whitespace. */
  lemma {:induction false} StripTrailingCut(s: string)
    ensures forall k :: |StripTrailing(s)| <= k < |s| ==> IsSpace(s[k])
  {
    if s != [] && IsSpace(s[|s| - 1]) {
      StripTrailingCut(s[..|s| - 1]);
      forall k | |StripTrailing(s)| <= k < |s| - 1 ensures IsSpace(s[k]) {
        assert s[k] == s[..|s| - 1][k];
      }
    }
  }

  /** What is left does not end with whitespace. */
  lemma {:induction false} StripTrailingEnd(s: string)
    ensures StripTrailing(s) == [] || !IsSpace(StripTrailing(s)[|StripTrailing(s)| - 1])
  {
    if s != [] && IsSpace(s[|s| - 1]) {
      StripTrailingEnd(s[..|s| - 1]);
    }
  }

  /** What `Strip` returns is the part of `s` between a whitespace prefix
      (of length `i`) and a whitespace suffix, and it neither starts nor ends
      with whitespace. */
  lemma StripSlice(s: string)
    ensures var r, i := Strip(s), |s| - |StripLeading(s)|;
      && 0 <= i <= i + |r| <= |s| && r == s[i..i + |r|]
      && (forall k :: 0 <= k < i ==> IsSpace(s[k]))
      && (forall k :: i + |r| <= k < |s| ==> IsSpace(s[k]))
    ensures Strip(s) == [] || (!IsSpace(Strip(s)[0]) && !IsSpace(Strip(s)[|Strip(s)| - 1]))
  {
    StripIsSlice(s);
    StripLeadingCut(s);
    StripCutBack(s);
    StripEnds(s);
  }

  lemma StripIsSlice(s: string)
    ensures var r, i := Strip(s), |s| - |StripLeading(s)|;
      0 <= i <= i + |r| <= |s| && r == s[i..i + |r|]
  {
    var l := StripLeading(s);
    StripLeadingSuffix(s);
    StripTrailingPrefix(l);
  }

  lemma StripCutBack(s: string)
    ensures var r, i := Strip(s), |s| - |StripLeading(s)|;
      forall k :: 0 <= k < |s| && i + |r| <= k ==> IsSpace(s[k])
  {
    var l := StripLeading(s);
    StripLeadingSuffix(s);
    StripTrailingPrefix(l);
    StripTrailingCut(l);
    var i := |s| - |l|;
    forall k | 0 <= k < |s| && i + |Strip(s)| <= k ensures IsSpace(s[k]) {
      assert s[k] == l[k - i];
    }
  }

  lemma StripEnds(s: string)
    ensures Strip(s) == [] || (!IsSpace(Strip(s)[0]) && !IsSpace(Strip(s)[|Strip(s)| - 1]))
  {
    var l := StripLeading(s);
    StripLeadingStart(s);
    StripTrailingPrefix(l);
    StripTrailingEnd(l);
    var r := StripTrailing(l);
    if r != [] {
      assert r[0] == l[0];
    }
  }

  /** Stripping an already stripped string changes nothing. */
  lemma StripIdempotent(s: string)
    ensures Strip(Strip(s)) == Strip(s)
  {
    var r := Strip(s);
    StripSlice(s);
    assert StripLeading(r) == r;
    assert StripTrailing(r) == r;
  }

  /** `sep.join(parts)`. */
  function Join(parts: seq<string>, sep: string): string
  {
    if |parts| == 0 then "" else if |parts| == 1 then parts[0] else parts[0] + sep + Join(parts[1..], sep)
  }

  /** With a non-empty separator, the join is empty exactly when there is
      nothing to join or one empty piece. */
  lemma JoinEmpty(parts: seq<string>, sep: string)
    requires sep != ""
    ensures Join(parts, sep) == "" <==> parts == [] || parts == [""]
  {
    if |parts| >= 2 {
      assert |Join(parts, sep)| >= |sep|;
    }
  }

  /** `s.split(c)` for a one-character separator: the pieces between
      occurrences of `c`, so there is always at least one. */
  function Split(s: string, c: char): (r: seq<string>)
    ensures |r| >= 1
    ensures forall i :: 0 <= i < |r| ==> c !in r[i]
    decreases |s|
  {
    match IndexOf(s, c)
    case None => [s]
    case Some(i) => [s[..i]] + Split(s[i + 1..], c)
  }

  /** First position of `c` in `s`. */
  function IndexOf(s: string, c: char): (r: Option<nat>)
    ensures r.Some? ==> r.value < |s| && s[r.value] == c && c !in s[..r.value]
    ensures r.None? ==> c !in s
  {
    if s == [] then None
    else if s[0] == c then Some(0)
    else match IndexOf(s[1..], c)
      case None => None
      case Some(i) => assert s[1..][..i] == s[1..i + 1]; Some(i + 1)
  }

  /** Splitting undoes joining when no piece contains the separator. */
  lemma {:induction false} SplitJoin(parts: seq<string>, c: char)
    requires |parts| >= 1
    requires forall i :: 0 <= i < |parts| ==> c !in parts[i]
    ensures Split(Join(parts, [c]), c) == parts
  {
    if |parts| == 1 {
      assert IndexOf(parts[0], c) == None;
    } else {
      var tail := Join(parts[1..], [c]);
      assert Join(parts, [c]) == parts[0] + [c] + tail;
      SplitCons(parts[0], c, tail);
      assert forall i :: 1 <= i < |parts| ==> parts[1..][i - 1] == parts[i];
      SplitJoin(parts[1..], c);
      assert parts == [parts[0]] + parts[1..];
    }
  }

  /** A piece without the separator, then the separator, splits off first. */
  lemma SplitCons(a: string, c: char, b: string)
    requires c !in a
    ensures Split(a + [c] + b, c) == [a] + Split(b, c)
  {
    var s := a + [c] + b;
    IndexOfPrefix(a, c, b);
    assert s[..|a|] == a;
    assert s[|a| + 1..] == b;
  }

  lemma IndexOfPrefix(a: string, c: char, b: string)
    requires c !in a
    ensures IndexOf(a + [c] + b, c) == Some(|a|)
  {
    var s := a + [c] + b;
    assert s[|a|] == c;
    assert s[..|a|] == a;
  }

  /** `pat` occurs in `s` starting at position `k`. */
  predicate OccursAt(s: string, pat: string, k: nat)
  {
    k + |pat| <= |s| && s[k..k + |pat|] == pat
  }

  /** `s.find(pat, from)`: the first position at or after `from` where `pat`
      occurs, or nothing when it does not occur there. */
  function Find(s: string, pat: string, from: nat): (r: Option<nat>)
    ensures r.Some? ==> from <= r.value && OccursAt(s, pat, r.value)
    ensures r.Some? ==> forall k :: from <= k < r.value ==> !OccursAt(s, pat, k)
    ensures r.None? ==> forall k :: from <= k ==> !OccursAt(s, pat, k)
    decreases |s| - from
  {
    if from + |pat| > |s| then None
    else if s[from..from + |pat|] == pat then Some(from)
    else Find(s, pat, from + 1)
  }

  /** `pat in s`. */
  predicate Contains(s: string, pat: string)
  {
    Find(s, pat, 0).Some?
  }

  lemma FindFirstAt(s: string, pat: string, from: nat, k: nat)
    requires from <= k && OccursAt(s, pat, k)
    requires forall m :: from <= m < k ==> !OccursAt(s, pat, m)
    ensures Find(s, pat, from) == Some(k)
  {
  }

  /** An occurrence starts with the pattern's first character. */
  lemma OccursAtHead(s: string, pat: string, k: nat)
    requires |pat| > 0 && OccursAt(s, pat, k)
    ensures s[k] == pat[0]
  {
    assert s[k..k + |pat|][0] == s[k];
  }

  /** The search from `from` finds the occurrence at `k` when the pattern's
      first character does not appear in between. */
  lemma FindPast(s: string, pat: string, from: nat, k: nat)
    requires |pat| > 0 && from <= k && OccursAt(s, pat, k)
    requires forall m :: from <= m < k ==> s[m] != pat[0]
    ensures Find(s, pat, from) == Some(k)
  {
    forall m | from <= m < k ensures !OccursAt(s, pat, m) {
      if OccursAt(s, pat, m) {
        OccursAtHead(s, pat, m);
      }
    }
    FindFirstAt(s, pat, from, k);
  }

  /** Searching from `from`, where `s` continues with text free of the
      pattern's first character and then the pattern, finds the pattern right
      after that text. */
  lemma FindAfterPlain(s: string, from: nat, plain: string, pat: string, rest: string)
    requires from <= |s| && s[from..] == plain + pat + rest
    requires |pat| > 0 && pat[0] !in plain
    ensures Find(s, pat, from) == Some(from + |plain|)
  {
    var k := from + |plain|;
    assert s[k..k + |pat|] == s[from..][|plain|..|plain| + |pat|];
    forall m | from <= m < k ensures s[m] != pat[0] {
      assert s[m] == s[from..][m - from] == plain[m - from];
    }
    FindPast(s, pat, from, k);
  }

  /** The same, with the searched text given as what precedes `from`, the
      plain run, the pattern and the rest. */
  lemma FindAfterPieces(s: string, a: string, plain: string, pat: string, rest: string)
    requires s == a + plain + pat + rest
    requires |pat| > 0 && pat[0] !in plain
    ensures Find(s, pat, |a|) == Some(|a| + |plain|)
  {
    assert s[|a|..] == plain + pat + rest;
    FindAfterPlain(s, |a|, plain, pat, rest);
  }

  /** `pat` starts nowhere in `from..to` of `s`. */
  predicate AbsentBetween(s: string, pat: string, from: nat, to: nat)
  {
    forall k :: from <= k < to ==> !OccursAt(s, pat, k)
  }

  /** Up to where a prefix of `s` ends, `pat` occurs in the prefix exactly
      where it occurs in `s`. */
  lemma OccursInPrefix(s: string, p: string, pat: string, k: nat)
    requires p <= s && k + |pat| <= |p|
    ensures OccursAt(s, pat, k) <==> OccursAt(p, pat, k)
  {
    assert s[k..k + |pat|] == p[k..k + |pat|];
  }

  /** In `d + pat + c`, the first `pat` is the one right after `d` exactly
      when `d` followed by all of `pat` but its last character does not
      contain `pat`. */
  lemma FirstAfterIff(s: string, d: string, pat: string, c: string)
    requires s == d + pat + c && |pat| > 0
    ensures Find(s, pat, 0) == Some(|d|) <==> !Contains(d + pat[..|pat| - 1], pat)
  {
    var p := d + pat[..|pat| - 1];
    assert s[..|p|] == p;
    assert s[|d|..|d| + |pat|] == pat;
    ContainsIff(p, pat);
    if !Contains(p, pat) {
      forall k | 0 <= k < |d| ensures !OccursAt(s, pat, k) {
        OccursInPrefix(s, p, pat, k);
      }
      FindFirstAt(s, pat, 0, |d|);
    }
    if Find(s, pat, 0) == Some(|d|) {
      forall k: nat ensures !OccursAt(p, pat, k) {
        if k + |pat| <= |p| {
          OccursInPrefix(s, p, pat, k);
        }
      }
    }
  }

  lemma ContainsIff(s: string, pat: string)
    ensures Contains(s, pat) <==> exists k :: OccursAt(s, pat, k)
  {
  }

  function LowerChar(c: char): char
  {
    if 'A' <= c <= 'Z' then (c as int + 32) as char else c
  }

  /** ASCII lower-casing, character by character. */
  function Lower(s: string): (r: string)
    ensures |r| == |s|
  {
    seq(|s|, i requires 0 <= i < |s| => LowerChar(s[i]))
  }

  /** Case-insensitive substring test, for ASCII letters. */
  predicate ContainsIgnoreCase(s: string, pat: string)
  {
    Contains(Lower(s), Lower(pat))
  }
}
