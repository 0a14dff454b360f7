/** `iso8601_duration_to_seconds`: `re.match(r"PT(?:(\d+)H)?(?:(\d+)M)?(?:(\d+)S)?", d)`
    turned into seconds, 0 when the text does not start with `PT`. */
module Duration {
  import opened Wrappers
  import opened Text

  predicate AllDigits(s: string)
  {
    forall i :: 0 <= i < |s| ==> IsDigit(s[i])
  }

  /** Length of the run of digits `s` starts with (what a greedy `\d+` can take). */
  function LeadingDigits(s: string): (n: nat)
    ensures n <= |s| && AllDigits(s[..n])
    ensures n == |s| || !IsDigit(s[n])
  {
    if s != [] && IsDigit(s[0]) then
      var n := 1 + LeadingDigits(s[1..]);
      assert forall i :: 1 <= i < n ==> s[..n][i] == s[1..][..n - 1][i - 1];
      n
    else 0
  }

  /** The run of digits is determined by where the first non-digit stands. */
  lemma {:induction false} LeadingDigitsExact(s: string, k: nat)
    requires k <= |s| && AllDigits(s[..k])
    requires k == |s| || !IsDigit(s[k])
    ensures LeadingDigits(s) == k
  {
    if k > 0 {
      assert IsDigit(s[..k][0]);
      assert forall i :: 1 <= i < k ==> s[1..][..k - 1][i - 1] == s[..k][i];
      LeadingDigitsExact(s[1..], k - 1);
    }
  }

  function DigitValue(c: char): nat
  {
    if IsDigit(c) then c as int - '0' as int else 0
  }

  /** `int(ds)` for a run of decimal digits (leading zeros allowed). */
  function DigitsValue(ds: string): nat
  {
    if ds == [] then 0 else 10 * DigitsValue(ds[..|ds| - 1]) + DigitValue(ds[|ds| - 1])
  }

  /** Decimal notation of `n`, without leading zeros. */
  function Decimal(n: nat): (r: string)
    ensures r != [] && AllDigits(r)
  {
    if n < 10 then [('0' as int + n) as char]
    else
      var r := Decimal(n / 10) + [('0' as int + n % 10) as char];
      assert forall i :: 0 <= i < |r| - 1 ==> r[i] == Decimal(n / 10)[i];
      r
  }

  /** Reading the decimal notation back gives the number. */
  lemma {:induction false} DecimalValue(n: nat)
    ensures DigitsValue(Decimal(n)) == n
  {
    if n >= 10 {
      var r := Decimal(n);
      assert r[..|r| - 1] == Decimal(n / 10);
      DecimalValue(n / 10);
    }
  }

  /** What one optional group `(?:(\d+)U)?` yields: the group's number
      (0 when the group does not take part) and the text after it. */
  datatype Group = Group(value: nat, rest: string)

  /** Matching `(?:(\d+)U)?` at the start of `s`: the group takes part
      exactly when `s` starts with digits followed by `unit`; then it consumes
      them and the unit letter, otherwise it consumes nothing and counts 0. */
  function MatchGroup(s: string, unit: char): (g: Group)
    requires !IsDigit(unit)
  {
    var k := LeadingDigits(s);
    if 0 < k < |s| && s[k] == unit then Group(DigitsValue(s[..k]), s[k + 1..]) else Group(0, s)
  }

  /** The group consumes a prefix of `s`: nothing (then it counts 0), or a
      non-empty run of digits and the unit letter (then it counts their value). */
  lemma MatchGroupConsumes(s: string, unit: char)
    requires !IsDigit(unit)
    ensures var g := MatchGroup(s, unit);
      && |g.rest| <= |s| && g.rest == s[|s| - |g.rest|..]
      && (|g.rest| == |s| ==> g.value == 0)
      && (|g.rest| < |s| ==> var k := |s| - |g.rest| - 1;
          0 < k && AllDigits(s[..k]) && s[k] == unit && g.value == DigitsValue(s[..k]))
  {
  }

  /** The text after the group is a suffix of `s`. */
  lemma MatchGroupSplits(s: string, unit: char)
    requires !IsDigit(unit)
    ensures var g := MatchGroup(s, unit); |g.rest| <= |s| && s == s[..|s| - |g.rest|] + g.rest
  {
  }

  /** The group is greedy: whenever `s` starts with digits and the unit
      letter, the group takes them. */
  lemma MatchGroupGreedy(s: string, unit: char, k: nat)
    requires !IsDigit(unit)
    requires 0 < k < |s| && AllDigits(s[..k]) && s[k] == unit
    ensures MatchGroup(s, unit) == Group(DigitsValue(s[..k]), s[k + 1..])
  {
    LeadingDigitsExact(s, k);
  }

  predicate StartsWithPT(d: string)
  {
    |d| >= 2 && d[0] == 'P' && d[1] == 'T'
  }

  /** The three groups of the pattern, matched one after the other on the
      text that follows `PT`. */
  function Groups(x: string): (Group, Group, Group)
  {
    var h := MatchGroup(x, 'H');
    var m := MatchGroup(h.rest, 'M');
    var s := MatchGroup(m.rest, 'S');
    (h, m, s)
  }

  /** `h * 3600 + m_ * 60 + s` for the groups matched on `x`. */
  function GroupSeconds(x: string): nat
  {
    var (h, m, s) := Groups(x);
    3600 * h.value + 60 * m.value + s.value
  }

  /** The part of `x` the three groups consume. */
  function GroupText(x: string): string
  {
    var (_, _, s) := Groups(x);
    if |s.rest| <= |x| then x[..|x| - |s.rest|] else x
  }

  /** `iso8601_duration_to_seconds(d)`. */
  function DurationSeconds(d: string): nat
  {
    if !StartsWithPT(d) then 0 else GroupSeconds(d[2..])
  }

  /** The text the regular expression matches (`m.group(0)`). */
  function MatchedText(d: string): string
    requires StartsWithPT(d)
  {
    "PT" + GroupText(d[2..])
  }

  lemma SecondsFromGroups(x: string, h: Group, m: Group, s: Group)
    requires MatchGroup(x, 'H') == h && MatchGroup(h.rest, 'M') == m && MatchGroup(m.rest, 'S') == s
    ensures GroupSeconds(x) == 3600 * h.value + 60 * m.value + s.value
  {
  }

  /** A group does not take part: the text starts with no digit, or with
      digits followed by a letter other than its unit. */
  predicate Blocks(s: string, unit: char)
    requires !IsDigit(unit)
  {
    MatchGroup(s, unit) == Group(0, s)
  }

  lemma BlocksNonDigit(s: string, unit: char)
    requires !IsDigit(unit)
    requires s == [] || !IsDigit(s[0])
    ensures Blocks(s, unit)
  {
    LeadingDigitsExact(s, 0);
  }

  lemma MatchGroupDigits(x: string, c: char, tail: string, unit: char)
    requires !IsDigit(unit) && !IsDigit(c)
    requires x != [] && AllDigits(x)
    ensures MatchGroup(x + [c] + tail, unit)
      == if c == unit then Group(DigitsValue(x), tail) else Group(0, x + [c] + tail)
  {
    var s := x + [c] + tail;
    assert s[..|x|] == x;
    assert s[|x| + 1..] == tail;
    LeadingDigitsExact(s, |x|);
  }

  /** Replacing what follows the consumed part of a group leaves the group's
      value unchanged, provided a group that did not take part still does not. */
  lemma MatchGroupPrefix(x: string, unit: char, y: string)
    requires !IsDigit(unit)
    requires |MatchGroup(x, unit).rest| == |x| ==> Blocks(y, unit)
    ensures var g := MatchGroup(x, unit);
      MatchGroup(x[..|x| - |g.rest|] + y, unit) == Group(g.value, y)
  {
    var g := MatchGroup(x, unit);
    if |g.rest| < |x| {
      var k := |x| - |g.rest| - 1;
      assert x[..|x| - |g.rest|] == x[..k] + [unit];
      MatchGroupDigits(x[..k], unit, y, unit);
    } else {
      assert x[..|x| - |g.rest|] + y == y;
    }
  }

  /** A consumed group is digits and its unit letter, so it blocks every
      group with another unit. */
  lemma ConsumedBlocks(x: string, unit: char, y: string, other: char)
    requires !IsDigit(unit) && !IsDigit(other) && unit != other
    requires |MatchGroup(x, unit).rest| < |x|
    ensures Blocks(x[..|x| - |MatchGroup(x, unit).rest|] + y, other)
  {
    var g := MatchGroup(x, unit);
    var k := |x| - |g.rest| - 1;
    assert x[..|x| - |g.rest|] == x[..k] + [unit];
    MatchGroupDigits(x[..k], unit, y, other);
  }

  /** Text after the matched part does not change the result: the
      duration of the matched text followed by anything that does not start
      with a digit is the duration of `d` (with `t == []`: of `d` itself). */
  lemma TrailingTextIgnored(d: string, t: string)
    requires StartsWithPT(d)
    requires t == [] || !IsDigit(t[0])
    ensures DurationSeconds(MatchedText(d) + t) == DurationSeconds(d)
  {
    var x := GroupText(d[2..]);
    assert MatchedText(d) + t == "PT" + (x + t);
    DurationOfPrefixed(x + t);
    GroupTextThenTrailing(d[2..], t);
  }

  lemma DurationOfPrefixed(x: string)
    ensures DurationSeconds("PT" + x) == GroupSeconds(x)
  {
    assert ("PT" + x)[2..] == x;
  }

  lemma GroupTextThenTrailing(a: string, t: string)
    requires t == [] || !IsDigit(t[0])
    ensures GroupSeconds(GroupText(a) + t) == GroupSeconds(a)
  {
    var h := MatchGroup(a, 'H');
    var m := MatchGroup(h.rest, 'M');
    var s := MatchGroup(m.rest, 'S');
    var cH := a[..|a| - |h.rest|];
    var cM := h.rest[..|h.rest| - |m.rest|];
    var cS := m.rest[..|m.rest| - |s.rest|];
    GroupTextShape(a, t);
    TrailingS(m.rest, t);
    TrailingM(h.rest, t);
    TrailingH(a, t);
    var e := GroupText(a) + t;
    assert e == cH + (cM + (cS + t));
    SecondsFromGroups(e, Group(h.value, cM + (cS + t)), Group(m.value, cS + t), Group(s.value, t));
    SecondsFromGroups(a, h, m, s);
  }

  /** The consumed text of all three groups, followed by `t`. */
  lemma GroupTextShape(a: string, t: string)
    ensures var h := MatchGroup(a, 'H');
      var m := MatchGroup(h.rest, 'M');
      var s := MatchGroup(m.rest, 'S');
      GroupText(a) + t == a[..|a| - |h.rest|] + (h.rest[..|h.rest| - |m.rest|] + (m.rest[..|m.rest| - |s.rest|] + t))
  {
    var h := MatchGroup(a, 'H');
    var m := MatchGroup(h.rest, 'M');
    var s := MatchGroup(m.rest, 'S');
    MatchGroupSplits(a, 'H');
    MatchGroupSplits(h.rest, 'M');
    MatchGroupSplits(m.rest, 'S');
    var cH := a[..|a| - |h.rest|];
    var cM := h.rest[..|h.rest| - |m.rest|];
    var cS := m.rest[..|m.rest| - |s.rest|];
    assert Groups(a) == (h, m, s);
    assert a == cH + (cM + (cS + s.rest));
    Reassociate(cH, cM, cS, s.rest);
    Reassociate(cH, cM, cS, t);
  }

  lemma TrailingS(x: string, t: string)
    requires t == [] || !IsDigit(t[0])
    ensures var s := MatchGroup(x, 'S'); MatchGroup(x[..|x| - |s.rest|] + t, 'S') == Group(s.value, t)
  {
    BlocksNonDigit(t, 'S');
    MatchGroupPrefix(x, 'S', t);
  }

  lemma TrailingM(x: string, t: string)
    requires t == [] || !IsDigit(t[0])
    ensures var m := MatchGroup(x, 'M'); var s := MatchGroup(m.rest, 'S');
      var y := m.rest[..|m.rest| - |s.rest|] + t;
      MatchGroup(x[..|x| - |m.rest|] + y, 'M') == Group(m.value, y)
  {
    var m := MatchGroup(x, 'M');
    var s := MatchGroup(m.rest, 'S');
    var y := m.rest[..|m.rest| - |s.rest|] + t;
    BlocksNonDigit(t, 'M');
    GroupBeforeConsumed(x, 'M', m.rest, 'S', t);
  }

  lemma TrailingH(a: string, t: string)
    requires t == [] || !IsDigit(t[0])
    ensures var h := MatchGroup(a, 'H'); var m := MatchGroup(h.rest, 'M'); var s := MatchGroup(m.rest, 'S');
      var y := h.rest[..|h.rest| - |m.rest|] + (m.rest[..|m.rest| - |s.rest|] + t);
      MatchGroup(a[..|a| - |h.rest|] + y, 'H') == Group(h.value, y)
  {
    var h := MatchGroup(a, 'H');
    var m := MatchGroup(h.rest, 'M');
    var s := MatchGroup(m.rest, 'S');
    var yM := m.rest[..|m.rest| - |s.rest|] + t;
    var y := h.rest[..|h.rest| - |m.rest|] + yM;
    BlocksNonDigit(t, 'H');
    ConsumedTextBlocks(m.rest, 'S', t, 'H');
    GroupBeforeConsumed(a, 'H', h.rest, 'M', yM);
  }

  /** A group keeps its value when what follows its consumed text is replaced
      by the consumed text of a later group and a tail that blocks it. */
  lemma GroupBeforeConsumed(x: string, unit: char, x2: string, unit2: char, tail: string)
    requires !IsDigit(unit) && !IsDigit(unit2) && unit != unit2
    requires Blocks(tail, unit)
    ensures var g := MatchGroup(x, unit);
      var y := x2[..|x2| - |MatchGroup(x2, unit2).rest|] + tail;
      MatchGroup(x[..|x| - |g.rest|] + y, unit) == Group(g.value, y)
  {
    var y := x2[..|x2| - |MatchGroup(x2, unit2).rest|] + tail;
    ConsumedTextBlocks(x2, unit2, tail, unit);
    MatchGroupPrefix(x, unit, y);
  }

  /** The text a group consumes, followed by `tail`, blocks a group with
      another unit whenever `tail` alone would. */
  lemma ConsumedTextBlocks(x: string, unit: char, tail: string, other: char)
    requires !IsDigit(unit) && !IsDigit(other) && unit != other
    requires Blocks(tail, other)
    ensures Blocks(x[..|x| - |MatchGroup(x, unit).rest|] + tail, other)
  {
    var g := MatchGroup(x, unit);
    if |g.rest| < |x| {
      ConsumedBlocks(x, unit, tail, other);
    } else {
      assert x[..|x| - |g.rest|] + tail == tail;
    }
  }

  lemma Reassociate(a: string, b: string, c: string, d: string)
    ensures a + (b + (c + d)) == a + b + c + d
  {
  }

  /** A component as written: absent, or a non-empty run of digits (leading
      zeros allowed). */
  predicate DigitRun(v: Option<string>)
  {
    v.None? || (v.value != [] && AllDigits(v.value))
  }

  /** What a component counts: 0 when absent, otherwise `int` of its digits. */
  function PartValue(v: Option<string>): nat
  {
    match v
    case None => 0
    case Some(ds) => DigitsValue(ds)
  }

  /** A group written out: `<digits><unit>`, or nothing when absent. */
  function Part(v: Option<string>, unit: char): string
  {
    match v
    case None => ""
    case Some(ds) => ds + [unit]
  }

  /** `PT[nH][nM][nS]` with any subset of the components present. */
  function Canonical(h: Option<string>, m: Option<string>, s: Option<string>): string
  {
    "PT" + Part(h, 'H') + Part(m, 'M') + Part(s, 'S')
  }

  lemma PartGroup(v: Option<string>, unit: char, tail: string)
    requires !IsDigit(unit) && DigitRun(v)
    requires v.None? ==> Blocks(tail, unit)
    ensures MatchGroup(Part(v, unit) + tail, unit) == Group(PartValue(v), tail)
  {
    if v.Some? {
      MatchGroupDigits(v.value, unit, tail, unit);
    } else {
      assert Part(v, unit) + tail == tail;
    }
  }

  lemma PartBlocks(v: Option<string>, unit: char, tail: string, other: char)
    requires !IsDigit(unit) && !IsDigit(other) && unit != other && DigitRun(v)
    requires v.None? ==> Blocks(tail, other)
    ensures Blocks(Part(v, unit) + tail, other)
  {
    if v.Some? {
      MatchGroupDigits(v.value, unit, tail, other);
    } else {
      assert Part(v, unit) + tail == tail;
    }
  }

  /** Every well-formed duration token, with absent components counted as 0,
      each present one counted as `int` of its digits, and with any trailing
      text that does not start with a digit. */
  lemma {:induction false} DurationOfCanonical(h: Option<string>, m: Option<string>, s: Option<string>, rest: string)
    requires DigitRun(h) && DigitRun(m) && DigitRun(s)
    requires rest == [] || !IsDigit(rest[0])
    ensures DurationSeconds(Canonical(h, m, s) + rest) == 3600 * PartValue(h) + 60 * PartValue(m) + PartValue(s)
  {
    var tS := Part(s, 'S') + rest;
    var tM := Part(m, 'M') + tS;
    var a := Part(h, 'H') + tM;
    CanonicalSplit(h, m, s, rest);
    CanonicalGroups(h, m, s, rest);
    SecondsFromGroups(a, Group(PartValue(h), tM), Group(PartValue(m), tS), Group(PartValue(s), rest));
  }

  lemma CanonicalSplit(h: Option<string>, m: Option<string>, s: Option<string>, rest: string)
    ensures var d := Canonical(h, m, s) + rest;
      StartsWithPT(d) && d[2..] == Part(h, 'H') + (Part(m, 'M') + (Part(s, 'S') + rest))
  {
    var x, y, z := Part(h, 'H'), Part(m, 'M'), Part(s, 'S');
    Reassociate(x, y, z, rest);
    assert Canonical(h, m, s) + rest == "PT" + (x + y + z + rest);
  }

  lemma CanonicalGroups(h: Option<string>, m: Option<string>, s: Option<string>, rest: string)
    requires DigitRun(h) && DigitRun(m) && DigitRun(s)
    requires rest == [] || !IsDigit(rest[0])
    ensures var tS := Part(s, 'S') + rest;
      var tM := Part(m, 'M') + tS;
      && MatchGroup(tS, 'S') == Group(PartValue(s), rest)
      && MatchGroup(tM, 'M') == Group(PartValue(m), tS)
      && MatchGroup(Part(h, 'H') + tM, 'H') == Group(PartValue(h), tM)
  {
    var tS := Part(s, 'S') + rest;
    var tM := Part(m, 'M') + tS;
    BlocksNonDigit(rest, 'S');
    BlocksNonDigit(rest, 'M');
    BlocksNonDigit(rest, 'H');
    PartGroup(s, 'S', rest);
    PartBlocks(s, 'S', rest, 'M');
    PartBlocks(s, 'S', rest, 'H');
    PartGroup(m, 'M', tS);
    PartBlocks(m, 'M', tS, 'H');
    PartGroup(h, 'H', tM);
  }

  /** A component given as a number, written in decimal. */
  function Written(v: Option<nat>): (w: Option<string>)
    ensures DigitRun(w) && PartValue(w) == v.GetOr(0)
  {
    match v
    case None => None
    case Some(n) => DecimalValue(n); Some(Decimal(n))
  }

  /** The durations written with numbers: `PT<h>H<m>M<s>S`, any subset, lasts
      `3600h + 60m + s`. */
  lemma DurationOfNumbers(h: Option<nat>, m: Option<nat>, s: Option<nat>)
    ensures DurationSeconds(Canonical(Written(h), Written(m), Written(s)))
         == 3600 * h.GetOr(0) + 60 * m.GetOr(0) + s.GetOr(0)
  {
    var d := Canonical(Written(h), Written(m), Written(s));
    assert d + "" == d;
    DurationOfCanonical(Written(h), Written(m), Written(s), "");
  }

  /** Text that does not start with `PT` has duration 0. */
  lemma DurationWithoutPT(d: string)
    requires !StartsWithPT(d)
    ensures DurationSeconds(d) == 0
  {
  }

  /** Components out of order stop the match: only the minutes of `PT1M2H` count. */
  lemma OutOfOrderExample()
    ensures DurationSeconds("PT1M2H") == 60
  {
    var d := "PT1M2H";
    var a := d[2..];
    assert a == "1" + ['M'] + "2H";
    var h := MatchGroup(a, 'H');
    assert h == Group(0, a) by { MatchGroupDigits("1", 'M', "2H", 'H'); }
    var m := MatchGroup(h.rest, 'M');
    assert m == Group(1, "2H") by {
      MatchGroupDigits("1", 'M', "2H", 'M');
      assert DigitsValue("1") == 1;
    }
    var s := MatchGroup(m.rest, 'S');
    assert s == Group(0, "2H") by {
      assert "2H" == "2" + ['H'] + "";
      MatchGroupDigits("2", 'H', "", 'S');
    }
    SecondsFromGroups(a, h, m, s);
  }

  /** Leading zeros count for nothing: `PT05S` lasts five seconds. */
  lemma LeadingZeroExample()
    ensures DurationSeconds("PT05S") == 5
  {
    assert "PT05S" == Canonical(None, None, Some("05")) + "";
    assert DigitsValue("05") == 5 by { assert "05"[..1] == "0"; }
    DurationOfCanonical(None, None, Some("05"), "");
  }

  /** Trailing text is ignored: `PT5Sxyz` lasts five seconds. */
  lemma TrailingTextExample()
    ensures DurationSeconds("PT5Sxyz") == 5
  {
    assert "PT5Sxyz" == Canonical(None, None, Some("5")) + "xyz";
    assert DigitsValue("5") == 5;
    DurationOfCanonical(None, None, Some("5"), "xyz");
  }
}
