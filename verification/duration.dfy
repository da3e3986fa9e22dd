/** The duration codec of the video fetch script (fetchYouTubeVideos.cjs):
    the time part of an ISO 8601 duration, `PT…H…M…S` (ISO 8601:2004,
    section 4.4.3.2), read with the unanchored pattern
    `PT(?:(\d+)H)?(?:(\d+)M)?(?:(\d+)S)?`, turned into a number of seconds
    and into a clock display `H:MM:SS` or `M:SS`. */
module Duration {
  import opened Wrappers
  import opened Text

  /** The three groups of a match, an absent group read as 0. */
  datatype Components = Components(hours: nat, minutes: nat, seconds: nat)

  /** One optional group `(?:(\d+)U)?`: its value and where matching resumes. */
  datatype Group = Group(value: nat, next: nat)

  /** End of the longest run of decimal digits starting at `i`. */
  function DigitRunEnd(s: string, i: nat): (j: nat)
    requires i <= |s|
    ensures i <= j <= |s|
    ensures AllDigits(s[i..j])
    ensures j == |s| || !IsDigit(s[j])
    decreases |s| - i
  {
    if i < |s| && IsDigit(s[i]) then
      var j := DigitRunEnd(s, i + 1);
      assert s[i..j] == [s[i]] + s[i + 1..j];
      j
    else i
  }

  /** The greedy optional group `(?:(\d+)U)?` at `i`: it is taken exactly when
      a non-empty digit run is followed by `unit` (backtracking into a shorter
      run would leave a digit, never `unit`, next); otherwise it matches
      empty and contributes 0. */
  function OptionalGroup(s: string, i: nat, unit: char): (g: Group)
    requires i <= |s|
    requires !IsDigit(unit)
    ensures i <= g.next <= |s|
    ensures g.next == i ==> g.value == 0
  {
    var j := DigitRunEnd(s, i);
    if i < j && j < |s| && s[j] == unit then Group(ParseNat(s[i..j]), j + 1)
    else Group(0, i)
  }

  /** `isoDuration.match(...)`: the pattern is not anchored, so the match
      starts at the first "PT" and, its groups being optional, always
      succeeds there; a string without "PT" does not match. */
  function Match(s: string): (m: Option<Components>)
    ensures m.None? <==> !Contains(s, "PT")
  {
    match IndexOf(s, "PT")
    case None => None
    case Some(p) =>
      var h := OptionalGroup(s, p + 2, 'H');
      var m := OptionalGroup(s, h.next, 'M');
      var sec := OptionalGroup(s, m.next, 'S');
      Some(Components(h.value, m.value, sec.value))
  }

  function TotalSeconds(c: Components): nat {
    c.hours * 3600 + c.minutes * 60 + c.seconds
  }

  /** `getDurationInSeconds`: 0 for a string that does not match. */
  function DurationInSeconds(iso: string): (r: nat)
    ensures !Contains(iso, "PT") ==> r == 0
  {
    match Match(iso)
    case None => 0
    case Some(c) => TotalSeconds(c)
  }

  /** `String(n).padStart(2, '0')`. */
  function Pad2(n: nat): (r: string)
    ensures |r| >= 2 && AllDigits(r) && ParseNat(r) == n
  {
    ParsePadded(n, 2);
    PadStart(NatToString(n), 2, '0')
  }

  /** The clock display of matched components: `H:MM:SS` when there are
      hours, `M:SS` (minutes unpadded) otherwise. */
  function Clock(c: Components): string {
    if c.hours > 0 then NatToString(c.hours) + ":" + Pad2(c.minutes) + ":" + Pad2(c.seconds)
    else NatToString(c.minutes) + ":" + Pad2(c.seconds)
  }

  /** `formatDuration`: "0:00" for a string that does not match. */
  function FormatDuration(iso: string): (r: string)
    ensures !Contains(iso, "PT") ==> r == "0:00"
  {
    match Match(iso)
    case None => "0:00"
    case Some(c) => Clock(c)
  }

  // ---------------------------------------------------------------------
  // Encoding: the designator a duration with the given groups is written as.

  function Part(n: Option<nat>, unit: char): string {
    match n
    case None => ""
    case Some(v) => NatToString(v) + [unit]
  }

  /** The time designator `PT[nH][nM][nS]` with each group present or not. */
  function Designator(h: Option<nat>, m: Option<nat>, s: Option<nat>): string {
    "PT" + Part(h, 'H') + Part(m, 'M') + Part(s, 'S')
  }

  /** A number followed by its unit letter, found at `i`, is taken by the
      group of that unit. */
  lemma {:induction false} TakeGroup(s: string, i: nat, n: nat, unit: char)
    requires !IsDigit(unit)
    requires i + |NatToString(n)| + 1 <= |s|
    requires s[i..i + |NatToString(n)| + 1] == NatToString(n) + [unit]
    ensures OptionalGroup(s, i, unit) == Group(n, i + |NatToString(n)| + 1)
  {
    var d := NatToString(n);
    assert s[i..i + |d|] == s[i..i + |d| + 1][..|d|] == d;
    RunEnd(s, i, d);
  }

  /** A number followed by another unit letter, or the end of the string,
      makes the group match empty. */
  lemma {:induction false} SkipGroup(s: string, i: nat, n: nat, u: char, unit: char)
    requires !IsDigit(unit) && !IsDigit(u) && u != unit
    requires i + |NatToString(n)| + 1 <= |s|
    requires s[i..i + |NatToString(n)| + 1] == NatToString(n) + [u]
    ensures OptionalGroup(s, i, unit) == Group(0, i)
  {
    var d := NatToString(n);
    assert s[i..i + |d|] == s[i..i + |d| + 1][..|d|] == d;
    assert s[i + |d|] == s[i..i + |d| + 1][|d|] == u;
    RunEnd(s, i, d);
  }

  lemma {:induction false} RunEnd(s: string, i: nat, d: string)
    requires AllDigits(d)
    requires i + |d| < |s| && s[i..i + |d|] == d && !IsDigit(s[i + |d|])
    ensures DigitRunEnd(s, i) == i + |d|
    decreases |d|
  {
    if d != [] {
      assert s[i] == d[0];
      assert s[i + 1..i + 1 + |d[1..]|] == d[1..];
      RunEnd(s, i + 1, d[1..]);
    }
  }

  /** Units of the groups still to come: none is a digit or `unit`. */
  predicate OtherUnits(rest: seq<(Option<nat>, char)>, unit: char) {
    forall k :: 0 <= k < |rest| ==> !IsDigit(rest[k].1) && rest[k].1 != unit
  }

  function Parts(ps: seq<(Option<nat>, char)>): string {
    if ps == [] then "" else Part(ps[0].0, ps[0].1) + Parts(ps[1..])
  }

  /** What the group of `unit` does at `i` when the text there is the
      encoding of later groups only: it matches empty. */
  lemma {:induction false} GroupAtParts(s: string, i: nat, unit: char, rest: seq<(Option<nat>, char)>)
    requires !IsDigit(unit) && OtherUnits(rest, unit)
    requires i <= |s| && s[i..] == Parts(rest)
    ensures OptionalGroup(s, i, unit) == Group(0, i)
    decreases |rest|
  {
    if rest != [] {
      var (o, u) := rest[0];
      assert Parts(rest) == Part(o, u) + Parts(rest[1..]);
      match o
      case None =>
        GroupAtParts(s, i, unit, rest[1..]);
      case Some(n) =>
        assert s[i..i + |NatToString(n)| + 1] == NatToString(n) + [u];
        SkipGroup(s, i, n, u, unit);
    }
  }

  /** The group of `unit` at `i`, when the text from `i` on is that group
      written as `Part(o, unit)` followed by groups of other units: the group
      is taken with its number if present, and matches empty if absent. */
  lemma StepGroup(s: string, i: nat, o: Option<nat>, unit: char, rest: seq<(Option<nat>, char)>)
    requires !IsDigit(unit) && OtherUnits(rest, unit)
    requires i <= |s| && s[i..] == Part(o, unit) + Parts(rest)
    ensures OptionalGroup(s, i, unit) == Group(o.GetOr(0), i + |Part(o, unit)|)
    ensures s[i + |Part(o, unit)|..] == Parts(rest)
  {
    match o
    case None =>
      GroupAtParts(s, i, unit, rest);
    case Some(n) =>
      assert s[i..i + |NatToString(n)| + 1] == NatToString(n) + [unit];
      TakeGroup(s, i, n, unit);
  }

  /** Reading back a designator gives the groups it was written with, an
      absent group as 0: the codec's round trip. */
  lemma MatchDesignator(h: Option<nat>, m: Option<nat>, sec: Option<nat>)
    ensures Match(Designator(h, m, sec))
         == Some(Components(h.GetOr(0), m.GetOr(0), sec.GetOr(0)))
  {
    DesignatorParts(h, m, sec);
    MatchParts(Designator(h, m, sec), h, m, sec);
  }

  lemma MatchParts(s: string, h: Option<nat>, m: Option<nat>, sec: Option<nat>)
    requires |s| >= 2 && s[..2] == "PT"
    requires s[2..] == Part(h, 'H') + Parts([(m, 'M'), (sec, 'S')])
    ensures Match(s) == Some(Components(h.GetOr(0), m.GetOr(0), sec.GetOr(0)))
  {
    var i1 := 2 + |Part(h, 'H')|;
    HoursGroup(s, h, m, sec);
    MinutesGroup(s, i1, m, sec);
    var i2 := i1 + |Part(m, 'M')|;
    SecondsGroup(s, i2, sec);
    MatchAtStart(s, Group(h.GetOr(0), i1), Group(m.GetOr(0), i2), Group(sec.GetOr(0), i2 + |Part(sec, 'S')|));
  }

  lemma HoursGroup(s: string, h: Option<nat>, m: Option<nat>, sec: Option<nat>)
    requires |s| >= 2
    requires s[2..] == Part(h, 'H') + Parts([(m, 'M'), (sec, 'S')])
    ensures 2 + |Part(h, 'H')| <= |s|
    ensures OptionalGroup(s, 2, 'H') == Group(h.GetOr(0), 2 + |Part(h, 'H')|)
    ensures s[2 + |Part(h, 'H')|..] == Part(m, 'M') + Parts([(sec, 'S')])
  {
    StepGroup(s, 2, h, 'H', [(m, 'M'), (sec, 'S')]);
    assert Parts([(m, 'M'), (sec, 'S')]) == Part(m, 'M') + Parts([(sec, 'S')]);
  }

  lemma MinutesGroup(s: string, i: nat, m: Option<nat>, sec: Option<nat>)
    requires i <= |s| && s[i..] == Part(m, 'M') + Parts([(sec, 'S')])
    ensures i + |Part(m, 'M')| <= |s|
    ensures OptionalGroup(s, i, 'M') == Group(m.GetOr(0), i + |Part(m, 'M')|)
    ensures s[i + |Part(m, 'M')|..] == Part(sec, 'S') + Parts([])
  {
    StepGroup(s, i, m, 'M', [(sec, 'S')]);
    assert Parts([(sec, 'S')]) == Part(sec, 'S') + Parts([]);
  }

  lemma SecondsGroup(s: string, i: nat, sec: Option<nat>)
    requires i <= |s| && s[i..] == Part(sec, 'S') + Parts([])
    ensures OptionalGroup(s, i, 'S') == Group(sec.GetOr(0), i + |Part(sec, 'S')|)
  {
    StepGroup(s, i, sec, 'S', []);
  }

  /** A string starting with "PT" matches there, with the groups read
      one after the other. */
  lemma MatchAtStart(s: string, g1: Group, g2: Group, g3: Group)
    requires |s| >= 2 && s[..2] == "PT"
    requires OptionalGroup(s, 2, 'H') == g1
    requires g1.next <= |s| && OptionalGroup(s, g1.next, 'M') == g2
    requires g2.next <= |s| && OptionalGroup(s, g2.next, 'S') == g3
    ensures Match(s) == Some(Components(g1.value, g2.value, g3.value))
  {
    assert s[0..2] == "PT";
    assert IndexOf(s, "PT") == Some(0);
  }

  lemma DesignatorParts(h: Option<nat>, m: Option<nat>, sec: Option<nat>)
    ensures Designator(h, m, sec)[2..] == Part(h, 'H') + Parts([(m, 'M'), (sec, 'S')])
    ensures Designator(h, m, sec)[..2] == "PT"
  {
    AfterPT(Part(h, 'H'), Part(m, 'M'), Part(sec, 'S'));
    PartsPair(m, sec);
  }

  lemma PartsPair(m: Option<nat>, sec: Option<nat>)
    ensures Parts([(m, 'M'), (sec, 'S')]) == Part(m, 'M') + Part(sec, 'S')
  {
    var ps: seq<(Option<nat>, char)> := [(m, 'M'), (sec, 'S')];
    assert ps[1..][1..] == [];
    assert Parts(ps[1..]) == Part(sec, 'S') + Parts(ps[1..][1..]);
  }

  lemma AfterPT(a: string, b: string, c: string)
    ensures ("PT" + a + b + c)[2..] == a + (b + c)
    ensures ("PT" + a + b + c)[..2] == "PT"
  {
  }

  /** The seconds of a designator are 3600·H + 60·M + S of its groups, an
      absent group counting 0. */
  lemma SecondsOfDesignator(h: Option<nat>, m: Option<nat>, sec: Option<nat>)
    ensures DurationInSeconds(Designator(h, m, sec))
         == 3600 * h.GetOr(0) + 60 * m.GetOr(0) + sec.GetOr(0)
  {
    MatchDesignator(h, m, sec);
  }

  // ---------------------------------------------------------------------
  // Reading a clock display back.

  /** The decimal values of the colon-separated fields of a display, if
      every field is a run of digits. */
  function ClockFields(d: string): Option<seq<nat>> {
    ReadFields(Split(d, ':'))
  }

  function ReadFields(fields: seq<string>): (r: Option<seq<nat>>)
    ensures r.Some? ==> |r.value| == |fields|
  {
    if fields == [] then Some([])
    else if !AllDigits(fields[0]) then None
    else match ReadFields(fields[1..])
      case None => None
      case Some(rest) => Some([ParseNat(fields[0])] + rest)
  }

  /** The seconds a display denotes read as `H:MM:SS` or `M:SS`. */
  function ClockSeconds(fields: seq<nat>): nat {
    if |fields| == 3 then 3600 * fields[0] + 60 * fields[1] + fields[2]
    else if |fields| == 2 then 60 * fields[0] + fields[1]
    else 0
  }

  lemma NoColonInDigits(s: string)
    requires AllDigits(s)
    ensures ':' !in s
  {
  }

  /** The display splits into hours, minutes and seconds when there are
      hours and into minutes and seconds otherwise, each read back exactly:
      zero-padding to two digits never truncates a field. */
  lemma ClockReadBack(c: Components)
    ensures ClockFields(Clock(c))
         == Some(if c.hours > 0 then [c.hours, c.minutes, c.seconds] else [c.minutes, c.seconds])
  {
    if c.hours > 0 {
      ReadThree(NatToString(c.hours), Pad2(c.minutes), Pad2(c.seconds));
    } else {
      ReadTwo(NatToString(c.minutes), Pad2(c.seconds));
    }
  }

  lemma ReadTwo(a: string, b: string)
    requires AllDigits(a) && AllDigits(b)
    ensures ClockFields(a + ":" + b) == Some([ParseNat(a), ParseNat(b)])
  {
    NoColonInDigits(a);
    NoColonInDigits(b);
    SplitNoSeparator(b, ':');
    SplitCons(a, b, ':');
    assert Split(a + ":" + b, ':') == [a, b];
    ReadOne(b);
    ReadCons(a, [b], [ParseNat(b)]);
    assert [ParseNat(a)] + [ParseNat(b)] == [ParseNat(a), ParseNat(b)];
  }

  lemma ReadOne(b: string)
    requires AllDigits(b)
    ensures ReadFields([b]) == Some([ParseNat(b)])
  {
    assert [b][1..] == [];
    assert [ParseNat(b)] + [] == [ParseNat(b)];
  }

  lemma ReadCons(a: string, rest: seq<string>, values: seq<nat>)
    requires AllDigits(a) && ReadFields(rest) == Some(values)
    ensures ReadFields([a] + rest) == Some([ParseNat(a)] + values)
  {
    assert ([a] + rest)[1..] == rest;
  }

  lemma ReadThree(a: string, b: string, c: string)
    requires AllDigits(a) && AllDigits(b) && AllDigits(c)
    ensures ClockFields(a + ":" + b + ":" + c) == Some([ParseNat(a), ParseNat(b), ParseNat(c)])
  {
    SplitThree(a, b, c);
    ReadFieldsThree(a, b, c);
  }

  lemma ReadFieldsThree(a: string, b: string, c: string)
    requires AllDigits(a) && AllDigits(b) && AllDigits(c)
    ensures ReadFields([a, b, c]) == Some([ParseNat(a), ParseNat(b), ParseNat(c)])
  {
    ReadOne(c);
    ReadCons(b, [c], [ParseNat(c)]);
    assert [b] + [c] == [b, c];
    ReadCons(a, [b, c], [ParseNat(b)] + [ParseNat(c)]);
    assert [a] + [b, c] == [a, b, c];
    assert [ParseNat(a)] + ([ParseNat(b)] + [ParseNat(c)]) == [ParseNat(a), ParseNat(b), ParseNat(c)];
  }

  lemma SplitThree(a: string, b: string, c: string)
    requires AllDigits(a) && AllDigits(b) && AllDigits(c)
    ensures Split(a + ":" + b + ":" + c, ':') == [a, b, c]
  {
    NoColonInDigits(a);
    NoColonInDigits(b);
    NoColonInDigits(c);
    SplitNoSeparator(c, ':');
    assert a + ":" + b + ":" + c == a + [':'] + (b + [':'] + c);
    SplitCons(a, b + [':'] + c, ':');
    SplitCons(b, c, ':');
  }

  lemma ZeroClock()
    ensures Clock(Components(0, 0, 0)) == "0:00"
  {
    assert NatToString(0) == "0";
    assert Pad2(0) == "00";
  }

  /** For every string, the display `formatDuration` produces reads back
      as the same number of seconds `getDurationInSeconds` computes: the two
      halves of the codec agree, including on strings that do not match. */
  lemma DisplayAgreesWithSeconds(iso: string)
    ensures ClockFields(FormatDuration(iso)).Some?
    ensures ClockSeconds(ClockFields(FormatDuration(iso)).value) == DurationInSeconds(iso)
  {
    match Match(iso)
    case None =>
      ClockReadBack(Components(0, 0, 0));
      ZeroClock();
    case Some(c) =>
      ClockReadBack(c);
  }

  /** A duration of zero seconds, whether written as such or unreadable,
      always displays as "0:00". */
  lemma ZeroSecondsDisplay(iso: string)
    requires DurationInSeconds(iso) == 0
    ensures FormatDuration(iso) == "0:00"
  {
    ZeroClock();
  }
}
