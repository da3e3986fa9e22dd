/** The JavaScript string primitives the scripts and components rely on,
    over `string` (a sequence of UTF-16 code units is modelled as a sequence
    of characters): `trim`, `split` on one character, `join`, ASCII
    `toLowerCase`, `includes`/`indexOf`, `parseInt` on a run of decimal
    digits, `String(n)` for a natural number, `padStart` and `substring(0, k)`. */
module Text {
  import opened Wrappers
  import opened Sequences

  /** The characters `String.prototype.trim` removes: WhiteSpace and
      LineTerminator of ECMA-262 (sections 12.2 and 12.3). */
  predicate IsJsSpace(c: char) {
    || c == ' ' || c == '\t' || c == '\n' || c == '\r' || c == '\U{000B}' || c == '\U{000C}'
    || c == '\U{00A0}' || c == '\U{FEFF}' || c == '\U{1680}'
    || ('\U{2000}' <= c <= '\U{200A}')
    || c == '\U{2028}' || c == '\U{2029}' || c == '\U{202F}' || c == '\U{205F}' || c == '\U{3000}'
  }

  predicate AllSpace(s: string) {
    forall i :: 0 <= i < |s| ==> IsJsSpace(s[i])
  }

  /** Drops the leading white space: what remains is a suffix of `s` that is
      empty or starts with a non-space, and everything dropped was space. */
  function TrimStart(s: string): (r: string)
    ensures |r| <= |s| && r == s[|s| - |r|..]
    ensures AllSpace(s[..|s| - |r|])
    ensures r == [] || !IsJsSpace(r[0])
  {
    if |s| > 0 && IsJsSpace(s[0]) then
      var r := TrimStart(s[1..]);
      TrimStep(s, s[1..], r);
      r
    else s
  }

  /** Dropping one more leading space keeps `TrimStart`'s promises. */
  lemma TrimStep(s: string, t: string, r: string)
    requires |s| > 0 && IsJsSpace(s[0]) && t == s[1..]
    requires |r| <= |t| && r == t[|t| - |r|..]
    requires AllSpace(t[..|t| - |r|])
    ensures r == s[|s| - |r|..] && AllSpace(s[..|s| - |r|])
  {
    assert t[|t| - |r|..] == s[|s| - |r|..];
    SpaceBefore(s, |s| - |r|);
  }

  /** A space in front of a run of spaces leaves a run of spaces. */
  lemma SpaceBefore(s: string, n: nat)
    requires 0 < n <= |s| && IsJsSpace(s[0]) && AllSpace(s[1..][..n - 1])
    ensures AllSpace(s[..n])
  {
    forall i | 0 < i < n
      ensures IsJsSpace(s[..n][i])
    {
      assert s[..n][i] == s[1..][..n - 1][i - 1];
    }
  }

  /** Drops the trailing white space: what remains is a prefix of `s` that is
      empty or ends with a non-space, and everything dropped was space. */
  function TrimEnd(s: string): (r: string)
    ensures |r| <= |s| && r == s[..|r|]
    ensures AllSpace(s[|r|..])
    ensures r == [] || !IsJsSpace(r[|r| - 1])
  {
    if |s| > 0 && IsJsSpace(s[|s| - 1]) then
      var r := TrimEnd(s[..|s| - 1]);
      assert s[|r|..] == s[..|s| - 1][|r|..] + [s[|s| - 1]];
      r
    else s
  }

  /** `r` is the slice of `s` that starts at index `a`. */
  predicate SliceAt(r: string, s: string, a: int) {
    0 <= a && a + |r| <= |s| && r == s[a..a + |r|]
  }

  /** `s.trim()`: the result is a slice of `s` with no white space at either
      end, and it is empty exactly when `s` is all white space (the test
      `!line.trim()` of the CSV parser). */
  function Trim(s: string): (r: string)
    ensures |r| <= |s|
    ensures r == [] <==> AllSpace(s)
    ensures r != [] ==> !IsJsSpace(r[0]) && !IsJsSpace(r[|r| - 1])
    ensures SliceAt(r, s, |s| - |TrimStart(s)|)
    ensures forall i :: |s| - |TrimStart(s)| + |r| <= i < |s| ==> IsJsSpace(s[i])
  {
    TrimEmptyIffSpace(s);
    TrimSlice(s);
    TrimCutsSpace(s);
    TrimEnd(TrimStart(s))
  }

  lemma TrimEmptyIffSpace(s: string)
    ensures TrimEnd(TrimStart(s)) == [] <==> AllSpace(s)
  {
    var t := TrimStart(s);
    var r := TrimEnd(t);
    var a := |s| - |t|;
    if r == [] {
      assert t[|r|..] == t;
      SpacesAround(s, a);
    }
    if AllSpace(s) {
      SpacesAfter(s, a);
    }
  }

  /** Spaces up to `a` and from `a` on make a run of spaces. */
  lemma SpacesAround(s: string, a: nat)
    requires a <= |s| && AllSpace(s[..a]) && AllSpace(s[a..])
    ensures AllSpace(s)
  {
    forall i | 0 <= i < |s|
      ensures IsJsSpace(s[i])
    {
      if i < a {
        assert s[i] == s[..a][i];
      } else {
        assert s[i] == s[a..][i - a];
      }
    }
  }

  /** What follows position `a` of a run of spaces is a run of spaces. */
  lemma SpacesAfter(s: string, a: nat)
    requires AllSpace(s) && a <= |s|
    ensures AllSpace(s[a..])
  {
    forall i | 0 <= i < |s[a..]|
      ensures IsJsSpace(s[a..][i])
    {
      assert s[a..][i] == s[a + i];
    }
  }

  lemma TrimSlice(s: string)
    ensures SliceAt(TrimEnd(TrimStart(s)), s, |s| - |TrimStart(s)|)
  {
    var t := TrimStart(s);
    SliceOfTail(s, t, TrimEnd(t));
  }

  /** A prefix of a tail of `s` is a slice of `s`. */
  lemma SliceOfTail(s: string, t: string, r: string)
    requires |t| <= |s| && t == s[|s| - |t|..] && |r| <= |t| && r == t[..|r|]
    ensures SliceAt(r, s, |s| - |t|)
  {
    var a := |s| - |t|;
    assert t[..|r|] == s[a..a + |r|];
  }

  /** What `TrimEnd` cuts off the end of `TrimStart(s)` is the tail of `s`. */
  lemma TrimCutsSpace(s: string)
    ensures forall i :: |s| - |TrimStart(s)| + |TrimEnd(TrimStart(s))| <= i < |s| ==> IsJsSpace(s[i])
  {
    var t := TrimStart(s);
    SpacesAtTail(s, t, |TrimEnd(t)|);
  }

  /** When `t` is a tail of `s` and `t` is space from `b` on, so is `s` from
      the matching position on. */
  lemma SpacesAtTail(s: string, t: string, b: nat)
    requires |t| <= |s| && t == s[|s| - |t|..] && b <= |t| && AllSpace(t[b..])
    ensures forall i :: |s| - |t| + b <= i < |s| ==> IsJsSpace(s[i])
  {
    var a := |s| - |t|;
    forall i | a + b <= i < |s|
      ensures IsJsSpace(s[i])
    {
      assert s[i] == t[i - a];
      assert t[i - a] == t[b..][i - a - b];
    }
  }

  /** Trimming a string that already has no white space at its ends changes
      nothing (so re-trimming a trimmed cell is harmless). */
  lemma TrimNoOp(s: string)
    requires s == [] || (!IsJsSpace(s[0]) && !IsJsSpace(s[|s| - 1]))
    ensures Trim(s) == s
  {
  }

  /** Number of occurrences of `c` in `s`. */
  function Count(c: char, s: string): (n: nat)
    ensures n <= |s|
    ensures n == 0 <==> c !in s
  {
    if s == [] then 0
    else (if s[0] == c then 1 else 0) + Count(c, s[1..])
  }

  /** `s.split(sep)` for a one-character separator: one more piece than there
      are separators, and no piece contains the separator. */
  function Split(s: string, sep: char): (parts: seq<string>)
    ensures |parts| == Count(sep, s) + 1
    ensures forall i :: 0 <= i < |parts| ==> sep !in parts[i]
  {
    if s == [] then [[]]
    else
      var rest := Split(s[1..], sep);
      if s[0] == sep then [[]] + rest
      else [[s[0]] + rest[0]] + rest[1..]
  }

  /** `parts.join(sep)` for a one-character separator. */
  function Join(parts: seq<string>, sep: char): string
  {
    if |parts| == 0 then []
    else if |parts| == 1 then parts[0]
    else parts[0] + [sep] + Join(parts[1..], sep)
  }

  /** Joining the pieces of a split with the same separator gives back the
      original string: splitting loses nothing. */
  lemma {:induction false} SplitJoin(s: string, sep: char)
    ensures Join(Split(s, sep), sep) == s
  {
    if s != [] {
      var rest := Split(s[1..], sep);
      SplitJoin(s[1..], sep);
      if s[0] == sep {
        assert Split(s, sep) == [[]] + rest;
        assert ([[]] + rest)[1..] == rest;
      } else {
        var parts := Split(s, sep);
        assert parts == [[s[0]] + rest[0]] + rest[1..];
        if |rest| == 1 {
          assert Join(rest, sep) == rest[0];
        } else {
          assert parts[1..] == rest[1..];
          assert Join(rest, sep) == rest[0] + [sep] + Join(rest[1..], sep);
        }
      }
    }
  }

  /** `s.split(sep).map(x => x.trim())`: the cells of a delimited line. */
  function SplitTrim(s: string, sep: char): (cells: seq<string>)
    ensures |cells| == Count(sep, s) + 1
  {
    Map(Trim, Split(s, sep))
  }

  function LowerChar(c: char): char {
    if 'A' <= c <= 'Z' then (c as int + 32) as char else c
  }

  /** `s.toLowerCase()` restricted to ASCII letters. */
  function Lower(s: string): (r: string)
    ensures |r| == |s|
    ensures forall i :: 0 <= i < |s| ==> r[i] == LowerChar(s[i])
  {
    Map(LowerChar, s)
  }

  /** `needle` occurs in `hay` starting at index `i`. */
  predicate OccursAt(needle: string, hay: string, i: nat) {
    i + |needle| <= |hay| && hay[i..i + |needle|] == needle
  }

  /** `hay.indexOf(needle, k)`: the first occurrence at or after `k`. */
  function IndexFrom(hay: string, needle: string, k: nat): (r: Option<nat>)
    ensures r.Some? ==> k <= r.value && OccursAt(needle, hay, r.value)
    ensures r.Some? ==> forall j :: k <= j < r.value ==> !OccursAt(needle, hay, j)
    ensures r.None? ==> forall j :: k <= j ==> !OccursAt(needle, hay, j)
    decreases |hay| - k
  {
    if |hay| < k + |needle| then None
    else if hay[k..k + |needle|] == needle then Some(k)
    else IndexFrom(hay, needle, k + 1)
  }

  /** `hay.indexOf(needle)`, with -1 as `None`. */
  function IndexOf(hay: string, needle: string): Option<nat> {
    IndexFrom(hay, needle, 0)
  }

  /** `hay.includes(needle)`: true exactly when the needle occurs somewhere. */
  function Contains(hay: string, needle: string): (b: bool)
    ensures b <==> exists i: nat :: OccursAt(needle, hay, i)
  {
    IndexOf(hay, needle).Some?
  }

  predicate IsDigit(c: char) {
    '0' <= c <= '9'
  }

  predicate AllDigits(s: string) {
    forall i :: 0 <= i < |s| ==> IsDigit(s[i])
  }

  function DigitChar(d: nat): (c: char)
    requires d < 10
    ensures IsDigit(c)
  {
    (48 + d) as char
  }

  function DigitValue(c: char): (d: nat)
    requires IsDigit(c)
    ensures d < 10 && DigitChar(d) == c
  {
    c as int - 48
  }

  /** `parseInt(s, 10)` of a run of decimal digits (the empty run reads 0). */
  function ParseNat(s: string): nat
    requires AllDigits(s)
  {
    if s == [] then 0
    else 10 * ParseNat(s[..|s| - 1]) + DigitValue(s[|s| - 1])
  }

  /** `String(n)`: decimal digits without leading zeros, which `parseInt`
      reads back as `n`. */
  function NatToString(n: nat): (s: string)
    ensures |s| >= 1 && AllDigits(s)
    ensures ParseNat(s) == n
    ensures s[0] == '0' ==> n == 0
    ensures n < 10 <==> |s| == 1
  {
    if n < 10 then [DigitChar(n)]
    else
      var s := NatToString(n / 10) + [DigitChar(n % 10)];
      assert s[..|s| - 1] == NatToString(n / 10);
      s
  }

  /** Decimal rendering is injective. */
  lemma NatToStringInjective(m: nat, n: nat)
    requires NatToString(m) == NatToString(n)
    ensures m == n
  {
  }

  /** Two-digit and three-digit numbers print as two and three digits. */
  lemma NatToStringLength(n: nat)
    ensures 10 <= n < 100 ==> |NatToString(n)| == 2
    ensures 100 <= n < 1000 ==> |NatToString(n)| == 3
  {
    if 10 <= n < 1000 {
      var m := n / 10;
      LengthStep(n);
      if n >= 100 {
        assert 10 <= m < 100;
        LengthStep(m);
        assert m / 10 < 10;
      } else {
        assert m < 10;
      }
    }
  }

  lemma LengthStep(n: nat)
    requires n >= 10
    ensures |NatToString(n)| == |NatToString(n / 10)| + 1
  {
  }

  function Repeat(c: char, k: nat): (r: string)
    ensures |r| == k
    ensures forall i :: 0 <= i < k ==> r[i] == c
  {
    if k == 0 then [] else [c] + Repeat(c, k - 1)
  }

  /** `s.padStart(width, fill)` for a one-character fill: the result is at
      least `width` long. */
  function PadStart(s: string, width: nat, fill: char): (r: string)
    ensures |r| == if |s| >= width then |s| else width
  {
    if |s| >= width then s else Repeat(fill, width - |s|) + s
  }

  /** The padded string ends with `s` unchanged (padding never truncates)
      and is `fill` before that. */
  lemma PadStartShape(s: string, width: nat, fill: char)
    ensures var r := PadStart(s, width, fill);
      && r[|r| - |s|..] == s
      && forall i :: 0 <= i < |r| - |s| ==> r[i] == fill
  {
    var r := PadStart(s, width, fill);
    if |s| < width {
      assert r == Repeat(fill, width - |s|) + s;
    }
  }

  /** Leading zeros do not change the value `parseInt` reads. */
  lemma {:induction false} ParseNatLeadingZeros(z: string, s: string)
    requires forall i :: 0 <= i < |z| ==> z[i] == '0'
    requires AllDigits(s)
    ensures AllDigits(z + s) && ParseNat(z + s) == ParseNat(s)
  {
    if s == [] {
      assert z + s == z;
      ZerosParseToZero(z);
    } else {
      var t := s[..|s| - 1];
      ParseNatLeadingZeros(z, t);
      assert (z + s)[..|z + s| - 1] == z + t;
    }
  }

  lemma {:induction false} ZerosParseToZero(z: string)
    requires forall i :: 0 <= i < |z| ==> z[i] == '0'
    ensures AllDigits(z) && ParseNat(z) == 0
  {
    if z != [] {
      ZerosParseToZero(z[..|z| - 1]);
    }
  }

  /** A number zero-padded to any width still reads back as itself. */
  lemma ParsePadded(n: nat, width: nat)
    ensures AllDigits(PadStart(NatToString(n), width, '0'))
    ensures ParseNat(PadStart(NatToString(n), width, '0')) == n
  {
    var s := NatToString(n);
    if |s| < width {
      ParseNatLeadingZeros(Repeat('0', width - |s|), s);
    }
  }

  /** Splitting undoes joining when no piece holds the separator. */
  lemma {:induction false} JoinSplit(parts: seq<string>, sep: char)
    requires parts != []
    requires forall i :: 0 <= i < |parts| ==> sep !in parts[i]
    ensures Split(Join(parts, sep), sep) == parts
  {
    if |parts| == 1 {
      SplitNoSeparator(parts[0], sep);
    } else {
      JoinSplit(parts[1..], sep);
      SplitCons(parts[0], Join(parts[1..], sep), sep);
      assert [parts[0]] + parts[1..] == parts;
    }
  }

  /** The two pieces around the only separator. */
  lemma JoinSplitTwo(a: string, b: string, sep: char)
    requires sep !in a && sep !in b
    ensures Split(a + [sep] + b, sep) == [a, b]
  {
    SplitCons(a, b, sep);
    SplitNoSeparator(b, sep);
  }

  /** A string without the separator splits into itself alone. */
  lemma {:induction false} SplitNoSeparator(s: string, sep: char)
    requires sep !in s
    ensures Split(s, sep) == [s]
  {
    if s != [] {
      SplitNoSeparator(s[1..], sep);
      assert [s[0]] + s[1..] == s;
    }
  }

  /** Splitting at a first separator peels off the piece before it. */
  lemma {:induction false} SplitCons(a: string, b: string, sep: char)
    requires sep !in a
    ensures Split(a + [sep] + b, sep) == [a] + Split(b, sep)
  {
    var s := a + [sep] + b;
    if a == [] {
      assert s[1..] == b;
    } else {
      assert s[1..] == a[1..] + [sep] + b;
      SplitCons(a[1..], b, sep);
      var rest := Split(s[1..], sep);
      assert rest[0] == a[1..] && rest[1..] == Split(b, sep);
      assert s[0] == a[0] != sep;
      assert [s[0]] + rest[0] == a;
    }
  }

  /** `s.substring(0, k)`: the first `k` characters, or all of `s`. */
  function Prefix(s: string, k: nat): (r: string)
    ensures |r| == if |s| < k then |s| else k
    ensures r <= s
  {
    if |s| < k then s else s[..k]
  }
}
