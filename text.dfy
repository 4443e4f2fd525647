/**
 * The Python string operations the address-annotation scripts rely on, with
 * Python's own semantics: `str.isspace`/`str.strip`, `str.count` (which does
 * not count overlapping matches), `str.index`, `str.removesuffix`,
 * `str.lstrip(chars)`, `str.rfind`, `" ".join` and `str(int)`.
 * Strings are sequences of code points, as Python's `str` is.
 */
module Text {
  import opened Wrappers

  // ---------------------------------------------------------------------------
  // Whitespace and strip
  // ---------------------------------------------------------------------------

  /** Python's `str.isspace` for one code point. */
  predicate IsSpace(c: char) {
    var n := c as int;
    (0x09 <= n <= 0x0D) || (0x1C <= n <= 0x20) || n == 0x85 || n == 0xA0 || n == 0x1680 ||
    (0x2000 <= n <= 0x200A) || n == 0x2028 || n == 0x2029 || n == 0x202F || n == 0x205F || n == 0x3000
  }

  predicate AllSpace(s: string) {
    forall k :: 0 <= k < |s| ==> IsSpace(s[k])
  }

  /** How many whitespace characters open `s`. */
  function LeadingSpace(s: string): (n: nat)
    ensures n <= |s| && AllSpace(s[..n])
    ensures n == |s| || !IsSpace(s[n])
  {
    if |s| > 0 && IsSpace(s[0]) then
      var n := 1 + LeadingSpace(s[1..]);
      assert s[..n] == [s[0]] + s[1..][..n - 1];
      n
    else
      0
  }

  /** How many whitespace characters close `s`. */
  function TrailingSpace(s: string): (n: nat)
    ensures n <= |s| && AllSpace(s[|s| - n..])
    ensures n == |s| || !IsSpace(s[|s| - n - 1])
  {
    if |s| > 0 && IsSpace(s[|s| - 1]) then
      var n := 1 + TrailingSpace(s[..|s| - 1]);
      assert s[|s| - n..] == s[..|s| - 1][|s| - n..] + [s[|s| - 1]];
      n
    else
      0
  }

  /**
   * `s.strip()`: `s` without the whitespace that opens it and the whitespace
   * that closes it; what is left neither starts nor ends with whitespace.
   */
  function Strip(s: string): (r: string)
    ensures |r| <= |s|
    ensures r == [] || (!IsSpace(r[0]) && !IsSpace(r[|r| - 1]))
  {
    var l := s[LeadingSpace(s)..];
    l[..|l| - TrailingSpace(l)]
  }

  /** What `strip` removes is whitespace: `s` is that whitespace, `s.strip()`, and more whitespace. */
  lemma StripRemovesOnlySpace(s: string)
    ensures var r, i := Strip(s), LeadingSpace(s);
      && i + |r| <= |s| && s[i..i + |r|] == r
      && AllSpace(s[..i]) && AllSpace(s[i + |r|..])
  {
    var i := LeadingSpace(s);
    var l := s[i..];
    SlicesOfSuffix(s, i, |l| - TrailingSpace(l));
  }

  lemma SlicesOfSuffix(s: string, i: nat, m: nat)
    requires i + m <= |s|
    ensures s[i..][..m] == s[i..i + m] && s[i..][m..] == s[i + m..]
  {
  }

  // ---------------------------------------------------------------------------
  // Searching
  // ---------------------------------------------------------------------------

  /** `sub` occurs in `s` starting at position `i`. */
  predicate OccursAt(s: string, sub: string, i: int) {
    0 <= i && i + |sub| <= |s| && s[i..i + |sub|] == sub
  }

  /**
   * Python's `s.count(sub)`: the matches found scanning left to right and
   * resuming after each match, so overlapping matches are not counted; an
   * empty `sub` is counted `|s| + 1` times.
   */
  function Count(s: string, sub: string): (n: nat)
    ensures |sub| == 0 ==> n == |s| + 1
    ensures |sub| > 0 ==> n * |sub| <= |s|
  {
    if |sub| == 0 then |s| + 1 else CountFrom(s, sub, 0)
  }

  function CountFrom(s: string, sub: string, i: nat): (n: nat)
    requires |sub| > 0
    decreases |s| - i
    ensures i <= |s| ==> n * |sub| <= |s| - i
  {
    if i + |sub| > |s| then 0
    else if OccursAt(s, sub, i) then 1 + CountFrom(s, sub, i + |sub|)
    else CountFrom(s, sub, i + 1)
  }

  /** Every position at or after `i` where `sub` occurs, overlapping matches included. */
  function OccurrencesFrom(s: string, sub: string, i: nat): nat
    decreases |s| - i
  {
    if i + |sub| > |s| then 0
    else (if OccursAt(s, sub, i) then 1 else 0) + OccurrencesFrom(s, sub, i + 1)
  }

  /** How many positions of `s` start a match of `sub`, overlapping matches included. */
  function Occurrences(s: string, sub: string): nat {
    OccurrencesFrom(s, sub, 0)
  }

  /**
   * Python's `s.find(sub)` with `None` for its -1: the first position
   * where `sub` occurs. `s.index(sub)` is the same search, raising instead of
   * returning -1.
   */
  function Find(s: string, sub: string): (r: Option<nat>)
    ensures r.Some? ==> OccursAt(s, sub, r.value)
    ensures r.Some? ==> forall j :: 0 <= j < r.value ==> !OccursAt(s, sub, j)
    ensures r.None? ==> forall j :: !OccursAt(s, sub, j)
  {
    FindFrom(s, sub, 0)
  }

  function FindFrom(s: string, sub: string, i: nat): (r: Option<nat>)
    decreases |s| - i
    ensures r.Some? ==> i <= r.value && OccursAt(s, sub, r.value)
    ensures r.Some? ==> forall j :: i <= j < r.value ==> !OccursAt(s, sub, j)
    ensures r.None? ==> forall j :: i <= j ==> !OccursAt(s, sub, j)
  {
    if i + |sub| > |s| then None
    else if OccursAt(s, sub, i) then Some(i)
    else FindFrom(s, sub, i + 1)
  }

  /** `s.count(sub)` is positive exactly when `s.find(sub)` finds something. */
  lemma {:induction false} CountPositiveIffFound(s: string, sub: string)
    ensures Count(s, sub) >= 1 <==> Find(s, sub).Some?
  {
    if |sub| > 0 {
      CountFromPositiveIffFound(s, sub, 0);
    }
  }

  lemma {:induction false} CountFromPositiveIffFound(s: string, sub: string, i: nat)
    requires |sub| > 0
    decreases |s| - i
    ensures CountFrom(s, sub, i) >= 1 <==> FindFrom(s, sub, i).Some?
  {
    if i + |sub| <= |s| && !OccursAt(s, sub, i) {
      CountFromPositiveIffFound(s, sub, i + 1);
    }
  }

  /**
   * `s.count(sub) == 1` exactly when `sub` occurs and every match starts
   * inside the first one: the scan resumes after the first match and finds
   * nothing more, although a match overlapping the first may exist.
   */
  lemma CountIsOneIff(s: string, sub: string)
    requires |sub| > 0
    ensures Count(s, sub) == 1 <==>
      Find(s, sub).Some? && forall q :: OccursAt(s, sub, q) ==> q < Find(s, sub).value + |sub|
  {
    CountPositiveIffFound(s, sub);
    var r := Find(s, sub);
    if r.Some? {
      var f := r.value;
      CountFromSkips(s, sub, 0, f);
      CountFromPositiveIffFound(s, sub, f + |sub|);
    }
  }

  /** The scan from `i` counts the first match at `f` and resumes right after it. */
  lemma {:induction false} CountFromSkips(s: string, sub: string, i: nat, f: nat)
    requires |sub| > 0 && i <= f && OccursAt(s, sub, f)
    requires forall q :: i <= q < f ==> !OccursAt(s, sub, q)
    decreases f - i
    ensures CountFrom(s, sub, i) == 1 + CountFrom(s, sub, f + |sub|)
  {
    if i < f {
      CountFromSkips(s, sub, i + 1, f);
    }
  }

  lemma {:induction false} OccurrencesFromMonotone(s: string, sub: string, i: nat, j: nat)
    requires i <= j
    decreases j - i
    ensures OccurrencesFrom(s, sub, j) <= OccurrencesFrom(s, sub, i)
  {
    if i < j {
      OccurrencesFromMonotone(s, sub, i + 1, j);
    }
  }

  /** The non-overlapping count never exceeds the count of all matches. */
  lemma {:induction false} CountAtMostOccurrences(s: string, sub: string)
    ensures Count(s, sub) <= Occurrences(s, sub)
  {
    if |sub| == 0 {
      EmptyOccurrences(s, 0);
    } else {
      CountFromAtMostOccurrences(s, sub, 0);
    }
  }

  lemma {:induction false} EmptyOccurrences(s: string, i: nat)
    requires i <= |s|
    decreases |s| - i
    ensures OccurrencesFrom(s, "", i) == |s| + 1 - i
  {
    assert OccursAt(s, "", i) by { assert s[i..i] == ""; }
    if i < |s| {
      EmptyOccurrences(s, i + 1);
    }
  }

  lemma {:induction false} CountFromAtMostOccurrences(s: string, sub: string, i: nat)
    requires |sub| > 0
    decreases |s| - i
    ensures CountFrom(s, sub, i) <= OccurrencesFrom(s, sub, i)
  {
    if i + |sub| <= |s| {
      if OccursAt(s, sub, i) {
        CountFromAtMostOccurrences(s, sub, i + |sub|);
        OccurrencesFromMonotone(s, sub, i + 1, i + |sub|);
      } else {
        CountFromAtMostOccurrences(s, sub, i + 1);
      }
    }
  }

  /** A match at `p`, at or after `i`, is counted. */
  lemma {:induction false} OccurrenceCounted(s: string, sub: string, i: nat, p: nat)
    requires i <= p && OccursAt(s, sub, p)
    decreases p - i
    ensures OccurrencesFrom(s, sub, i) >= 1
  {
    if i < p {
      OccurrenceCounted(s, sub, i + 1, p);
    }
  }

  /** Two matches at `q < p`, both at or after `i`, are both counted. */
  lemma {:induction false} TwoOccurrencesCounted(s: string, sub: string, i: nat, q: nat, p: nat)
    requires i <= q < p && OccursAt(s, sub, q) && OccursAt(s, sub, p)
    decreases q - i
    ensures OccurrencesFrom(s, sub, i) >= 2
  {
    if i < q {
      TwoOccurrencesCounted(s, sub, i + 1, q, p);
    } else {
      OccurrenceCounted(s, sub, i + 1, p);
    }
  }

  /** When `sub` occurs exactly once, counting overlaps, the search finds that one match. */
  lemma UniqueOccurrenceFound(s: string, sub: string, p: nat)
    requires OccursAt(s, sub, p) && Occurrences(s, sub) == 1
    ensures Find(s, sub) == Some(p)
  {
    var r := Find(s, sub);
    assert r.Some?;
    if r.value < p {
      TwoOccurrencesCounted(s, sub, 0, r.value, p);
    }
  }

  /** `s.rfind(c)`: the last position holding `c`, or -1. */
  function RFind(s: string, c: char): (r: int)
    ensures -1 <= r < |s|
    ensures r >= 0 ==> s[r] == c
    ensures forall k :: r < k < |s| ==> s[k] != c
  {
    if |s| == 0 then -1
    else if s[|s| - 1] == c then |s| - 1
    else RFind(s[..|s| - 1], c)
  }

  // ---------------------------------------------------------------------------
  // Editing
  // ---------------------------------------------------------------------------

  predicate EndsWith(s: string, suffix: string) {
    |suffix| <= |s| && s[|s| - |suffix|..] == suffix
  }

  /** Python's `s.removesuffix(suffix)`: one copy of a non-empty `suffix` is cut off the end. */
  function RemoveSuffix(s: string, suffix: string): (r: string)
    ensures |suffix| > 0 && EndsWith(s, suffix) ==> r + suffix == s
    ensures !(|suffix| > 0 && EndsWith(s, suffix)) ==> r == s
  {
    if |suffix| > 0 && EndsWith(s, suffix) then s[..|s| - |suffix|] else s
  }

  /** Python's `s.lstrip(c)` with a one-character argument: drops every leading `c`. */
  function LStripChar(s: string, c: char): (r: string)
    ensures |r| <= |s| && r == s[|s| - |r|..]
    ensures forall k :: 0 <= k < |s| - |r| ==> s[k] == c
    ensures r == [] || r[0] != c
  {
    if |s| > 0 && s[0] == c then LStripChar(s[1..], c) else s
  }

  /** Python's `s.rstrip(c)` with a one-character argument: drops every trailing `c`. */
  function RStripChar(s: string, c: char): (r: string)
    ensures |r| <= |s| && r == s[..|r|]
    ensures forall k :: |r| <= k < |s| ==> s[k] == c
    ensures r == [] || r[|r| - 1] != c
  {
    if |s| > 0 && s[|s| - 1] == c then RStripChar(s[..|s| - 1], c) else s
  }

  // ---------------------------------------------------------------------------
  // Joining
  // ---------------------------------------------------------------------------

  /** Characters taken by `parts` when each one is followed by a single separator. */
  function Width(parts: seq<string>): nat {
    if |parts| == 0 then 0 else Width(parts[..|parts| - 1]) + |parts[|parts| - 1]| + 1
  }

  /** `" ".join(parts)`: one separating space between neighbouring parts, none at either end. */
  function Join(parts: seq<string>): (r: string)
    ensures |parts| > 0 ==> |r| + 1 == Width(parts)
  {
    if |parts| == 0 then ""
    else if |parts| == 1 then parts[0]
    else Join(parts[..|parts| - 1]) + " " + parts[|parts| - 1]
  }

  lemma JoinSnoc(parts: seq<string>, x: string)
    requires |parts| > 0
    ensures Join(parts + [x]) == Join(parts) + " " + x
  {
    assert (parts + [x])[..|parts|] == parts;
  }

  /** Joining two non-empty lists is joining each and putting one space between. */
  lemma {:induction false} JoinAppend(a: seq<string>, b: seq<string>)
    requires |a| > 0 && |b| > 0
    ensures Join(a + b) == Join(a) + " " + Join(b)
  {
    var n := |b|;
    if n == 1 {
      assert a + b == a + [b[0]];
      JoinSnoc(a, b[0]);
    } else {
      var init, x := b[..n - 1], b[n - 1];
      assert b == init + [x];
      JoinAppend(a, init);
      JoinAppendStep(a, init, x);
    }
  }

  lemma JoinAppendStep(a: seq<string>, init: seq<string>, x: string)
    requires |a| > 0 && |init| > 0
    requires Join(a + init) == Join(a) + " " + Join(init)
    ensures Join(a + (init + [x])) == Join(a) + " " + Join(init + [x])
  {
    assert a + (init + [x]) == (a + init) + [x];
    JoinSnoc(a + init, x);
    JoinSnoc(init, x);
  }

  /**
   * Part `k` of `" ".join(parts)` starts `Width(parts[..k])` characters in and
   * runs for exactly its own length.
   */
  lemma {:induction false} JoinAt(parts: seq<string>, k: nat)
    requires k < |parts|
    ensures Width(parts[..k]) + |parts[k]| <= |Join(parts)|
    ensures Join(parts)[Width(parts[..k])..Width(parts[..k]) + |parts[k]|] == parts[k]
  {
    var n := |parts|;
    if n == 1 {
      assert parts[..0] == [];
    } else {
      var init, last := parts[..n - 1], parts[n - 1];
      var j := Join(init);
      assert Join(parts) == j + " " + last;
      if k == n - 1 {
        assert init == parts[..k];
        assert (j + " " + last)[|j| + 1..] == last;
      } else {
        assert init[..k] == parts[..k] && init[k] == parts[k];
        JoinAt(init, k);
        var w := Width(init[..k]);
        SliceOfAppend(j, " " + last, w, w + |parts[k]|);
      }
    }
  }

  /** Every part of `" ".join(parts)` but the last is followed by a space. */
  lemma {:induction false} JoinSpaceAt(parts: seq<string>, k: nat)
    requires k + 1 < |parts|
    ensures Width(parts[..k]) + |parts[k]| < |Join(parts)|
    ensures Join(parts)[Width(parts[..k]) + |parts[k]|] == ' '
  {
    var n := |parts|;
    var init, last := parts[..n - 1], parts[n - 1];
    var j := Join(init);
    assert Join(parts) == j + " " + last;
    assert init[..k] == parts[..k] && init[k] == parts[k];
    if k + 1 == n - 1 {
      assert init[..k + 1] == init;
      assert Width(init) == Width(init[..k]) + |init[k]| + 1;
    } else {
      JoinSpaceAt(init, k);
    }
  }

  /** A slice inside the left operand of a concatenation is a slice of that operand. */
  lemma SliceOfAppend(a: string, b: string, i: int, j: int)
    requires 0 <= i <= j <= |a|
    ensures (a + b)[i..j] == a[i..j]
  {
  }

  // ---------------------------------------------------------------------------
  // Decimal rendering
  // ---------------------------------------------------------------------------

  function DigitChar(d: nat): (c: char)
    requires d < 10
    ensures '0' <= c <= '9'
  {
    ('0' as int + d) as char
  }

  /** `str(n)` for a non-negative integer: its decimal digits, without leading zeros. */
  function Decimal(n: nat): (r: string)
    ensures 1 <= |r| && (n >= 10 <==> |r| >= 2)
    ensures forall k :: 0 <= k < |r| ==> '0' <= r[k] <= '9'
  {
    if n < 10 then [DigitChar(n)] else Decimal(n / 10) + [DigitChar(n % 10)]
  }

  /** Different numbers have different decimal renderings. */
  lemma {:induction false} DecimalInjective(a: nat, b: nat)
    requires Decimal(a) == Decimal(b)
    ensures a == b
  {
    if a >= 10 && b >= 10 {
      var da, db := Decimal(a), Decimal(b);
      assert da[..|da| - 1] == Decimal(a / 10);
      assert db[..|db| - 1] == Decimal(b / 10);
      DecimalInjective(a / 10, b / 10);
      assert da[|da| - 1] == DigitChar(a % 10);
    }
  }
}
