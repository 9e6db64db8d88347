/**
Version precedence (apps/shell/src/main/updater.ts, isNewerVersion), against the recursive
precedence of section 11 of Semantic Versioning 2.0.0.
*/
module VersionOrder {
  import opened Common

  datatype Version = Version(numbers: seq<nat>, prerelease: Option<seq<string>>)

  // ---- identifiers ----

  predicate IsDigit(c: char) {
    '0' <= c <= '9'
  }

  predicate IsNumeric(s: string) {
    s != "" && forall i :: 0 <= i < |s| ==> IsDigit(s[i])
  }

  function Value(s: string): nat
    requires forall i :: 0 <= i < |s| ==> IsDigit(s[i])
  {
    if s == "" then 0
    else
      assert IsDigit(s[|s| - 1]);
      10 * Value(s[..|s| - 1]) + (s[|s| - 1] - '0') as nat
  }

  /** Comparison of strings by code unit, as JavaScript's `<`. */
  predicate TextLess(s: string, t: string) {
    t != "" && (s == "" || s[0] < t[0] || (s[0] == t[0] && TextLess(s[1..], t[1..])))
  }

  // ---- precedence ----

  /** Unrelated is the verdict on numeric identifiers such as 1 and 01. */
  datatype Ordering = Less | Equal | Greater | Unrelated

  function Flip(o: Ordering): Ordering {
    match o
    case Less => Greater
    case Greater => Less
    case _ => o
  }

  function First(a: seq<nat>): nat {
    if a == [] then 0 else a[0]
  }

  function Rest<T>(a: seq<T>): seq<T> {
    if a == [] then [] else a[1..]
  }

  /** Missing components count as zero. */
  function CompareNumbers(a: seq<nat>, b: seq<nat>): Ordering
    decreases |a| + |b|
  {
    if a == [] && b == [] then Equal
    else if First(a) < First(b) then Less
    else if First(a) > First(b) then Greater
    else CompareNumbers(Rest(a), Rest(b))
  }

  function CompareIdentifiers(x: string, y: string): Ordering {
    if x == y then Equal
    else if IsNumeric(x) && IsNumeric(y) then
      if Value(x) < Value(y) then Less else if Value(x) > Value(y) then Greater else Unrelated
    else if IsNumeric(x) then Less
    else if IsNumeric(y) then Greater
    else if TextLess(x, y) then Less
    else Greater
  }

  function ComparePrerelease(a: seq<string>, b: seq<string>): Ordering {
    if a == [] && b == [] then Equal
    else if a == [] then Less
    else if b == [] then Greater
    else if a[0] == b[0] then ComparePrerelease(a[1..], b[1..])
    else CompareIdentifiers(a[0], b[0])
  }

  function Compare(v: Version, w: Version): Ordering {
    var core := CompareNumbers(v.numbers, w.numbers);
    if core != Equal then core
    else match (v.prerelease, w.prerelease)
         case (None, None) => Equal
         case (None, Some(_)) => Greater
         case (Some(_), None) => Less
         case (Some(a), Some(b)) => ComparePrerelease(a, b)
  }

  // ---- it is an order ----

  lemma {:induction false} TextOrderIsTotal(s: string, t: string)
    ensures TextLess(s, t) || TextLess(t, s) || s == t
    ensures !(TextLess(s, t) && TextLess(t, s))
    ensures !TextLess(s, s)
  {
    if s != "" {
      TextOrderIsTotal(s[1..], s[1..]);
      if t != "" {
        TextOrderIsTotal(s[1..], t[1..]);
        if s[0] == t[0] && s[1..] == t[1..] {
          assert s == [s[0]] + s[1..] && t == [t[0]] + t[1..];
        }
      }
    }
  }

  lemma {:induction false} TextOrderIsTransitive(s: string, t: string, u: string)
    requires TextLess(s, t) && TextLess(t, u)
    ensures TextLess(s, u)
  {
    if s != "" && s[0] == t[0] == u[0] {
      TextOrderIsTransitive(s[1..], t[1..], u[1..]);
    }
  }

  lemma {:induction false} NumbersFlip(a: seq<nat>, b: seq<nat>)
    ensures CompareNumbers(b, a) == Flip(CompareNumbers(a, b)) && CompareNumbers(a, b) != Unrelated
    decreases |a| + |b|
  {
    if a != [] || b != [] {
      NumbersFlip(Rest(a), Rest(b));
    }
  }

  lemma {:induction false} NumbersChain(a: seq<nat>, b: seq<nat>, c: seq<nat>)
    ensures CompareNumbers(a, b) == Equal ==> CompareNumbers(a, c) == CompareNumbers(b, c)
    ensures CompareNumbers(b, c) == Equal ==> CompareNumbers(a, c) == CompareNumbers(a, b)
    ensures CompareNumbers(a, b) == Less && CompareNumbers(b, c) == Less ==> CompareNumbers(a, c) == Less
    decreases |a| + |b| + |c|
  {
    if a != [] || b != [] || c != [] {
      NumbersChain(Rest(a), Rest(b), Rest(c));
    }
  }

  lemma IdentifiersFlip(x: string, y: string)
    ensures CompareIdentifiers(y, x) == Flip(CompareIdentifiers(x, y))
    ensures CompareIdentifiers(x, y) == Equal <==> x == y
  {
    TextOrderIsTotal(x, y);
  }

  lemma IdentifiersChain(x: string, y: string, z: string)
    requires CompareIdentifiers(x, y) == Less && CompareIdentifiers(y, z) == Less
    ensures CompareIdentifiers(x, z) == Less
  {
    TextOrderIsTotal(x, y);
    TextOrderIsTotal(y, z);
    if !IsNumeric(x) && !IsNumeric(y) && !IsNumeric(z) {
      TextOrderIsTransitive(x, y, z);
      TextOrderIsTotal(x, z);
    }
  }

  lemma {:induction false} PrereleaseFlip(a: seq<string>, b: seq<string>)
    ensures ComparePrerelease(b, a) == Flip(ComparePrerelease(a, b))
    ensures ComparePrerelease(a, b) == Equal <==> a == b
  {
    if a != [] && b != [] {
      if a[0] == b[0] {
        PrereleaseFlip(a[1..], b[1..]);
        assert a == [a[0]] + a[1..] && b == [b[0]] + b[1..];
      } else {
        IdentifiersFlip(a[0], b[0]);
      }
    }
  }

  lemma {:induction false} PrereleaseChain(a: seq<string>, b: seq<string>, c: seq<string>)
    requires ComparePrerelease(a, b) == Less && ComparePrerelease(b, c) == Less
    ensures ComparePrerelease(a, c) == Less
  {
    if a != [] {
      if a[0] == b[0] && b[0] == c[0] {
        PrereleaseChain(a[1..], b[1..], c[1..]);
      } else if a[0] != b[0] && b[0] != c[0] {
        IdentifiersChain(a[0], b[0], c[0]);
        IdentifiersFlip(a[0], c[0]);
      }
    }
  }

  /** Swapping the arguments swaps the verdict; so no version is newer than itself and no two
      versions are each newer than the other. */
  lemma CompareFlips(v: Version, w: Version)
    ensures Compare(w, v) == Flip(Compare(v, w))
  {
    NumbersFlip(v.numbers, w.numbers);
    if v.prerelease.Some? && w.prerelease.Some? {
      PrereleaseFlip(v.prerelease.value, w.prerelease.value);
    }
  }

  lemma CompareIsTransitive(u: Version, v: Version, w: Version)
    requires Compare(u, v) == Less && Compare(v, w) == Less
    ensures Compare(u, w) == Less
  {
    NumbersChain(u.numbers, v.numbers, w.numbers);
    if u.prerelease.Some? && v.prerelease.Some? && w.prerelease.Some?
       && CompareNumbers(u.numbers, v.numbers) == Equal && CompareNumbers(v.numbers, w.numbers) == Equal {
      PrereleaseChain(u.prerelease.value, v.prerelease.value, w.prerelease.value);
    }
  }

  // ---- when two versions tie ----

  function Component(a: seq<nat>, i: nat): nat {
    if i < |a| then a[i] else 0
  }

  /** The same core up to trailing zero components. */
  ghost predicate SameCore(a: seq<nat>, b: seq<nat>) {
    forall i: nat :: Component(a, i) == Component(b, i)
  }

  lemma {:induction false} EqualMeansSameCore(a: seq<nat>, b: seq<nat>)
    ensures CompareNumbers(a, b) == Equal <==> SameCore(a, b)
    decreases |a| + |b|
  {
    if a != [] || b != [] {
      EqualMeansSameCore(Rest(a), Rest(b));
      assert forall i: nat :: Component(Rest(a), i) == Component(a, i + 1) && Component(Rest(b), i) == Component(b, i + 1);
      assert Component(a, 0) == First(a) && Component(b, 0) == First(b);
      if SameCore(Rest(a), Rest(b)) && First(a) == First(b) {
        forall i: nat
          ensures Component(a, i) == Component(b, i)
        {
          if i > 0 {
            assert Component(Rest(a), i - 1) == Component(Rest(b), i - 1);
          }
        }
      }
    }
  }

  predicate NoLeadingZero(s: string) {
    IsNumeric(s) && |s| > 1 ==> s[0] != '0'
  }

  /** The prerelease identifiers semantic versioning admits. */
  predicate Canonical(v: Version) {
    v.prerelease.Some? ==> forall i :: 0 <= i < |v.prerelease.value| ==> NoLeadingZero(v.prerelease.value[i])
  }

  lemma {:induction false} LongNumeralsAreLarge(s: string)
    requires IsNumeric(s) && NoLeadingZero(s) && |s| > 1
    ensures Value(s) >= 10
  {
    var p := s[..|s| - 1];
    if |p| == 1 {
      assert Value(p) == 10 * Value(p[..0]) + (p[0] - '0') as nat;
    } else {
      LongNumeralsAreLarge(p);
    }
  }

  lemma {:induction false} NumeralsAreUnique(x: string, y: string)
    requires IsNumeric(x) && IsNumeric(y) && NoLeadingZero(x) && NoLeadingZero(y)
    requires Value(x) == Value(y)
    ensures x == y
  {
    var m, n := |x| - 1, |y| - 1;
    if m > 0 {
      LongNumeralsAreLarge(x);
    }
    if n > 0 {
      LongNumeralsAreLarge(y);
    }
    assert x == x[..m] + [x[m]] && y == y[..n] + [y[n]];
    assert x[m] == y[n] && Value(x[..m]) == Value(y[..n]);
    if m > 0 && n > 0 {
      NumeralsAreUnique(x[..m], y[..n]);
    } else {
      assert x[..0] == "" && y[..0] == "";
    }
  }

  lemma {:induction false} CanonicalPrereleasesRelate(a: seq<string>, b: seq<string>)
    requires forall i :: 0 <= i < |a| ==> NoLeadingZero(a[i])
    requires forall i :: 0 <= i < |b| ==> NoLeadingZero(b[i])
    ensures ComparePrerelease(a, b) != Unrelated
  {
    if a != [] && b != [] {
      if a[0] == b[0] {
        CanonicalPrereleasesRelate(a[1..], b[1..]);
      } else if IsNumeric(a[0]) && IsNumeric(b[0]) && Value(a[0]) == Value(b[0]) {
        NumeralsAreUnique(a[0], b[0]);
      }
    }
  }

  /** Versions tie only when they agree up to trailing zero components; canonical versions are
      otherwise always ordered, one way or the other. */
  lemma CanonicalVersionsAreOrdered(v: Version, w: Version)
    ensures Compare(v, w) == Equal <==> SameCore(v.numbers, w.numbers) && v.prerelease == w.prerelease
    ensures Canonical(v) && Canonical(w) ==> Compare(v, w) != Unrelated
  {
    EqualMeansSameCore(v.numbers, w.numbers);
    NumbersFlip(v.numbers, w.numbers);
    if v.prerelease.Some? && w.prerelease.Some? {
      PrereleaseFlip(v.prerelease.value, w.prerelease.value);
      if Canonical(v) && Canonical(w) {
        CanonicalPrereleasesRelate(v.prerelease.value, w.prerelease.value);
      }
    }
  }

  // ---- section 11, by the first difference ----

  /** The first component in which the cores differ is larger in the second; missing ones are zero. */
  ghost predicate CoreBelowAt(a: seq<nat>, b: seq<nat>, i: nat) {
    Component(a, i) < Component(b, i) && forall j: nat :: j < i ==> Component(a, j) == Component(b, j)
  }

  ghost predicate CoreBelow(a: seq<nat>, b: seq<nat>) {
    exists i: nat :: CoreBelowAt(a, b, i)
  }

  /** The texts agree up to n, and there the first ends or has the smaller code unit. */
  ghost predicate TextBelowAt(x: string, y: string, n: nat) {
    && n <= |x| && n < |y| && x[..n] == y[..n]
    && (n == |x| || x[n] < y[n])
  }

  /** Numeric identifiers by value, below all others; the others by code unit. */
  ghost predicate IdentifierBelow(x: string, y: string) {
    if AllDigits(x) && AllDigits(y) then Decimal(x) < Decimal(y)
    else if AllDigits(x) || AllDigits(y) then AllDigits(x)
    else exists n: nat :: TextBelowAt(x, y, n)
  }

  ghost predicate AllDigits(s: string) {
    s != "" && forall i :: 0 <= i < |s| ==> s[i] in "0123456789"
  }

  function Pow10(n: nat): nat {
    if n == 0 then 1 else 10 * Pow10(n - 1)
  }

  /** The number a numeral stands for, from its most significant digit. */
  function Decimal(s: string): nat {
    if s == "" then 0 else Digit(s[0]) * Pow10(|s| - 1) + Decimal(s[1..])
  }

  function Digit(c: char): nat {
    match c
    case '1' => 1
    case '2' => 2
    case '3' => 3
    case '4' => 4
    case '5' => 5
    case '6' => 6
    case '7' => 7
    case '8' => 8
    case '9' => 9
    case _ => 0
  }

  /** The lists agree up to n, and there the first ends or has the lower identifier. */
  ghost predicate ListBelowAt(a: seq<string>, b: seq<string>, n: nat) {
    && n <= |a| && n < |b| && a[..n] == b[..n]
    && (n == |a| || IdentifierBelow(a[n], b[n]))
  }

  /** A prerelease is below its release; two prereleases are compared identifier by identifier. */
  ghost predicate PrereleaseBelow(p: Option<seq<string>>, q: Option<seq<string>>) {
    p.Some? && (q.Some? ==> exists n: nat :: ListBelowAt(p.value, q.value, n))
  }

  lemma {:induction false} CoresByFirstDifference(a: seq<nat>, b: seq<nat>)
    ensures CompareNumbers(a, b) == Less <==> CoreBelow(a, b)
    decreases |a| + |b|
  {
    if a != [] || b != [] {
      var x, y := Rest(a), Rest(b);
      CoresByFirstDifference(x, y);
      assert forall i: nat :: Component(x, i) == Component(a, i + 1) && Component(y, i) == Component(b, i + 1);
      assert Component(a, 0) == First(a) && Component(b, 0) == First(b);
      if i: nat :| CoreBelowAt(x, y, i) && First(a) == First(b) {
        assert CoreBelowAt(a, b, i + 1) by {
          forall j: nat | j < i + 1
            ensures Component(a, j) == Component(b, j)
          {
            if j > 0 {
              assert Component(x, j - 1) == Component(y, j - 1);
            }
          }
        }
      }
      if i: nat :| CoreBelowAt(a, b, i) {
        if i > 0 {
          assert CoreBelowAt(x, y, i - 1);
        }
      }
      if First(a) < First(b) {
        assert CoreBelowAt(a, b, 0);
      }
    }
  }

  lemma {:induction false} TextsByFirstDifference(x: string, y: string)
    ensures TextLess(x, y) <==> exists n: nat :: TextBelowAt(x, y, n)
  {
    if x == "" && y != "" {
      assert TextBelowAt(x, y, 0);
    } else if x != "" && y != "" {
      TextsByFirstDifference(x[1..], y[1..]);
      if n: nat :| TextBelowAt(x[1..], y[1..], n) && x[0] == y[0] {
        assert x[..n + 1] == [x[0]] + x[1..][..n] && y[..n + 1] == [y[0]] + y[1..][..n];
        assert TextBelowAt(x, y, n + 1);
      }
      if n: nat :| TextBelowAt(x, y, n) {
        if n > 0 {
          assert x[0] == x[..n][0] == y[..n][0] == y[0];
          assert x[1..][..n - 1] == x[..n][1..] && y[1..][..n - 1] == y[..n][1..];
          assert TextBelowAt(x[1..], y[1..], n - 1);
        }
      }
      if x[0] < y[0] {
        assert TextBelowAt(x, y, 0);
      }
    }
  }

  lemma DigitsAreDigits(c: char)
    ensures IsDigit(c) <==> c in "0123456789"
    ensures IsDigit(c) ==> Digit(c) == (c - '0') as nat
  {
  }

  lemma NumeralsAreDigits(s: string)
    ensures IsNumeric(s) <==> AllDigits(s)
  {
    forall i | 0 <= i < |s|
      ensures IsDigit(s[i]) <==> s[i] in "0123456789"
    {
      DigitsAreDigits(s[i]);
    }
  }

  lemma {:induction false} DecimalSnoc(s: string, c: char)
    ensures Decimal(s + [c]) == 10 * Decimal(s) + Digit(c)
  {
    if s == "" {
      assert (s + [c])[1..] == "";
    } else {
      assert (s + [c])[1..] == s[1..] + [c];
      DecimalSnoc(s[1..], c);
      assert Digit(s[0]) * Pow10(|s|) == 10 * (Digit(s[0]) * Pow10(|s| - 1));
    }
  }

  lemma {:induction false} ValueIsDecimal(s: string)
    requires forall i :: 0 <= i < |s| ==> IsDigit(s[i])
    ensures Value(s) == Decimal(s)
  {
    if s != "" {
      var n := |s| - 1;
      ValueIsDecimal(s[..n]);
      DecimalSnoc(s[..n], s[n]);
      assert s == s[..n] + [s[n]];
      DigitsAreDigits(s[n]);
    }
  }

  lemma IdentifiersByKind(x: string, y: string)
    ensures CompareIdentifiers(x, y) == Less <==> IdentifierBelow(x, y)
  {
    NumeralsAreDigits(x);
    NumeralsAreDigits(y);
    if IsNumeric(x) {
      ValueIsDecimal(x);
    }
    if IsNumeric(y) {
      ValueIsDecimal(y);
    }
    TextsByFirstDifference(x, y);
    if x == y {
      TextOrderIsTotal(x, y);
    }
  }

  lemma SameHead(a: seq<string>, b: seq<string>, n: nat)
    requires n <= |a| && n <= |b| && a[..n] == b[..n]
    ensures n > 0 ==> a[0] == b[0]
  {
    assert n > 0 ==> a[..n][0] == a[0] && b[..n][0] == b[0];
  }

  lemma {:induction false} ListsByFirstDifference(a: seq<string>, b: seq<string>)
    ensures ComparePrerelease(a, b) == Less <==> exists n: nat :: ListBelowAt(a, b, n)
  {
    if a == [] && b != [] {
      assert ListBelowAt(a, b, 0);
    } else if a != [] && b != [] {
      IdentifiersByKind(a[0], b[0]);
      IdentifiersFlip(a[0], b[0]);
      if a[0] == b[0] {
        ListsByFirstDifference(a[1..], b[1..]);
        if n: nat :| ListBelowAt(a[1..], b[1..], n) {
          assert a[..n + 1] == [a[0]] + a[1..][..n] && b[..n + 1] == [b[0]] + b[1..][..n];
          assert ListBelowAt(a, b, n + 1);
        }
        if n: nat :| ListBelowAt(a, b, n) {
          if n > 0 {
            assert a[1..][..n - 1] == a[..n][1..] && b[1..][..n - 1] == b[..n][1..];
            assert ListBelowAt(a[1..], b[1..], n - 1);
          }
        }
      } else {
        if n: nat :| ListBelowAt(a, b, n) {
          SameHead(a, b, n);
        }
        if IdentifierBelow(a[0], b[0]) {
          assert ListBelowAt(a, b, 0);
        }
      }
    }
  }

  /** Section 11 of Semantic Versioning 2.0.0: a version is below another exactly when its core is smaller
      in the first component that differs, or the cores agree and its prerelease is below. */
  lemma PrecedenceByFirstDifference(v: Version, w: Version)
    ensures Compare(v, w) == Less
            <==> CoreBelow(v.numbers, w.numbers)
                 || (SameCore(v.numbers, w.numbers) && PrereleaseBelow(v.prerelease, w.prerelease))
  {
    CoresByFirstDifference(v.numbers, w.numbers);
    EqualMeansSameCore(v.numbers, w.numbers);
    if v.prerelease.Some? && w.prerelease.Some? {
      ListsByFirstDifference(v.prerelease.value, w.prerelease.value);
    }
    if CoreBelow(v.numbers, w.numbers) {
      var i: nat :| CoreBelowAt(v.numbers, w.numbers, i);
      assert Component(v.numbers, i) != Component(w.numbers, i);
    }
  }

  // ---- parsing ----

  predicate IsIdentifierChar(c: char) {
    IsDigit(c) || 'A' <= c <= 'Z' || 'a' <= c <= 'z' || c == '.' || c == '-'
  }

  /** The longest beginning whose characters satisfy the class. */
  function Span(s: string, class_: char -> bool): (n: nat)
    ensures n <= |s| && (forall i :: 0 <= i < n ==> class_(s[i])) && (n < |s| ==> !class_(s[n]))
  {
    if s != "" && class_(s[0]) then 1 + Span(s[1..], class_) else 0
  }

  /** The numbers of `\\d+(\\.\\d+)*` at the start, and what follows them. */
  function ParseNumbers(s: string): Option<(seq<nat>, string)>
    decreases |s|
  {
    var n := Span(s, IsDigit);
    if n == 0 then None
    else if n < |s| && s[n] == '.' then
      match ParseNumbers(s[n + 1..])
      case Some((more, rest)) => Some(([Value(s[..n])] + more, rest))
      case None => Some(([Value(s[..n])], s[n..]))
    else Some(([Value(s[..n])], s[n..]))
  }

  function SplitDots(s: string): (parts: seq<string>)
    ensures parts != []
  {
    if s == "" then [""]
    else
      var rest := SplitDots(s[1..]);
      if s[0] == '.' then [""] + rest else [[s[0]] + rest[0]] + rest[1..]
  }

  function DropV(s: string): string {
    if s != "" && (s[0] == 'v' || s[0] == 'V') then s[1..] else s
  }

  function Parse(text: string): Option<Version> {
    match ParseNumbers(DropV(TrimEnd(TrimStart(text))))
    case None => None
    case Some((numbers, rest)) =>
      var n := if rest != "" && rest[0] == '-' then Span(rest[1..], IsIdentifierChar) else 0;
      if n == 0 then Some(Version(numbers, None))
      else Some(Version(numbers, Some(SplitDots(rest[1..n + 1]))))
  }

  function JoinDots(parts: seq<string>): string {
    if parts == [] then "" else if |parts| == 1 then parts[0] else parts[0] + "." + JoinDots(parts[1..])
  }

  function Values(numerals: seq<string>): seq<nat>
    requires forall i :: 0 <= i < |numerals| ==> IsNumeric(numerals[i])
  {
    if numerals == [] then []
    else
      assert IsNumeric(numerals[0]);
      [Value(numerals[0])] + Values(numerals[1..])
  }

  lemma {:induction false} SpanOfPrefix(s: string, rest: string, class_: char -> bool)
    requires forall i :: 0 <= i < |s| ==> class_(s[i])
    requires rest != "" ==> !class_(rest[0])
    ensures Span(s + rest, class_) == |s|
  {
    if s == "" {
      assert s + rest == rest;
    } else {
      assert (s + rest)[1..] == s[1..] + rest;
      SpanOfPrefix(s[1..], rest, class_);
    }
  }

  lemma {:induction false} NumbersParse(numerals: seq<string>, rest: string)
    requires numerals != [] && forall i :: 0 <= i < |numerals| ==> IsNumeric(numerals[i])
    requires rest != "" ==> !IsDigit(rest[0]) && rest[0] != '.'
    ensures ParseNumbers(JoinDots(numerals) + rest) == Some((Values(numerals), rest))
    decreases |numerals|
  {
    hide ParseNumbers, Value;
    var head := numerals[0];
    assert IsNumeric(head);
    if |numerals| == 1 {
      NumberParses(head, rest);
      assert Values(numerals) == [Value(head)] + Values(numerals[1..]) == [Value(head)];
    } else {
      var more := JoinDots(numerals[1..]) + rest;
      NumberParses(head, "." + more);
      NumbersParse(numerals[1..], rest);
      assert JoinDots(numerals) + rest == head + ("." + more);
      assert ("." + more)[1..] == more;
    }
  }

  /** The parser takes one number off the front, and goes on after a dot. */
  lemma NumberParses(head: string, tail: string)
    requires IsNumeric(head)
    requires tail != "" ==> !IsDigit(tail[0])
    ensures ParseNumbers(head + tail)
            == if tail != "" && tail[0] == '.' && ParseNumbers(tail[1..]).Some?
               then Some(([Value(head)] + ParseNumbers(tail[1..]).value.0, ParseNumbers(tail[1..]).value.1))
               else Some(([Value(head)], tail))
  {
    var s := head + tail;
    SpanOfPrefix(head, tail, IsDigit);
    assert s[..|head|] == head && s[|head|..] == tail;
    if tail != "" {
      assert s[|head|] == tail[0] && s[|head| + 1..] == tail[1..];
    }
  }

  lemma {:induction false} DotsSplit(parts: seq<string>)
    requires parts != [] && forall i :: 0 <= i < |parts| ==> '.' !in parts[i]
    ensures SplitDots(JoinDots(parts)) == parts
    decreases |parts|, |parts[0]|
  {
    var s, head := JoinDots(parts), parts[0];
    if head != "" {
      var shorter := [head[1..]] + parts[1..];
      DotsSplit(shorter);
      assert s[1..] == JoinDots(shorter) && s[0] == head[0];
      assert [head[0]] + shorter[0] == head;
      assert parts == [head] + parts[1..];
      assert head[0] in head;
    } else if |parts| > 1 {
      DotsSplit(parts[1..]);
      assert s[1..] == JoinDots(parts[1..]);
    }
  }

  /** A dotted list of numerals is parsed into exactly its numbers. */
  lemma ReleaseParses(numerals: seq<string>)
    requires numerals != [] && forall i :: 0 <= i < |numerals| ==> IsNumeric(numerals[i])
    ensures Parse(JoinDots(numerals)) == Some(Version(Values(numerals), None))
  {
    var core := JoinDots(numerals);
    JoinedClass(numerals);
    NumbersParse(numerals, "");
    assert core + "" == core;
    NothingToTrim(core);
  }

  /** With a hyphen and a non-empty list of identifiers after it, it keeps those as they stand. */
  lemma PrereleaseParses(numerals: seq<string>, identifiers: seq<string>)
    requires numerals != [] && forall i :: 0 <= i < |numerals| ==> IsNumeric(numerals[i])
    requires identifiers != [] && identifiers != [""]
    requires forall i :: 0 <= i < |identifiers| ==> Identifier(identifiers[i])
    ensures Parse(JoinDots(numerals) + "-" + JoinDots(identifiers)) == Some(Version(Values(numerals), Some(identifiers)))
  {
    hide JoinDots, SplitDots, ParseNumbers, Values;
    var core, pre := JoinDots(numerals), JoinDots(identifiers);
    var rest := "-" + pre;
    JoinedClass(numerals);
    JoinedIdentifiers(identifiers);
    NumbersParse(numerals, rest);
    assert core + "-" + pre == core + rest;
    NothingToTrim(core + rest);
    assert rest[1..] == pre;
    SpanOfPrefix(pre, "", IsIdentifierChar);
    assert pre + "" == pre && rest[1..|pre| + 1] == pre;
    DotsSplit(identifiers);
  }

  /** The characters of `[0-9A-Za-z.-]`. */
  lemma IdentifierCharacters(c: char)
    ensures IsIdentifierChar(c) <==>
            || c in "0123456789" || c in "abcdefghijklm" || c in "nopqrstuvwxyz"
            || c in "ABCDEFGHIJKLM" || c in "NOPQRSTUVWXYZ" || c in ".-"
  {
  }

  predicate Identifier(s: string) {
    forall j :: 0 <= j < |s| ==> IsIdentifierChar(s[j]) && s[j] != '.'
  }

  lemma {:induction false} JoinedClass(numerals: seq<string>)
    requires numerals != [] && forall i :: 0 <= i < |numerals| ==> IsNumeric(numerals[i])
    ensures var s := JoinDots(numerals);
            s != "" && IsDigit(s[0]) && forall i :: 0 <= i < |s| ==> IsIdentifierChar(s[i])
  {
    if |numerals| > 1 {
      JoinedClass(numerals[1..]);
    }
    assert IsNumeric(numerals[0]) && IsDigit(numerals[0][0]);
  }

  lemma {:induction false} JoinedIdentifiers(identifiers: seq<string>)
    requires identifiers != []
    requires forall i :: 0 <= i < |identifiers| ==> Identifier(identifiers[i])
    ensures forall i :: 0 <= i < |JoinDots(identifiers)| ==> IsIdentifierChar(JoinDots(identifiers)[i])
    ensures identifiers != [""] ==> JoinDots(identifiers) != ""
  {
    assert Identifier(identifiers[0]);
    if |identifiers| > 1 {
      JoinedIdentifiers(identifiers[1..]);
    } else {
      assert identifiers == [identifiers[0]];
    }
  }

  // ---- what else a version text may hold ----

  ghost predicate Blank(s: string) {
    forall i :: 0 <= i < |s| ==> IsSpace(s[i])
  }

  lemma {:induction false} LeadingBlanks(blank: string, s: string)
    requires Blank(blank) && s != "" && !IsSpace(s[0])
    ensures TrimStart(blank + s) == s
  {
    if blank == "" {
      assert blank + s == s;
    } else {
      assert (blank + s)[1..] == blank[1..] + s;
      LeadingBlanks(blank[1..], s);
    }
  }

  lemma {:induction false} TrailingBlanks(s: string, blank: string)
    requires Blank(blank) && s != "" && !IsSpace(s[|s| - 1])
    ensures TrimEnd(s + blank) == s
  {
    if blank == "" {
      assert s + blank == s;
    } else {
      var n := |blank| - 1;
      assert (s + blank)[..|s| + n] == s + blank[..n];
      TrailingBlanks(s, blank[..n]);
    }
  }

  /** White space around a version and one v before it do not count. */
  lemma DecorationIsIgnored(before: string, v: string, text: string, after: string)
    requires Blank(before) && Blank(after) && v in {"", "v", "V"}
    requires text != "" && IsDigit(text[0]) && !IsSpace(text[|text| - 1])
    ensures Parse(before + (v + text) + after) == Parse(text)
  {
    hide ParseNumbers, TrimStart, TrimEnd, DropV, IsSpace;
    var core := v + text;
    CoreIsTrimmed(v, text);
    Trimmed(before, core, after);
    Trimmed("", text, "");
    assert "" + text + "" == text;
    SameAfterTrimming(before + core + after, text);
  }

  lemma SameAfterTrimming(s: string, t: string)
    requires DropV(TrimEnd(TrimStart(s))) == DropV(TrimEnd(TrimStart(t)))
    ensures Parse(s) == Parse(t)
  {
    hide ParseNumbers, TrimStart, TrimEnd, DropV;
  }

  lemma CoreIsTrimmed(v: string, text: string)
    requires v in {"", "v", "V"} && text != "" && IsDigit(text[0]) && !IsSpace(text[|text| - 1])
    ensures !IsSpace((v + text)[0]) && !IsSpace(text[0]) && !IsSpace((v + text)[|v + text| - 1])
    ensures DropV(v + text) == text && DropV(text) == text
  {
    var core := v + text;
    assert core[|core| - 1] == text[|text| - 1];
  }

  lemma Trimmed(before: string, s: string, after: string)
    requires Blank(before) && Blank(after) && s != "" && !IsSpace(s[0]) && !IsSpace(s[|s| - 1])
    ensures TrimEnd(TrimStart(before + s + after)) == s
  {
    LeadingBlanks(before, s + after);
    TrailingBlanks(s, after);
    assert before + s + after == before + (s + after);
    hide TrimStart, TrimEnd, IsSpace;
  }

  /** A release goes up to the first character that is no digit, dot or hyphen; what follows, build
      metadata for one, does not count. */
  lemma RestIsIgnored(numerals: seq<string>, rest: string)
    requires numerals != [] && forall i :: 0 <= i < |numerals| ==> IsNumeric(numerals[i])
    requires rest != "" && !IsDigit(rest[0]) && rest[0] != '.' && rest[0] != '-' && !IsSpace(rest[|rest| - 1])
    ensures Parse(JoinDots(numerals) + rest) == Some(Version(Values(numerals), None))
  {
    var s := JoinDots(numerals) + rest;
    JoinedClass(numerals);
    NumbersParse(numerals, rest);
    StartsWithDigit(s);
    hide ParseNumbers, TrimStart, TrimEnd, DropV, IsSpace, Values, JoinDots;
    Trimmed("", s, "");
    assert "" + s + "" == s;
  }

  lemma StartsWithDigit(s: string)
    requires s != "" && IsDigit(s[0])
    ensures !IsSpace(s[0]) && DropV(s) == s
  {
  }

  /** A text that does not start with a digit, after white space and one v, is no version, and nothing is
      newer or older than it. */
  lemma NoDigitNoVersion(text: string)
    requires var t := DropV(TrimEnd(TrimStart(text))); t == "" || !IsDigit(t[0])
    ensures Parse(text).None? && forall other :: !Newer(text, other) && !Newer(other, text)
  {
  }

  lemma NothingToTrim(s: string)
    requires s != "" && IsDigit(s[0]) && IsIdentifierChar(s[|s| - 1])
    ensures DropV(TrimEnd(TrimStart(s))) == s
  {
  }

  // ---- the code in its own form ----

  /** True when the candidate comes later in precedence than the current version. */
  predicate Newer(current: string, candidate: string) {
    var c, d := Parse(current), Parse(candidate);
    c.Some? && d.Some? && Compare(c.value, d.value) == Less
  }

  method IsNewerVersion(current: Option<string>, candidate: Option<string>) returns (newer: bool)
    ensures newer == (current.Some? && candidate.Some? && Newer(current.value, candidate.value))
  {
    if current.None? || candidate.None? || current.value == "" || candidate.value == "" {
      return false;
    }
    var c, d := Parse(current.value), Parse(candidate.value);
    if c.None? || d.None? {
      return false;
    }
    var core := CompareCores(c.value.numbers, d.value.numbers);
    if core != Equal {
      return core == Less;
    }
    if c.value.prerelease.None? && d.value.prerelease.Some? {
      return false;
    }
    if c.value.prerelease.Some? && d.value.prerelease.None? {
      return true;
    }
    if c.value.prerelease.None? {
      return false;
    }
    newer := IsNewerPrerelease(c.value.prerelease.value, d.value.prerelease.value);
  }

  function From<T>(s: seq<T>, i: nat): seq<T> {
    if i <= |s| then s[i..] else []
  }

  /** The loop over the numeric components. */
  method CompareCores(left: seq<nat>, right: seq<nat>) returns (o: Ordering)
    ensures o == CompareNumbers(left, right)
  {
    var length := if |left| > |right| then |left| else |right|;
    var index := 0;
    while index < length
      invariant 0 <= index <= length
      invariant CompareNumbers(left, right) == CompareNumbers(From(left, index), From(right, index))
    {
      var l := if index < |left| then left[index] else 0;
      var r := if index < |right| then right[index] else 0;
      if l != r {
        return if r > l then Less else Greater;
      }
      index := index + 1;
    }
    o := Equal;
  }

  method IsNewerPrerelease(current: seq<string>, candidate: seq<string>) returns (newer: bool)
    ensures newer == (ComparePrerelease(current, candidate) == Less)
  {
    var length := if |current| > |candidate| then |current| else |candidate|;
    var index := 0;
    while index < length
      invariant 0 <= index <= length
      invariant index <= |current| && index <= |candidate|
      invariant ComparePrerelease(current, candidate) == ComparePrerelease(current[index..], candidate[index..])
    {
      if index < |current| && index < |candidate| && current[index] == candidate[index] {
        index := index + 1;
        continue;
      }
      if index >= |current| {
        return true;
      }
      if index >= |candidate| {
        return false;
      }
      var left, right := current[index], candidate[index];
      var leftNumeric, rightNumeric := IsNumeric(left), IsNumeric(right);
      if leftNumeric && rightNumeric {
        return Value(right) > Value(left);
      }
      if leftNumeric != rightNumeric {
        return !rightNumeric;
      }
      TextOrderIsTotal(left, right);
      return TextLess(left, right);
    }
    newer := false;
  }

  /** The update check offers only strictly newer versions, in an order without cycles. */
  lemma NewerIsAStrictOrder(a: string, b: string, c: string)
    ensures !Newer(a, a)
    ensures !(Newer(a, b) && Newer(b, a))
    ensures Newer(a, b) && Newer(b, c) ==> Newer(a, c)
  {
    var x, y, z := Parse(a), Parse(b), Parse(c);
    if x.Some? {
      CompareFlips(x.value, x.value);
    }
    if x.Some? && y.Some? {
      CompareFlips(x.value, y.value);
    }
    if Newer(a, b) && Newer(b, c) {
      CompareIsTransitive(x.value, y.value, z.value);
    }
  }
}
