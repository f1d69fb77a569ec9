/** Searching and trimming text. */
module Text {
  import opened Wrappers

  predicate OccursAt(s: string, t: string, i: nat) {
    i + |t| <= |s| && s[i..i + |t|] == t
  }

  predicate Contains(s: string, t: string) {
    exists i: nat :: i <= |s| && OccursAt(s, t, i)
  }

  predicate EndsWith(s: string, t: string) {
    |t| <= |s| && s[|s| - |t|..] == t
  }

  /** The first occurrence at or after a position. */
  function FirstIndex(s: string, t: string, from: nat): (r: Option<nat>)
    requires from <= |s|
    ensures r.Some? ==> from <= r.value && OccursAt(s, t, r.value)
    ensures r.Some? ==> forall i: nat :: from <= i < r.value ==> !OccursAt(s, t, i)
    ensures r.None? ==> forall i: nat :: from <= i <= |s| ==> !OccursAt(s, t, i)
    decreases |s| - from
  {
    if OccursAt(s, t, from) then Some(from)
    else if from == |s| then None
    else FirstIndex(s, t, from + 1)
  }

  /** The Unicode White_Space property, which both Rust's and Go's trimming follow. */
  predicate IsSpace(c: char) {
    || '\t' <= c <= '\r' || c == ' ' || c == '\U{0085}' || c == '\U{00A0}' || c == '\U{1680}'
    || '\U{2000}' <= c <= '\U{200A}' || c == '\U{2028}' || c == '\U{2029}' || c == '\U{202F}'
    || c == '\U{205F}' || c == '\U{3000}'
  }

  function TrimLeft(s: string, drop: char -> bool): string {
    if s != [] && drop(s[0]) then TrimLeft(s[1..], drop) else s
  }

  function TrimRight(s: string, drop: char -> bool): string {
    if s != [] && drop(s[|s| - 1]) then TrimRight(s[..|s| - 1], drop) else s
  }

  function Trim(s: string, drop: char -> bool): string {
    TrimRight(TrimLeft(s, drop), drop)
  }

  predicate All(s: string, drop: char -> bool) {
    forall i :: 0 <= i < |s| ==> drop(s[i])
  }

  /** The text without what surrounds it. */
  predicate IsTrimmed(s: string, t: string, drop: char -> bool) {
    && (t != "" ==> !drop(t[0]) && !drop(t[|t| - 1]))
    && exists i: nat :: i <= |s| && IsTrimmedAt(s, t, drop, i)
  }

  predicate IsTrimmedAt(s: string, t: string, drop: char -> bool, i: nat) {
    OccursAt(s, t, i) && All(s[..i], drop) && All(s[i + |t|..], drop)
  }

  /** Trimming gives this text and no other. */
  lemma TrimIsExact(s: string, t: string, drop: char -> bool)
    ensures Trim(s, drop) == t <==> IsTrimmed(s, t, drop)
  {
    var i := TrimOccurs(s, drop);
    if IsTrimmed(s, t, drop) {
      var j: nat :| IsTrimmedAt(s, t, drop, j);
      TrimmedOnce(s, t, Trim(s, drop), drop, j, i);
    }
  }

  lemma {:induction false} TrimLeftDrops(s: string, drop: char -> bool) returns (i: nat)
    ensures i <= |s| && TrimLeft(s, drop) == s[i..] && All(s[..i], drop)
    ensures i < |s| ==> !drop(s[i])
  {
    if s != [] && drop(s[0]) {
      var k := TrimLeftDrops(s[1..], drop);
      i := k + 1;
      forall l | 0 <= l < i ensures drop(s[l]) {
        if l > 0 {
          assert s[l] == s[1..][..k][l - 1];
        }
      }
    } else {
      i := 0;
    }
  }

  lemma {:induction false} TrimRightDrops(s: string, drop: char -> bool) returns (n: nat)
    ensures n <= |s| && TrimRight(s, drop) == s[..n] && All(s[n..], drop)
    ensures n > 0 ==> !drop(s[n - 1])
  {
    if s != [] && drop(s[|s| - 1]) {
      n := TrimRightDrops(s[..|s| - 1], drop);
      forall l | n <= l < |s| ensures drop(s[l]) {
        if l < |s| - 1 {
          assert s[l] == s[..|s| - 1][n..][l - n];
        }
      }
    } else {
      n := |s|;
    }
  }

  lemma TrimOccurs(s: string, drop: char -> bool) returns (i: nat)
    ensures IsTrimmedAt(s, Trim(s, drop), drop, i)
    ensures Trim(s, drop) != "" ==> !drop(Trim(s, drop)[0]) && !drop(Trim(s, drop)[|Trim(s, drop)| - 1])
  {
    i := TrimLeftDrops(s, drop);
    var n := TrimRightDrops(s[i..], drop);
    assert s[i..][..n] == s[i..i + n] && s[i..][n..] == s[i + n..];
  }

  /** A character that is not dropped lies inside. */
  lemma KeptIsInside(s: string, t: string, drop: char -> bool, i: nat, k: nat)
    requires IsTrimmedAt(s, t, drop, i) && k < |s| && !drop(s[k])
    ensures i <= k < i + |t|
  {
    if k < i || k >= i + |t| {
      OutsideIsDropped(s, t, drop, i, k);
    }
  }

  lemma OutsideIsDropped(s: string, t: string, drop: char -> bool, i: nat, k: nat)
    requires IsTrimmedAt(s, t, drop, i) && k < |s| && (k < i || k >= i + |t|)
    ensures drop(s[k])
  {
    if k < i {
      assert s[k] == s[..i][k];
    } else {
      assert s[k] == s[i + |t|..][k - i - |t|];
    }
  }

  lemma TrimmedOnce(s: string, t: string, u: string, drop: char -> bool, i: nat, j: nat)
    requires IsTrimmedAt(s, t, drop, i) && (t != "" ==> !drop(t[0]) && !drop(t[|t| - 1]))
    requires IsTrimmedAt(s, u, drop, j) && (u != "" ==> !drop(u[0]) && !drop(u[|u| - 1]))
    ensures t == u
  {
    if t != "" {
      assert s[i] == t[0] && s[i + |t| - 1] == t[|t| - 1];
      KeptIsInside(s, u, drop, j, i);
      KeptIsInside(s, u, drop, j, i + |t| - 1);
    }
    if u != "" {
      assert s[j] == u[0] && s[j + |u| - 1] == u[|u| - 1];
      KeptIsInside(s, t, drop, i, j);
      KeptIsInside(s, t, drop, i, j + |u| - 1);
    }
  }

  predicate Distinct(tags: seq<string>) {
    forall i, j :: 0 <= i < j < |tags| ==> tags[i] != tags[j]
  }

  function LowerChar(c: char): char {
    if 'A' <= c <= 'Z' then (c as int + 32) as char else c
  }

  /** ASCII letters in lower case. */
  function Lower(s: string): (r: string)
    ensures |r| == |s|
  {
    seq(|s|, i requires 0 <= i < |s| => LowerChar(s[i]))
  }

  predicate IsDigit(c: char) {
    '0' <= c <= '9'
  }

  function Digit(d: nat): (c: char)
    requires d < 10
    ensures IsDigit(c)
  {
    ('0' as int + d) as char
  }

  /** Decimal notation. */
  function Decimal(n: nat): (r: string)
    ensures r != "" && forall i :: 0 <= i < |r| ==> IsDigit(r[i])
  {
    if n < 10 then [Digit(n)] else Decimal(n / 10) + [Digit(n % 10)]
  }

  /** Different numbers are written differently. */
  lemma {:induction false} DecimalIsInjective(m: nat, n: nat)
    requires Decimal(m) == Decimal(n)
    ensures m == n
    decreases m + n
  {
    var a, b := Decimal(m), Decimal(n);
    assert a[|a| - 1] == Digit(m % 10) && b[|b| - 1] == Digit(n % 10);
    if m >= 10 && n >= 10 {
      assert a[..|a| - 1] == Decimal(m / 10) && b[..|b| - 1] == Decimal(n / 10);
      DecimalIsInjective(m / 10, n / 10);
    }
  }
}
