/**
 The string primitives the SDK leans on: trimming, the byte order of sorted keys and decimal
 rendering, each with the few facts the other modules need.
 */
module Text {

  // The runes that unicode.IsSpace accepts.
  const WHITESPACE: set<char> := {
    '\t', '\n', '\U{000B}', '\U{000C}', '\r', ' ', '\U{0085}', '\U{00A0}', '\U{1680}',
    '\U{2000}', '\U{2001}', '\U{2002}', '\U{2003}', '\U{2004}', '\U{2005}', '\U{2006}', '\U{2007}',
    '\U{2008}', '\U{2009}', '\U{200A}', '\U{2028}', '\U{2029}', '\U{202F}', '\U{205F}', '\U{3000}'
  }

  const SLASH: set<char> := {'/'}

  function TrimLeft(s: string, cut: set<char>): string {
    if s != "" && s[0] in cut then TrimLeft(s[1..], cut) else s
  }

  function TrimRight(s: string, cut: set<char>): string {
    if s != "" && s[|s| - 1] in cut then TrimRight(s[..|s| - 1], cut) else s
  }

  /** Removes every leading and trailing character of `s` that is in `cut`. */
  function Trim(s: string, cut: set<char>): string {
    TrimRight(TrimLeft(s, cut), cut)
  }

  lemma {:induction false} TrimLeftIs(s: string, cut: set<char>)
    ensures
      var n := |s| - |TrimLeft(s, cut)|;
      0 <= n <= |s| && TrimLeft(s, cut) == s[n..] && forall i | 0 <= i < n :: s[i] in cut
  {
    if s != "" && s[0] in cut {
      TrimLeftIs(s[1..], cut);
      var n := |s| - |TrimLeft(s, cut)|;
      assert s[n..] == s[1..][n - 1..];
      assert forall i | 0 < i < n :: s[i] == s[1..][i - 1];
    }
  }

  lemma {:induction false} TrimRightIs(s: string, cut: set<char>)
    ensures
      var n := |TrimRight(s, cut)|;
      n <= |s| && TrimRight(s, cut) == s[..n] && forall i | n <= i < |s| :: s[i] in cut
  {
    if s != "" && s[|s| - 1] in cut {
      TrimRightIs(s[..|s| - 1], cut);
    }
  }

  /** What is left of a trimmed string is a part of it that the cut set neither begins nor ends; the rest is cut. */
  lemma TrimIs(s: string, cut: set<char>) returns (lo: nat, hi: nat)
    ensures lo <= hi <= |s| && Trim(s, cut) == s[lo..hi] && Trimmed(s[lo..hi], cut)
    ensures forall i | 0 <= i < lo || hi <= i < |s| :: s[i] in cut
  {
    TrimLeftIs(s, cut);
    var left := TrimLeft(s, cut);
    TrimRightIs(left, cut);
    TrimFixes(s, cut);
    lo := |s| - |left|;
    hi := lo + |TrimRight(left, cut)|;
    assert s[lo..hi] == left[..hi - lo];
    assert forall i | hi <= i < |s| :: s[i] == left[i - lo];
  }

  function TrimSpace(s: string): string {
    Trim(s, WHITESPACE)
  }

  predicate Blank(s: string) {
    TrimSpace(s) == ""
  }

  /** `s` carries no character of `cut` at either end. */
  predicate Trimmed(s: string, cut: set<char>) {
    s == "" || (s[0] !in cut && s[|s| - 1] !in cut)
  }

  lemma {:induction false} TrimLeftEnds(s: string, cut: set<char>)
    ensures TrimLeft(s, cut) == "" || TrimLeft(s, cut)[0] !in cut
    ensures TrimLeft(s, cut) != "" ==> TrimLeft(s, cut)[|TrimLeft(s, cut)| - 1] == s[|s| - 1]
    ensures |TrimLeft(s, cut)| <= |s|
  {
    if s != "" && s[0] in cut {
      TrimLeftEnds(s[1..], cut);
    }
  }

  lemma {:induction false} TrimRightEnds(s: string, cut: set<char>)
    ensures TrimRight(s, cut) == "" || TrimRight(s, cut)[|TrimRight(s, cut)| - 1] !in cut
    ensures TrimRight(s, cut) <= s
  {
    if s != "" && s[|s| - 1] in cut {
      TrimRightEnds(s[..|s| - 1], cut);
    }
  }

  /** Trimming removes exactly the edge characters, so the strings it fixes are the trimmed ones. */
  lemma TrimFixes(s: string, cut: set<char>)
    ensures Trimmed(Trim(s, cut), cut)
    ensures Trim(s, cut) == s <==> Trimmed(s, cut)
  {
    TrimLeftEnds(s, cut);
    TrimRightEnds(TrimLeft(s, cut), cut);
  }

  lemma TrimIdempotent(s: string, cut: set<char>)
    ensures Trim(Trim(s, cut), cut) == Trim(s, cut)
  {
    TrimFixes(s, cut);
    TrimFixes(Trim(s, cut), cut);
  }

  lemma TrimSkips(s: string, cut: set<char>)
    requires s != "" && s[0] in cut
    ensures Trim(s, cut) == Trim(s[1..], cut)
  {
  }

  /** A trailing character of the cut set makes no difference. */
  lemma TrimAppended(s: string, c: char, cut: set<char>)
    requires s != "" && Trimmed(s, cut) && c in cut
    ensures Trim(s + [c], cut) == s
  {
    TrimFixes(s, cut);
    assert (s + [c])[..|s|] == s;
  }

  lemma BlankEmpty()
    ensures Blank("")
  {
  }

  /** Lower case for the ASCII letters. */
  function LowerChar(c: char): char {
    if 'A' <= c <= 'Z' then ((c as int) + 32) as char else c
  }

  function Lower(s: string): (r: string)
    ensures |r| == |s| && forall i | 0 <= i < |s| :: r[i] == LowerChar(s[i])
  {
    seq(|s|, i requires 0 <= i < |s| => LowerChar(s[i]))
  }

  function UpperChar(c: char): char {
    if 'a' <= c <= 'z' then ((c as int) - 32) as char else c
  }

  function Upper(s: string): (r: string)
    ensures |r| == |s| && forall i | 0 <= i < |s| :: r[i] == UpperChar(s[i])
  {
    seq(|s|, i requires 0 <= i < |s| => UpperChar(s[i]))
  }

  // ---------------------------------------------------------------- key order

  /** The order of sort.Strings: byte order of UTF-8, which is code point order. */
  predicate Leq(a: string, b: string) {
    a == "" || (b != "" && (a[0] < b[0] || (a[0] == b[0] && Leq(a[1..], b[1..]))))
  }

  /** One text comes before another if it is the beginning of it, or smaller where they first differ. */
  lemma {:induction false} LeqIs(a: string, b: string, n: nat)
    requires n <= |a| && n <= |b| && a[..n] == b[..n]
    requires (n < |a| && n < |b|) ==> a[n] != b[n]
    ensures Leq(a, b) <==> n == |a| || (n < |b| && a[n] < b[n])
  {
    if n > 0 {
      assert a[..n][0] == b[..n][0];
      assert a[1..][..n - 1] == a[..n][1..] && b[1..][..n - 1] == b[..n][1..];
      LeqIs(a[1..], b[1..], n - 1);
    }
  }

  lemma {:induction false} LeqTotal(a: string, b: string)
    ensures Leq(a, b) || Leq(b, a)
  {
    if a != "" && b != "" && a[0] == b[0] {
      LeqTotal(a[1..], b[1..]);
    }
  }

  lemma {:induction false} LeqAntisymmetric(a: string, b: string)
    requires Leq(a, b) && Leq(b, a)
    ensures a == b
  {
    if a != "" {
      LeqAntisymmetric(a[1..], b[1..]);
      assert a == [a[0]] + a[1..] && b == [b[0]] + b[1..];
    }
  }

  lemma {:induction false} LeqTransitive(a: string, b: string, c: string)
    requires Leq(a, b) && Leq(b, c)
    ensures Leq(a, c)
  {
    if a != "" && a[0] == b[0] == c[0] {
      LeqTransitive(a[1..], b[1..], c[1..]);
    }
  }

  lemma {:induction false} LeastExists(s: set<string>) returns (least: string)
    requires s != {}
    ensures least in s && forall x | x in s :: Leq(least, x)
  {
    var k :| k in s;
    if s == {k} {
      least := k;
      LeqTotal(k, k);
    } else {
      var rest := LeastExists(s - {k});
      LeqTotal(k, rest);
      least := if Leq(k, rest) then k else rest;
      forall x | x in s ensures Leq(least, x) {
        LeqTotal(k, k);
        if x != k && least == k {
          LeqTransitive(k, rest, x);
        }
      }
    }
  }

  /** Strictly ascending in key order, hence free of repetitions. */
  predicate Ascending(keys: seq<string>) {
    forall i, j | 0 <= i < j < |keys| :: keys[i] != keys[j] && Leq(keys[i], keys[j])
  }

  function Least(s: set<string>): (least: string)
    requires s != {}
    ensures least in s && forall x | x in s :: Leq(least, x)
  {
    assert exists k :: k in s && forall x | x in s :: Leq(k, x) by {
      var least := LeastExists(s);
    }
    assert forall a, b | Leq(a, b) && Leq(b, a) :: a == b by {
      forall a, b | Leq(a, b) && Leq(b, a) ensures a == b { LeqAntisymmetric(a, b); }
    }
    var k :| k in s && forall x | x in s :: Leq(k, x);
    k
  }

  /** The keys of a Go map, collected and sorted. */
  function SortedKeys(s: set<string>): (keys: seq<string>)
    ensures forall i | 0 <= i < |keys| :: keys[i] in s
    ensures |keys| == |s|
  {
    if s == {} then [] else [Least(s)] + SortedKeys(s - {Least(s)})
  }

  lemma {:induction false} SortedKeysCover(s: set<string>, x: string)
    ensures x in SortedKeys(s) <==> x in s
  {
    if s != {} {
      SortedKeysCover(s - {Least(s)}, x);
    }
  }

  lemma {:induction false} SortedKeysAscend(s: set<string>)
    ensures Ascending(SortedKeys(s))
  {
    if s != {} {
      var least, tail := Least(s), SortedKeys(s - {Least(s)});
      SortedKeysAscend(s - {least});
      assert SortedKeys(s) == [least] + tail;
      assert forall j | 0 <= j < |tail| :: least != tail[j] && Leq(least, tail[j]);
      AscendingCons(least, tail);
    }
  }

  lemma AscendingCons(least: string, tail: seq<string>)
    requires Ascending(tail)
    requires forall j | 0 <= j < |tail| :: least != tail[j] && Leq(least, tail[j])
    ensures Ascending([least] + tail)
  {
    hide Leq;
    var keys := [least] + tail;
    assert forall i | 0 < i < |keys| :: keys[i] == tail[i - 1];
  }

  /** Every key occurs, and in ascending order. */
  lemma SortedKeysSorts(s: set<string>)
    ensures forall x :: x in SortedKeys(s) <==> x in s
    ensures Ascending(SortedKeys(s))
  {
    hide Ascending, SortedKeys;
    SortedKeysAscend(s);
    forall x ensures x in SortedKeys(s) <==> x in s { SortedKeysCover(s, x); }
  }

  // ---------------------------------------------------------------- decimals

  function Digit(n: nat): char
    requires n < 10
  {
    "0123456789"[n]
  }

  function Decimal(n: nat): string {
    if n < 10 then [Digit(n)] else Decimal(n / 10) + [Digit(n % 10)]
  }

  function DigitValue(c: char): nat
    requires '0' <= c <= '9'
  {
    (c as int) - ('0' as int)
  }

  function DecimalValue(s: string): nat
    requires forall i | 0 <= i < |s| :: '0' <= s[i] <= '9'
  {
    if s == "" then 0 else 10 * DecimalValue(s[..|s| - 1]) + DigitValue(s[|s| - 1])
  }

  lemma DecimalValueStep(init: string, d: nat)
    requires d < 10
    requires forall i | 0 <= i < |init| :: '0' <= init[i] <= '9'
    ensures '0' <= Digit(d) <= '9'
    ensures DecimalValue(init + [Digit(d)]) == 10 * DecimalValue(init) + d
  {
    assert (init + [Digit(d)])[..|init|] == init;
  }

  /** Decimal rendering is reversible and writes nothing but digits. */
  lemma {:induction false} DecimalRoundTrip(n: nat)
    ensures Decimal(n) != ""
    ensures forall i | 0 <= i < |Decimal(n)| :: '0' <= Decimal(n)[i] <= '9'
    ensures DecimalValue(Decimal(n)) == n
  {
    if n < 10 {
      assert Decimal(n)[..|Decimal(n)| - 1] == "";
    } else {
      DecimalRoundTrip(n / 10);
      DecimalValueStep(Decimal(n / 10), n % 10);
    }
  }
}
