/** The parts of Python's `str` that the repository leans on: code-point order, zero-padded
    and plain decimals, and `split` with a bound on the number of cuts. */
module Text {
  import opened Wrappers

  /** Python's `a < b` on strings. */
  predicate Less(a: string, b: string) {
    if |b| == 0 then false
    else if |a| == 0 then true
    else if a[0] != b[0] then a[0] < b[0]
    else Less(a[1..], b[1..])
  }

  /** Equally long heads decide first; the tails matter only when the heads are equal. */
  lemma {:induction false} LessByHead(p: string, q: string, x: string, y: string)
    requires |p| == |q|
    ensures Less(p + x, q + y) <==> Less(p, q) || (p == q && Less(x, y))
  {
    if p == [] {
      assert p + x == x && q + y == y;
    } else {
      assert (p + x)[1..] == p[1..] + x && (q + y)[1..] == q[1..] + y;
      assert p == [p[0]] + p[1..] && q == [q[0]] + q[1..];
      LessByHead(p[1..], q[1..], x, y);
    }
  }

  lemma PrefixCons(a: string, b: string, k: nat)
    requires k < |a| && k < |b| && a[0] == b[0]
    ensures a[..k + 1] == b[..k + 1] <==> a[1..][..k] == b[1..][..k]
  {
    assert a[..k + 1] == [a[0]] + a[1..][..k] && b[..k + 1] == [b[0]] + b[1..][..k];
    assert a[..k + 1][1..] == a[1..][..k] && b[..k + 1][1..] == b[1..][..k];
  }

  /** `a` and `b` agree before `k`, where `b` goes on and `a` ends or is less. */
  predicate DiffersAt(a: string, b: string, k: nat) {
    k <= |a| && k < |b| && a[..k] == b[..k] && (k < |a| ==> a[k] < b[k])
  }

  /** The order, said without recursion: the first difference decides, and a proper prefix is less. */
  lemma {:induction false} LessIsLexicographic(a: string, b: string)
    ensures Less(a, b) <==> exists k: nat :: DiffersAt(a, b, k)
  {
    if a != [] && b != [] && a[0] == b[0] {
      LessIsLexicographic(a[1..], b[1..]);
      if k: nat :| DiffersAt(a, b, k) {
        assert k > 0;
        PrefixCons(a, b, k - 1);
        assert DiffersAt(a[1..], b[1..], k - 1);
      }
      if k: nat :| DiffersAt(a[1..], b[1..], k) {
        PrefixCons(a, b, k);
        assert DiffersAt(a, b, k + 1);
      }
    } else if a != [] && b != [] {
      forall k | 0 < k <= |a| && k < |b| ensures a[..k] != b[..k] {
        assert a[..k][0] == a[0] && b[..k][0] == b[0];
      }
      assert DiffersAt(a, b, 0) <==> a[0] < b[0] by { assert a[..0] == b[..0]; }
    } else {
      assert b != [] ==> DiffersAt(a, b, 0) by { assert a[..0] == b[..0]; }
    }
  }

  lemma {:induction false} LessIrreflexive(a: string)
    ensures !Less(a, a)
  {
    if a != [] { LessIrreflexive(a[1..]); }
  }

  // ---- Decimals -------------------------------------------------------------------------

  function Digit(d: nat): (c: char)
    requires d < 10
    ensures '0' <= c <= '9'
  {
    '0' + d as char
  }

  function Pow10(w: nat): (p: nat)
    ensures p > 0
  {
    if w == 0 then 1 else 10 * Pow10(w - 1)
  }

  /** The last `w` decimal digits of `n`, zero padded: Python's `f"{n:0wd}"` for n < 10^w. */
  function Digits(n: nat, w: nat): (s: string)
    ensures |s| == w
    ensures ':' !in s
  {
    if w == 0 then "" else Digits(n / 10, w - 1) + [Digit(n % 10)]
  }

  /** On equally wide fields the order of strings is the order of numbers. */
  lemma {:induction false} DigitsOrder(a: nat, b: nat, w: nat)
    requires a < Pow10(w) && b < Pow10(w)
    ensures Less(Digits(a, w), Digits(b, w)) <==> a < b
    ensures Digits(a, w) == Digits(b, w) <==> a == b
  {
    if w > 0 {
      DigitsOrder(a / 10, b / 10, w - 1);
      var p, q := Digits(a / 10, w - 1), Digits(b / 10, w - 1);
      var x, y := [Digit(a % 10)], [Digit(b % 10)];
      LessByHead(p, q, x, y);
      assert Less(x, y) <==> a % 10 < b % 10 by {
        assert x[1..] == [] && y[1..] == [];
      }
      assert (p + x)[..w - 1] == p && (q + y)[..w - 1] == q;
      assert (p + x)[w - 1] == x[0] && (q + y)[w - 1] == y[0];
    }
  }

  /** One field followed by the rest of a record compares lexicographically. */
  lemma FieldOrder(a: nat, b: nat, w: nat, x: string, y: string)
    requires a < Pow10(w) && b < Pow10(w)
    ensures Less(Digits(a, w) + x, Digits(b, w) + y) <==> a < b || (a == b && Less(x, y))
  {
    DigitsOrder(a, b, w);
    LessByHead(Digits(a, w), Digits(b, w), x, y);
  }

  /** A separator shared by both sides does not influence the order. */
  lemma SeparatorOrder(c: char, x: string, y: string)
    ensures Less([c] + x, [c] + y) <==> Less(x, y)
  {
  }

  function NatText(n: nat): (s: string)
    ensures |s| > 0
    ensures forall c | c in s :: '0' <= c <= '9'
  {
    if n < 10 then [Digit(n)] else NatText(n / 10) + [Digit(n % 10)]
  }

  /** Python's `str(n)` on integers. */
  function IntText(n: int): (s: string)
    ensures |s| > 0 && ':' !in s
  {
    if n < 0 then "-" + NatText(-n) else NatText(n)
  }

  /** `str(n)` is the decimal numeral of `n` without a leading zero. */
  lemma {:induction false} NatTextIsDigits(n: nat)
    ensures n < Pow10(|NatText(n)|) && NatText(n) == Digits(n, |NatText(n)|)
    ensures n > 0 ==> NatText(n)[0] != '0'
  {
    if n >= 10 {
      NatTextIsDigits(n / 10);
    } else {
      assert Digits(n / 10, 0) == "" && Digits(n, 1) == "" + [Digit(n % 10)];
    }
  }

  function ParseNat(s: string): Option<nat> {
    if |s| == 0 || !('0' <= s[|s| - 1] <= '9') then None
    else
      var d := (s[|s| - 1] - '0') as int;
      if |s| == 1 then Some(d)
      else
        var front := ParseNat(s[..|s| - 1]);
        if front.None? then None else Some(10 * front.value + d)
  }

  /** `int(s)` on optionally signed runs of ASCII digits, None standing for `ValueError`. */
  function ParseInt(s: string): Option<int> {
    if |s| > 0 && s[0] == '-' then
      var n := ParseNat(s[1..]);
      if n.None? then None else Some(0 - n.value as int)
    else
      var n := ParseNat(s);
      if n.None? then None else Some(n.value)
  }

  lemma {:induction false} ParseNatText(n: nat)
    ensures ParseNat(NatText(n)) == Some(n)
  {
    if n >= 10 {
      ParseNatText(n / 10);
      var s := NatText(n);
      assert s[..|s| - 1] == NatText(n / 10);
    }
  }

  /** Exactly the non-empty runs of digits are numbers, and leading zeros do not matter. */
  lemma {:induction false} ParseNatDefined(s: string)
    ensures ParseNat(s).Some? <==> s != "" && forall c | c in s :: '0' <= c <= '9'
  {
    if s != "" {
      var front := s[..|s| - 1];
      assert s == front + [s[|s| - 1]] && s[|s| - 1] in s;
      if front != "" { ParseNatDefined(front); }
      forall c | c in s ensures c in front || c == s[|s| - 1] {}
      forall c | c in front ensures c in s {}
    }
  }

  lemma {:induction false} ParseDigits(n: nat, w: nat)
    requires w > 0 && n < Pow10(w)
    ensures ParseNat(Digits(n, w)) == Some(n)
  {
    var s := Digits(n, w);
    assert s[..|s| - 1] == Digits(n / 10, w - 1);
    if w > 1 { ParseDigits(n / 10, w - 1); }
  }

  lemma ParseIntText(n: int)
    ensures ParseInt(IntText(n)) == Some(n)
  {
    if n < 0 {
      ParseNatText(-n);
      assert IntText(n)[1..] == NatText(-n);
    } else {
      ParseNatText(n);
      assert NatText(n)[0] in NatText(n);
    }
  }

  lemma IntTextInjective(a: int, b: int)
    requires IntText(a) == IntText(b)
    ensures a == b
  {
    ParseIntText(a);
    ParseIntText(b);
  }

  // ---- Splitting ------------------------------------------------------------------------

  /** The first position of `c`, or the length when there is none. */
  function IndexOf(s: string, c: char): (i: nat)
    ensures i <= |s|
    ensures c !in s[..i]
    ensures i < |s| ==> s[i] == c
    ensures i == |s| <==> c !in s
  {
    if |s| == 0 || s[0] == c then 0 else
      var k := IndexOf(s[1..], c);
      assert s[..1 + k] == [s[0]] + s[1..][..k];
      assert s == [s[0]] + s[1..];
      1 + k
  }

  lemma CutAt(s: string, c: char)
    requires c in s
    ensures var i := IndexOf(s, c); i < |s| && s == s[..i] + [c] + s[i + 1..]
  {
  }

  /** Python's `s.split(c, maxsplit)`. */
  function Split(s: string, c: char, maxsplit: nat): (parts: seq<string>)
    ensures 1 <= |parts| <= maxsplit + 1
    decreases maxsplit
  {
    var i := IndexOf(s, c);
    if maxsplit == 0 || i == |s| then [s] else [s[..i]] + Split(s[i + 1..], c, maxsplit - 1)
  }

  /** Cutting at a separator that the head does not contain. */
  lemma SplitHead(head: string, c: char, rest: string, maxsplit: nat)
    requires c !in head && maxsplit > 0
    ensures Split(head + [c] + rest, c, maxsplit) == [head] + Split(rest, c, maxsplit - 1)
  {
    var s := head + [c] + rest;
    var i := IndexOf(s, c);
    assert s[|head|] == c;
    assert forall k | 0 <= k < |head| :: s[k] == head[k] && s[k] != c;
    assert forall k | 0 <= k < i :: s[k] == s[..i][k] && s[k] != c;
    assert s[..i] == head && s[i + 1..] == rest;
  }
}
