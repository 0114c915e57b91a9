// Row paths as GTK prints them: decimal child indices joined with ':'.
// The store compares these strings with raw strncmp prefix tests; the lemmas
// below say what such a test means for the numbers behind the strings.
module PathText {

  type Path = seq<nat>

  function Digit(d: nat): char
    requires d < 10
  {
    '0' + (d as char)
  }

  function Decimal(n: nat): string {
    if n < 10 then [Digit(n)] else Decimal(n / 10) + [Digit(n % 10)]
  }

  // The string form of a path; the empty path (no row) prints as "".
  function Text(p: Path): string {
    if |p| == 0 then ""
    else if |p| == 1 then Decimal(p[0])
    else Decimal(p[0]) + ":" + Text(p[1..])
  }

  // The number that a string of digits stands for.
  function Value(s: string): int {
    if s == "" then 0 else 10 * Value(s[..|s| - 1]) + (s[|s| - 1] as int - '0' as int)
  }

  lemma {:induction false} DecimalValue(n: nat)
    ensures Value(Decimal(n)) == n && (n > 0 ==> Decimal(n)[0] != '0')
  {
    if n >= 10 {
      DecimalValue(n / 10);
      assert Decimal(n)[..|Decimal(n)| - 1] == Decimal(n / 10);
    } else {
      assert [Digit(n)][..0] == "";
    }
  }

  // A row prints as its parent does, with ':' and its own number behind.
  lemma {:induction false} TextSnoc(p: Path, i: nat)
    ensures Text([i]) == Decimal(i)
    ensures p != [] ==> Text(p + [i]) == Text(p) + ":" + Decimal(i)
  {
    if |p| == 1 {
      assert (p + [i])[1..] == [i];
    } else if |p| > 1 {
      assert (p + [i])[1..] == p[1..] + [i];
      TextSnoc(p[1..], i);
      var d := Decimal(p[0]) + ":";
      assert d + (Text(p[1..]) + ":" + Decimal(i)) == (d + Text(p[1..])) + ":" + Decimal(i);
    }
  }

  // strncmp(sid, str, strlen(sid)) == 0
  predicate PrefixOf(sid: string, str: string) {
    |sid| <= |str| && str[..|sid|] == sid
  }

  lemma {:induction false} DecimalDigits(n: nat, i: nat)
    requires i < |Decimal(n)|
    ensures '0' <= Decimal(n)[i] <= '9'
  {
    if n >= 10 && i < |Decimal(n / 10)| {
      DecimalDigits(n / 10, i);
    }
  }

  lemma {:induction false} DecimalNonempty(n: nat)
    ensures |Decimal(n)| > 0
  {
  }

  // A raw string-prefix match between two decimals never picks a larger
  // number: "1" matches "10", but "10" does not match "1".
  lemma {:induction false} DecimalPrefix(a: nat, b: nat)
    requires PrefixOf(Decimal(a), Decimal(b))
    ensures a <= b
    ensures |Decimal(a)| == |Decimal(b)| ==> a == b
  {
    var da, db := Decimal(a), Decimal(b);
    if |da| == |db| {
      assert db[..|da|] == db;
      DecimalInjective(a, b);
    } else {
      DecimalNonempty(a);
      assert b >= 10;
      var dc := Decimal(b / 10);
      assert db == dc + [Digit(b % 10)];
      assert db[..|da|] == dc[..|da|];
      DecimalPrefix(a, b / 10);
    }
  }

  lemma {:induction false} DecimalInjective(a: nat, b: nat)
    requires Decimal(a) == Decimal(b)
    ensures a == b
  {
    var da, db := Decimal(a), Decimal(b);
    assert da[|da| - 1] == db[|db| - 1];
    assert a % 10 == b % 10;
    DecimalNonempty(a / 10);
    DecimalNonempty(b / 10);
    if a >= 10 {
      assert b >= 10;
      assert da[..|da| - 1] == Decimal(a / 10);
      assert db[..|db| - 1] == Decimal(b / 10);
      DecimalInjective(a / 10, b / 10);
    }
  }

  // Exact comparison of a head component followed by the rest of a path.
  lemma {:induction false} TextHead(p: Path, q: Path)
    requires |p| > 0 && |q| > 0
    requires PrefixOf(Text(p), Text(q))
    ensures PrefixOf(Decimal(p[0]), Decimal(q[0]))
    ensures |p| > 1 ==> p[0] == q[0] && |q| > 1 && PrefixOf(Text(p[1..]), Text(q[1..]))
  {
    var a, b := Decimal(p[0]), Decimal(q[0]);
    var tp, tq := Text(p), Text(q);
    assert tp[..|a|] == a;
    assert tq[..|b|] == b;
    if |a| > |b| {
      DecimalDigits(p[0], |b|);
      assert false;
    }
    assert b[..|a|] == tq[..|a|] == tp[..|a|];
    if |p| > 1 {
      assert tp[|a|] == ':' == tq[|a|];
      if |a| < |b| {
        DecimalDigits(q[0], |a|);
        assert false;
      }
      DecimalPrefix(p[0], q[0]);
      assert |q| > 1;
      assert tp[|a| + 1..] == Text(p[1..]);
      assert tq[|a| + 1..] == Text(q[1..]);
      assert tq[|a| + 1..|tp|] == tp[|a| + 1..];
      assert tq[|a| + 1..][..|Text(p[1..])|] == Text(p[1..]);
    }
  }

  // What a prefix test between the strings of two rows says about their
  // paths: all components but the last agree, and the last is no larger.
  lemma {:induction false} PrefixMeaning(p: Path, q: Path)
    requires |p| > 0 && |q| > 0
    requires PrefixOf(Text(p), Text(q))
    ensures |p| <= |q|
    ensures p[..|p| - 1] == q[..|p| - 1]
    ensures p[|p| - 1] <= q[|p| - 1]
    ensures |Decimal(p[|p| - 1])| == |Decimal(q[|p| - 1])| ==> p == q[..|p|]
  {
    TextHead(p, q);
    if |p| == 1 {
      DecimalPrefix(p[0], q[0]);
    } else {
      PrefixMeaning(p[1..], q[1..]);
      assert p == [p[0]] + p[1..] && q == [q[0]] + q[1..];
      assert p[..|p| - 1] == [p[0]] + p[1..][..|p| - 2];
      assert q[..|p| - 1] == [q[0]] + q[1..][..|p| - 2];
    }
  }

  // Conversely, the string of an ancestor row is a prefix of the string of
  // every row below it.
  lemma {:induction false} AncestorPrefix(p: Path, q: Path)
    requires |p| > 0 && p <= q
    ensures PrefixOf(Text(p), Text(q))
    ensures |p| < |q| ==> |Text(p)| < |Text(q)|
  {
    if |p| == 1 {
      assert |q| > 1 ==> Text(q) == Decimal(p[0]) + (":" + Text(q[1..]));
    } else {
      AncestorPrefix(p[1..], q[1..]);
      var d := Decimal(p[0]) + ":";
      assert Text(p) == d + Text(p[1..]);
      assert Text(q) == d + Text(q[1..]);
      assert Text(q)[..|Text(p)|] == d + Text(q[1..])[..|Text(p[1..])|];
    }
  }

  lemma TextInjective(p: Path, q: Path)
    requires |p| > 0 && |q| > 0 && Text(p) == Text(q)
    ensures p == q
  {
    assert PrefixOf(Text(p), Text(q)) && PrefixOf(Text(q), Text(p));
    PrefixMeaning(p, q);
    PrefixMeaning(q, p);
  }

  // gint indices never overflow the 64-byte sid buffer: a row of the deepest
  // level prints in at most 43 characters.
  lemma {:induction false} DecimalLength(n: nat, digits: nat)
    requires digits > 0 && n < Pow10(digits)
    ensures |Decimal(n)| <= digits
  {
    if n >= 10 {
      assert digits > 1;
      DecimalLength(n / 10, digits - 1);
    }
  }

  function Pow10(k: nat): nat {
    if k == 0 then 1 else 10 * Pow10(k - 1)
  }

  lemma {:induction false} TextLength(p: Path)
    requires |p| > 0
    requires forall i :: 0 <= i < |p| ==> p[i] < 0x8000_0000
    ensures |Text(p)| <= 11 * |p| - 1
  {
    assert Pow10(10) == 10_000_000_000 by {
      assert Pow10(2) == 100; assert Pow10(4) == 10_000; assert Pow10(6) == 1_000_000;
      assert Pow10(8) == 100_000_000;
    }
    DecimalLength(p[0], 10);
    if |p| > 1 {
      TextLength(p[1..]);
    }
  }
}
