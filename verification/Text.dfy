/**
  Text as JavaScript orders and encodes it: UTF-16 code units (section 2.1 of RFC 2781), UTF-8
  (section 3 of RFC 3629) and decimal numerals. Strings hold no lone surrogates.
 */
module Text {
  import opened Wrappers
  import opened Base64Url

  type Bytes = seq<Byte>

  // ---------- UTF-8 ----------

  function Utf8Char(c: char): Bytes
  {
    var n := c as int;
    if n < 0x80 then [n]
    else if n < 0x800 then [0xC0 + n / 64, 0x80 + n % 64]
    else if n < 0x10000 then [0xE0 + n / 4096, 0x80 + n / 64 % 64, 0x80 + n % 64]
    else [0xF0 + n / 262144, 0x80 + n / 4096 % 64, 0x80 + n / 64 % 64, 0x80 + n % 64]
  }

  function Utf8(s: string): Bytes
  {
    if |s| == 0 then [] else Utf8Char(s[0]) + Utf8(s[1..])
  }

  /** How many bytes the character starting with this byte takes. */
  function Width(first: Byte): nat
  {
    if first < 0x80 then 1 else if first < 0xE0 then 2 else if first < 0xF0 then 3 else 4
  }

  /** What a character's bytes say. */
  function ValueOf(b: seq<int>): int
  {
    match |b|
    case 1 => b[0]
    case 2 => (b[0] - 0xC0) * 64 + (b[1] - 0x80)
    case 3 => (b[0] - 0xE0) * 4096 + (b[1] - 0x80) * 64 + (b[2] - 0x80)
    case 4 => (b[0] - 0xF0) * 262144 + (b[1] - 0x80) * 4096 + (b[2] - 0x80) * 64 + (b[3] - 0x80)
    case _ => 0
  }

  lemma CharBytes(c: char)
    ensures var b := Utf8Char(c); |b| > 0 && |b| == Width(b[0]) && ValueOf(b) == c as int
    ensures forall x :: x in Utf8Char(c) && x < 0x80 ==> Utf8Char(c) == [x] && x == c as int
  {
    var n := c as int;
    assert n / 4096 == n / 64 / 64 && n / 262144 == n / 4096 / 64;
  }

  lemma CharIsPrefixFree(a: char, b: char, x: Bytes, y: Bytes)
    requires Utf8Char(a) + x == Utf8Char(b) + y
    ensures a == b && x == y
  {
    CharBytes(a);
    CharBytes(b);
    var p, q := Utf8Char(a), Utf8Char(b);
    assert (p + x)[0] == p[0] && (q + y)[0] == q[0];
    assert p == (p + x)[..|p|] && q == (q + y)[..|q|];
    assert x == (p + x)[|p|..] && y == (q + y)[|q|..];
  }

  /** Different texts have different bytes. */
  lemma {:induction false} Utf8IsInjective(a: string, b: string)
    requires Utf8(a) == Utf8(b)
    ensures a == b
  {
    if |a| > 0 && |b| > 0 {
      CharIsPrefixFree(a[0], b[0], Utf8(a[1..]), Utf8(b[1..]));
      Utf8IsInjective(a[1..], b[1..]);
      assert a == [a[0]] + a[1..] && b == [b[0]] + b[1..];
    } else if |a| > 0 {
      CharBytes(a[0]);
    } else if |b| > 0 {
      CharBytes(b[0]);
    }
  }

  /** A byte below 0x80 stands for exactly the character of that number. */
  lemma {:induction false} AsciiStandsForItself(s: string, x: Byte)
    requires x < 0x80
    ensures x in Utf8(s) <==> x as char in s
  {
    if |s| > 0 {
      CharBytes(s[0]);
      AsciiStandsForItself(s[1..], x);
      assert s == [s[0]] + s[1..];
      if s[0] == x as char {
        assert Utf8Char(s[0]) == [x];
      }
    }
  }

  // ---------- Order ----------

  function Units(c: char): seq<int>
  {
    var n := c as int;
    if n < 0x10000 then [n] else [0xD800 + (n - 0x10000) / 0x400, 0xDC00 + (n - 0x10000) % 0x400]
  }

  function UnitsOf(s: string): seq<int>
  {
    if |s| == 0 then [] else Units(s[0]) + UnitsOf(s[1..])
  }

  predicate Lexicographic(a: seq<int>, b: seq<int>)
  {
    if |b| == 0 then false
    else if |a| == 0 then true
    else a[0] < b[0] || (a[0] == b[0] && Lexicographic(a[1..], b[1..]))
  }

  /** The order of `<` on strings (section 7.2.13 of ECMA-262). */
  predicate Less(a: string, b: string)
  {
    Lexicographic(UnitsOf(a), UnitsOf(b))
  }

  lemma {:induction false} LexicographicIsTotal(a: seq<int>, b: seq<int>)
    ensures Lexicographic(a, b) || a == b || Lexicographic(b, a)
    ensures !(Lexicographic(a, b) && Lexicographic(b, a)) && !Lexicographic(a, a)
  {
    if |a| > 0 {
      LexicographicIsTotal(a[1..], a[1..]);
      if |b| > 0 {
        LexicographicIsTotal(a[1..], b[1..]);
        assert a == [a[0]] + a[1..] && b == [b[0]] + b[1..];
      }
    }
  }

  lemma {:induction false} LexicographicIsTransitive(a: seq<int>, b: seq<int>, c: seq<int>)
    requires Lexicographic(a, b) && Lexicographic(b, c)
    ensures Lexicographic(a, c)
  {
    if |a| > 0 && a[0] == b[0] == c[0] {
      LexicographicIsTransitive(a[1..], b[1..], c[1..]);
    }
  }

  lemma {:induction false} UnitsAreInjective(a: string, b: string)
    requires UnitsOf(a) == UnitsOf(b)
    ensures a == b
  {
    if |a| > 0 && |b| > 0 {
      var p, q := Units(a[0]), Units(b[0]);
      assert (p + UnitsOf(a[1..]))[0] == p[0] && (q + UnitsOf(b[1..]))[0] == q[0];
      assert |p| == |q|;
      assert p == UnitsOf(a)[..|p|] && q == UnitsOf(b)[..|p|];
      assert a[0] == b[0];
      assert UnitsOf(a[1..]) == UnitsOf(a)[|p|..] == UnitsOf(b[1..]);
      UnitsAreInjective(a[1..], b[1..]);
      assert a == [a[0]] + a[1..] && b == [b[0]] + b[1..];
    }
  }

  lemma LessIsTotal(a: string, b: string, c: string)
    ensures Less(a, b) || a == b || Less(b, a)
    ensures !(Less(a, b) && Less(b, a)) && !Less(a, a)
    ensures Less(a, b) && Less(b, c) ==> Less(a, c)
  {
    LexicographicIsTotal(UnitsOf(a), UnitsOf(b));
    LexicographicIsTotal(UnitsOf(a), UnitsOf(a));
    if UnitsOf(a) == UnitsOf(b) {
      UnitsAreInjective(a, b);
    }
    if Less(a, b) && Less(b, c) {
      LexicographicIsTransitive(UnitsOf(a), UnitsOf(b), UnitsOf(c));
    }
  }

  // ---------- Sorting ----------

  predicate Ascending(names: seq<string>)
  {
    forall i, j :: 0 <= i < j < |names| ==> Less(names[i], names[j])
  }

  function Insert(name: string, sorted: seq<string>): seq<string>
  {
    if |sorted| == 0 then [name]
    else if Less(sorted[0], name) then [sorted[0]] + Insert(name, sorted[1..])
    else [name] + sorted
  }

  function Sorted(names: seq<string>): seq<string>
  {
    if |names| == 0 then [] else Insert(names[0], Sorted(names[1..]))
  }

  lemma {:induction false} InsertSorts(name: string, sorted: seq<string>)
    requires Ascending(sorted) && name !in sorted
    ensures Ascending(Insert(name, sorted)) && forall n :: n in Insert(name, sorted) <==> n == name || n in sorted
  {
    if |sorted| > 0 {
      var head := sorted[0];
      assert sorted == [head] + sorted[1..];
      LessIsTotal(head, name, head);
      if Less(head, name) {
        InsertSorts(name, sorted[1..]);
        var rest := Insert(name, sorted[1..]);
        forall j | 0 <= j < |rest| ensures Less(head, rest[j]) {
          assert rest[j] in rest;
        }
      } else {
        forall j | 0 <= j < |sorted| ensures Less(name, sorted[j]) {
          LessIsTotal(name, head, sorted[j]);
        }
      }
    }
  }

  predicate Distinct(names: seq<string>)
  {
    forall i, j :: 0 <= i < j < |names| ==> names[i] != names[j]
  }

  lemma {:induction false} SortedSorts(names: seq<string>)
    requires Distinct(names)
    ensures Ascending(Sorted(names)) && forall n :: n in Sorted(names) <==> n in names
  {
    if |names| > 0 {
      assert names == [names[0]] + names[1..];
      SortedSorts(names[1..]);
      InsertSorts(names[0], Sorted(names[1..]));
    }
  }

  /** There is one way to list given names in order. */
  lemma {:induction false} AscendingIsUnique(a: seq<string>, b: seq<string>)
    requires Ascending(a) && Ascending(b) && forall n :: n in a <==> n in b
    ensures a == b
  {
    assert (|a| > 0 ==> a[0] in b) && (|b| > 0 ==> b[0] in a);
    if |a| > 0 && |b| > 0 {
      FirstIsLeast(a, b);
      FirstIsLeast(b, a);
      LessIsTotal(a[0], b[0], a[0]);
      assert a == [a[0]] + a[1..] && b == [b[0]] + b[1..];
      forall n ensures n in a[1..] <==> n in b[1..] {
        RestIsGreater(a, n);
        RestIsGreater(b, n);
        assert n in a <==> n == a[0] || n in a[1..];
        assert n in b <==> n == b[0] || n in b[1..];
      }
      AscendingIsUnique(a[1..], b[1..]);
    }
  }

  lemma RestIsGreater(a: seq<string>, n: string)
    requires |a| > 0 && Ascending(a)
    ensures n in a[1..] ==> n != a[0]
  {
    if n in a[1..] {
      var k :| 0 <= k < |a[1..]| && a[1..][k] == n;
      assert Less(a[0], a[k + 1]);
      LessIsTotal(n, n, n);
    }
  }

  lemma FirstIsLeast(a: seq<string>, b: seq<string>)
    requires |a| > 0 && |b| > 0 && Ascending(a) && b[0] in a
    ensures a[0] == b[0] || Less(a[0], b[0])
  {
    var k :| 0 <= k < |a| && a[k] == b[0];
  }

  // ---------- Numerals ----------

  function Decimal(n: nat): Bytes
  {
    (if n < 10 then [] else Decimal(n / 10)) + [48 + n % 10]
  }

  function Numeral(b: seq<int>): int
  {
    if |b| == 0 then 0 else Numeral(b[..|b| - 1]) * 10 + (b[|b| - 1] - 48)
  }

  lemma {:induction false} NumeralIsExact(n: nat)
    ensures Numeral(Decimal(n)) == n && |Decimal(n)| > 0
    ensures forall x :: x in Decimal(n) ==> 48 <= x < 58
  {
    var d := Decimal(n);
    assert d[..|d| - 1] == if n < 10 then [] else Decimal(n / 10);
    if n >= 10 {
      NumeralIsExact(n / 10);
    }
  }
}
