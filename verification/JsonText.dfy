/**
  JSON text: how JSON.stringify prints a value (with the string escapes of section 7 of RFC 8259),
  canonicalJson's ordering of object members (src/public/contracts/json.ts) and its depth check.
 */
module JsonText {
  import opened Wrappers
  import opened Base64Url
  import opened Text
  import opened AckTypes

  /** Nesting does not exceed the bound; a scalar is at depth 0. */
  predicate DepthWithin(v: Json, bound: int)
  {
    bound >= 0 &&
    match v
    case Arr(items) => forall i :: 0 <= i < |items| ==> DepthWithin(items[i], bound - 1)
    case Obj(fields) => forall k :: k in fields ==> DepthWithin(fields[k], bound - 1)
    case _ => true
  }

  function HexDigit(n: nat): char
    requires n < 16
  {
    if n < 10 then '0' + n as char else 'a' + (n - 10) as char
  }

  function Escape(c: char): string
  {
    if c == '"' then ['\\', '"']
    else if c == '\\' then ['\\', '\\']
    else if c == 8 as char then ['\\', 'b']
    else if c == 12 as char then ['\\', 'f']
    else if c == '\n' then ['\\', 'n']
    else if c == '\r' then ['\\', 'r']
    else if c == '\t' then ['\\', 't']
    else if c < 0x20 as char then ['\\', 'u', '0', '0', HexDigit(c as int / 16), HexDigit(c as int % 16)]
    else [c]
  }

  function Escapes(s: string): string
  {
    if |s| == 0 then [] else Escape(s[0]) + Escapes(s[1..])
  }

  function Quote(s: string): string
  {
    ['"'] + Escapes(s) + ['"']
  }

  function Integer(n: int): string
    decreases n < 0, if n < 0 then -n else n
  {
    if n < 0 then ['-'] + Integer(-n)
    else if n < 10 then ['0' + n as char]
    else Integer(n / 10) + ['0' + (n % 10) as char]
  }

  // ---------- Printing ----------

  /** A value with its object members in the order in which they are printed. */
  datatype Tree =
    | TNull
    | TBool(b: bool)
    | TNum(n: int)
    | TDec(text: Decimal)
    | TStr(s: string)
    | TArr(items: seq<Tree>)
    | TObj(fields: seq<Member>)

  datatype Member = Member(name: string, value: Tree)

  function Print(t: Tree): string
  {
    match t
    case TNull => "null"
    case TBool(b) => if b then "true" else "false"
    case TNum(n) => Integer(n)
    case TDec(text) => text
    case TStr(s) => Quote(s)
    case TArr(items) => "[" + Items(items, true)
    case TObj(fields) => "{" + Members(fields, true)
  }

  function Comma(first: bool): string
  {
    if first then "" else ","
  }

  /** The items from here to the closing bracket, with a comma before each but the first. */
  function Items(items: seq<Tree>, first: bool): string
  {
    if |items| == 0 then "]"
    else Comma(first) + (Print(items[0]) + Items(items[1..], false))
  }

  function Members(fields: seq<Member>, first: bool): string
  {
    if |fields| == 0 then "}"
    else Comma(first) + (Quote(fields[0].name) + (":" + (Print(fields[0].value) + Members(fields[1..], false))))
  }

  /** No control character: in particular no raw newline. */
  predicate Printable(s: string)
  {
    forall i :: 0 <= i < |s| ==> s[i] >= 0x20 as char
  }

  lemma {:induction false} QuoteIsPrintable(s: string)
    ensures Printable(Escapes(s)) && Printable(Quote(s))
  {
    if |s| > 0 {
      QuoteIsPrintable(s[1..]);
      assert Printable(Escape(s[0]));
    }
  }

  lemma {:induction false} IntegerIsPrintable(n: int)
    ensures Printable(Integer(n)) && |Integer(n)| > 0
    decreases n < 0, if n < 0 then -n else n
  {
    if n < 0 {
      IntegerIsPrintable(-n);
    } else if n >= 10 {
      IntegerIsPrintable(n / 10);
    }
  }

  lemma {:induction false} ItemsArePrintable(items: seq<Tree>, first: bool)
    ensures Printable(Items(items, first))
  {
    if |items| > 0 {
      PrintIsPrintable(items[0]);
      ItemsArePrintable(items[1..], false);
    }
  }

  lemma {:induction false} MembersArePrintable(fields: seq<Member>, first: bool)
    ensures Printable(Members(fields, first))
  {
    if |fields| > 0 {
      QuoteIsPrintable(fields[0].name);
      PrintIsPrintable(fields[0].value);
      MembersArePrintable(fields[1..], false);
    }
  }

  /** JSON text is never empty and holds no control character, whatever its strings hold. */
  lemma {:induction false} PrintIsPrintable(t: Tree)
    ensures Printable(Print(t)) && |Print(t)| > 0
  {
    match t
    case TNull =>
    case TBool(b) =>
    case TNum(n) => IntegerIsPrintable(n);
    case TDec(text) => assert Printable(text);
    case TStr(s) => QuoteIsPrintable(s);
    case TArr(items) => ItemsArePrintable(items, true);
    case TObj(fields) => MembersArePrintable(fields, true);
  }

  // ---------- Reading back ----------

  lemma EscapeIsPrefixFree(a: char, b: char, x: string, y: string)
    requires Escape(a) + x == Escape(b) + y
    ensures a == b && x == y
  {
    var p, q := Escape(a), Escape(b);
    assert (p + x)[0] == p[0] && (q + y)[0] == q[0];
    if |p| > 1 && |q| > 1 {
      assert (p + x)[1] == p[1] && (q + y)[1] == q[1];
      if |p| == 6 && |q| == 6 {
        assert (p + x)[4] == p[4] && (q + y)[4] == q[4];
        assert (p + x)[5] == p[5] && (q + y)[5] == q[5];
      }
    }
    assert a == b;
    assert x == (p + x)[|p|..] && y == (q + y)[|q|..];
  }

  lemma EscapesStart(s: string, x: string)
    ensures var text := Escapes(s) + (['"'] + x); |text| > 0 && (text[0] == '"' <==> |s| == 0)
  {
    if |s| > 0 {
      assert Escapes(s)[0] == Escape(s[0])[0];
    }
  }

  lemma EscapesRegroup(s: string, x: string)
    requires |s| > 0
    ensures Escapes(s) + x == Escape(s[0]) + (Escapes(s[1..]) + x)
  {
  }

  lemma {:induction false} EscapesArePrefixFree(s: string, t: string, x: string, y: string)
    requires Escapes(s) + (['"'] + x) == Escapes(t) + (['"'] + y)
    ensures s == t && x == y
  {
    EscapesStart(s, x);
    EscapesStart(t, y);
    if |s| > 0 {
      EscapesRegroup(s, ['"'] + x);
      EscapesRegroup(t, ['"'] + y);
      EscapeIsPrefixFree(s[0], t[0], Escapes(s[1..]) + (['"'] + x), Escapes(t[1..]) + (['"'] + y));
      EscapesArePrefixFree(s[1..], t[1..], x, y);
      assert s == [s[0]] + s[1..] && t == [t[0]] + t[1..];
    } else {
      assert Escapes(s) + (['"'] + x) == ['"'] + x && Escapes(t) + (['"'] + y) == ['"'] + y;
      SameStart(['"'], x, y);
    }
  }

  lemma QuoteIsPrefixFree(s: string, t: string, x: string, y: string)
    requires Quote(s) + x == Quote(t) + y
    ensures s == t && x == y
  {
    assert (Quote(s) + x)[1..] == Escapes(s) + (['"'] + x);
    assert (Quote(t) + y)[1..] == Escapes(t) + (['"'] + y);
    EscapesArePrefixFree(s, t, x, y);
  }

  predicate IsDigit(c: char)
  {
    '0' <= c <= '9'
  }

  /** What may follow a value: nothing, a comma or a closing bracket. */
  predicate Stops(x: string)
  {
    |x| > 0 ==> x[0] in {',', ']', '}'}
  }

  function DigitsValue(s: string): int
  {
    if |s| == 0 then 0 else DigitsValue(s[..|s| - 1]) * 10 + (s[|s| - 1] as int - '0' as int)
  }

  lemma {:induction false} DigitsSayTheNumber(n: nat)
    ensures DigitsValue(Integer(n)) == n
    ensures forall i :: 0 <= i < |Integer(n)| ==> IsDigit(Integer(n)[i])
    decreases n
  {
    var d := Integer(n);
    if n >= 10 {
      DigitsSayTheNumber(n / 10);
      assert d[..|d| - 1] == Integer(n / 10);
    } else {
      assert d[..0] == [];
    }
  }

  predicate IsNumberChar(c: char)
  {
    IsDigit(c) || c in {'-', '+', '.', 'e'}
  }

  function LeadingNumber(s: string): nat
  {
    if |s| == 0 || !IsNumberChar(s[0]) then 0 else 1 + LeadingNumber(s[1..])
  }

  lemma {:induction false} LeadingNumberEnds(number: string, x: string)
    requires (forall i :: 0 <= i < |number| ==> IsNumberChar(number[i])) && Stops(x)
    ensures LeadingNumber(number + x) == |number|
  {
    if |number| == 0 {
      assert number + x == x;
    } else {
      LeadingNumberEnds(number[1..], x);
      assert (number + x)[1..] == number[1..] + x;
    }
  }

  predicate IsNumber(t: Tree)
  {
    t.TNum? || t.TDec?
  }

  lemma IntegerChars(n: int)
    ensures |Integer(n)| > 0 && (n >= 0 ==> IsDigit(Integer(n)[0])) && (n < 0 ==> Integer(n)[0] == '-')
    ensures forall i :: 0 <= i < |Integer(n)| ==> IsDigit(Integer(n)[i]) || Integer(n)[i] == '-'
  {
    IntegerIsPrintable(n);
    DigitsSayTheNumber(if n < 0 then -n else n);
  }

  lemma IntegerIsInjective(n: int, m: int)
    requires Integer(n) == Integer(m)
    ensures n == m
  {
    IntegerChars(n);
    IntegerChars(m);
    if n < 0 {
      assert Integer(n)[1..] == Integer(-n) && Integer(m)[1..] == Integer(-m);
    }
    DigitsSayTheNumber(if n < 0 then -n else n);
    DigitsSayTheNumber(if m < 0 then -m else m);
  }

  lemma NumberChars(t: Tree)
    requires IsNumber(t)
    ensures |Print(t)| > 0 && forall i :: 0 <= i < |Print(t)| ==> IsNumberChar(Print(t)[i])
    ensures t.TNum? ==> forall i :: 0 <= i < |Print(t)| ==> Print(t)[i] !in {'.', 'e'}
  {
    if t.TNum? {
      IntegerChars(t.n);
    }
  }

  lemma NumberIsPrefixFree(t: Tree, u: Tree, x: string, y: string)
    requires IsNumber(t) && IsNumber(u) && Print(t) + x == Print(u) + y && Stops(x) && Stops(y)
    ensures t == u && x == y
  {
    var p, q := Print(t), Print(u);
    NumberChars(t);
    NumberChars(u);
    LeadingNumberEnds(p, x);
    LeadingNumberEnds(q, y);
    assert p == (p + x)[..|p|] && q == (q + y)[..|q|];
    assert x == (p + x)[|p|..] && y == (q + y)[|q|..];
    if t.TNum? && u.TNum? {
      IntegerIsInjective(t.n, u.n);
    }
  }

  /** The first character tells the kind of value. */
  function Kind(t: Tree): int
  {
    match t
    case TNull => 0
    case TBool(b) => if b then 1 else 2
    case TNum(_) => 3
    case TDec(_) => 3
    case TStr(_) => 4
    case TArr(_) => 5
    case TObj(_) => 6
  }

  function KindOf(c: char): int
  {
    if c == 'n' then 0
    else if c == 't' then 1
    else if c == 'f' then 2
    else if c == '-' || IsDigit(c) then 3
    else if c == '"' then 4
    else if c == '[' then 5
    else if c == '{' then 6
    else 7
  }

  lemma FirstTellsKind(t: Tree)
    ensures |Print(t)| > 0 && KindOf(Print(t)[0]) == Kind(t)
  {
    PrintIsPrintable(t);
    if t.TNum? {
      IntegerChars(t.n);
    }
  }

  lemma {:induction false} ItemsArePrefixFree(a: seq<Tree>, b: seq<Tree>, first: bool, x: string, y: string)
    requires Items(a, first) + x == Items(b, first) + y
    ensures a == b && x == y
    decreases a
  {
    ItemsStart(a, first, x);
    ItemsStart(b, first, y);
    if |a| == 0 {
      SameStart("]", x, y);
    } else {
      var rest, other := Items(a[1..], false) + x, Items(b[1..], false) + y;
      ItemsRegroup(a, first, x);
      ItemsRegroup(b, first, y);
      SameStart(Comma(first), Print(a[0]) + rest, Print(b[0]) + other);
      ItemsStop(a[1..], x);
      ItemsStop(b[1..], y);
      PrintIsPrefixFree(a[0], b[0], rest, other);
      ItemsArePrefixFree(a[1..], b[1..], false, x, y);
      assert a == [a[0]] + a[1..] && b == [b[0]] + b[1..];
    }
  }

  /** What comes first tells whether another item follows. */
  lemma ItemsStart(items: seq<Tree>, first: bool, x: string)
    ensures var s := Items(items, first) + x; |s| > 0 && (s[0] == ']' <==> |items| == 0)
  {
    if |items| > 0 {
      FirstTellsKind(items[0]);
      assert Items(items, first)[0] == if first then Print(items[0])[0] else ',';
    }
  }

  lemma Regroup(a: string, b: string, c: string, d: string)
    ensures (a + (b + c)) + d == a + (b + (c + d))
  {
    assert (b + c) + d == b + (c + d);
    assert (a + (b + c)) + d == a + ((b + c) + d);
  }

  lemma ItemsRegroup(items: seq<Tree>, first: bool, x: string)
    requires |items| > 0
    ensures Items(items, first) + x == Comma(first) + (Print(items[0]) + (Items(items[1..], false) + x))
  {
    Regroup(Comma(first), Print(items[0]), Items(items[1..], false), x);
  }

  lemma ItemsStop(items: seq<Tree>, x: string)
    ensures Stops(Items(items, false) + x)
  {
  }

  lemma MembersStart(fields: seq<Member>, first: bool, x: string)
    ensures var s := Members(fields, first) + x; |s| > 0 && (s[0] == '}' <==> |fields| == 0)
  {
    if |fields| > 0 {
      assert Members(fields, first)[0] == if first then Quote(fields[0].name)[0] else ',';
    }
  }

  lemma MembersRegroup(fields: seq<Member>, first: bool, x: string)
    requires |fields| > 0
    ensures Members(fields, first) + x ==
            Comma(first) +
            (Quote(fields[0].name) + (":" + (Print(fields[0].value) + (Members(fields[1..], false) + x))))
  {
    var n, p, q := Quote(fields[0].name), Print(fields[0].value), Members(fields[1..], false);
    Regroup(Comma(first), n, ":" + (p + q), x);
    Regroup(":", p, q, x);
  }

  lemma MembersStop(fields: seq<Member>, x: string)
    ensures Stops(Members(fields, false) + x)
  {
  }

  lemma SameStart(c: string, x: string, y: string)
    requires c + x == c + y
    ensures x == y
  {
    assert x == (c + x)[|c|..] && y == (c + y)[|c|..];
  }

  lemma {:induction false} MembersArePrefixFree(a: seq<Member>, b: seq<Member>, first: bool, x: string, y: string)
    requires Members(a, first) + x == Members(b, first) + y
    ensures a == b && x == y
    decreases a
  {
    MembersStart(a, first, x);
    MembersStart(b, first, y);
    if |a| == 0 {
      SameStart("}", x, y);
    } else {
      var rest, other := Members(a[1..], false) + x, Members(b[1..], false) + y;
      var left, right := ":" + (Print(a[0].value) + rest), ":" + (Print(b[0].value) + other);
      MembersRegroup(a, first, x);
      MembersRegroup(b, first, y);
      SameStart(Comma(first), Quote(a[0].name) + left, Quote(b[0].name) + right);
      QuoteIsPrefixFree(a[0].name, b[0].name, left, right);
      SameStart(":", Print(a[0].value) + rest, Print(b[0].value) + other);
      MembersStop(a[1..], x);
      MembersStop(b[1..], y);
      PrintIsPrefixFree(a[0].value, b[0].value, rest, other);
      MembersArePrefixFree(a[1..], b[1..], false, x, y);
      assert a == [a[0]] + a[1..] && b == [b[0]] + b[1..];
    }
  }

  lemma SameKind(t: Tree, u: Tree, x: string, y: string)
    requires Print(t) + x == Print(u) + y
    ensures Kind(t) == Kind(u)
  {
    FirstTellsKind(t);
    FirstTellsKind(u);
    assert (Print(t) + x)[0] == Print(t)[0] && (Print(u) + y)[0] == Print(u)[0];
  }

  lemma Opened(c: string, a: string, b: string, x: string, y: string)
    requires (c + a) + x == (c + b) + y
    ensures a + x == b + y
  {
    assert (c + a) + x == c + (a + x) && (c + b) + y == c + (b + y);
    SameStart(c, a + x, b + y);
  }

  /** Text says which value it prints, and where that value ends. */
  lemma {:induction false} PrintIsPrefixFree(t: Tree, u: Tree, x: string, y: string)
    requires Print(t) + x == Print(u) + y && Stops(x) && Stops(y)
    ensures t == u && x == y
    decreases t
  {
    SameKind(t, u, x, y);
    match t
    case TNull => SameStart("null", x, y);
    case TBool(b) => SameStart(Print(t), x, y);
    case TNum(_) => NumberIsPrefixFree(t, u, x, y);
    case TDec(_) => NumberIsPrefixFree(t, u, x, y);
    case TStr(s) => QuoteIsPrefixFree(s, u.s, x, y);
    case TArr(items) =>
      Opened("[", Items(items, true), Items(u.items, true), x, y);
      ItemsArePrefixFree(items, u.items, true, x, y);
    case TObj(fields) =>
      Opened("{", Members(fields, true), Members(u.fields, true), x, y);
      MembersArePrefixFree(fields, u.fields, true, x, y);
  }

  /** Different trees have different texts. */
  lemma PrintIsInjective(t: Tree, u: Tree)
    requires Print(t) == Print(u)
    ensures t == u
  {
    assert Print(t) + "" == Print(u) + "";
    PrintIsPrefixFree(t, u, "", "");
  }

  // ---------- Canonical order ----------

  lemma {:induction false} KeysHaveAnOrder(keys: set<string>) returns (names: seq<string>)
    ensures Ascending(names) && forall n :: n in names <==> n in keys
    decreases keys
  {
    if keys == {} {
      names := [];
    } else {
      var key :| key in keys;
      var rest := KeysHaveAnOrder(keys - {key});
      InsertSorts(key, rest);
      names := Insert(key, rest);
    }
  }

  ghost predicate IsKeyOrder(keys: set<string>, names: seq<string>)
  {
    Ascending(names) && forall n :: n in names <==> n in keys
  }

  ghost function KeysInOrder(keys: set<string>): (names: seq<string>)
    ensures IsKeyOrder(keys, names)
  {
    assert exists names :: IsKeyOrder(keys, names) by {
      var names := KeysHaveAnOrder(keys);
      assert IsKeyOrder(keys, names);
    }
    var names :| IsKeyOrder(keys, names);
    names
  }

  /** Object members in code-unit order, at every depth. */
  ghost function Ordered(v: Json): Tree
    decreases v
  {
    match v
    case Null => TNull
    case Bool(b) => TBool(b)
    case Num(n) => TNum(n)
    case Dec(text) => TDec(text)
    case Str(s) => TStr(s)
    case Arr(items) => TArr(seq(|items|, i requires 0 <= i < |items| => Ordered(items[i])))
    case Obj(fields) => TObj(OrderedMembers(v, KeysInOrder(fields.Keys)))
  }

  ghost function OrderedMembers(v: Json, names: seq<string>): (members: seq<Member>)
    requires v.Obj? && forall k :: k in names ==> k in v.fields
    ensures |members| == |names|
    ensures forall i :: 0 <= i < |names| ==>
              names[i] in v.fields && members[i] == Member(names[i], Ordered(v.fields[names[i]]))
    decreases v, |names|
  {
    if |names| == 0 then []
    else
      assert forall k :: k in names[1..] ==> k in names;
      assert names[0] in names;
      [Member(names[0], Ordered(v.fields[names[0]]))] + OrderedMembers(v, names[1..])
  }

  ghost function Render(v: Json): string
  {
    Print(Ordered(v))
  }

  lemma SameMembersSameNames(v: Json, names: seq<string>, w: Json, others: seq<string>)
    requires v.Obj? && w.Obj? && IsKeyOrder(v.fields.Keys, names) && IsKeyOrder(w.fields.Keys, others)
    requires OrderedMembers(v, names) == OrderedMembers(w, others)
    ensures names == others && v.fields.Keys == w.fields.Keys
  {
    var p, q := OrderedMembers(v, names), OrderedMembers(w, others);
    assert |names| == |p| == |others|;
    forall i | 0 <= i < |names| ensures names[i] == others[i] {
      assert p[i].name == q[i].name;
    }
    forall k ensures k in v.fields.Keys <==> k in w.fields.Keys {
      assert k in names <==> k in v.fields.Keys;
      assert k in others <==> k in w.fields.Keys;
    }
  }

  lemma SameMember(v: Json, w: Json, names: seq<string>, k: string)
    requires v.Obj? && w.Obj? && IsKeyOrder(v.fields.Keys, names) && IsKeyOrder(w.fields.Keys, names)
    requires OrderedMembers(v, names) == OrderedMembers(w, names) && k in v.fields && k in w.fields
    ensures Ordered(v.fields[k]) == Ordered(w.fields[k])
  {
    var p, q := OrderedMembers(v, names), OrderedMembers(w, names);
    assert k in names;
    var i :| 0 <= i < |names| && names[i] == k;
    assert p[i].value == q[i].value;
  }

  lemma SameItems(v: Json, w: Json, i: nat)
    requires v.Arr? && w.Arr? && Ordered(v) == Ordered(w) && i < |v.items|
    ensures |v.items| == |w.items| && Ordered(v.items[i]) == Ordered(w.items[i])
  {
    var p, q := Ordered(v).items, Ordered(w).items;
    assert |v.items| == |p| == |q| == |w.items|;
    assert p[i] == Ordered(v.items[i]) && q[i] == Ordered(w.items[i]);
  }

  lemma {:induction false} OrderedIsInjective(v: Json, w: Json)
    requires Ordered(v) == Ordered(w)
    ensures v == w
    decreases v
  {
    match v
    case Arr(items) =>
      assert |items| == |Ordered(v).items| == |w.items|;
      forall i | 0 <= i < |items| ensures items[i] == w.items[i] {
        SameItems(v, w, i);
        OrderedIsInjective(items[i], w.items[i]);
      }
    case Obj(fields) =>
      var names := KeysInOrder(fields.Keys);
      SameMembersSameNames(v, names, w, KeysInOrder(w.fields.Keys));
      forall k | k in fields ensures fields[k] == w.fields[k] {
        SameMember(v, w, names, k);
        OrderedIsInjective(fields[k], w.fields[k]);
      }
    case _ =>
  }

  /** Canonical text identifies its value, so equal digests of it mean equal values wherever the hash is injective. */
  lemma RenderIsInjective(v: Json, w: Json)
    requires Render(v) == Render(w)
    ensures v == w
  {
    PrintIsInjective(Ordered(v), Ordered(w));
    OrderedIsInjective(v, w);
  }

  /** The bytes of JSON text hold no newline byte. */
  lemma NoNewlineInJson(v: Json)
    ensures 10 !in Utf8(Render(v)) && |Utf8(Render(v))| > 0
  {
    PrintIsPrintable(Ordered(v));
    AsciiStandsForItself(Render(v), 10);
    CharBytes(Render(v)[0]);
  }
}
