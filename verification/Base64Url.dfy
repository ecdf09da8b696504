/** Unpadded base64url (section 5 of RFC 4648), as listing cursors use it. */
module Base64Url {
  type Byte = n: nat | n < 256
  type Sextet = n: nat | n < 64

  function Symbol(n: Sextet): char
  {
    if n < 26 then 'A' + n as char
    else if n < 52 then 'a' + (n - 26) as char
    else if n < 62 then '0' + (n - 52) as char
    else if n == 62 then '-'
    else '_'
  }

  predicate IsSymbol(c: char)
  {
    'A' <= c <= 'Z' || 'a' <= c <= 'z' || '0' <= c <= '9' || c == '-' || c == '_'
  }

  function Value(c: char): Sextet
    requires IsSymbol(c)
  {
    if 'A' <= c <= 'Z' then c as int - 'A' as int
    else if 'a' <= c <= 'z' then c as int - 'a' as int + 26
    else if '0' <= c <= '9' then c as int - '0' as int + 52
    else if c == '-' then 62
    else 63
  }

  predicate IsText(s: string)
  {
    |s| % 4 != 1 && forall i :: 0 <= i < |s| ==> IsSymbol(s[i])
  }

  /** Three bytes as four symbols. */
  function Group(x: Byte, y: Byte, z: Byte): (s: string)
    ensures |s| == 4 && forall i :: 0 <= i < 4 ==> IsSymbol(s[i])
  {
    [Symbol(x / 4), Symbol(x % 4 * 16 + y / 16), Symbol(y % 16 * 4 + z / 64), Symbol(z % 64)]
  }

  function Encode(bytes: seq<Byte>): (s: string)
    ensures IsText(s)
  {
    if |bytes| == 0 then ""
    else if |bytes| == 1 then [Symbol(bytes[0] / 4), Symbol(bytes[0] % 4 * 16)]
    else if |bytes| == 2 then
      [Symbol(bytes[0] / 4), Symbol(bytes[0] % 4 * 16 + bytes[1] / 16), Symbol(bytes[1] % 16 * 4)]
    else
      var group, rest := Group(bytes[0], bytes[1], bytes[2]), Encode(bytes[3..]);
      TextGrows(group, rest);
      group + rest
  }

  lemma TextGrows(group: string, rest: string)
    requires |group| == 4 && (forall i :: 0 <= i < 4 ==> IsSymbol(group[i])) && IsText(rest)
    ensures IsText(group + rest)
  {
  }

  lemma {:induction false} EncodeLength(bytes: seq<Byte>)
    ensures |Encode(bytes)| == (4 * |bytes| + 2) / 3
    decreases |bytes|
  {
    if |bytes| >= 3 {
      EncodeLength(bytes[3..]);
    }
  }

  /** Decoding drops the bits that do not fill a byte. */
  function Decode(s: string): seq<Byte>
    requires IsText(s)
  {
    if |s| == 0 then []
    else if |s| == 2 then [Value(s[0]) * 4 + Value(s[1]) / 16]
    else if |s| == 3 then [Value(s[0]) * 4 + Value(s[1]) / 16, Value(s[1]) % 16 * 16 + Value(s[2]) / 4]
    else Ungroup(s[0], s[1], s[2], s[3]) + Decode(s[4..])
  }

  function Ungroup(a: char, b: char, c: char, d: char): seq<Byte>
    requires IsSymbol(a) && IsSymbol(b) && IsSymbol(c) && IsSymbol(d)
  {
    [Value(a) * 4 + Value(b) / 16, Value(b) % 16 * 16 + Value(c) / 4, Value(c) % 4 * 64 + Value(d)]
  }

  lemma SymbolValue(n: Sextet)
    ensures IsSymbol(Symbol(n)) && Value(Symbol(n)) == n
  {
  }

  /** The values of a full group's four symbols. */
  lemma GroupValues(x: Byte, y: Byte, z: Byte)
    ensures Value(Symbol(x / 4)) == x / 4 && Value(Symbol(x % 4 * 16 + y / 16)) == x % 4 * 16 + y / 16
    ensures Value(Symbol(y % 16 * 4 + z / 64)) == y % 16 * 4 + z / 64 && Value(Symbol(z % 64)) == z % 64
    ensures Value(Symbol(x % 4 * 16)) == x % 4 * 16 && Value(Symbol(y % 16 * 4)) == y % 16 * 4
  {
    SymbolValue(x / 4);
    SymbolValue(x % 4 * 16 + y / 16);
    SymbolValue(y % 16 * 4 + z / 64);
    SymbolValue(z % 64);
    SymbolValue(x % 4 * 16);
    SymbolValue(y % 16 * 4);
  }

  lemma GroupBytes(x: Byte, y: Byte, z: Byte)
    ensures x / 4 * 4 + (x % 4 * 16 + y / 16) / 16 == x && x / 4 * 4 + x % 4 * 16 / 16 == x
    ensures (x % 4 * 16 + y / 16) % 16 * 16 + (y % 16 * 4 + z / 64) / 4 == y
    ensures (x % 4 * 16 + y / 16) % 16 * 16 + y % 16 * 4 / 4 == y
    ensures (y % 16 * 4 + z / 64) % 4 * 64 + z % 64 == z
  {
  }

  lemma UngroupsGroup(x: Byte, y: Byte, z: Byte)
    ensures var g := Group(x, y, z); Ungroup(g[0], g[1], g[2], g[3]) == [x, y, z]
  {
    GroupValues(x, y, z);
    GroupBytes(x, y, z);
  }

  lemma GroupRoundTrip(group: string, tail: string)
    requires |group| == 4 && (forall i :: 0 <= i < 4 ==> IsSymbol(group[i])) && IsText(tail)
    ensures IsText(group + tail)
    ensures Decode(group + tail) == Ungroup(group[0], group[1], group[2], group[3]) + Decode(tail)
  {
    assert (group + tail)[4..] == tail;
  }

  lemma Rejoin(x: Byte, y: Byte, z: Byte, rest: seq<Byte>, code: string)
    requires IsText(code) && Decode(code) == rest
    ensures IsText(Group(x, y, z) + code) && Decode(Group(x, y, z) + code) == [x, y, z] + rest
  {
    UngroupsGroup(x, y, z);
    GroupRoundTrip(Group(x, y, z), code);
  }

  lemma FirstThree<T>(s: seq<T>)
    requires |s| >= 3
    ensures s == [s[0], s[1], s[2]] + s[3..]
  {
  }

  lemma ShortRoundTrip(x: Byte, y: Byte)
    ensures Decode([Symbol(x / 4), Symbol(x % 4 * 16)]) == [x]
    ensures Decode([Symbol(x / 4), Symbol(x % 4 * 16 + y / 16), Symbol(y % 16 * 4)]) == [x, y]
  {
    GroupValues(x, y, 0);
    GroupBytes(x, y, 0);
  }

  lemma {:induction false} RoundTrip(bytes: seq<Byte>)
    ensures Decode(Encode(bytes)) == bytes
    decreases |bytes|
  {
    if |bytes| == 1 {
      ShortRoundTrip(bytes[0], 0);
      assert bytes == [bytes[0]];
    } else if |bytes| == 2 {
      ShortRoundTrip(bytes[0], bytes[1]);
      assert bytes == [bytes[0], bytes[1]];
    } else if |bytes| >= 3 {
      var rest := bytes[3..];
      RoundTrip(rest);
      Rejoin(bytes[0], bytes[1], bytes[2], rest, Encode(rest));
      FirstThree(bytes);
    }
  }

  /** Only the one canonical text of some bytes survives decoding and re-encoding. */
  lemma CanonicalExact(s: string)
    requires IsText(s)
    ensures Encode(Decode(s)) == s <==> exists bytes :: Encode(bytes) == s
  {
    if bytes :| Encode(bytes) == s {
      RoundTrip(bytes);
    }
  }
}
