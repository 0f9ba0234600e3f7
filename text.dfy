/** Small value types and text helpers shared by the parser, the report builders and the session:
    bytes, 16-bit ciphersuite codes, an Option type, substring search, decimal and hexadecimal
    rendering as the C++ streams and Botan print them, and the key order of std::map<std::string, ...>. */
module Text {

  /** One octet on the wire (uint8_t). */
  newtype byte = x: int | 0 <= x < 256

  /** A ciphersuite code point (uint16_t). */
  newtype uint16 = x: int | 0 <= x < 0x1_0000

  datatype Option<T> = None | Some(value: T)

  /** The bytes of a record viewed as characters, as `reinterpret_cast<const char*>` does. */
  function AsChars(bs: seq<byte>): (r: string)
    ensures |r| == |bs|
    ensures forall i :: 0 <= i < |bs| ==> r[i] as int == bs[i] as int
  {
    seq(|bs|, i requires 0 <= i < |bs| => bs[i] as int as char)
  }

  /** Characters that fit in one octet, as every `char` of a `std::string` does. */
  predicate IsByteString(s: string)
  {
    forall i :: 0 <= i < |s| ==> s[i] as int < 256
  }

  /** The characters of a byte string as the bytes of the same codes. */
  function AsBytes(s: string): (r: seq<byte>)
    requires IsByteString(s)
  {
    seq(|s|, i requires 0 <= i < |s| => s[i] as int as byte)
  }

  /** Viewing bytes as characters loses nothing: the bytes come back, and every byte string
      is the view of its bytes. */
  lemma AsCharsRoundTrip(bs: seq<byte>, s: string)
    ensures IsByteString(AsChars(bs)) && AsBytes(AsChars(bs)) == bs
    ensures IsByteString(s) ==> AsChars(AsBytes(s)) == s
  {
    var r := AsChars(bs);
    assert AsBytes(r) == bs by {
      forall i | 0 <= i < |bs| ensures AsBytes(r)[i] == bs[i] { assert r[i] as int == bs[i] as int; }
    }
    if IsByteString(s) {
      var t := AsChars(AsBytes(s));
      forall i | 0 <= i < |s| ensures t[i] == s[i] { assert t[i] as int == s[i] as int; }
    }
  }

  // ---------------------------------------------------------------- substring search

  /** `p` occurs in `s` starting at index `i`. */
  predicate MatchAt(s: string, p: string, i: nat)
  {
    i + |p| <= |s| && s[i..i + |p|] == p
  }

  ghost predicate Contains(s: string, p: string)
  {
    exists i: nat :: MatchAt(s, p, i)
  }

  /** std::string::find(p, from): the first index at or after `from` where `p` occurs. */
  function Find(s: string, p: string, from: nat): (r: Option<nat>)
    decreases |s| - from
    ensures r.Some? ==> from <= r.value && MatchAt(s, p, r.value)
    ensures r.Some? ==> forall j: nat :: from <= j < r.value ==> !MatchAt(s, p, j)
    ensures r.None? ==> forall j: nat :: from <= j ==> !MatchAt(s, p, j)
  {
    if from + |p| > |s| then None
    else if s[from..from + |p|] == p then Some(from)
    else Find(s, p, from + 1)
  }

  // ---------------------------------------------------------------- decimal numbers

  predicate IsDigit(c: char)
  {
    '0' <= c <= '9'
  }

  function DigitChar(d: nat): (c: char)
    requires d < 10
    ensures IsDigit(c) && c as int - '0' as int == d
  {
    "0123456789"[d]
  }

  /** `operator<<(std::ostream&, size_t)`: decimal, without leading zeros. */
  function Decimal(n: nat): (r: string)
    decreases n
    ensures |r| >= 1
    ensures forall i :: 0 <= i < |r| ==> IsDigit(r[i])
    ensures |r| > 1 ==> r[0] != '0'
  {
    if n < 10 then [DigitChar(n)] else Decimal(n / 10) + [DigitChar(n % 10)]
  }

  /** The number a string of decimal digits denotes (the reader's view of `Decimal`). */
  function DecimalValue(s: string): nat
    requires forall i :: 0 <= i < |s| ==> IsDigit(s[i])
  {
    if s == [] then 0
    else
      var c := s[|s| - 1];
      assert IsDigit(c);
      DecimalValue(s[..|s| - 1]) * 10 + (c as int - '0' as int)
  }

  lemma {:induction false} DecimalRoundTrip(n: nat)
    ensures DecimalValue(Decimal(n)) == n
    decreases n
  {
    if n >= 10 {
      var r := Decimal(n);
      assert r[..|r| - 1] == Decimal(n / 10);
      DecimalRoundTrip(n / 10);
    }
  }

  // ---------------------------------------------------------------- hexadecimal

  predicate IsLowerHex(c: char)
  {
    '0' <= c <= '9' || 'a' <= c <= 'f'
  }

  function HexValue(c: char): nat
    requires IsLowerHex(c)
  {
    if c <= '9' then c as int - '0' as int else c as int - 'a' as int + 10
  }

  function LowerHexDigit(d: nat): (c: char)
    requires d < 16
    ensures IsLowerHex(c) && HexValue(c) == d
  {
    "0123456789abcdef"[d]
  }

  /** `std::hex << std::setfill('0') << std::setw(4) << id`: four lower-case hex digits. */
  function Hex4(n: uint16): (r: string)
    ensures |r| == 4
    ensures forall i :: 0 <= i < 4 ==> IsLowerHex(r[i])
  {
    var hi, lo := n as int / 256, n as int % 256;
    [LowerHexDigit(hi / 16), LowerHexDigit(hi % 16), LowerHexDigit(lo / 16), LowerHexDigit(lo % 16)]
  }

  /** The number a string of lower-case hex digits denotes. */
  function HexNumber(s: string): nat
    requires forall i :: 0 <= i < |s| ==> IsLowerHex(s[i])
  {
    if s == [] then 0
    else HexNumber(s[..|s| - 1]) * 16 + HexValue(s[|s| - 1])
  }

  lemma HexNumberSnoc(s: string, c: char)
    requires forall i :: 0 <= i < |s| ==> IsLowerHex(s[i])
    requires IsLowerHex(c)
    ensures HexNumber(s + [c]) == HexNumber(s) * 16 + HexValue(c)
  {
    assert (s + [c])[..|s|] == s;
  }

  lemma Hex4RoundTrip(n: uint16)
    ensures HexNumber(Hex4(n)) == n as int
  {
    var r := Hex4(n);
    var hi, lo := n as int / 256, n as int % 256;
    assert r == [] + [r[0]] + [r[1]] + [r[2]] + [r[3]];
    HexNumberSnoc([], r[0]);
    HexNumberSnoc([r[0]], r[1]);
    assert HexNumber([r[0], r[1]]) == hi;
    HexNumberSnoc([r[0], r[1]], r[2]);
    assert [r[0], r[1]] + [r[2]] == [r[0], r[1], r[2]];
    HexNumberSnoc([r[0], r[1], r[2]], r[3]);
    assert [r[0], r[1], r[2]] + [r[3]] == r;
    assert HexNumber(r) == (hi * 16 + lo / 16) * 16 + lo % 16;
  }

  predicate IsUpperHex(c: char)
  {
    '0' <= c <= '9' || 'A' <= c <= 'F'
  }

  function UpperHexValue(c: char): (v: nat)
    requires IsUpperHex(c)
    ensures v < 16
  {
    if c <= '9' then c as int - '0' as int else c as int - 'A' as int + 10
  }

  function UpperHexDigit(d: nat): (c: char)
    requires d < 16
    ensures IsUpperHex(c) && UpperHexValue(c) == d
  {
    "0123456789ABCDEF"[d]
  }

  /** Botan::hex_encode with its default upper-case digits: two characters per byte. */
  function Hex(bs: seq<byte>): (r: string)
    ensures |r| == 2 * |bs|
    ensures forall i :: 0 <= i < |r| ==> IsUpperHex(r[i])
  {
    if bs == [] then []
    else [UpperHexDigit(bs[0] as int / 16), UpperHexDigit(bs[0] as int % 16)] + Hex(bs[1..])
  }

  /** Reading upper-case hex back: each pair of digits, high digit first, is one byte. */
  function HexBytes(s: string): (r: seq<byte>)
    requires |s| % 2 == 0 && forall i :: 0 <= i < |s| ==> IsUpperHex(s[i])
    ensures |r| == |s| / 2
    decreases |s|
  {
    if s == [] then []
    else [(UpperHexValue(s[0]) * 16 + UpperHexValue(s[1])) as byte] + HexBytes(s[2..])
  }

  /** The hex text stands for the bytes: reading it back gives them again. */
  lemma {:induction false} HexRoundTrip(bs: seq<byte>)
    ensures HexBytes(Hex(bs)) == bs
    decreases |bs|
  {
    if bs != [] {
      var r := Hex(bs);
      assert r[2..] == Hex(bs[1..]);
      HexRoundTrip(bs[1..]);
      var b := bs[0] as int;
      assert UpperHexValue(r[0]) * 16 + UpperHexValue(r[1]) == b;
    }
  }

  // ---------------------------------------------------------------- the key order of std::map<std::string, _>

  /** `a <= b` in std::string's order: lexicographic on the (unsigned) character codes,
      a proper prefix coming first. */
  predicate Below(a: string, b: string)
    decreases |a|
  {
    a == [] || (b != [] && (a[0] < b[0] || (a[0] == b[0] && Below(a[1..], b[1..]))))
  }

  lemma {:induction false} BelowTotal(a: string, b: string)
    ensures Below(a, b) || Below(b, a)
    decreases |a|
  {
    if a != [] && b != [] && a[0] == b[0] {
      BelowTotal(a[1..], b[1..]);
    }
  }

  lemma {:induction false} BelowAntisymmetric(a: string, b: string)
    requires Below(a, b) && Below(b, a)
    ensures a == b
    decreases |a|
  {
    if a != [] {
      BelowAntisymmetric(a[1..], b[1..]);
      assert a == [a[0]] + a[1..] && b == [b[0]] + b[1..];
    }
  }

  lemma {:induction false} BelowTransitive(a: string, b: string, c: string)
    requires Below(a, b) && Below(b, c)
    ensures Below(a, c)
    decreases |a|
  {
    if a != [] && a[0] == b[0] && b[0] == c[0] {
      BelowTransitive(a[1..], b[1..], c[1..]);
    }
  }

  lemma BelowAntisymmetricAll()
    ensures forall a, b :: Below(a, b) && Below(b, a) ==> a == b
  {
    forall a, b | Below(a, b) && Below(b, a) ensures a == b {
      BelowAntisymmetric(a, b);
    }
  }

  lemma BelowReflexive(a: string)
    ensures Below(a, a)
  {
    BelowTotal(a, a);
  }

  /** `k` is in `s` and below every element of it. */
  predicate IsLeast(k: string, s: set<string>)
  {
    k in s && forall j :: j in s ==> Below(k, j)
  }

  /** Adding `x` to a set whose least element is `m` makes `x` or `m` the least. */
  lemma LeastOfAdd(x: string, m: string, t: set<string>)
    requires IsLeast(m, t)
    ensures IsLeast(x, t + {x}) || IsLeast(m, t + {x})
  {
    BelowTotal(x, m);
    if Below(x, m) {
      forall j | j in t + {x} ensures Below(x, j) {
        if j == x { BelowReflexive(x); } else { BelowTransitive(x, m, j); }
      }
      assert IsLeast(x, t + {x});
    } else {
      forall j | j in t + {x} ensures Below(m, j) {
        if j != x { assert j in t; }
      }
      assert IsLeast(m, t + {x});
    }
  }

  /** Every non-empty finite set of strings has a least element. */
  lemma {:induction false} LeastExists(s: set<string>)
    requires s != {}
    ensures exists k :: IsLeast(k, s)
    decreases |s|
  {
    var x :| x in s;
    var t := s - {x};
    assert s == t + {x};
    if t == {} {
      BelowReflexive(x);
      assert IsLeast(x, s);
    } else {
      LeastExists(t);
      var m :| IsLeast(m, t);
      LeastOfAdd(x, m, t);
    }
  }

  /** The least key, the one std::map visits first. */
  function Least(s: set<string>): (k: string)
    requires s != {}
    ensures k in s && forall j :: j in s ==> Below(k, j)
  {
    LeastExists(s);
    BelowAntisymmetricAll();
    var k :| IsLeast(k, s);
    k
  }

  /** The keys of a std::map in iteration order. */
  function SortedKeys(s: set<string>): (r: seq<string>)
    decreases |s|
    ensures |r| == |s|
    ensures forall k :: k in s <==> k in r
    ensures forall i :: 0 <= i < |r| ==> r[i] in s
    ensures forall i, j :: 0 <= i < j < |r| ==> Below(r[i], r[j]) && r[i] != r[j]
  {
    if s == {} then []
    else
      var k := Least(s);
      var t := s - {k};
      var rest := SortedKeys(t);
      SortedCons(s, k, t, rest);
      [k] + rest
  }

  /** Putting the least key in front of the sorted others sorts the whole set. */
  lemma SortedCons(s: set<string>, k: string, t: set<string>, rest: seq<string>)
    requires k in s && t == s - {k} && forall j :: j in s ==> Below(k, j)
    requires |rest| == |t| && forall x :: x in t <==> x in rest
    requires forall i, j :: 0 <= i < j < |rest| ==> Below(rest[i], rest[j]) && rest[i] != rest[j]
    ensures |[k] + rest| == |s|
    ensures forall x :: x in s <==> x in [k] + rest
    ensures forall i :: 0 <= i < |[k] + rest| ==> ([k] + rest)[i] in s
    ensures forall i, j :: 0 <= i < j < |[k] + rest| ==> Below(([k] + rest)[i], ([k] + rest)[j]) && ([k] + rest)[i] != ([k] + rest)[j]
  {
    var r := [k] + rest;
    assert s == t + {k};
    assert |s| == |t| + 1;
    forall x ensures x in s <==> x in r {
      if x != k { assert x in s <==> x in t; assert x in r <==> x in rest; }
    }
    forall i, j | 0 <= i < j < |r| ensures Below(r[i], r[j]) && r[i] != r[j] {
      assert r[j] == rest[j - 1] && rest[j - 1] in t;
      if i > 0 { assert r[i] == rest[i - 1]; }
    }
  }
}
