/** Splitting at a separator and joining again, and decimal and hexadecimal numerals. */
module Text {
  import opened Basics

  // ---------------------------------------------------------------- split and join

  function Join<T>(parts: seq<seq<T>>, sep: T): seq<T> {
    if parts == [] then []
    else if |parts| == 1 then parts[0]
    else parts[0] + [sep] + Join(parts[1..], sep)
  }

  function Split<T(==)>(s: seq<T>, sep: T): (parts: seq<seq<T>>)
    ensures |parts| >= 1
  {
    if s == [] then [[]]
    else
      var rest := Split(s[1..], sep);
      if s[0] == sep then [[]] + rest else [[s[0]] + rest[0]] + rest[1..]
  }

  ghost predicate Separable<T>(parts: seq<seq<T>>, sep: T) {
    forall i | 0 <= i < |parts| :: sep !in parts[i]
  }

  lemma {:induction false} SplitIsSeparable<T>(s: seq<T>, sep: T)
    ensures Separable(Split(s, sep), sep)
  {
    if s != [] {
      SplitIsSeparable(s[1..], sep);
      assert sep !in Split(s[1..], sep)[0];
    }
  }

  lemma {:induction false} JoinAfterSplit<T>(s: seq<T>, sep: T)
    ensures Join(Split(s, sep), sep) == s
  {
    if s != [] {
      JoinAfterSplit(s[1..], sep);
      var rest := Split(s[1..], sep);
      if s[0] == sep {
        assert ([[]] + rest)[1..] == rest;
      } else {
        var parts := [[s[0]] + rest[0]] + rest[1..];
        if |rest| > 1 { assert parts[1..] == rest[1..]; }
      }
    }
  }

  lemma {:induction false} SplitPrepend<T>(part: seq<T>, s: seq<T>, sep: T)
    requires sep !in part
    ensures Split(part + [sep] + s, sep) == [part] + Split(s, sep)
  {
    if part == [] {
      assert part + [sep] + s == [sep] + s;
      assert ([sep] + s)[1..] == s;
    } else {
      SplitPrepend(part[1..], s, sep);
      var whole := part + [sep] + s;
      assert whole[1..] == part[1..] + [sep] + s;
      assert [part[0]] + part[1..] == part;
      assert ([part[1..]] + Split(s, sep))[1..] == Split(s, sep);
    }
  }

  lemma {:induction false} SplitSingle<T>(part: seq<T>, sep: T)
    requires sep !in part
    ensures Split(part, sep) == [part]
  {
    if part != [] {
      SplitSingle(part[1..], sep);
      assert [part[0]] + part[1..] == part;
    }
  }

  lemma {:induction false} SplitAfterJoin<T>(parts: seq<seq<T>>, sep: T)
    requires parts != [] && Separable(parts, sep)
    ensures Split(Join(parts, sep), sep) == parts
  {
    if |parts| == 1 {
      SplitSingle(parts[0], sep);
    } else {
      SplitAfterJoin(parts[1..], sep);
      SplitPrepend(parts[0], Join(parts[1..], sep), sep);
      assert [parts[0]] + parts[1..] == parts;
    }
  }

  // ---------------------------------------------------------------- decimal numerals

  predicate IsDigit(c: char) { '0' <= c <= '9' }

  predicate AllDigits(s: string) { forall i | 0 <= i < |s| :: IsDigit(s[i]) }

  function Decimal(n: nat): (s: string)
    ensures s != [] && AllDigits(s)
    ensures s[0] == '0' <==> n == 0
  {
    if n < 10 then ['0' + n as char] else Decimal(n / 10) + ['0' + (n % 10) as char]
  }

  function DecimalValue(s: string): nat
    requires AllDigits(s)
  {
    if s == [] then 0
    else 10 * DecimalValue(s[..|s| - 1]) + (s[|s| - 1] - '0') as int
  }

  lemma {:induction false} ValueOfDecimal(n: nat)
    ensures DecimalValue(Decimal(n)) == n
  {
    var s := Decimal(n);
    if n < 10 {
      assert s[..|s| - 1] == [];
    } else {
      ValueOfDecimal(n / 10);
      assert s[..|s| - 1] == Decimal(n / 10);
    }
  }

  /** A numeral without a leading zero is the only one with its value. */
  lemma {:induction false} DecimalOfValue(s: string)
    requires s != [] && AllDigits(s) && s[0] != '0'
    ensures DecimalValue(s) >= 1 && Decimal(DecimalValue(s)) == s
  {
    var init, last := s[..|s| - 1], s[|s| - 1];
    assert s == init + [last];
    if init == [] {
      assert DecimalValue(s) == (last - '0') as int;
    } else {
      DecimalOfValue(init);
      var v := DecimalValue(init);
      assert (10 * v + (last - '0') as int) / 10 == v;
    }
  }

  // ---------------------------------------------------------------- lowercase hexadecimal

  predicate IsLowerHex(c: char) { '0' <= c <= '9' || 'a' <= c <= 'f' }

  predicate AllLowerHex(s: string) { forall i | 0 <= i < |s| :: IsLowerHex(s[i]) }

  function HexDigit(v: nat): (c: char)
    requires v < 16
    ensures IsLowerHex(c) && HexValue(c) == v
  {
    if v < 10 then '0' + v as char else 'a' + (v - 10) as char
  }

  function HexValue(c: char): (v: nat)
    requires IsLowerHex(c)
    ensures v < 16
  {
    if c <= '9' then (c - '0') as int else (c - 'a') as int + 10
  }

  lemma HexDigitOfValue(c: char)
    requires IsLowerHex(c)
    ensures HexDigit(HexValue(c)) == c
  {
  }

  function Hex(bytes: seq<Byte>): (s: string)
    ensures |s| == 2 * |bytes|
  {
    if bytes == [] then ""
    else [HexDigit(bytes[0] / 16), HexDigit(bytes[0] % 16)] + Hex(bytes[1..])
  }

  function Unhex(s: string): (bytes: seq<Byte>)
    requires |s| % 2 == 0 && AllLowerHex(s)
    ensures 2 * |bytes| == |s|
  {
    if s == "" then [] else [16 * HexValue(s[0]) + HexValue(s[1])] + Unhex(s[2..])
  }

  lemma {:induction false} UnhexAfterHex(bytes: seq<Byte>)
    ensures AllLowerHex(Hex(bytes)) && Unhex(Hex(bytes)) == bytes
  {
    if bytes != [] {
      UnhexAfterHex(bytes[1..]);
      var b, s := bytes[0], Hex(bytes);
      assert s[2..] == Hex(bytes[1..]);
      assert s == s[..2] + s[2..];
      assert 16 * HexValue(s[0]) + HexValue(s[1]) == b;
      assert [b] + bytes[1..] == bytes;
    }
  }

  lemma {:induction false} HexAfterUnhex(s: string)
    requires |s| % 2 == 0 && AllLowerHex(s)
    ensures Hex(Unhex(s)) == s
  {
    if s != "" {
      HexAfterUnhex(s[2..]);
      var high, low := HexValue(s[0]), HexValue(s[1]);
      assert Unhex(s)[0] == 16 * high + low && Unhex(s)[1..] == Unhex(s[2..]);
      assert (16 * high + low) / 16 == high && (16 * high + low) % 16 == low;
      HexDigitOfValue(s[0]);
      HexDigitOfValue(s[1]);
      assert s == [s[0], s[1]] + s[2..];
    }
  }

  // ---------------------------------------------------------------- letters

  /** ASCII lower case. */
  function Lower(s: string): (r: string)
    ensures |r| == |s|
  {
    seq(|s|, i requires 0 <= i < |s| => if 'A' <= s[i] <= 'Z' then (s[i] - 'A') + 'a' else s[i])
  }
}
