/** Python built-ins that the page-layout, card and configuration code rely on:
    floor division, `math.ceil` of a quotient, `str.isspace`, `strip`, `split`,
    `join`, `str.isdigit` with `int()`, the `03d` format, `str` ordering and
    `sorted()`, and the stable `sorted(key=...)`. Integers are unbounded, as in
    Python; strings are sequences of Unicode scalar values. */
module Builtins {

  datatype Option<T> = None | Some(value: T)

  // ---------------------------------------------------------------------------
  // Integer arithmetic with Python's floor semantics

  /** Python's `a // b`: the quotient rounded towards negative infinity. */
  function FloorDiv(a: int, b: int): (q: int)
    requires b != 0
    ensures b > 0 ==> q * b <= a < q * b + b
    ensures b < 0 ==> q * b + b < a <= q * b
  {
    if b > 0 then a / b
    else
      var q := (-a) / (-b);
      assert q * (-b) <= -a < q * (-b) + (-b);
      q
  }

  /** Python's `a % b`: the remainder takes the sign of the divisor. */
  function FloorMod(a: int, b: int): (r: int)
    requires b != 0
    ensures a == FloorDiv(a, b) * b + r
    ensures b > 0 ==> 0 <= r < b
    ensures b < 0 ==> b < r <= 0
  {
    a - FloorDiv(a, b) * b
  }

  /** `math.ceil(a / b)`: the quotient rounded towards positive infinity. */
  function CeilDiv(a: int, b: int): (q: int)
    requires b != 0
    ensures b > 0 ==> (q - 1) * b < a <= q * b
    ensures b < 0 ==> q * b <= a < (q - 1) * b
  {
    -FloorDiv(-a, b)
  }

  function Min(a: int, b: int): int { if a <= b then a else b }

  function Max(a: int, b: int): int { if a >= b then a else b }

  // ---------------------------------------------------------------------------
  // Characters

  /** `str.isspace()`, which is also what `\s` matches in a `re` pattern on `str`:
      the characters of Unicode category Zs or bidirectional class WS, B or S. */
  predicate IsSpace(c: char)
  {
    || ('\t' <= c <= '\r')
    || ('\U{1C}' <= c <= '\U{1F}')
    || c == ' ' || c == '\U{85}' || c == '\U{A0}' || c == '\U{1680}'
    || ('\U{2000}' <= c <= '\U{200A}')
    || c == '\U{2028}' || c == '\U{2029}' || c == '\U{202F}' || c == '\U{205F}'
    || c == '\U{3000}'
  }

  /** `str.isdigit()`, restricted to the ASCII digits. */
  predicate IsDigit(c: char) { '0' <= c <= '9' }

  predicate AllDigits(s: string) { forall i :: 0 <= i < |s| ==> IsDigit(s[i]) }

  function DigitValue(c: char): (d: nat)
    requires IsDigit(c)
    ensures d < 10
  {
    (c as int) - ('0' as int)
  }

  function DigitChar(d: nat): (c: char)
    requires d < 10
    ensures IsDigit(c) && DigitValue(c) == d
  {
    ('0' as int + d) as char
  }

  // ---------------------------------------------------------------------------
  // Decimal numbers: int() of a digit string, str() of a number, the `03d` format

  function Pow10(k: nat): (p: nat)
    ensures p >= 1
  {
    if k == 0 then 1 else 10 * Pow10(k - 1)
  }

  /** `int(ds)` for a string of digits (leading zeros allowed); the empty
      string, which `int()` rejects, is given the value 0. */
  function DecimalValue(ds: string): (n: nat)
    requires AllDigits(ds)
    ensures n < Pow10(|ds|)
    decreases |ds|
  {
    if ds == [] then 0
    else DecimalValue(ds[..|ds| - 1]) * 10 + DigitValue(ds[|ds| - 1])
  }

  /** `str(n)` for a natural number: its shortest decimal numeral. */
  function DecimalString(n: nat): (s: string)
    ensures 1 <= |s| && AllDigits(s)
    ensures |s| == 1 || s[0] != '0'
    ensures DecimalValue(s) == n
  {
    if n < 10 then [DigitChar(n)]
    else
      var s := DecimalString(n / 10) + [DigitChar(n % 10)];
      assert s[..|s| - 1] == DecimalString(n / 10);
      s
  }

  function Zeros(z: nat): (r: string)
    ensures |r| == z && AllDigits(r)
    ensures forall i :: 0 <= i < z ==> r[i] == '0'
  {
    if z == 0 then [] else "0" + Zeros(z - 1)
  }

  /** Left-pads a numeral with zeros to `width` characters, as the format
      specification `0{width}d` does for a non-negative value. */
  function ZeroPad(s: string, width: nat): (r: string)
    ensures |r| == Max(width, |s|)
    ensures r[|r| - |s|..] == s
    ensures forall i :: 0 <= i < |r| - |s| ==> r[i] == '0'
  {
    if |s| >= width then s else Zeros(width - |s|) + s
  }

  lemma {:induction false} DecimalStringLength(n: nat, k: nat)
    requires 1 <= k && n < Pow10(k)
    ensures |DecimalString(n)| <= k
  {
    if n >= 10 {
      DecimalStringLength(n / 10, k - 1);
    }
  }

  /** The format `03d` of an f-string: at least three digits, zero-padded. */
  function Format03(n: nat): (s: string)
    ensures 3 <= |s| && AllDigits(s)
    ensures n < 1000 ==> |s| == 3
    ensures n >= 1000 ==> s == DecimalString(n)
  {
    var d := DecimalString(n);
    if n < 1000 then
      DecimalStringLength(n, 3);
      ZeroPad(d, 3)
    else
      ZeroPad(d, 3)
  }

  /** `int()` ignores leading zeros. */
  lemma {:induction false} DecimalValueLeadingZero(s: string)
    requires AllDigits(s)
    ensures AllDigits("0" + s) && DecimalValue("0" + s) == DecimalValue(s)
    decreases |s|
  {
    var t := "0" + s;
    if s != [] {
      assert t[..|t| - 1] == "0" + s[..|s| - 1];
      DecimalValueLeadingZero(s[..|s| - 1]);
    }
  }

  lemma {:induction false} DecimalValueZeros(z: nat, s: string)
    requires AllDigits(s)
    ensures AllDigits(Zeros(z) + s)
    ensures DecimalValue(Zeros(z) + s) == DecimalValue(s)
    decreases z
  {
    if z > 0 {
      var rest := Zeros(z - 1) + s;
      assert Zeros(z) + s == "0" + rest;
      DecimalValueZeros(z - 1, s);
      DecimalValueLeadingZero(rest);
    } else {
      assert Zeros(z) + s == s;
    }
  }

  /** Reading back a `03d`-formatted numeral with `int()` gives the number. */
  lemma Format03RoundTrip(n: nat)
    ensures DecimalValue(Format03(n)) == n
  {
    var d := DecimalString(n);
    if |d| < 3 {
      assert Format03(n) == Zeros(3 - |d|) + d;
      DecimalValueZeros(3 - |d|, d);
    }
  }

  // ---------------------------------------------------------------------------
  // strip, split and join

  /** The end of the run of whitespace that starts at index `i`. */
  function SpaceRunEnd(s: string, i: nat): (j: nat)
    requires i <= |s|
    ensures i <= j <= |s|
    ensures forall k :: i <= k < j ==> IsSpace(s[k])
    ensures j < |s| ==> !IsSpace(s[j])
    decreases |s| - i
  {
    if i < |s| && IsSpace(s[i]) then SpaceRunEnd(s, i + 1) else i
  }

  /** The start of the run of whitespace that ends just before index `j`. */
  function SpaceRunStart(s: string, j: nat): (i: nat)
    requires j <= |s|
    ensures i <= j
    ensures forall k :: i <= k < j ==> IsSpace(s[k])
    ensures 0 < i ==> !IsSpace(s[i - 1])
    decreases j
  {
    if 0 < j && IsSpace(s[j - 1]) then SpaceRunStart(s, j - 1) else j
  }

  /** The whitespace run is determined by where it starts and by the first
      character after it. */
  lemma SpaceRunEndAt(s: string, i: nat, j: nat)
    requires i <= j <= |s|
    requires forall k :: i <= k < j ==> IsSpace(s[k])
    requires j < |s| ==> !IsSpace(s[j])
    ensures SpaceRunEnd(s, i) == j
  {
  }

  /** `s.lstrip()`. */
  function TrimStart(s: string): (r: string)
    ensures |r| <= |s| && r == s[|s| - |r|..]
    ensures forall k :: 0 <= k < |s| - |r| ==> IsSpace(s[k])
    ensures r == [] || !IsSpace(r[0])
  {
    s[SpaceRunEnd(s, 0)..]
  }

  /** `s.rstrip()`. */
  function TrimEnd(s: string): (r: string)
    ensures |r| <= |s| && r == s[..|r|]
    ensures forall k :: |r| <= k < |s| ==> IsSpace(s[k])
    ensures r == [] || !IsSpace(r[|r| - 1])
  {
    s[..SpaceRunStart(s, |s|)]
  }

  lemma AppendAssoc<T>(a: seq<T>, b: seq<T>, c: seq<T>)
    ensures a + (b + c) == (a + b) + c
  {
  }

  /** No whitespace at either end. */
  predicate Stripped(s: string)
  {
    s == [] || (!IsSpace(s[0]) && !IsSpace(s[|s| - 1]))
  }

  /** `s.strip()`: the slice of `s` between the leading whitespace (which ends
      at index `i`) and the trailing whitespace; it has whitespace at neither
      end, so it is the longest such slice. */
  function Strip(s: string): (r: string)
    ensures Stripped(r)
    ensures r == [] <==> forall k :: 0 <= k < |s| ==> IsSpace(s[k])
    ensures var i := SpaceRunEnd(s, 0);
      && i + |r| <= |s| && r == s[i..i + |r|]
      && (forall k :: 0 <= k < i ==> IsSpace(s[k]))
      && (forall k :: i + |r| <= k < |s| ==> IsSpace(s[k]))
    ensures forall c :: c in r ==> c in s
  {
    var t := TrimStart(s);
    var r := TrimEnd(t);
    TrimBothSlice(s, t, r);
    assert r == [] ==> t == [];
    r
  }

  lemma TrimBothSlice(s: string, t: string, r: string)
    requires |t| <= |s| && t == s[|s| - |t|..]
    requires |r| <= |t| && r == t[..|r|]
    requires forall k :: |r| <= k < |t| ==> IsSpace(t[k])
    ensures var i := |s| - |t|;
      && i + |r| <= |s| && r == s[i..i + |r|]
      && (forall k :: i + |r| <= k < |s| ==> IsSpace(s[k]))
      && (forall c :: c in r ==> c in s)
  {
    var i := |s| - |t|;
    PrefixOfSuffix(s, i, t, r);
    forall k | i + |r| <= k < |s| ensures IsSpace(s[k]) {
      assert s[k] == t[k - i];
    }
    forall c | c in r ensures c in s {
      var k :| 0 <= k < |r| && r[k] == c;
      assert s[i + k] == c;
    }
  }

  lemma PrefixOfSuffix<T>(s: seq<T>, i: nat, t: seq<T>, r: seq<T>)
    requires i <= |s| && t == s[i..] && |r| <= |t| && r == t[..|r|]
    ensures r == s[i..i + |r|]
  {
  }

  lemma StripStripped(s: string)
    requires Stripped(s)
    ensures Strip(s) == s
  {
    assert s[0..] == s;
  }

  /** Leading whitespace does not change what `strip()` returns. */
  lemma StripLeadingSpace(c: char, s: string)
    requires IsSpace(c)
    ensures Strip([c] + s) == Strip(s)
  {
    var cs := [c] + s;
    var e := SpaceRunEnd(s, 0);
    assert forall k :: 1 <= k <= |s| ==> cs[k] == s[k - 1];
    SpaceRunEndAt(cs, 0, e + 1);
    assert TrimStart(cs) == cs[e + 1..] == s[e..] == TrimStart(s);
  }

  /** `sep.join(parts)`. */
  function Join(parts: seq<string>, sep: string): string
  {
    if |parts| == 0 then []
    else if |parts| == 1 then parts[0]
    else parts[0] + sep + Join(parts[1..], sep)
  }

  lemma JoinAppend(parts: seq<string>, sep: string, x: string)
    requires parts != []
    ensures Join(parts + [x], sep) == Join(parts, sep) + sep + x
  {
    if |parts| > 1 {
      assert (parts + [x])[1..] == parts[1..] + [x];
      JoinAppend(parts[1..], sep, x);
    }
  }

  /** `s.split(sep)` for a one-character separator: every piece between
      separators, including empty ones; an empty string gives one empty piece. */
  function Split(s: string, sep: char): (r: seq<string>)
    ensures |r| >= 1
    ensures forall i :: 0 <= i < |r| ==> sep !in r[i]
    ensures Join(r, [sep]) == s
    decreases |s|
  {
    if s == [] then [[]]
    else
      var rest := Split(s[1..], sep);
      if s[0] == sep then [[]] + rest
      else
        var r := [[s[0]] + rest[0]] + rest[1..];
        assert r[1..] == rest[1..];
        r
  }

  /** Splitting at one separator splits the two sides independently. */
  lemma {:induction false} SplitConcat(a: string, b: string, sep: char)
    ensures Split(a + [sep] + b, sep) == Split(a, sep) + Split(b, sep)
    decreases |a|
  {
    var s := a + [sep] + b;
    if a == [] {
      assert s[1..] == b;
    } else {
      assert s[1..] == a[1..] + [sep] + b;
      SplitConcat(a[1..], b, sep);
    }
  }

  /** Splitting a string without the separator gives that string alone. */
  lemma {:induction false} SplitNoSeparator(s: string, sep: char)
    requires sep !in s
    ensures Split(s, sep) == [s]
    decreases |s|
  {
    if s != [] {
      SplitNoSeparator(s[1..], sep);
    }
  }

  // ---------------------------------------------------------------------------
  // String ordering and sorted()

  /** Python's `a <= b` on `str`: lexicographic on code points, a prefix first. */
  predicate StrLe(a: string, b: string)
  {
    if a == [] then true
    else if b == [] then false
    else if a[0] != b[0] then a[0] < b[0]
    else StrLe(a[1..], b[1..])
  }

  lemma {:induction false} StrLeTotal(a: string, b: string)
    ensures StrLe(a, b) || StrLe(b, a)
  {
    if a != [] && b != [] && a[0] == b[0] {
      StrLeTotal(a[1..], b[1..]);
    }
  }

  lemma {:induction false} StrLeTransitive(a: string, b: string, c: string)
    requires StrLe(a, b) && StrLe(b, c)
    ensures StrLe(a, c)
  {
    if a != [] && b != [] && c != [] && a[0] == b[0] == c[0] {
      StrLeTransitive(a[1..], b[1..], c[1..]);
    }
  }

  lemma {:induction false} StrLeAntisymmetric(a: string, b: string)
    requires StrLe(a, b) && StrLe(b, a)
    ensures a == b
  {
    if a != [] && b != [] {
      StrLeAntisymmetric(a[1..], b[1..]);
      assert a == [a[0]] + a[1..];
      assert b == [b[0]] + b[1..];
    }
  }

  predicate SortedStrings(s: seq<string>)
  {
    forall i, j :: 0 <= i < j < |s| ==> StrLe(s[i], s[j])
  }

  function InsertString(x: string, t: seq<string>): (r: seq<string>)
    requires SortedStrings(t)
    ensures SortedStrings(r)
    ensures multiset(r) == multiset(t) + multiset{x}
  {
    if t == [] || StrLe(x, t[0]) then
      InsertStringFront(x, t);
      [x] + t
    else
      StrLeTotal(x, t[0]);
      var rest := InsertString(x, t[1..]);
      InsertStringBehind(x, t, rest);
      [t[0]] + rest
  }

  lemma InsertStringFront(x: string, t: seq<string>)
    requires SortedStrings(t) && (t == [] || StrLe(x, t[0]))
    ensures SortedStrings([x] + t)
  {
    var r := [x] + t;
    forall i, j | 0 <= i < j < |r| ensures StrLe(r[i], r[j]) {
      if i == 0 && j > 1 { StrLeTransitive(x, t[0], t[j - 1]); }
    }
  }

  lemma InsertStringBehind(x: string, t: seq<string>, rest: seq<string>)
    requires t != [] && SortedStrings(t) && StrLe(t[0], x)
    requires SortedStrings(rest) && multiset(rest) == multiset(t[1..]) + multiset{x}
    ensures SortedStrings([t[0]] + rest)
    ensures multiset([t[0]] + rest) == multiset(t) + multiset{x}
  {
    assert t == [t[0]] + t[1..];
    var r := [t[0]] + rest;
    forall i, j | 0 <= i < j < |r| ensures StrLe(r[i], r[j]) {
      if i == 0 {
        var y := rest[j - 1];
        assert y in multiset(rest);
        if y != x {
          assert y in multiset(t[1..]);
          var m :| 0 <= m < |t| - 1 && t[1..][m] == y;
          assert t[m + 1] == y;
        }
      } else {
        assert r[i] == rest[i - 1] && r[j] == rest[j - 1];
      }
    }
  }

  /** `sorted(s)` for a list of `str`. */
  function SortStrings(s: seq<string>): (r: seq<string>)
    ensures SortedStrings(r)
    ensures multiset(r) == multiset(s)
  {
    if s == [] then []
    else
      assert s == [s[0]] + s[1..];
      InsertString(s[0], SortStrings(s[1..]))
  }

  lemma SortOneString(x: string)
    ensures SortStrings([x]) == [x]
  {
    var one: seq<string> := [x];
    assert one[1..] == [];
    assert [x] + [] == one;
  }

  // ---------------------------------------------------------------------------
  // Stable sorted(key=...)

  predicate SortedByKey<T>(s: seq<T>, key: T -> int)
  {
    forall i, j :: 0 <= i < j < |s| ==> key(s[i]) <= key(s[j])
  }

  /** The elements of `s` whose key is `k`, in the order of `s`. */
  function WithKey<T>(s: seq<T>, key: T -> int, k: int): (r: seq<T>)
    ensures |r| <= |s|
  {
    if s == [] then []
    else WithKey(s[..|s| - 1], key, k) + (if key(s[|s| - 1]) == k then [s[|s| - 1]] else [])
  }

  lemma {:induction false} WithKeyConcat<T>(a: seq<T>, b: seq<T>, key: T -> int, k: int)
    ensures WithKey(a + b, key, k) == WithKey(a, key, k) + WithKey(b, key, k)
    decreases |b|
  {
    if b == [] {
      assert a + b == a;
    } else {
      assert (a + b)[..|a + b| - 1] == a + b[..|b| - 1];
      assert (a + b)[|a + b| - 1] == b[|b| - 1];
      WithKeyConcat(a, b[..|b| - 1], key, k);
    }
  }

  lemma WithKeySingle<T>(x: T, key: T -> int, k: int)
    ensures WithKey([x], key, k) == if key(x) == k then [x] else []
  {
    assert [x][..0] == [];
  }

  /** Places `x` after the last element of the sorted `t` whose key is at most
      `key(x)`, so that `x` follows every element with an equal key. */
  function InsertByKey<T>(t: seq<T>, x: T, key: T -> int): (r: seq<T>)
    requires SortedByKey(t, key)
    ensures SortedByKey(r, key)
    ensures multiset(r) == multiset(t) + multiset{x}
  {
    if t == [] || key(t[|t| - 1]) <= key(x) then
      InsertByKeyBack(t, x, key);
      t + [x]
    else
      var rest := InsertByKey(t[..|t| - 1], x, key);
      InsertByKeyBefore(t, x, key, rest);
      rest + [t[|t| - 1]]
  }

  lemma InsertByKeyBack<T>(t: seq<T>, x: T, key: T -> int)
    requires SortedByKey(t, key) && (t == [] || key(t[|t| - 1]) <= key(x))
    ensures SortedByKey(t + [x], key)
  {
    var r := t + [x];
    forall i, j | 0 <= i < j < |r| ensures key(r[i]) <= key(r[j]) {
      if j == |t| && i < |t| - 1 { assert key(t[i]) <= key(t[|t| - 1]); }
    }
  }

  lemma InsertByKeyBefore<T>(t: seq<T>, x: T, key: T -> int, rest: seq<T>)
    requires t != [] && SortedByKey(t, key) && key(x) < key(t[|t| - 1])
    requires SortedByKey(rest, key) && multiset(rest) == multiset(t[..|t| - 1]) + multiset{x}
    ensures SortedByKey(rest + [t[|t| - 1]], key)
    ensures multiset(rest + [t[|t| - 1]]) == multiset(t) + multiset{x}
  {
    var last := t[|t| - 1];
    assert t == t[..|t| - 1] + [last];
    var r := rest + [last];
    forall i, j | 0 <= i < j < |r| ensures key(r[i]) <= key(r[j]) {
      if j == |rest| {
        assert rest[i] in multiset(rest);
        if rest[i] != x {
          assert rest[i] in multiset(t[..|t| - 1]);
          var m :| 0 <= m < |t| - 1 && t[m] == rest[i];
        }
      }
    }
  }

  lemma {:induction false} InsertByKeyStable<T>(t: seq<T>, x: T, key: T -> int, k: int)
    requires SortedByKey(t, key)
    ensures WithKey(InsertByKey(t, x, key), key, k) == WithKey(t, key, k) + WithKey([x], key, k)
    decreases |t|
  {
    if t == [] || key(t[|t| - 1]) <= key(x) {
      WithKeyConcat(t, [x], key, k);
    } else {
      var last := t[|t| - 1];
      var init := t[..|t| - 1];
      var rest := InsertByKey(init, x, key);
      assert t == init + [last];
      InsertByKeyStable(init, x, key, k);
      WithKeyConcat(rest, [last], key, k);
      WithKeyConcat(init, [last], key, k);
      var w, wx, wl := WithKey(init, key, k), WithKey([x], key, k), WithKey([last], key, k);
      if wx == [] {
        assert w + wx == w;
        assert (w + wl) + wx == w + wl;
      } else {
        assert wl == [] by { WithKeySingle(last, key, k); WithKeySingle(x, key, k); }
        assert w + wl == w;
        assert (w + wx) + wl == w + wx;
      }
    }
  }

  /** Python's `sorted(s, key=key)`: ordered by key and a permutation of `s`. */
  function SortByKey<T>(s: seq<T>, key: T -> int): (r: seq<T>)
    ensures SortedByKey(r, key)
    ensures multiset(r) == multiset(s)
    decreases |s|
  {
    if s == [] then []
    else
      assert s == s[..|s| - 1] + [s[|s| - 1]];
      InsertByKey(SortByKey(s[..|s| - 1], key), s[|s| - 1], key)
  }

  /** `sorted` is stable: the elements sharing a key keep their relative order. */
  lemma {:induction false} SortByKeyStable<T>(s: seq<T>, key: T -> int, k: int)
    ensures WithKey(SortByKey(s, key), key, k) == WithKey(s, key, k)
    decreases |s|
  {
    if s != [] {
      var init := s[..|s| - 1];
      assert s == init + [s[|s| - 1]];
      SortByKeyStable(init, key, k);
      InsertByKeyStable(SortByKey(init, key), s[|s| - 1], key, k);
      WithKeyConcat(init, [s[|s| - 1]], key, k);
    }
  }

  // ---------------------------------------------------------------------------
  // Sequences

  predicate Distinct<T(==)>(s: seq<T>)
  {
    forall i, j :: 0 <= i < j < |s| ==> s[i] != s[j]
  }

  lemma DistinctCons<T>(x: T, t: seq<T>)
    ensures Distinct([x] + t) <==> Distinct(t) && x !in t
  {
    var s := [x] + t;
    if Distinct(s) {
      forall i, j | 0 <= i < j < |t| ensures t[i] != t[j] {
        assert t[i] == s[i + 1] && t[j] == s[j + 1];
      }
      forall k | 0 <= k < |t| ensures t[k] != x {
        assert t[k] == s[k + 1] && x == s[0];
      }
    }
  }

  /** A sequence is free of duplicates exactly when no element occurs twice. */
  lemma {:induction false} DistinctIffCounts<T>(s: seq<T>)
    ensures Distinct(s) <==> forall x :: multiset(s)[x] <= 1
    decreases |s|
  {
    if s != [] {
      var t := s[1..];
      assert s == [s[0]] + t;
      DistinctCons(s[0], t);
      DistinctIffCounts(t);
      assert forall x :: multiset(s)[x] == multiset(t)[x] + (if x == s[0] then 1 else 0);
      if forall x :: multiset(s)[x] <= 1 {
        assert multiset(t)[s[0]] == 0;
      }
    }
  }

  /** A permutation of a duplicate-free sequence is duplicate-free. */
  lemma DistinctPermutation<T>(a: seq<T>, b: seq<T>)
    requires multiset(a) == multiset(b)
    ensures Distinct(a) ==> Distinct(b)
  {
    DistinctIffCounts(a);
    DistinctIffCounts(b);
  }

  /** Two duplicate-free sequences with the same elements are permutations of
      each other. */
  lemma DistinctSameElements<T>(a: seq<T>, b: seq<T>)
    requires Distinct(a) && Distinct(b)
    requires forall x :: x in a <==> x in b
    ensures multiset(a) == multiset(b)
  {
    DistinctIffCounts(a);
    DistinctIffCounts(b);
    forall x ensures multiset(a)[x] == multiset(b)[x] {
      assert x in a <==> x in multiset(a);
      assert x in b <==> x in multiset(b);
    }
  }

  /** `list.remove(x)`: drops the first occurrence of `x`. */
  function RemoveFirst<T(==)>(s: seq<T>, x: T): (r: seq<T>)
    requires x in s
    ensures r == s[..FirstIndex(s, x)] + s[FirstIndex(s, x) + 1..]
    ensures |r| == |s| - 1
    ensures multiset(r) == multiset(s) - multiset{x}
  {
    RemoveAt(s, FirstIndex(s, x));
    if s[0] == x then
      assert s[..0] == [];
      s[1..]
    else
      ConsRemoveAt(s, FirstIndex(s[1..], x));
      [s[0]] + RemoveFirst(s[1..], x)
  }

  lemma ConsRemoveAt<T>(s: seq<T>, k: nat)
    requires k + 1 < |s|
    ensures [s[0]] + (s[1..][..k] + s[1..][k + 1..]) == s[..k + 1] + s[k + 2..]
  {
    assert s[..k + 1] == [s[0]] + s[1..][..k];
    assert s[k + 2..] == s[1..][k + 1..];
    AppendAssoc([s[0]], s[1..][..k], s[1..][k + 1..]);
  }

  lemma RemoveAt<T>(s: seq<T>, k: nat)
    requires k < |s|
    ensures |s[..k] + s[k + 1..]| == |s| - 1
    ensures multiset(s[..k] + s[k + 1..]) == multiset(s) - multiset{s[k]}
  {
    assert s == s[..k] + [s[k]] + s[k + 1..];
  }

  /** The position of the first occurrence of `x` in `s`. */
  function FirstIndex<T(==)>(s: seq<T>, x: T): (k: nat)
    requires x in s
    ensures k < |s| && s[k] == x && x !in s[..k]
  {
    if s[0] == x then 0
    else
      var k := FirstIndex(s[1..], x);
      assert s[..k + 1] == [s[0]] + s[1..][..k];
      k + 1
  }

  predicate EndsWith(s: string, suffix: string)
  {
    |suffix| <= |s| && s[|s| - |suffix|..] == suffix
  }

  /** A suffix without the separator ends `prefix + sep + name` exactly when
      it ends `name`. */
  lemma EndsWithAfterSeparator(prefix: string, sep: char, name: string, suffix: string)
    requires sep !in suffix
    ensures EndsWith(prefix + [sep] + name, suffix) <==> EndsWith(name, suffix)
  {
    var path := prefix + [sep] + name;
    if |name| >= |suffix| {
      assert path[|path| - |suffix|..] == name[|name| - |suffix|..];
    } else if |suffix| <= |path| {
      var j := |suffix| - |name| - 1;
      assert path[|path| - |suffix|..][j] == sep;
    }
  }
}
