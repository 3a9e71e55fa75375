/** The few functions of packages `strings`, `strconv` and `sort` the program uses, on bytes or on characters. */
module GoText {
  import opened Common

  function Bytes(s: string): bytes
    requires forall i :: 0 <= i < |s| ==> s[i] < '\U{80}'
  {
    seq(|s|, i requires 0 <= i < |s| => s[i] as int)
  }

  function B(c: char): byte
    requires c < '\U{80}'
  {
    c as int
  }

  // ---------- split and join ----------

  /** `strings.Split` at every separator byte. */
  function Split(s: bytes, sep: byte): (parts: seq<bytes>)
    ensures parts != []
  {
    if s == [] then [[]]
    else
      var rest := Split(s[1..], sep);
      if s[0] == sep then [[]] + rest else [[s[0]] + rest[0]] + rest[1..]
  }

  function Join(parts: seq<bytes>, sep: byte): bytes
    requires parts != []
  {
    if |parts| == 1 then parts[0] else parts[0] + [sep] + Join(parts[1..], sep)
  }

  predicate Free(s: bytes, sep: byte) {
    forall i :: 0 <= i < |s| ==> s[i] != sep
  }

  lemma {:induction false} SplitJoin(s: bytes, sep: byte)
    ensures Join(Split(s, sep), sep) == s
    ensures forall i :: 0 <= i < |Split(s, sep)| ==> Free(Split(s, sep)[i], sep)
  {
    if s != [] {
      SplitJoin(s[1..], sep);
      var rest := Split(s[1..], sep);
      if s[0] == sep {
        var parts := [[]] + rest;
        assert parts[1..] == rest;
        assert Join(parts, sep) == [] + [sep] + Join(rest, sep);
      } else {
        var parts := [[s[0]] + rest[0]] + rest[1..];
        assert parts[1..] == rest[1..];
        if |rest| > 1 {
          Associative([s[0]], rest[0], [sep]);
          Associative([s[0]], rest[0] + [sep], Join(rest[1..], sep));
        }
        assert Join(parts, sep) == [s[0]] + Join(rest, sep);
      }
      assert s == [s[0]] + s[1..];
    }
  }

  lemma {:induction false} SplitFree(s: bytes, sep: byte)
    requires Free(s, sep)
    ensures Split(s, sep) == [s]
  {
    if s != [] {
      SplitFree(s[1..], sep);
      assert [s[0]] + s[1..] == s;
      assert Split(s[1..], sep)[1..] == [];
    }
  }

  lemma {:induction false} SplitFirst(part: bytes, rest: bytes, sep: byte)
    requires Free(part, sep)
    ensures Split(part + [sep] + rest, sep) == [part] + Split(rest, sep)
  {
    var all := part + [sep] + rest;
    if part == [] {
      assert all[1..] == rest;
    } else {
      SplitFirst(part[1..], rest, sep);
      assert all[1..] == part[1..] + [sep] + rest;
      assert [part[0]] + part[1..] == part;
    }
  }

  lemma {:induction false} JoinSplit(parts: seq<bytes>, sep: byte)
    requires parts != [] && forall i :: 0 <= i < |parts| ==> Free(parts[i], sep)
    ensures Split(Join(parts, sep), sep) == parts
  {
    if |parts| == 1 {
      SplitFree(parts[0], sep);
    } else {
      JoinSplit(parts[1..], sep);
      SplitFirst(parts[0], Join(parts[1..], sep), sep);
    }
  }

  /** `strings.ReplaceAll` of a two-byte text by one byte. */
  function ReplacePair(s: bytes, a: byte, b: byte, c: byte): bytes {
    if s == [] then []
    else if |s| >= 2 && s[0] == a && s[1] == b then [c] + ReplacePair(s[2..], a, b, c)
    else [s[0]] + ReplacePair(s[1..], a, b, c)
  }

  // ---------- white space ----------

  predicate Blank(b: byte) {
    b == 9 || b == 10 || b == 13 || b == 32
  }

  /** `strings.TrimLeft(s, " \t\r\n")` */
  function TrimBlanks(s: bytes): (r: bytes)
    ensures |r| <= |s| && (r != [] ==> !Blank(r[0]))
  {
    if s != [] && Blank(s[0]) then TrimBlanks(s[1..]) else s
  }

  /** The length of the white space character at the front, by the Unicode White_Space property, or zero. */
  function SpaceLength(s: bytes): (n: nat)
    ensures n <= |s|
  {
    if s == [] then 0
    else if 9 <= s[0] <= 13 || s[0] == 32 then 1
    else if |s| >= 2 && s[0] == 0xC2 && (s[1] == 0x85 || s[1] == 0xA0) then 2
    else if |s| >= 3
         && ((s[0] == 0xE1 && s[1] == 0x9A && s[2] == 0x80)
             || (s[0] == 0xE2 && s[1] == 0x80 && (0x80 <= s[2] <= 0x8A || s[2] == 0xA8 || s[2] == 0xA9 || s[2] == 0xAF))
             || (s[0] == 0xE2 && s[1] == 0x81 && s[2] == 0x9F)
             || (s[0] == 0xE3 && s[1] == 0x80 && s[2] == 0x80)) then 3
    else 0
  }

  function SpaceSuffix(s: bytes): (n: nat)
    ensures n <= |s|
  {
    if |s| >= 1 && SpaceLength(s[|s| - 1..]) == 1 then 1
    else if |s| >= 2 && SpaceLength(s[|s| - 2..]) == 2 then 2
    else if |s| >= 3 && SpaceLength(s[|s| - 3..]) == 3 then 3
    else 0
  }

  function TrimLeftSpace(s: bytes): bytes {
    if SpaceLength(s) > 0 then TrimLeftSpace(s[SpaceLength(s)..]) else s
  }

  function TrimRightSpace(s: bytes): bytes {
    if SpaceSuffix(s) > 0 then TrimRightSpace(s[..|s| - SpaceSuffix(s)]) else s
  }

  /** `strings.TrimSpace` */
  function TrimSpace(s: bytes): bytes {
    TrimRightSpace(TrimLeftSpace(s))
  }

  // ---------- numbers ----------

  const MAX_INT := TWO_63 - 1

  predicate IsDigit(b: byte) {
    48 <= b <= 57
  }

  predicate AllDigits(s: bytes) {
    forall i :: 0 <= i < |s| ==> IsDigit(s[i])
  }

  function ValueOf(digits: bytes): nat
    requires AllDigits(digits)
  {
    if digits == [] then 0 else ValueOf(digits[..|digits| - 1]) * 10 + (digits[|digits| - 1] - 48)
  }

  predicate DigitChar(c: char) {
    '0' <= c <= '9'
  }

  function Digit(n: nat): char
    requires n < 10
  {
    "0123456789"[n]
  }

  /** Decimal digits, as `%d` prints them. */
  function Decimal(n: nat): string {
    if n < 10 then [Digit(n)] else Decimal(n / 10) + [Digit(n % 10)]
  }

  lemma {:induction false} DecimalDigits(n: nat)
    ensures Decimal(n) != "" && forall i :: 0 <= i < |Decimal(n)| ==> DigitChar(Decimal(n)[i])
  {
    assert forall d: nat :: d < 10 ==> DigitChar(Digit(d));
    if n >= 10 {
      DecimalDigits(n / 10);
    }
  }

  lemma {:induction false} DecimalInjective(m: nat, n: nat)
    requires Decimal(m) == Decimal(n)
    ensures m == n
  {
    assert forall d: nat, e: nat :: d < 10 && e < 10 && Digit(d) == Digit(e) ==> d == e;
    var a, b := Decimal(m / 10), Decimal(n / 10);
    DecimalDigits(m / 10);
    DecimalDigits(n / 10);
    assert m < 10 ==> |Decimal(m)| == 1;
    assert m >= 10 ==> |Decimal(m)| == |a| + 1;
    assert n < 10 ==> |Decimal(n)| == 1;
    assert n >= 10 ==> |Decimal(n)| == |b| + 1;
    if m >= 10 && n >= 10 {
      assert a == (a + [Digit(m % 10)])[..|a|] == (b + [Digit(n % 10)])[..|b|] == b;
      assert Digit(m % 10) == Decimal(m)[|a|] == Digit(n % 10);
      DecimalInjective(m / 10, n / 10);
    }
  }

  /** `strconv.Itoa` for a non-negative number. */
  function Itoa(n: nat): bytes {
    DecimalDigits(n);
    Bytes(Decimal(n))
  }

  /** `strconv.Atoi` on 64 bits. */
  function Atoi(s: bytes): Option<int> {
    var signed := s != [] && (s[0] == B('-') || s[0] == B('+'));
    var digits := if signed then s[1..] else s;
    if digits == [] || !AllDigits(digits) then None
    else
      var v: int := ValueOf(digits);
      if signed && s[0] == B('-') then if v <= MAX_INT + 1 then Some(-v) else None
      else if v <= MAX_INT then Some(v) else None
  }

  lemma {:induction false} ItoaDigits(n: nat)
    ensures Itoa(n) != [] && AllDigits(Itoa(n)) && ValueOf(Itoa(n)) == n
  {
    DecimalDigits(n);
    var text := Itoa(n);
    if n < 10 {
      assert text == [48 + n];
      assert text[..0] == [];
    } else {
      ItoaDigits(n / 10);
      assert text[..|text| - 1] == Itoa(n / 10);
      assert text[|text| - 1] == 48 + n % 10;
    }
  }

  lemma AtoiItoa(n: nat)
    requires n <= MAX_INT
    ensures Atoi(Itoa(n)) == Some(n)
  {
    ItoaDigits(n);
    assert IsDigit(Itoa(n)[0]);
  }

  lemma DigitIsNoSpace(s: bytes)
    requires s != [] && IsDigit(s[0])
    ensures SpaceLength(s) == 0
  {
  }

  lemma DigitsUntrimmed(s: bytes)
    requires AllDigits(s)
    ensures TrimSpace(s) == s
  {
    if s != [] {
      DigitIsNoSpace(s);
      DigitIsNoSpace(s[|s| - 1..]);
      if |s| >= 2 {
        DigitIsNoSpace(s[|s| - 2..]);
      }
      if |s| >= 3 {
        DigitIsNoSpace(s[|s| - 3..]);
      }
      assert TrimLeftSpace(s) == s;
    }
  }

  // ---------- sorted strings ----------

  /** Go's string order. */
  predicate Below(a: string, b: string) {
    b != "" && (a == "" || a[0] < b[0] || (a[0] == b[0] && Below(a[1..], b[1..])))
  }

  lemma {:induction false} BelowTotal(a: string, b: string)
    ensures Below(a, b) || a == b || Below(b, a)
    ensures !(Below(a, b) && (Below(b, a) || a == b))
  {
    if a != "" && b != "" {
      BelowTotal(a[1..], b[1..]);
      assert a == [a[0]] + a[1..] && b == [b[0]] + b[1..];
    }
  }

  lemma {:induction false} BelowTransitive(a: string, b: string, c: string)
    requires Below(a, b) && Below(b, c)
    ensures Below(a, c)
  {
    if a != "" && a[0] == b[0] && b[0] == c[0] {
      BelowTransitive(a[1..], b[1..], c[1..]);
    }
  }

  predicate Sorted(keys: seq<string>) {
    forall i, j :: 0 <= i < j < |keys| ==> Below(keys[i], keys[j])
  }

  function Insert(key: string, keys: seq<string>): seq<string> {
    if keys == [] || Below(key, keys[0]) then [key] + keys else [keys[0]] + Insert(key, keys[1..])
  }

  lemma {:induction false} InsertSorts(key: string, keys: seq<string>)
    requires Sorted(keys) && key !in keys
    ensures Sorted(Insert(key, keys))
    ensures forall k :: k in Insert(key, keys) <==> k == key || k in keys
  {
    if keys == [] {
    } else if Below(key, keys[0]) {
      forall i | 0 < i < |keys| ensures Below(key, keys[i]) {
        BelowTransitive(key, keys[0], keys[i]);
      }
    } else {
      assert keys == [keys[0]] + keys[1..];
      InsertSorts(key, keys[1..]);
      BelowTotal(key, keys[0]);
      var tail := Insert(key, keys[1..]);
      forall i | 0 <= i < |tail| ensures Below(keys[0], tail[i]) {
        assert tail[i] in tail;
      }
    }
  }

  /** `sort.Strings` on keys without duplicates. */
  function SortStrings(keys: seq<string>): seq<string> {
    if keys == [] then [] else Insert(keys[0], SortStrings(keys[1..]))
  }

  predicate Distinct(keys: seq<string>) {
    forall i, j :: 0 <= i < j < |keys| ==> keys[i] != keys[j]
  }

  lemma {:induction false} SortStringsSorts(keys: seq<string>)
    requires Distinct(keys)
    ensures Sorted(SortStrings(keys))
    ensures forall k :: k in SortStrings(keys) <==> k in keys
  {
    if keys != [] {
      SortStringsSorts(keys[1..]);
      assert keys == [keys[0]] + keys[1..];
      InsertSorts(keys[0], SortStrings(keys[1..]));
    }
  }

  lemma {:induction false} SortedUnique(a: seq<string>, b: seq<string>)
    requires Sorted(a) && Sorted(b) && forall k :: k in a <==> k in b
    ensures a == b
  {
    if a == [] {
      assert forall i :: 0 <= i < |b| ==> b[i] in b;
    } else {
      assert a[0] in b && b != [] && b[0] in a;
      var i :| 0 <= i < |b| && b[i] == a[0];
      var j :| 0 <= j < |a| && a[j] == b[0];
      BelowTotal(a[0], b[0]);
      assert a[0] == b[0];
      forall k ensures k in a[1..] <==> k in b[1..] {
        TailMembers(a, k);
        TailMembers(b, k);
      }
      SortedUnique(a[1..], b[1..]);
    }
  }

  lemma TailMembers(a: seq<string>, k: string)
    requires a != [] && Sorted(a)
    ensures k in a[1..] <==> k in a && k != a[0]
  {
    assert a == [a[0]] + a[1..];
    forall i | 0 <= i < |a[1..]| ensures a[1..][i] != a[0] {
      assert Below(a[0], a[i + 1]);
      BelowTotal(a[0], a[i + 1]);
    }
  }

  /** The sorted list of a set of keys; `SortedUnique` says there is only one. */
  ghost function SortedKeys(keys: set<string>): (r: seq<string>)
    ensures Sorted(r)
    ensures forall k :: k in r <==> k in keys
  {
    if keys == {} then []
    else
      var k :| k in keys;
      var rest := SortedKeys(keys - {k});
      InsertSorts(k, rest);
      Insert(k, rest)
  }
}
