/**
 * The few pieces of Java's `int` and `String` behaviour that the inventory code relies on:
 * two's-complement `int` arithmetic, `Math.abs`, `toLowerCase`, `trim`, `split(":")`,
 * `Integer.parseInt` and `Integer.toString`.
 */
module JavaLang {
  import opened Wrappers

  const MinInt: int := -0x8000_0000
  const MaxInt: int := 0x7fff_ffff
  const Modulus: int := 0x1_0000_0000

  /** The values of a Java `int`. */
  type Int32 = x: int | -0x8000_0000 <= x <= 0x7fff_ffff

  // ---------------------------------------------------------------- int arithmetic

  /** Java's `a + b` on `int`: the one `int` congruent to the exact sum modulo 2^32. */
  function Add(a: Int32, b: Int32): (r: Int32)
    ensures (r - (a + b)) % Modulus == 0
    ensures MinInt <= a + b <= MaxInt ==> r == a + b
  {
    if a + b > MaxInt then a + b - Modulus
    else if a + b < MinInt then a + b + Modulus
    else a + b
  }

  /** Java's unary `-a` on `int`; negating `Integer.MIN_VALUE` gives it back. */
  function Neg(a: Int32): (r: Int32)
    ensures (r + a) % Modulus == 0
    ensures a != MinInt ==> r == -a
  {
    if a == MinInt then MinInt else -a
  }

  /** `Math.abs(int)`, which returns `Integer.MIN_VALUE` unchanged (and so negative). */
  function Abs(a: Int32): (r: Int32)
    ensures a != MinInt ==> r >= 0 && (r == a || r == -a)
    ensures a == MinInt ==> r == MinInt
  {
    if a < 0 then Neg(a) else a
  }

  /** Adding `a` and then its Java negation gives back the starting value, wrap-around included. */
  lemma AddThenNegRestores(s: Int32, a: Int32)
    ensures Add(Add(s, a), Neg(a)) == s
  {
  }

  // ---------------------------------------------------------------- characters

  /** `Character.toLowerCase` restricted to the ASCII letters. */
  function LowerChar(c: char): char {
    if 'A' <= c <= 'Z' then (c as int + 32) as char else c
  }

  /** `String.toLowerCase`, letter by letter: the same length, each character lower-cased. */
  function ToLower(s: string): string {
    seq(|s|, i requires 0 <= i < |s| => LowerChar(s[i]))
  }

  lemma ToLowerIdempotent(s: string)
    ensures ToLower(ToLower(s)) == ToLower(s)
  {
  }

  /** Lower-casing neither creates nor removes a `':'`. */
  lemma ToLowerKeepsColons(s: string)
    ensures (':' in ToLower(s)) <==> (':' in s)
  {
    if ':' in s {
      var i :| 0 <= i < |s| && s[i] == ':';
      assert ToLower(s)[i] == ':';
    }
    if ':' in ToLower(s) {
      var i :| 0 <= i < |s| && ToLower(s)[i] == ':';
      assert s[i] == ':';
    }
  }

  // ---------------------------------------------------------------- trim

  /** The characters `String.trim` removes from both ends: code points up to U+0020. */
  predicate IsBlank(c: char) {
    c <= ' '
  }

  /** A string that `trim` leaves as it is: empty, or starting and ending with a non-blank. */
  predicate Trimmed(s: string) {
    s == [] || (!IsBlank(s[0]) && !IsBlank(s[|s| - 1]))
  }

  function TrimStart(s: string): string {
    if s != [] && IsBlank(s[0]) then TrimStart(s[1..]) else s
  }

  function TrimEnd(s: string): string {
    if s != [] && IsBlank(s[|s| - 1]) then TrimEnd(s[..|s| - 1]) else s
  }

  /** `String.trim`: drops the blanks at both ends. */
  function Trim(s: string): string {
    TrimEnd(TrimStart(s))
  }

  /**
   * Dropping leading blanks leaves a suffix that is empty or starts with a non-blank, and
   * everything dropped is blank.
   */
  lemma {:induction false} TrimStartSuffix(s: string)
    ensures var r := TrimStart(s);
            && |r| <= |s| && r == s[|s| - |r|..]
            && (r == [] || !IsBlank(r[0]))
            && (forall i :: 0 <= i < |s| - |r| ==> IsBlank(s[i]))
            && (r == [] <==> forall i :: 0 <= i < |s| ==> IsBlank(s[i]))
  {
    if s != [] && IsBlank(s[0]) {
      TrimStartSuffix(s[1..]);
      assert forall i :: 1 <= i < |s| ==> s[i] == s[1..][i - 1];
    }
  }

  /**
   * Dropping trailing blanks leaves a prefix that is empty or ends with a non-blank, and
   * everything dropped is blank.
   */
  lemma {:induction false} TrimEndPrefix(s: string)
    ensures var r := TrimEnd(s);
            && |r| <= |s| && r == s[..|r|]
            && (r == [] || !IsBlank(r[|r| - 1]))
            && (forall i :: |r| <= i < |s| ==> IsBlank(s[i]))
            && (s != [] && !IsBlank(s[0]) ==> r != [])
  {
    if s != [] && IsBlank(s[|s| - 1]) {
      TrimEndPrefix(s[..|s| - 1]);
    }
  }

  /**
   * What `trim` promises: the result is the slice of `s` left once the blanks at both ends
   * are removed, so it is itself trimmed, keeps only characters of `s`, is empty exactly when
   * `s` is all blanks, and a trimmed `s` comes back unchanged.
   */
  lemma TrimProperties(s: string)
    ensures exists i, j :: 0 <= i <= j <= |s| && Trim(s) == s[i..j]
              && (forall k :: 0 <= k < i ==> IsBlank(s[k]))
              && (forall k :: j <= k < |s| ==> IsBlank(s[k]))
    ensures Trimmed(Trim(s))
    ensures forall c :: c in Trim(s) ==> c in s
    ensures Trim(s) == [] <==> forall i :: 0 <= i < |s| ==> IsBlank(s[i])
    ensures Trimmed(s) ==> Trim(s) == s
  {
    var t := TrimStart(s);
    var r := Trim(s);
    TrimStartSuffix(s);
    TrimEndPrefix(t);
    var i, j := |s| - |t|, |s| - |t| + |r|;
    assert r == s[i..j];
    assert forall k :: j <= k < |s| ==> s[k] == t[k - i];
    assert r != [] ==> r[0] == t[0];
    forall c | c in r
      ensures c in s
    {
      var i :| 0 <= i < |r| && r[i] == c;
      assert s[|s| - |t| + i] == c;
    }
    if Trimmed(s) && s != [] {
      assert t == s;
    }
  }

  /** Lower-casing keeps a string trimmed: no blank is a letter. */
  lemma ToLowerKeepsTrimmed(s: string)
    requires Trimmed(s)
    ensures Trimmed(ToLower(s))
  {
  }

  // ---------------------------------------------------------------- split(":")

  /** Joins fields with `':'`: the inverse of `Fields`. */
  function Join(fields: seq<string>): string
    requires fields != []
  {
    if |fields| == 1 then fields[0] else fields[0] + ":" + Join(fields[1..])
  }

  /** All `':'`-separated fields of `s`, empty ones included, in order. */
  function Fields(s: string): (r: seq<string>)
    ensures |r| >= 1
  {
    if s == [] then [[]]
    else
      var rest := Fields(s[1..]);
      if s[0] == ':' then [[]] + rest
      else [[s[0]] + rest[0]] + rest[1..]
  }

  /** No field holds a `':'`. */
  lemma {:induction false} FieldsAreColonFree(s: string)
    ensures forall i :: 0 <= i < |Fields(s)| ==> ':' !in Fields(s)[i]
  {
    if s != [] {
      FieldsAreColonFree(s[1..]);
    }
  }

  /** Splitting and joining again gives back the string. */
  lemma {:induction false} JoinFields(s: string)
    ensures Join(Fields(s)) == s
  {
    if s != [] {
      var rest := Fields(s[1..]);
      JoinFields(s[1..]);
      if s[0] == ':' {
        assert Fields(s)[1..] == rest;
      } else {
        var f := Fields(s);
        assert f[0] == [s[0]] + rest[0];
        if |rest| == 1 {
          assert Join(f) == [s[0]] + rest[0];
        } else {
          assert f[1..] == rest[1..];
          assert Join(f) == [s[0]] + rest[0] + ":" + Join(rest[1..]);
        }
      }
    }
  }

  /** A string without `':'` is a single field. */
  lemma {:induction false} FieldsOfColonFree(s: string)
    requires ':' !in s
    ensures Fields(s) == [s]
  {
    if s != [] {
      FieldsOfColonFree(s[1..]);
      assert [s[0]] + s[1..] == s;
    }
  }

  /** `name:value` has exactly the two fields `name` and `value` when neither holds a `':'`. */
  lemma {:induction false} FieldsOfPair(name: string, value: string)
    requires ':' !in name && ':' !in value
    ensures Fields(name + ":" + value) == [name, value]
  {
    var s := name + ":" + value;
    if name == [] {
      assert s[1..] == value;
      FieldsOfColonFree(value);
    } else {
      assert s[1..] == name[1..] + ":" + value;
      FieldsOfPair(name[1..], value);
      assert [s[0]] + name[1..] == name;
    }
  }

  /** A colon-free field followed by `':'` is the first field; the rest are those after it. */
  lemma {:induction false} FieldsAfterColonFree(first: string, rest: string)
    requires ':' !in first
    ensures Fields(first + ":" + rest) == [first] + Fields(rest)
  {
    var s := first + ":" + rest;
    if first == [] {
      assert s[1..] == rest;
    } else {
      assert s[1..] == first[1..] + ":" + rest;
      FieldsAfterColonFree(first[1..], rest);
      assert [s[0]] + first[1..] == first;
    }
  }

  /** `fields` without its trailing empty fields. */
  function DropTrailingEmpty(fields: seq<string>): seq<string> {
    if fields != [] && fields[|fields| - 1] == [] then DropTrailingEmpty(fields[..|fields| - 1])
    else fields
  }

  /** What is dropped is the empty tail: the rest is a prefix that ends in a non-empty field. */
  lemma {:induction false} DropTrailingEmptyPrefix(fields: seq<string>)
    ensures var r := DropTrailingEmpty(fields);
            && |r| <= |fields| && r == fields[..|r|]
            && (forall i :: |r| <= i < |fields| ==> fields[i] == [])
            && (r == [] || r[|r| - 1] != [])
  {
    if fields != [] && fields[|fields| - 1] == [] {
      DropTrailingEmptyPrefix(fields[..|fields| - 1]);
    }
  }

  /**
   * `String.split(":")`: a string with no `':'` comes back whole (even when empty); otherwise
   * its fields, with the trailing empty ones removed, so `"a:"` has one part and `":"` none.
   */
  function Split(s: string): seq<string> {
    if ':' !in s then [s] else DropTrailingEmpty(Fields(s))
  }

  /**
   * The parts of `split(":")` hold no `':'`. A string without `':'` is its only part; otherwise
   * the parts are the string's fields up to the trailing empty ones, and the last part kept is
   * not empty.
   */
  lemma SplitParts(s: string)
    ensures forall i :: 0 <= i < |Split(s)| ==> ':' !in Split(s)[i]
    ensures ':' !in s ==> Split(s) == [s]
    ensures ':' in s ==> Split(s) == [] || Split(s)[|Split(s)| - 1] != []
    ensures ':' in s ==> var f := Fields(s);
              && |Split(s)| <= |f| && Split(s) == f[..|Split(s)|]
              && forall i :: |Split(s)| <= i < |f| ==> f[i] == []
  {
    FieldsAreColonFree(s);
    if ':' in s {
      var f := Fields(s);
      var r := DropTrailingEmpty(f);
      DropTrailingEmptyPrefix(f);
      assert forall i :: 0 <= i < |r| ==> r[i] == f[i];
    }
  }

  /** Two colon-free parts around one `':'`, the second non-empty, split into exactly those parts. */
  lemma SplitPair(name: string, value: string)
    requires ':' !in name && ':' !in value && value != []
    ensures Split(name + ":" + value) == [name, value]
  {
    var s := name + ":" + value;
    assert s[|name|] == ':';
    FieldsOfPair(name, value);
  }

  /** Three colon-free parts, the last non-empty, split into exactly those three parts. */
  lemma SplitTriple(a: string, b: string, c: string)
    requires ':' !in a && ':' !in b && ':' !in c && c != []
    ensures Split(a + ":" + b + ":" + c) == [a, b, c]
  {
    var s := a + ":" + b + ":" + c;
    assert s == a + ":" + (b + ":" + c);
    assert s[|a|] == ':';
    FieldsAfterColonFree(a, b + ":" + c);
    FieldsOfPair(b, c);
  }

  // ---------------------------------------------------------------- Integer.parseInt / toString

  predicate IsDigit(c: char) {
    '0' <= c <= '9'
  }

  predicate AllDigits(s: string) {
    forall i :: 0 <= i < |s| ==> IsDigit(s[i])
  }

  /** The value of a string of decimal digits, most significant first. */
  function DigitsValue(s: string): nat
    requires AllDigits(s)
  {
    if s == [] then 0 else DigitsValue(s[..|s| - 1]) * 10 + (s[|s| - 1] as int - '0' as int)
  }

  /**
   * `Integer.parseInt(s)`: an optional `-` or `+`, then at least one digit, and a value
   * within the `int` range; anything else is `None` (Java throws `NumberFormatException`).
   */
  function ParseInt(s: string): (r: Option<Int32>)
    ensures r.Some? ==> s != [] && AllDigits(s[1..])
    ensures r.Some? ==> IsDigit(s[0]) || ((s[0] == '-' || s[0] == '+') && |s| >= 2)
  {
    if s == [] then None
    else
      var negative := s[0] == '-';
      var digits := if s[0] == '-' || s[0] == '+' then s[1..] else s;
      if digits == [] || !AllDigits(digits) then None
      else
        var v: int := if negative then -(DigitsValue(digits) as int) else DigitsValue(digits);
        if MinInt <= v <= MaxInt then Some(v) else None
  }

  /** The decimal digits of `n`, most significant first. */
  function NatDigits(n: nat): string {
    var d := ['0' + (n % 10) as char];
    if n < 10 then d else NatDigits(n / 10) + d
  }

  /** `NatDigits` writes at least one digit, no leading zero, and exactly the value `n`. */
  lemma {:induction false} NatDigitsValue(n: nat)
    ensures var r := NatDigits(n);
            && r != [] && AllDigits(r)
            && (r[0] != '0' || n == 0)
            && DigitsValue(r) == n
  {
    if n >= 10 {
      NatDigitsValue(n / 10);
      var r := NatDigits(n);
      assert r[..|r| - 1] == NatDigits(n / 10);
    }
  }

  /** `Integer.toString(n)`: a `-` for negatives, then the digits of the magnitude. */
  function IntToString(n: Int32): string {
    if n < 0 then "-" + NatDigits(-(n as int)) else NatDigits(n)
  }

  /** `Integer.parseInt` reads back what `Integer.toString` writes. */
  lemma ParseIntToString(n: Int32)
    ensures ParseInt(IntToString(n)) == Some(n)
  {
    var s := IntToString(n);
    if n < 0 {
      NatDigitsValue(-(n as int));
      assert s[1..] == NatDigits(-(n as int));
    } else {
      NatDigitsValue(n);
    }
  }

  /** What `Integer.toString` writes has no blank at either end and no `':'`. */
  lemma IntToStringIsPlain(n: Int32)
    ensures Trimmed(IntToString(n)) && ':' !in IntToString(n)
  {
    var s := IntToString(n);
    NatDigitsValue(if n < 0 then -(n as int) else n);
    assert forall i :: 0 <= i < |s| ==> s[i] == '-' || IsDigit(s[i]);
  }
}
