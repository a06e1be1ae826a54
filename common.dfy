/** Shared values and the string and integer primitives of .NET and JavaScript
    that the rest of the model relies on. */
module Common {

  datatype Option<+T> = None | Some(value: T)

  /** C# `int`. */
  const MinInt32: int := -0x8000_0000
  const MaxInt32: int := 0x7FFF_FFFF
  type int32 = x: int | -0x8000_0000 <= x <= 0x7FFF_FFFF

  /** C# `byte`, `ushort` and `uint`. */
  type uint8 = x: int | 0 <= x < 0x100
  type uint16 = x: int | 0 <= x < 0x1_0000
  type uint32 = x: int | 0 <= x < 0x1_0000_0000

  /** `x++` on a C# `int` in an unchecked context: two's-complement addition,
      so the result is the one `int` congruent to x + 1 modulo 2^32 (the
      maximum wraps to the minimum). */
  function Increment32(x: int32): (r: int32)
    ensures (r - x - 1) % 0x1_0000_0000 == 0
  {
    if x == MaxInt32 then MinInt32 else x + 1
  }

  // ---------------------------------------------------------------------
  // Substring containment: .NET `String.Contains(string)` (ordinal) and
  // JavaScript `String.prototype.includes`.

  /** `t` occurs in `s` starting at position `i`. */
  predicate OccursAt(s: string, t: string, i: int) {
    0 <= i && i + |t| <= |s| && s[i..i + |t|] == t
  }

  predicate Contains(s: string, t: string)
    decreases |s|
  {
    t <= s || (|s| > 0 && Contains(s[1..], t))
  }

  /** An occurrence at some position is found by Contains. */
  lemma {:induction false} OccursImpliesContains(s: string, t: string, i: int)
    requires OccursAt(s, t, i)
    ensures Contains(s, t)
    decreases i
  {
    if i == 0 {
      assert s[..|t|] == t;
    } else {
      assert s[1..][i - 1..i - 1 + |t|] == s[i..i + |t|];
      OccursImpliesContains(s[1..], t, i - 1);
    }
  }

  /** Contains only holds when there is an occurrence. */
  lemma {:induction false} ContainsImpliesOccurs(s: string, t: string)
    requires Contains(s, t)
    ensures exists i :: OccursAt(s, t, i)
    decreases |s|
  {
    if t <= s {
      assert OccursAt(s, t, 0);
    } else {
      ContainsImpliesOccurs(s[1..], t);
      var i :| OccursAt(s[1..], t, i);
      assert s[i + 1..i + 1 + |t|] == s[1..][i..i + |t|];
      assert OccursAt(s, t, i + 1);
    }
  }

  /** Contains is exactly "occurs at some position". */
  lemma ContainsIffOccurs(s: string, t: string)
    ensures Contains(s, t) <==> exists i :: OccursAt(s, t, i)
  {
    if Contains(s, t) {
      ContainsImpliesOccurs(s, t);
    }
    if i :| OccursAt(s, t, i) {
      OccursImpliesContains(s, t, i);
    }
  }

  /** Every string contains the empty string. */
  lemma ContainsEmpty(s: string)
    ensures Contains(s, "")
  {
    assert "" <= s;
  }

  /** A string can only contain strings no longer than itself. */
  lemma {:induction false} ContainsShorter(s: string, t: string)
    requires Contains(s, t)
    ensures |t| <= |s|
    decreases |s|
  {
    if !(t <= s) {
      ContainsShorter(s[1..], t);
    }
  }

  // ---------------------------------------------------------------------
  // Lower-casing: .NET `ToLower()` and JavaScript `toLowerCase()`, restricted
  // to the ASCII letters.

  function LowerChar(c: char): char {
    if 'A' <= c <= 'Z' then (c as int + 32) as char else c
  }

  function Lower(s: string): string {
    seq(|s|, i requires 0 <= i < |s| => LowerChar(s[i]))
  }

  /** Lower-casing keeps the length, leaves no ASCII capital, and keeps
      every character that is not one. */
  lemma LowerHasNoCapitals(s: string)
    ensures |Lower(s)| == |s|
    ensures forall i :: 0 <= i < |s| ==> !('A' <= Lower(s)[i] <= 'Z')
    ensures forall i :: 0 <= i < |s| && !('A' <= s[i] <= 'Z') ==> Lower(s)[i] == s[i]
  {
  }

  /** Lower-casing twice changes nothing more. */
  lemma LowerIdempotent(s: string)
    ensures Lower(Lower(s)) == Lower(s)
  {
  }

  // ---------------------------------------------------------------------
  // .NET `Trim(new char[] { c })`: removes every leading and trailing `c`.

  function TrimStart(s: string, c: char): string
    decreases |s|
  {
    if |s| > 0 && s[0] == c then TrimStart(s[1..], c) else s
  }

  function TrimEnd(s: string, c: char): string
    decreases |s|
  {
    if |s| > 0 && s[|s| - 1] == c then TrimEnd(s[..|s| - 1], c) else s
  }

  function Trim(s: string, c: char): string {
    TrimEnd(TrimStart(s, c), c)
  }

  /** TrimStart removes a prefix, and what it leaves does not start with `c`. */
  lemma {:induction false} TrimStartSuffix(s: string, c: char)
    ensures var r := TrimStart(s, c);
            && |r| <= |s| && r == s[|s| - |r|..] && (r == [] || r[0] != c)
            && forall j :: 0 <= j < |s| - |r| ==> s[j] == c
    decreases |s|
  {
    if |s| > 0 && s[0] == c {
      TrimStartSuffix(s[1..], c);
    }
  }

  /** TrimEnd removes a suffix, and what it leaves does not end with `c`. */
  lemma {:induction false} TrimEndPrefix(s: string, c: char)
    ensures var r := TrimEnd(s, c);
            && |r| <= |s| && r == s[..|r|] && (r == [] || r[|r| - 1] != c)
            && forall j :: |r| <= j < |s| ==> s[j] == c
    decreases |s|
  {
    if |s| > 0 && s[|s| - 1] == c {
      TrimEndPrefix(s[..|s| - 1], c);
    }
  }

  /** Trim leaves the piece of the string between a run of leading and a run
      of trailing `c`s, and that piece neither starts nor ends with `c`. */
  lemma TrimEnds(s: string, c: char)
    ensures var r := Trim(s, c); var i := |s| - |TrimStart(s, c)|;
            && OccursAt(s, r, i)
            && (forall j :: 0 <= j < i ==> s[j] == c)
            && (forall j :: i + |r| <= j < |s| ==> s[j] == c)
            && (r == [] || (r[0] != c && r[|r| - 1] != c))
  {
    var t := TrimStart(s, c);
    TrimStartSuffix(s, c);
    TrimEndPrefix(t, c);
  }

  /** Trimming a character that does not occur leaves the string as it is. */
  lemma TrimAbsent(s: string, c: char)
    requires c !in s
    ensures Trim(s, c) == s
  {
  }

  /** .NET `Replace(char, char)`. */
  function ReplaceChar(s: string, from: char, to: char): string {
    seq(|s|, i requires 0 <= i < |s| => if s[i] == from then to else s[i])
  }

  /** After the replacement no `from` is left, every other character is
      kept in place, and a string without `from` is unchanged. */
  lemma ReplaceCharRemovesAll(s: string, from: char, to: char)
    requires from != to
    ensures var r := ReplaceChar(s, from, to);
            && |r| == |s| && from !in r
            && (forall i :: 0 <= i < |s| && s[i] != from ==> r[i] == s[i])
            && (from !in s ==> r == s)
  {
  }

  // ---------------------------------------------------------------------
  // JavaScript truthiness of an optional string field of a request body:
  // undefined, null and "" are falsy.

  predicate Truthy(o: Option<string>) {
    o.Some? && o.value != ""
  }
}
