/**
 * The few Python `str` operations the report scripts rely on, over `seq<char>`:
 * `lower`, `strip`, `in` (substring), `startswith`, `split(",")`, `join`,
 * `isdigit`/`int`, `title`, `replace(",", "")`, slicing, and the regular
 * expression substitution `[^a-z0-9]+ -> ""`.
 * Case mapping is ASCII only (see README).
 */
module Strings {

  predicate IsUpper(c: char) { 'A' <= c <= 'Z' }
  predicate IsLower(c: char) { 'a' <= c <= 'z' }
  predicate IsLetter(c: char) { IsUpper(c) || IsLower(c) }
  predicate IsDigit(c: char) { '0' <= c <= '9' }

  function LowerChar(c: char): (d: char)
    ensures !IsUpper(d)
    ensures IsUpper(c) ==> d as int == c as int + 32
    ensures !IsUpper(c) ==> d == c
  {
    if IsUpper(c) then (c as int + 32) as char else c
  }

  function UpperChar(c: char): (d: char)
    ensures !IsLower(d)
    ensures IsLower(c) ==> d as int == c as int - 32
    ensures !IsLower(c) ==> d == c
  {
    if IsLower(c) then (c as int - 32) as char else c
  }

  /** Python `s.lower()`, restricted to ASCII letters. */
  function Lower(s: string): (r: string)
    ensures |r| == |s|
    ensures forall i :: 0 <= i < |s| ==> r[i] == LowerChar(s[i])
  {
    seq(|s|, i requires 0 <= i < |s| => LowerChar(s[i]))
  }

  /** The characters Python's `str.isspace` (and so `strip()` and the regex `\s`) accept. */
  predicate IsSpace(c: char)
  {
    var n := c as int;
    (9 <= n <= 13) || (28 <= n <= 32) || n == 0x85 || n == 0xA0 || n == 0x1680
    || (0x2000 <= n <= 0x200A) || n == 0x2028 || n == 0x2029 || n == 0x202F
    || n == 0x205F || n == 0x3000
  }

  function TrimLeft(s: string): (r: string)
  {
    if |s| > 0 && IsSpace(s[0]) then TrimLeft(s[1..]) else s
  }

  function TrimRight(s: string): (r: string)
  {
    if |s| > 0 && IsSpace(s[|s| - 1]) then TrimRight(s[..|s| - 1]) else s
  }

  /** Python `s.strip()`. */
  function Trim(s: string): string
  {
    TrimRight(TrimLeft(s))
  }

  /** `strip()` leaves alone a string that neither starts nor ends with a space. */
  lemma TrimUnpadded(s: string)
    requires |s| > 0 ==> !IsSpace(s[0]) && !IsSpace(s[|s| - 1])
    ensures Trim(s) == s
  {
  }

  /** `sub` occurs in `s` starting at index `i`. */
  predicate OccursAt(s: string, sub: string, i: int)
  {
    0 <= i && i + |sub| <= |s| && s[i..i + |sub|] == sub
  }

  /** `sub in s` for strings. */
  predicate Contains(s: string, sub: string)
  {
    exists i | 0 <= i <= |s| - |sub| :: OccursAt(s, sub, i)
  }

  /** `any(k in s for k in keys)`, the keys listed in any order. */
  predicate ContainsAny(s: string, keys: seq<string>)
  {
    |keys| > 0 && (Contains(s, keys[0]) || ContainsAny(s, keys[1..]))
  }

  lemma {:induction false} ContainsAnyIff(s: string, keys: seq<string>)
    ensures ContainsAny(s, keys) <==> exists i :: 0 <= i < |keys| && Contains(s, keys[i])
  {
    if |keys| > 0 {
      ContainsAnyIff(s, keys[1..]);
      assert forall i :: 1 <= i < |keys| ==> keys[i] == keys[1..][i - 1];
    }
  }

  predicate StartsWith(s: string, prefix: string)
  {
    |prefix| <= |s| && s[..|prefix|] == prefix
  }

  /** `re.sub(r"[^a-z0-9]+", "", s)`: keeps only lower-case ASCII letters and digits. */
  function KeepAlnum(s: string): (r: string)
  {
    if s == [] then []
    else (if IsLower(s[0]) || IsDigit(s[0]) then [s[0]] else []) + KeepAlnum(s[1..])
  }

  /** `s.replace(c, "")`. */
  function RemoveChar(s: string, c: char): (r: string)
    ensures c !in r
    ensures |r| <= |s|
  {
    if s == [] then [] else (if s[0] == c then [] else [s[0]]) + RemoveChar(s[1..], c)
  }

  /** Removing a character works piece by piece, so every other character stays,
      in its order. */
  lemma {:induction false} RemoveCharConcat(a: string, b: string, c: char)
    ensures RemoveChar(a + b, c) == RemoveChar(a, c) + RemoveChar(b, c)
  {
    if a != [] {
      assert (a + b)[1..] == a[1..] + b;
      RemoveCharConcat(a[1..], b, c);
    } else {
      assert a + b == b;
    }
  }

  /** One character is dropped exactly when it is `c`. */
  lemma RemoveCharOne(x: char, c: char)
    ensures RemoveChar([x], c) == if x == c then [] else [x]
  {
    assert [x][1..] == [];
  }

  /** `s[:n]`. */
  function Prefix(s: string, n: nat): (r: string)
    ensures |r| == if |s| <= n then |s| else n
  {
    if |s| <= n then s else s[..n]
  }

  /** `s[-n:]` for n > 0. */
  function Suffix(s: string, n: nat): (r: string)
    ensures |r| == if |s| <= n then |s| else n
  {
    if |s| <= n then s else s[|s| - n..]
  }

  /** `sep.join(parts)` for a one-character separator. */
  function Join(parts: seq<string>, sep: char): string
  {
    if |parts| == 0 then ""
    else if |parts| == 1 then parts[0]
    else parts[0] + [sep] + Join(parts[1..], sep)
  }

  /** `s.split(sep)` for a one-character separator: never empty, "" gives [""]. */
  function Split(s: string, sep: char): (r: seq<string>)
    ensures |r| >= 1
  {
    if |s| == 0 then [""]
    else
      var rest := Split(s[1..], sep);
      if s[0] == sep then [""] + rest else [[s[0]] + rest[0]] + rest[1..]
  }

  lemma {:induction false} SplitNoSep(s: string, sep: char)
    requires sep !in s
    ensures Split(s, sep) == [s]
  {
    if |s| > 0 {
      SplitNoSep(s[1..], sep);
      assert [s[0]] + s[1..] == s;
    }
  }

  lemma {:induction false} SplitAppend(p: string, sep: char, rest: string)
    requires sep !in p
    ensures Split(p + [sep] + rest, sep) == [p] + Split(rest, sep)
  {
    if |p| == 0 {
      assert p + [sep] + rest == [sep] + rest;
      assert ([sep] + rest)[1..] == rest;
    } else {
      SplitAppend(p[1..], sep, rest);
      assert (p + [sep] + rest)[1..] == p[1..] + [sep] + rest;
      assert [p[0]] + p[1..] == p;
    }
  }

  /** Splitting a join on the same separator gives the parts back, when no part holds it. */
  lemma {:induction false} SplitJoin(parts: seq<string>, sep: char)
    requires |parts| >= 1
    requires forall i :: 0 <= i < |parts| ==> sep !in parts[i]
    ensures Split(Join(parts, sep), sep) == parts
  {
    if |parts| == 1 {
      SplitNoSep(parts[0], sep);
    } else {
      SplitJoin(parts[1..], sep);
      SplitAppend(parts[0], sep, Join(parts[1..], sep));
      assert [parts[0]] + parts[1..] == parts;
    }
  }

  lemma ContainsInLeft(a: string, b: string, key: string)
    requires Contains(a, key)
    ensures Contains(a + b, key)
  {
    var i :| 0 <= i <= |a| - |key| && OccursAt(a, key, i);
    assert (a + b)[i..i + |key|] == a[i..i + |key|];
    assert OccursAt(a + b, key, i);
  }

  lemma ContainsInRight(a: string, b: string, key: string)
    requires Contains(b, key)
    ensures Contains(a + b, key)
  {
    var i :| 0 <= i <= |b| - |key| && OccursAt(b, key, i);
    assert (a + b)[|a| + i..|a| + i + |key|] == b[i..i + |key|];
    assert OccursAt(a + b, key, |a| + i);
  }

  /** A key without the separator that occurs around a separator lies on one side of it. */
  lemma ContainsAroundSep(a: string, sep: char, b: string, key: string)
    requires sep !in key
    requires Contains(a + [sep] + b, key)
    ensures Contains(a, key) || Contains(b, key)
  {
    var all := a + [sep] + b;
    var i :| 0 <= i <= |all| - |key| && OccursAt(all, key, i);
    if i + |key| <= |a| {
      assert a[i..i + |key|] == all[i..i + |key|];
      assert OccursAt(a, key, i);
    } else if i > |a| {
      var i' := i - |a| - 1;
      assert b[i'..i' + |key|] == all[i..i + |key|];
      assert OccursAt(b, key, i');
    } else {
      CharOfOccurrence(all, key, i, |a| - i);
      assert false;
    }
  }

  lemma CharOfOccurrence(s: string, sub: string, i: int, k: int)
    requires OccursAt(s, sub, i) && 0 <= k < |sub|
    ensures sub[k] == s[i + k]
  {
    assert s[i..i + |sub|][k] == s[i + k];
  }

  /** A key without the separator occurs in a join exactly when it occurs in one of the parts. */
  lemma {:induction false} JoinContains(parts: seq<string>, sep: char, key: string)
    requires sep !in key && |key| > 0
    ensures Contains(Join(parts, sep), key) <==> exists i :: 0 <= i < |parts| && Contains(parts[i], key)
  {
    if |parts| == 0 {
      assert Join(parts, sep) == "";
    } else if |parts| == 1 {
      assert Join(parts, sep) == parts[0];
    } else {
      JoinContains(parts[1..], sep, key);
      var j := Join(parts[1..], sep);
      assert Join(parts, sep) == parts[0] + [sep] + j;
      if Contains(parts[0] + [sep] + j, key) {
        ContainsAroundSep(parts[0], sep, j, key);
        if Contains(j, key) {
          var w :| 0 <= w < |parts[1..]| && Contains(parts[1..][w], key);
          assert parts[w + 1] == parts[1..][w];
        }
      }
      if exists i :: 0 <= i < |parts| && Contains(parts[i], key) {
        var w :| 0 <= w < |parts| && Contains(parts[w], key);
        if w == 0 {
          ContainsInLeft(parts[0], [sep] + j, key);
          assert parts[0] + ([sep] + j) == parts[0] + [sep] + j;
        } else {
          assert parts[1..][w - 1] == parts[w];
          ContainsInRight(parts[0] + [sep], j, key);
        }
      }
    }
  }

  /** The same for a list of keys, none of them empty or holding the separator. */
  lemma JoinContainsAny(parts: seq<string>, sep: char, keys: seq<string>)
    requires forall j | 0 <= j < |keys| :: sep !in keys[j] && |keys[j]| > 0
    ensures ContainsAny(Join(parts, sep), keys) <==>
      exists i, j :: 0 <= i < |parts| && 0 <= j < |keys| && Contains(parts[i], keys[j])
  {
    ContainsAnyIff(Join(parts, sep), keys);
    forall j | 0 <= j < |keys|
      ensures Contains(Join(parts, sep), keys[j]) <==> exists i :: 0 <= i < |parts| && Contains(parts[i], keys[j])
    {
      JoinContains(parts, sep, keys[j]);
    }
  }

  function DigitChar(d: nat): (c: char)
    requires d < 10
    ensures IsDigit(c)
  {
    ('0' as int + d) as char
  }

  /** Python `str(n)` for a non-negative integer. */
  function NatToString(n: nat): (s: string)
    ensures |s| >= 1
    ensures forall i :: 0 <= i < |s| ==> IsDigit(s[i])
  {
    if n < 10 then [DigitChar(n)] else NatToString(n / 10) + [DigitChar(n % 10)]
  }

  /** Python `str(i)`. */
  function IntToString(i: int): (s: string)
    ensures |s| >= 1
  {
    if i < 0 then "-" + NatToString(-i) else NatToString(i)
  }

  /** Python `s.isdigit()` for ASCII digits. */
  predicate IsDigits(s: string)
  {
    |s| > 0 && forall i :: 0 <= i < |s| ==> IsDigit(s[i])
  }

  /** Python `int(s)` for a string of digits. */
  function DigitsValue(s: string): nat
    requires forall i :: 0 <= i < |s| ==> IsDigit(s[i])
  {
    if s == [] then 0
    else
      assert IsDigit(s[|s| - 1]);
      DigitsValue(s[..|s| - 1]) * 10 + (s[|s| - 1] as int - '0' as int)
  }

  /** `int(str(n)) == n`. */
  lemma {:induction false} DigitsOfNat(n: nat)
    ensures DigitsValue(NatToString(n)) == n
  {
    var s := NatToString(n);
    if n >= 10 {
      DigitsOfNat(n / 10);
      assert s[..|s| - 1] == NatToString(n / 10);
    }
  }

  /** Python `str.title()` on ASCII text: a letter is upper-cased when it follows a
      non-letter (or starts the string) and lower-cased otherwise. */
  function Title(s: string): (r: string)
    ensures |r| == |s|
  {
    TitleAfter(s, false)
  }

  function TitleAfter(s: string, afterLetter: bool): (r: string)
    ensures |r| == |s|
  {
    if s == [] then []
    else
      var c := if !IsLetter(s[0]) then s[0] else if afterLetter then LowerChar(s[0]) else UpperChar(s[0]);
      [c] + TitleAfter(s[1..], IsLetter(s[0]))
  }
}
