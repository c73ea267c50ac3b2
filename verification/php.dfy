/**
 * The part of PHP's value semantics that the Pods core depends on, under PHP 7 rules:
 * a dynamically typed value, `empty()`, the `(int)` cast, the loose comparisons
 * against 0 that the source writes as `0 < $x` and `0 == $x`, and the string
 * functions `strpos`, `str_replace`, `ucwords`, `explode`, `implode` and `trim`
 * for the arguments the source gives them.
 */
module Php {

  datatype Option<T> = None | Some(value: T)

  /** A PHP value. Arrays keep their insertion order; integer keys are written as decimal strings. */
  datatype Value =
    | VNull
    | VBool(b: bool)
    | VInt(i: int)
    | VStr(s: string)
    | VArr(entries: seq<(string, Value)>)

  /** PHP's `false`, the source's "not found" and "failed" answer. */
  const False: Value := VBool(false)

  /** PHP `empty($v)`. */
  predicate Empty(v: Value)
  {
    match v
    case VNull => true
    case VBool(b) => !b
    case VInt(i) => i == 0
    case VStr(s) => s == "" || s == "0"
    case VArr(e) => e == []
  }

  /** Reading `$m[$k]` from a string-keyed array: an undefined index reads as null. */
  function Get<K>(m: map<K, Value>, k: K): (v: Value)
    ensures k !in m ==> v == VNull
    ensures k in m ==> v == m[k]
  {
    if k in m then m[k] else VNull
  }

  /** The first entry of an ordered array with key `k`, if there is one. */
  function Lookup(entries: seq<(string, Value)>, k: string): (r: Option<Value>)
    ensures r.Some? <==> exists i :: 0 <= i < |entries| && entries[i].0 == k
    ensures r.Some? ==> exists i :: 0 <= i < |entries| && entries[i] == (k, r.value)
  {
    if entries == [] then None
    else if entries[0].0 == k then Some(entries[0].1)
    else
      var r := Lookup(entries[1..], k);
      assert forall i :: 0 < i < |entries| ==> entries[i] == entries[1..][i - 1];
      r
  }

  predicate IsDigit(c: char) { '0' <= c <= '9' }

  /** The longest prefix of `s` made of decimal digits. */
  function LeadingDigits(s: string): (r: string)
    ensures r <= s
    ensures forall i :: 0 <= i < |r| ==> IsDigit(r[i])
    ensures |r| < |s| ==> !IsDigit(s[|r|])
  {
    if s == [] || !IsDigit(s[0]) then [] else [s[0]] + LeadingDigits(s[1..])
  }

  /** The number a string of decimal digits denotes. */
  function DecimalValue(ds: string): (n: nat)
    requires forall i :: 0 <= i < |ds| ==> IsDigit(ds[i])
    ensures ds == [] ==> n == 0
  {
    if ds == [] then 0
    else
      assert IsDigit(ds[|ds| - 1]);
      DecimalValue(ds[..|ds| - 1]) * 10 + (ds[|ds| - 1] as int - '0' as int)
  }

  /** `(int)` of a string: an optional sign followed by the leading decimal digits. */
  function StrToInt(s: string): (n: int)
    ensures s == [] ==> n == 0
    ensures s == [] || s[0] != '-' ==> n >= 0
  {
    if s != [] && s[0] == '-' then 0 - DecimalValue(LeadingDigits(s[1..])) as int
    else if s != [] && s[0] == '+' then DecimalValue(LeadingDigits(s[1..]))
    else DecimalValue(LeadingDigits(s))
  }

  /** The decimal digits of a natural number, without leading zeros. */
  function DecimalString(n: nat): (ds: string)
    ensures ds != []
    ensures forall i :: 0 <= i < |ds| ==> IsDigit(ds[i])
  {
    var d := ['0' + (n % 10) as char];
    if n < 10 then d else DecimalString(n / 10) + d
  }

  /** The decimal digits of a natural number denote that number. */
  lemma {:induction false} DecimalRoundTrip(n: nat)
    ensures DecimalValue(DecimalString(n)) == n
  {
    var ds := DecimalString(n);
    if n >= 10 {
      DecimalRoundTrip(n / 10);
      assert ds[..|ds| - 1] == DecimalString(n / 10);
    }
  }

  /** A string of digits is its own longest digit prefix. */
  lemma {:induction false} AllDigitsLeading(ds: string)
    requires forall i :: 0 <= i < |ds| ==> IsDigit(ds[i])
    ensures LeadingDigits(ds) == ds
  {
    if ds != [] {
      AllDigitsLeading(ds[1..]);
    }
  }

  /** PHP's decimal form of an integer, as `(string) $i` writes it. */
  function IntToString(i: int): (s: string)
    ensures s != [] && (i >= 0 ==> IsDigit(s[0])) && (i < 0 ==> s[0] == '-')
  {
    if i < 0 then "-" + DecimalString(-i) else DecimalString(i)
  }

  /** `(int)` reads back the integer that `(string)` wrote. */
  lemma IntStringRoundTrip(i: int)
    ensures StrToInt(IntToString(i)) == i
  {
    var ds := DecimalString(if i < 0 then -i else i);
    AllDigitsLeading(ds);
    DecimalRoundTrip(if i < 0 then -i else i);
    if i < 0 {
      assert IntToString(i)[1..] == ds;
    }
  }

  /**
   * The array key a scalar becomes in `array( $k => $v )`: null is '', a boolean 0 or 1, an
   * integer its decimal form. An array is an illegal offset, and PHP 7 drops the element.
   */
  function ArrayKey(k: Value): (r: Option<string>)
    ensures r.None? <==> k.VArr?
    ensures k.VStr? ==> r == Some(k.s)
    ensures k.VInt? ==> r.Some? && StrToInt(r.value) == k.i
    ensures k.VInt? ==> r == Some(IntToString(k.i))
    ensures k == VNull ==> r == Some("")
    ensures k.VBool? ==> r == Some(if k.b then "1" else "0")
  {
    match k
    case VNull => Some("")
    case VBool(b) => Some(if b then "1" else "0")
    case VInt(i) => IntStringRoundTrip(i); Some(IntToString(i))
    case VStr(s) => Some(s)
    case VArr(_) => None
  }

  /** PHP `(int) $v`. */
  function ToInt(v: Value): (n: int)
    ensures v.VInt? ==> n == v.i
    ensures v == VNull || v == False || v == VArr([]) ==> n == 0
    ensures v == VBool(true) ==> n == 1
    ensures v.VStr? ==> n == StrToInt(v.s)
    ensures v.VArr? && v.entries != [] ==> n == 1
  {
    match v
    case VNull => 0
    case VBool(b) => if b then 1 else 0
    case VInt(i) => i
    case VStr(s) => StrToInt(s)
    case VArr(e) => if e == [] then 0 else 1
  }

  /** PHP `0 < $v`: an array is greater than any number, anything else compares as a number. */
  predicate IsPositive(v: Value)
  {
    v.VArr? || 0 < ToInt(v)
  }

  /** PHP `0 == $v`: an array never equals a number, anything else compares as a number. */
  predicate LooseZero(v: Value)
  {
    !v.VArr? && ToInt(v) == 0
  }

  /** PHP `strlen($v) < 1`; `strlen` of an array answers null, which is below 1. */
  predicate StrlenZero(v: Value)
  {
    match v
    case VNull => true
    case VBool(b) => !b
    case VInt(_) => false
    case VStr(s) => s == ""
    case VArr(_) => true
  }

  lemma {:induction false} PositiveIsNotZero(v: Value)
    ensures IsPositive(v) ==> !LooseZero(v)
    ensures LooseZero(v) ==> !IsPositive(v)
  {
  }

  /** `0 === strpos($s, $p)` for a non-empty `$p`. */
  predicate StartsWith(s: string, p: string)
  {
    |p| <= |s| && s[..|p|] == p
  }

  /** `$n` occurs somewhere in `$h`. */
  predicate Occurs(h: string, n: string)
    decreases |h|
  {
    StartsWith(h, n) || (h != [] && Occurs(h[1..], n))
  }

  /** `false !== strpos($h, $n)`; under PHP 7 an empty needle is never found. */
  predicate StrPosFound(h: string, n: string)
  {
    n != [] && Occurs(h, n)
  }

  /** `str_replace($p, '', $s)`: every occurrence of `$p`, scanned left to right, is removed. */
  function RemoveAll(s: string, p: string): (r: string)
    requires p != []
    ensures |r| <= |s|
    ensures !Occurs(s, p) ==> r == s
    ensures forall d :: d in r ==> d in s
    decreases |s|
  {
    if s == [] then []
    else if StartsWith(s, p) then RemoveAll(s[|p|..], p)
    else [s[0]] + RemoveAll(s[1..], p)
  }

  /**
   * What `str_replace($p, '', $s)` does at the first occurrence of `$p`: the text before it is
   * kept as it is, the occurrence is removed, and the scan goes on after it.
   */
  lemma {:induction false} RemoveAllSplit(a: string, p: string, b: string)
    requires p != []
    requires !Occurs(a + p[..|p| - 1], p)
    ensures RemoveAll(a + p + b, p) == a + RemoveAll(b, p)
    decreases |a|
  {
    if a == [] {
      assert a + p + b == p + b;
      RemoveAllHit(p + b, p);
      assert (p + b)[|p|..] == b;
    } else {
      SplitStep(a, p, b);
      RemoveAllSplit(a[1..], p, b);
      RemoveAllSkip(a + p + b, p);
      ConsAppend(a, RemoveAll(b, p));
    }
  }

  /** Moving one character of `a` past the recursion keeps the precondition of `RemoveAllSplit`. */
  lemma SplitStep(a: string, p: string, b: string)
    requires a != [] && p != []
    requires !Occurs(a + p[..|p| - 1], p)
    ensures !Occurs(a[1..] + p[..|p| - 1], p)
    ensures !StartsWith(a + p + b, p)
    ensures (a + p + b) != [] && (a + p + b)[0] == a[0] && (a + p + b)[1..] == a[1..] + p + b
  {
    assert a[1..] + p[..|p| - 1] == (a + p[..|p| - 1])[1..];
    NotStartingHere(a, p, b);
  }

  lemma ConsAppend(a: string, x: string)
    requires a != []
    ensures [a[0]] + (a[1..] + x) == a + x
  {
    assert [a[0]] + a[1..] == a;
  }

  /** An occurrence at the front is removed and the scan goes on after it. */
  lemma RemoveAllHit(s: string, p: string)
    requires p != [] && StartsWith(s, p)
    ensures RemoveAll(s, p) == RemoveAll(s[|p|..], p)
  {
  }

  /** A character that starts no occurrence is kept. */
  lemma RemoveAllSkip(s: string, p: string)
    requires p != [] && s != [] && !StartsWith(s, p)
    ensures RemoveAll(s, p) == [s[0]] + RemoveAll(s[1..], p)
  {
  }

  /** With no occurrence starting inside `a`, the text `a + p + b` does not start with `p`. */
  lemma NotStartingHere(a: string, p: string, b: string)
    requires a != [] && p != []
    requires !Occurs(a + p[..|p| - 1], p)
    ensures !StartsWith(a + p + b, p)
  {
    var w := a + p[..|p| - 1];
    assert !StartsWith(w, p);
    assert (a + p + b)[..|p|] == w[..|p|];
  }

  predicate IsWordDelimiter(c: char)
  {
    c == ' ' || c == '\t' || c == '\r' || c == '\n' || c == '\U{000C}' || c == '\U{000B}'
  }

  function Upper(c: char): (u: char)
    ensures 'a' <= c <= 'z' ==> 'A' <= u <= 'Z'
    ensures !('a' <= c <= 'z') ==> u == c
  {
    if 'a' <= c <= 'z' then (c as int - 'a' as int + 'A' as int) as char else c
  }

  /** `ucwords`, continuing a scan whose previous character was a delimiter when `atStart`. */
  function UcwordsFrom(s: string, atStart: bool): (r: string)
    ensures |r| == |s|
    ensures s != [] ==> r[0] == (if atStart then Upper(s[0]) else s[0])
    ensures forall i {:trigger r[i]} :: 0 < i < |s| ==> r[i] == (if IsWordDelimiter(s[i - 1]) then Upper(s[i]) else s[i])
  {
    if s == [] then []
    else
      var rest := UcwordsFrom(s[1..], IsWordDelimiter(s[0]));
      [if atStart then Upper(s[0]) else s[0]] + rest
  }

  /** PHP `ucwords($s)`: the first letter of the string and every letter after a blank is upper-cased. */
  function Ucwords(s: string): (r: string)
    ensures |r| == |s|
    ensures forall i {:trigger r[i]} :: 0 <= i < |s| ==>
      r[i] == (if i == 0 || IsWordDelimiter(s[i - 1]) then Upper(s[i]) else s[i])
  {
    UcwordsFrom(s, true)
  }

  /** `explode($sep, $s)` for a one-character separator. */
  function Explode(sep: char, s: string): (parts: seq<string>)
    ensures |parts| >= 1
    ensures forall k :: 0 <= k < |parts| ==> sep !in parts[k]
  {
    if s == [] then [[]]
    else
      var rest := Explode(sep, s[1..]);
      if s[0] == sep then [[]] + rest
      else [[s[0]] + rest[0]] + rest[1..]
  }

  /** `implode($sep, $parts)` for a one-character separator. */
  function Implode(sep: char, parts: seq<string>): (s: string)
    ensures |parts| == 1 ==> s == parts[0]
  {
    if parts == [] then []
    else if |parts| == 1 then parts[0]
    else parts[0] + [sep] + Implode(sep, parts[1..])
  }

  /** Joining one more piece appends the separator and that piece. */
  lemma {:induction false} ImplodeAppend(sep: char, parts: seq<string>, x: string)
    requires parts != []
    ensures Implode(sep, parts + [x]) == Implode(sep, parts) + [sep] + x
    decreases |parts|
  {
    if |parts| == 1 {
      assert parts + [x] == [parts[0], x];
      assert (parts + [x])[1..] == [x];
    } else {
      assert (parts + [x])[1..] == parts[1..] + [x];
      ImplodeAppend(sep, parts[1..], x);
    }
  }

  /** Joining the pieces of a string at the separator gives the string back. */
  lemma {:induction false} ImplodeExplode(sep: char, s: string)
    ensures Implode(sep, Explode(sep, s)) == s
    decreases |s|
  {
    if s != [] {
      ImplodeExplode(sep, s[1..]);
      var rest := Explode(sep, s[1..]);
      if s[0] == sep {
        assert Implode(sep, [[]] + rest) == [] + [sep] + Implode(sep, rest);
      } else {
        var parts := [[s[0]] + rest[0]] + rest[1..];
        if |rest| == 1 {
          assert rest == [rest[0]];
        } else {
          assert parts[1..] == rest[1..];
          assert Implode(sep, rest) == rest[0] + [sep] + Implode(sep, rest[1..]);
        }
      }
    }
  }

  /** `explode('/', $s)[0]`: the part of `$s` before its first '/'. */
  function BeforeFirst(sep: char, s: string): (r: string)
    ensures r <= s
    ensures sep !in r
    ensures |r| < |s| ==> s[|r|] == sep
  {
    if s == [] || s[0] == sep then [] else [s[0]] + BeforeFirst(sep, s[1..])
  }

  /** How many copies of `c` `ltrim($s, $c)` removes: the length of the run of `c` that starts `s`. */
  function LeadingRun(s: string, c: char): (n: nat)
    ensures n <= |s|
    ensures forall k :: 0 <= k < n ==> s[k] == c
    ensures n < |s| ==> s[n] != c
  {
    if s != [] && s[0] == c then
      var n := 1 + LeadingRun(s[1..], c);
      assert forall k :: 1 <= k < n ==> s[k] == s[1..][k - 1];
      n
    else
      0
  }

  /** How many copies of `c` `rtrim($s, $c)` removes: the length of the run of `c` that ends `s`. */
  function TrailingRun(s: string, c: char): (n: nat)
    ensures n <= |s|
    ensures forall k :: |s| - n <= k < |s| ==> s[k] == c
    ensures n < |s| ==> s[|s| - 1 - n] != c
  {
    if s != [] && s[|s| - 1] == c then
      var n := 1 + TrailingRun(s[..|s| - 1], c);
      assert forall k :: |s| - n <= k < |s| - 1 ==> s[k] == s[..|s| - 1][k];
      n
    else
      0
  }

  /**
   * `trim($s, $c)` for one character: the piece of `$s` left once every `$c` at either end is
   * removed. It starts where the leading run of `$c` stops, and only `$c` follows it.
   */
  function Trim(s: string, c: char): (r: string)
    ensures r != [] ==> r[0] != c && r[|r| - 1] != c
    ensures forall d :: d in r ==> d in s
    ensures var i := LeadingRun(s, c);
      && i + |r| <= |s| && r == s[i..i + |r|]
      && (forall k :: 0 <= k < i ==> s[k] == c)
      && (forall k :: i + |r| <= k < |s| ==> s[k] == c)
  {
    var i := LeadingRun(s, c);
    var left := s[i..];
    var j := |left| - TrailingRun(left, c);
    var r := s[i..i + j];
    assert r == left[..j];
    assert j > 0 ==> r[0] == left[0] && r[j - 1] == left[j - 1];
    assert forall k :: i + j <= k < |s| ==> s[k] == left[k - i];
    SliceChars(s, i, i + j);
    r
  }

  /** Every character of a slice occurs in the whole. */
  lemma SliceChars(s: string, i: nat, j: nat)
    requires i <= j <= |s|
    ensures forall d :: d in s[i..j] ==> d in s
  {
    forall d | d in s[i..j]
      ensures d in s
    {
      var k :| 0 <= k < j - i && s[i..j][k] == d;
      assert s[i + k] == d;
    }
  }

  /** `trim` leaves a string alone whose ends are not the trimmed character. */
  lemma TrimUntouched(s: string, c: char)
    requires s != [] ==> s[0] != c && s[|s| - 1] != c
    ensures Trim(s, c) == s
  {
    assert LeadingRun(s, c) == 0;
    assert TrailingRun(s, c) == 0;
  }

  /** `$s` with every character in `bad` left out, the rest kept in order. */
  function Drop(s: string, bad: set<char>): (r: string)
    ensures |r| <= |s|
  {
    if s == [] then [] else (if s[0] in bad then [] else [s[0]]) + Drop(s[1..], bad)
  }

  /** What `Drop` keeps: exactly the characters of the input that are not dropped. */
  lemma {:induction false} DropKeeps(s: string, bad: set<char>)
    ensures forall d :: d in Drop(s, bad) <==> d in s && d !in bad
  {
    if s != [] {
      DropKeeps(s[1..], bad);
      assert forall d :: d in s <==> d == s[0] || d in s[1..];
    }
  }

  /** Dropping one set of characters and then another is dropping both at once. */
  lemma {:induction false} DropTwice(s: string, bad: set<char>, more: set<char>)
    ensures Drop(Drop(s, bad), more) == Drop(s, bad + more)
  {
    if s != [] {
      DropTwice(s[1..], bad, more);
      var head := if s[0] in bad then [] else [s[0]];
      DropAppend(head, Drop(s[1..], bad), more);
      if s[0] !in bad {
        assert Drop(head, more) == (if s[0] in more then [] else [s[0]]) by {
          assert head[1..] == [];
        }
      }
    }
  }

  /** Dropping characters from two strings one after the other is dropping them from both at once. */
  lemma {:induction false} DropAppend(a: string, b: string, bad: set<char>)
    ensures Drop(a + b, bad) == Drop(a, bad) + Drop(b, bad)
  {
    if a == [] {
      assert a + b == b;
    } else {
      assert (a + b)[0] == a[0] && (a + b)[1..] == a[1..] + b;
      DropAppend(a[1..], b, bad);
    }
  }

  /** A string made only of dropped characters leaves nothing. */
  lemma {:induction false} DropAll(s: string, bad: set<char>)
    requires forall k :: 0 <= k < |s| ==> s[k] in bad
    ensures Drop(s, bad) == []
  {
    if s != [] {
      DropAll(s[1..], bad);
    }
  }

  /** Dropping more characters changes nothing when none of the extra ones occur. */
  lemma {:induction false} DropMore(s: string, bad: set<char>, more: set<char>)
    requires forall d :: d in s && d in more ==> d in bad
    ensures Drop(s, bad + more) == Drop(s, bad)
  {
    if s != [] {
      assert forall d :: d in s[1..] ==> d in s;
      DropMore(s[1..], bad, more);
    }
  }

  /**
   * `str_replace( $c, $rep, $s )` for a one-character search string. With an empty replacement
   * it deletes `$c` and keeps everything else in order.
   */
  function ReplaceChar(s: string, c: char, rep: string): (r: string)
    ensures c !in rep ==> c !in r
    ensures forall d :: d in r ==> d in s || d in rep
    ensures c !in s ==> r == s
    ensures rep == [] ==> r == Drop(s, {c})
  {
    if s == [] then []
    else (if s[0] == c then rep else [s[0]]) + ReplaceChar(s[1..], c, rep)
  }

  /** With a one-character replacement, `str_replace` substitutes it at every position of `$c` and nowhere else. */
  lemma {:induction false} ReplaceCharInPlace(s: string, c: char, rep: string)
    requires |rep| == 1
    ensures |ReplaceChar(s, c, rep)| == |s|
    ensures forall i :: 0 <= i < |s| ==> ReplaceChar(s, c, rep)[i] == (if s[i] == c then rep[0] else s[i])
  {
    if s != [] {
      ReplaceCharInPlace(s[1..], c, rep);
      var r := ReplaceChar(s, c, rep);
      assert r == (if s[0] == c then rep else [s[0]]) + ReplaceChar(s[1..], c, rep);
      forall i | 0 < i < |s|
        ensures r[i] == (if s[i] == c then rep[0] else s[i])
      {
        assert r[i] == ReplaceChar(s[1..], c, rep)[i - 1];
        assert s[i] == s[1..][i - 1];
      }
    }
  }

  /**
   * Replacing a dropped character by dropped characters is invisible once they are dropped:
   * `str_replace` only moves text between the characters of `bad`.
   */
  lemma {:induction false} ReplaceDrop(s: string, c: char, rep: string, bad: set<char>)
    requires c in bad && forall d :: d in rep ==> d in bad
    ensures Drop(ReplaceChar(s, c, rep), bad) == Drop(s, bad)
  {
    if s != [] {
      var head := if s[0] == c then rep else [s[0]];
      ReplaceDrop(s[1..], c, rep, bad);
      DropAppend(head, ReplaceChar(s[1..], c, rep), bad);
      if s[0] == c {
        DropAll(rep, bad);
      } else {
        assert Drop([s[0]], bad) == (if s[0] in bad then [] else [s[0]]) by {
          assert [s[0]][1..] == [];
        }
      }
    }
  }

  /** `trim` only removes the trimmed character, so once that is dropped it makes no difference. */
  lemma {:induction false} TrimDrop(s: string, c: char, bad: set<char>)
    requires c in bad
    ensures Drop(Trim(s, c), bad) == Drop(s, bad)
  {
    var r := Trim(s, c);
    var i := LeadingRun(s, c);
    var head, tail := s[..i], s[i + |r|..];
    assert s[..i + |r|] == head + r;
    assert s == s[..i + |r|] + tail;
    DropAppend(head + r, tail, bad);
    DropAppend(head, r, bad);
    forall k | 0 <= k < |head|
      ensures head[k] in bad
    {
      assert head[k] == s[k];
    }
    DropAll(head, bad);
    forall k | 0 <= k < |tail|
      ensures tail[k] in bad
    {
      assert tail[k] == s[i + |r| + k];
    }
    DropAll(tail, bad);
  }

  /** `(string) $v` for a scalar; an array is taken as the empty string. */
  function ToStr(v: Value): (s: string)
    ensures v.VStr? ==> s == v.s
    ensures v == VNull || v == False ==> s == ""
  {
    match v
    case VNull => ""
    case VBool(b) => if b then "1" else ""
    case VInt(i) => IntToString(i)
    case VStr(s) => s
    case VArr(_) => ""
  }

  /**
   * PHP 7 `$w == $v` for a literal `$w` that starts with a lower-case letter or '_' (so it is not
   * numeric): two strings compare as text, a number compares with the literal's numeric value 0,
   * a boolean with its truth, and null with the empty string.
   */
  predicate LooseEqualsWord(v: Value, w: string)
    requires w != [] && ('a' <= w[0] <= 'z' || w[0] == '_')
  {
    match v
    case VNull => false
    case VBool(b) => b
    case VInt(i) => i == 0
    case VStr(s) => s == w
    case VArr(_) => false
  }

  /**
   * `$v->$prop` where `$v` is not an object (no `Value` is one): PHP 7 raises a notice and the
   * read gives null.
   */
  function PropertyOf(v: Value, prop: string): Value
  {
    VNull
  }
}
