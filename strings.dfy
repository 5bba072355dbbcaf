/**
 * String operations of the Python and JavaScript runtimes that the system
 * relies on: ASCII lower-casing, substring search, joining, splitting on a
 * separator (JavaScript's `String.prototype.split`), Python's whitespace
 * test and `str.strip`, and decimal rendering of integers.
 */
module Strings {
  import opened Wrappers

  /** ASCII lower-casing of one character (`str.lower` restricted to ASCII). */
  function LowerChar(c: char): char
  {
    if 'A' <= c <= 'Z' then (c as int + 32) as char else c
  }

  function Lower(s: string): (r: string)
    ensures |r| == |s|
    ensures forall i :: 0 <= i < |s| ==> r[i] == LowerChar(s[i])
  {
    if s == [] then [] else [LowerChar(s[0])] + Lower(s[1..])
  }

  lemma LowerIdempotent(s: string)
    ensures Lower(Lower(s)) == Lower(s)
  {
  }

  predicate IsPrefix(p: string, s: string)
  {
    |p| <= |s| && s[..|p|] == p
  }

  /** `sub in s` in Python, `s.includes(sub)` in JavaScript. */
  predicate Contains(s: string, sub: string)
    decreases |s|
  {
    IsPrefix(sub, s) || (s != [] && Contains(s[1..], sub))
  }

  /** `sub` occurs in `s` at offset `k`. */
  ghost predicate OccursAt(s: string, sub: string, k: int)
  {
    0 <= k && k + |sub| <= |s| && s[k..k + |sub|] == sub
  }

  /** Contains agrees with the declarative "occurs at some offset". */
  lemma {:induction false} ContainsIff(s: string, sub: string)
    ensures Contains(s, sub) <==> exists k :: OccursAt(s, sub, k)
    decreases |s|
  {
    if IsPrefix(sub, s) {
      assert OccursAt(s, sub, 0);
    } else if s == [] {
      forall k ensures !OccursAt(s, sub, k) {
        if k == 0 {
          assert !IsPrefix(sub, s);
        }
      }
    } else {
      ContainsIff(s[1..], sub);
      if Contains(s[1..], sub) {
        var k :| OccursAt(s[1..], sub, k);
        assert s[1..][k..k + |sub|] == s[k + 1..k + 1 + |sub|];
        assert OccursAt(s, sub, k + 1);
      } else {
        forall k ensures !OccursAt(s, sub, k) {
          if 0 < k && k + |sub| <= |s| {
            assert s[1..][k - 1..k - 1 + |sub|] == s[k..k + |sub|];
            assert !OccursAt(s[1..], sub, k - 1);
          }
        }
      }
    }
  }

  /** Occurrence is transitive: text inside text inside `s` is inside `s`. */
  lemma ContainsTrans(s: string, t: string, u: string)
    requires Contains(s, t) && Contains(t, u)
    ensures Contains(s, u)
  {
    ContainsIff(s, t);
    ContainsIff(t, u);
    var a :| OccursAt(s, t, a);
    var b :| OccursAt(t, u, b);
    assert s[a + b..a + b + |u|] == u by {
      assert s[a..a + |t|] == t;
      assert t[b..b + |u|] == u;
      forall k | 0 <= k < |u| ensures s[a + b + k] == u[k] {
        assert s[a + b + k] == t[b + k];
      }
    }
    assert OccursAt(s, u, a + b);
    ContainsIff(s, u);
  }

  /** A suffix occurs in its text. */
  lemma SuffixContained(u: string, t: string)
    requires IsSuffix(u, t)
    ensures Contains(t, u)
  {
    assert OccursAt(t, u, |t| - |u|);
    ContainsIff(t, u);
  }

  /** Python's `sep.join(parts)`. */
  function Join(parts: seq<string>, sep: string): string
    decreases |parts|
  {
    if parts == [] then ""
    else if |parts| == 1 then parts[0]
    else parts[0] + sep + Join(parts[1..], sep)
  }

  /** Concatenation of a sequence of strings (`"".join(parts)`). */
  function Concat(parts: seq<string>): string
    decreases |parts|
  {
    if parts == [] then "" else parts[0] + Concat(parts[1..])
  }

  lemma {:induction false} ConcatAppend(a: seq<string>, b: seq<string>)
    ensures Concat(a + b) == Concat(a) + Concat(b)
    decreases |a|
  {
    if a == [] {
      assert a + b == b;
    } else {
      assert (a + b)[1..] == a[1..] + b;
      ConcatAppend(a[1..], b);
    }
  }

  /** Python's `s.replace(from, to)` for single characters. */
  function ReplaceChar(s: string, from: char, to: char): (r: string)
    ensures |r| == |s|
    ensures forall i :: 0 <= i < |s| ==> r[i] == (if s[i] == from then to else s[i])
  {
    if s == [] then [] else [if s[0] == from then to else s[0]] + ReplaceChar(s[1..], from, to)
  }

  /** Python's `s.split(c)[0]`: the text before the first `c`, or all of `s`. */
  function BeforeFirst(s: string, c: char): (r: string)
    ensures IsPrefix(r, s) && c !in r
    ensures |r| < |s| ==> s[|r|] == c
  {
    if s == [] || s[0] == c then [] else [s[0]] + BeforeFirst(s[1..], c)
  }

  predicate IsSuffix(r: string, s: string)
  {
    |r| <= |s| && s[|s| - |r|..] == r
  }

  lemma SuffixTrans(s: string, a: string, b: string)
    requires IsSuffix(a, s) && IsSuffix(b, a)
    ensures IsSuffix(b, s)
  {
    assert forall k :: 0 <= k < |b| ==> b[k] == a[|a| - |b| + k] == s[|s| - |b| + k];
  }

  /** The text after the last `c` in `s`, or all of `s` when `c` does not occur. */
  function AfterLast(s: string, c: char): (r: string)
    ensures IsSuffix(r, s) && c !in r
    ensures |r| < |s| ==> s[|s| - |r| - 1] == c
    decreases |s|
  {
    if s == [] then []
    else if s[|s| - 1] == c then []
    else AfterLast(s[..|s| - 1], c) + [s[|s| - 1]]
  }

  /** The last `c` lies in the appended part: only that part matters. */
  lemma {:induction false} AfterLastAppendHit(a: string, b: string, c: char)
    requires c in b
    ensures AfterLast(a + b, c) == AfterLast(b, c)
    decreases |b|
  {
    var n := |b| - 1;
    if b[n] != c {
      assert (a + b)[..|a + b| - 1] == a + b[..n];
      assert b[..n][..] == b[..n] && b == b[..n] + [b[n]];
      assert c in b[..n];
      AfterLastAppendHit(a, b[..n], c);
    }
  }

  /** No `c` in the appended part: it is kept whole after the text of `a`. */
  lemma {:induction false} AfterLastAppendMiss(a: string, b: string, c: char)
    requires c !in b
    ensures AfterLast(a + b, c) == AfterLast(a, c) + b
    decreases |b|
  {
    if b == [] {
      assert a + b == a;
    } else {
      var n := |b| - 1;
      assert b[n] in b;
      assert (a + b)[..|a + b| - 1] == a + b[..n];
      assert b == b[..n] + [b[n]];
      assert forall x :: x in b[..n] ==> x in b;
      AfterLastAppendMiss(a, b[..n], c);
    }
  }

  /** A suffix of a text without `c` has no `c` either. */
  lemma SuffixExcludes(r: string, s: string, c: char)
    requires IsSuffix(r, s) && c !in s
    ensures c !in r
  {
    assert forall k :: 0 <= k < |r| ==> r[k] == s[|s| - |r| + k];
  }

  /** Without any `c`, the text after the last `c` is the whole text. */
  lemma AfterLastNone(s: string, c: char)
    requires c !in s
    ensures AfterLast(s, c) == s
  {
    AfterLastAppendMiss([], s, c);
    assert [] + s == s;
  }

  /** The offset of the first occurrence of `sep` in `s`, as `FindSpec`
      states. */
  function Find(s: string, sep: string): (r: Option<nat>)
    requires sep != []
    ensures r.Some? ==> r.value + |sep| <= |s|
    decreases |s|
  {
    if |s| < |sep| then None
    else if s[..|sep|] == sep then Some(0)
    else
      match Find(s[1..], sep)
      case None => None
      case Some(j) => Some(j + 1)
  }

  /** `Find` returns an occurrence with none before it, or reports that there
      is none at all. */
  lemma {:induction false} FindSpec(s: string, sep: string)
    requires sep != []
    ensures var r := Find(s, sep);
      (r.Some? ==> OccursAt(s, sep, r.value) && forall k :: 0 <= k < r.value ==> !OccursAt(s, sep, k))
      && (r.None? ==> forall k :: !OccursAt(s, sep, k))
    decreases |s|
  {
    if |s| >= |sep| && s[..|sep|] != sep {
      FindSpec(s[1..], sep);
      forall k | OccursAt(s, sep, k) && k > 0 ensures OccursAt(s[1..], sep, k - 1) {
        assert s[1..][k - 1..k - 1 + |sep|] == s[k..k + |sep|];
      }
      match Find(s[1..], sep)
      case None =>
      case Some(j) =>
        assert s[1..][j..j + |sep|] == s[j + 1..j + 1 + |sep|];
    }
  }

  /** JavaScript's `s.split(sep)` for a non-empty separator. */
  function Split(s: string, sep: string): (r: seq<string>)
    requires sep != []
    ensures |r| >= 1
    decreases |s|
  {
    match Find(s, sep)
    case None => [s]
    case Some(j) => [s[..j]] + Split(s[j + |sep|..], sep)
  }

  /** Splitting text that starts with a separator-free piece and a separator
      yields that piece first, then the split of the remainder. */
  lemma SplitAfterPiece(a: string, sep: string, rest: string)
    requires sep != [] && sep[0] !in a
    ensures Split(a + sep + rest, sep) == [a] + Split(rest, sep)
  {
    var s := a + sep + rest;
    assert OccursAt(s, sep, |a|) by {
      assert s[|a|..|a| + |sep|] == sep;
    }
    forall k | 0 <= k < |a| ensures !OccursAt(s, sep, k) {
      assert s[k] == a[k] && a[k] != sep[0];
      if k + |sep| <= |s| {
        assert s[k..k + |sep|][0] == s[k];
      }
    }
    FindFirst(s, sep, |a|);
    match Find(s, sep)
    case Some(j) =>
      assert j == |a|;
      assert s[..j] == a;
      assert s[j + |sep|..] == rest;
  }

  /** Text without the first character of `sep` does not split. */
  lemma SplitNone(s: string, sep: string)
    requires sep != [] && sep[0] !in s
    ensures Split(s, sep) == [s]
  {
    FindSpec(s, sep);
  }

  /** `Find` returns the first occurrence. */
  lemma FindFirst(s: string, sep: string, j: nat)
    requires sep != [] && OccursAt(s, sep, j)
    requires forall k :: 0 <= k < j ==> !OccursAt(s, sep, k)
    ensures Find(s, sep) == Some(j)
  {
    FindSpec(s, sep);
    var r := Find(s, sep);
    assert r.Some?;
    assert !(r.value < j);
  }

  /** An occurrence that ends inside `a` is one in `a + b` too, and the
      other way round. */
  lemma OccursAppend(a: string, b: string, sep: string, k: nat)
    requires k + |sep| <= |a|
    ensures OccursAt(a + b, sep, k) <==> OccursAt(a, sep, k)
  {
    assert (a + b)[k..k + |sep|] == a[k..k + |sep|];
  }

  /** An occurrence inside `a` is the first one in `a + b` too. */
  lemma FindAppend(a: string, b: string, sep: string)
    requires sep != [] && Find(a, sep).Some?
    ensures Find(a + b, sep) == Find(a, sep)
  {
    FindSpec(a, sep);
    var j := Find(a, sep).value;
    OccursAppend(a, b, sep, j);
    forall k | 0 <= k < j ensures !OccursAt(a + b, sep, k) {
      OccursAppend(a, b, sep, k);
    }
    FindFirst(a + b, sep, j);
  }

  /** The last piece of a split holds no separator. */
  lemma {:induction false} SplitLastNone(s: string, sep: string)
    requires sep != []
    ensures var r := Split(s, sep); Find(r[|r| - 1], sep).None?
    decreases |s|
  {
    match Find(s, sep)
    case None =>
    case Some(j) =>
      SplitLastNone(s[j + |sep|..], sep);
      var rest := Split(s[j + |sep|..], sep);
      SplitAt(s, sep, j);
      assert Split(s, sep)[|Split(s, sep)| - 1] == rest[|rest| - 1];
  }

  /** Splitting `a + b`: the complete pieces of `a`, then the split of its
      last piece followed by `b`. */
  lemma {:induction false} SplitAppend(a: string, b: string, sep: string)
    requires sep != []
    ensures var r := Split(a, sep);
      Split(a + b, sep) == r[..|r| - 1] + Split(r[|r| - 1] + b, sep)
    decreases |a|
  {
    var r := Split(a, sep);
    if Find(a, sep).None? {
      var none: seq<string> := [];
      assert r == [a] && r[..|r| - 1] == none;
    } else {
      var j := Find(a, sep).value;
      SplitAppend(a[j + |sep|..], b, sep);
      SplitAppendHead(a, b, sep, j);
      SplitAt(a, sep, j);
      SplitAppendStep(t => Split(t, sep), a[..j], a, a[j + |sep|..], b);
    }
  }

  /** The list bookkeeping of `SplitAppend`'s inductive step, for any
      function `split` that peels the same first piece `p` off `a` and off
      `a + b`. */
  lemma SplitAppendStep(split: string -> seq<string>, p: string, a: string, a': string, b: string)
    requires split(a) == [p] + split(a') && split(a + b) == [p] + split(a' + b)
    requires var r' := split(a');
      r' != [] && split(a' + b) == r'[..|r'| - 1] + split(r'[|r'| - 1] + b)
    ensures var r := split(a);
      split(a + b) == r[..|r| - 1] + split(r[|r| - 1] + b)
  {
    var r := split(a);
    var r' := split(a');
    assert r[..|r| - 1] == [p] + r'[..|r'| - 1];
    assert r[|r| - 1] == r'[|r'| - 1];
  }

  /** Appending after the first separator leaves the first piece as it is. */
  lemma SplitAppendHead(a: string, b: string, sep: string, j: nat)
    requires sep != [] && Find(a, sep) == Some(j)
    ensures Split(a + b, sep) == [a[..j]] + Split(a[j + |sep|..] + b, sep)
  {
    FindAppend(a, b, sep);
    SplitAt(a + b, sep, j);
    assert (a + b)[..j] == a[..j] && (a + b)[j + |sep|..] == a[j + |sep|..] + b;
  }

  lemma SplitAt(s: string, sep: string, j: nat)
    requires sep != [] && Find(s, sep) == Some(j)
    ensures Split(s, sep) == [s[..j]] + Split(s[j + |sep|..], sep)
  {
  }

  /** No piece of a split on a one-character separator holds that character. */
  lemma {:induction false} SplitPiecesFree(s: string, c: char, i: nat)
    requires i < |Split(s, [c])|
    ensures c !in Split(s, [c])[i]
    decreases |s|
  {
    FindSpec(s, [c]);
    match Find(s, [c])
    case None =>
      assert Split(s, [c]) == [s];
      forall k | 0 <= k < |s| ensures s[k] != c {
        assert !OccursAt(s, [c], k);
        assert s[k..k + 1] == [s[k]];
      }
    case Some(j) =>
      SplitAt(s, [c], j);
      if i == 0 {
        forall k | 0 <= k < j ensures s[..j][k] != c {
          assert !OccursAt(s, [c], k);
          assert s[k..k + 1] == [s[k]];
        }
      } else {
        SplitPiecesFree(s[j + 1..], c, i - 1);
      }
  }

  /** Joining pieces free of a one-character separator and splitting again
      gives the pieces back. */
  lemma {:induction false} SplitJoin(parts: seq<string>, c: char)
    requires parts != []
    requires forall i :: 0 <= i < |parts| ==> c !in parts[i]
    ensures Split(Join(parts, [c]), [c]) == parts
    decreases |parts|
  {
    if |parts| == 1 {
      SplitNone(parts[0], [c]);
    } else {
      SplitJoin(parts[1..], c);
      SplitAfterPiece(parts[0], [c], Join(parts[1..], [c]));
      assert parts == [parts[0]] + parts[1..];
    }
  }

  /** A join starts with its first part. */
  lemma JoinHead(parts: seq<string>, sep: string)
    requires parts != []
    ensures IsPrefix(parts[0], Join(parts, sep))
  {
    if |parts| > 1 {
      assert Join(parts, sep) == parts[0] + (sep + Join(parts[1..], sep));
    }
  }

  /** A join ends with its last part. */
  lemma {:induction false} JoinLast(parts: seq<string>, sep: string)
    requires parts != []
    ensures IsSuffix(parts[|parts| - 1], Join(parts, sep))
    decreases |parts|
  {
    if |parts| > 1 {
      JoinLast(parts[1..], sep);
      var rest := Join(parts[1..], sep);
      var last := parts[|parts| - 1];
      assert Join(parts, sep) == (parts[0] + sep) + rest;
      assert ((parts[0] + sep) + rest)[|parts[0] + sep| + |rest| - |last|..] == rest[|rest| - |last|..];
    }
  }

  /** Python's `str.isspace` for one character. */
  predicate IsSpace(c: char)
  {
    c == ' ' || ('\t' <= c <= '\r') || ((28 as char) <= c <= (31 as char))
    || c == (0x85 as char) || c == (0xA0 as char) || c == (0x1680 as char)
    || ((0x2000 as char) <= c <= (0x200A as char))
    || c == (0x2028 as char) || c == (0x2029 as char) || c == (0x202F as char)
    || c == (0x205F as char) || c == (0x3000 as char)
  }

  function TrimStart(s: string): (r: string)
    ensures |r| <= |s| && r == s[|s| - |r|..]
    ensures r != [] ==> !IsSpace(r[0])
    ensures forall i :: 0 <= i < |s| - |r| ==> IsSpace(s[i])
  {
    if s != [] && IsSpace(s[0]) then TrimStart(s[1..]) else s
  }

  function TrimEnd(s: string): (r: string)
    ensures IsPrefix(r, s)
    ensures r != [] ==> !IsSpace(r[|r| - 1])
    ensures forall i :: |r| <= i < |s| ==> IsSpace(s[i])
  {
    if s != [] && IsSpace(s[|s| - 1]) then TrimEnd(s[..|s| - 1]) else s
  }

  /** Python's `s.strip()` with no argument. */
  function Strip(s: string): string
  {
    TrimEnd(TrimStart(s))
  }

  /** Stripping leaves nothing exactly when every character is whitespace. */
  lemma StripEmptyIff(s: string)
    ensures Strip(s) == [] <==> forall i :: 0 <= i < |s| ==> IsSpace(s[i])
  {
    var t := TrimStart(s);
    if t != [] {
      assert !IsSpace(t[0]) && t[0] == s[|s| - |t|];
    }
  }

  predicate IsDigit(c: char)
  {
    '0' <= c <= '9'
  }

  function DigitChar(d: nat): (c: char)
    requires d < 10
    ensures IsDigit(c)
  {
    ('0' as int + d) as char
  }

  function DigitValue(c: char): nat
    requires IsDigit(c)
  {
    c as int - '0' as int
  }

  /** Python's `str(n)` and JavaScript's `String(n)` for a natural number. */
  function NatText(n: nat): (r: string)
    ensures r != [] && (forall i :: 0 <= i < |r| ==> IsDigit(r[i]))
    ensures r[0] == '0' <==> n == 0
    ensures n == 0 ==> r == "0"
  {
    if n < 10 then [DigitChar(n)] else NatText(n / 10) + [DigitChar(n % 10)]
  }

  /** The number that a string of decimal digits denotes. */
  function DigitsValue(ds: string): nat
    requires forall i :: 0 <= i < |ds| ==> IsDigit(ds[i])
    decreases |ds|
  {
    if ds == [] then 0 else DigitsValue(ds[..|ds| - 1]) * 10 + DigitValue(ds[|ds| - 1])
  }

  lemma {:induction false} NatTextValue(n: nat)
    ensures DigitsValue(NatText(n)) == n
  {
    if n >= 10 {
      var t := NatText(n);
      assert t[..|t| - 1] == NatText(n / 10);
      NatTextValue(n / 10);
    }
  }

  /** Python's `str(i)` and JavaScript's `String(i)` for an integer. */
  function IntText(i: int): (r: string)
    ensures r != [] && (r[0] == '-' || IsDigit(r[0]))
  {
    if i < 0 then "-" + NatText(-i) else NatText(i)
  }
}
