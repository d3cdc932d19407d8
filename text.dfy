/**
 * The pieces of Python's string library that the core relies on: `str.strip()`,
 * the ordering of `<` and `>` on `str` (and so `sorted` of distinct names), and the
 * `stem` of a POSIX `pathlib` path.
 */
module Text {

  // ---------------------------------------------------------------------------
  // str.strip()
  // ---------------------------------------------------------------------------

  /** The characters for which Python's `str.isspace()` holds. */
  predicate IsSpace(c: char) {
    c == ' ' || ('\t' <= c <= '\r') || ('\U{1C}' <= c <= '\U{1F}') ||
    c == '\U{85}' || c == '\U{A0}' || c == '\U{1680}' || ('\U{2000}' <= c <= '\U{200A}') ||
    c == '\U{2028}' || c == '\U{2029}' || c == '\U{202F}' || c == '\U{205F}' || c == '\U{3000}'
  }

  predicate AllIn(s: string, chars: char -> bool) {
    forall j :: 0 <= j < |s| ==> chars(s[j])
  }

  /** `s.lstrip()` generalised to any test `chars` on characters: drops the leading characters it accepts, keeps the rest as it is. */
  function StripLeft(s: string, chars: char -> bool): (r: string)
    ensures |r| <= |s| && r == s[|s| - |r|..]
    ensures AllIn(s[..|s| - |r|], chars)
    ensures r == [] || !chars(r[0])
  {
    if s != [] && chars(s[0]) then
      var r := StripLeft(s[1..], chars);
      DropFront(s, r, chars);
      r
    else s
  }

  /** The step of `StripLeft`: one more accepted character in front of an accepted run. */
  lemma DropFront(s: string, r: string, chars: char -> bool)
    requires s != [] && chars(s[0])
    requires |r| <= |s| - 1 && r == s[1..][|s| - 1 - |r|..] && AllIn(s[1..][..|s| - 1 - |r|], chars)
    ensures r == s[|s| - |r|..] && AllIn(s[..|s| - |r|], chars)
  {
    var k := |s| - |r|;
    forall j | 0 <= j < k
      ensures chars(s[j])
    {
      if j > 0 {
        assert s[1..][..k - 1][j - 1] == s[j];
      }
    }
  }

  /** `s.rstrip()` likewise: drops the trailing characters `chars` accepts, keeps the rest as it is. */
  function StripRight(s: string, chars: char -> bool): (r: string)
    ensures |r| <= |s| && r == s[..|r|]
    ensures AllIn(s[|r|..], chars)
    ensures r == [] || !chars(r[|r| - 1])
  {
    if s != [] && chars(s[|s| - 1]) then
      var r := StripRight(s[..|s| - 1], chars);
      DropBack(s, r, chars);
      r
    else s
  }

  /** The step of `StripRight`: one more accepted character after an accepted run. */
  lemma DropBack(s: string, r: string, chars: char -> bool)
    requires s != [] && chars(s[|s| - 1])
    requires |r| <= |s| - 1 && r == s[..|s| - 1][..|r|] && AllIn(s[..|s| - 1][|r|..], chars)
    ensures r == s[..|r|] && AllIn(s[|r|..], chars)
  {
    var tail := s[|r|..];
    forall j | 0 <= j < |tail|
      ensures chars(tail[j])
    {
      if j < |tail| - 1 {
        assert s[..|s| - 1][|r|..][j] == tail[j];
      }
    }
  }

  /** How many characters `s.strip(chars)` removes from the front of `s`. */
  function Leading(s: string, chars: char -> bool): (n: nat)
    ensures n <= |s|
  {
    |s| - |StripLeft(s, chars)|
  }

  /**
   * `s.strip(chars)`: the part of `s` between its leading and trailing runs of
   * characters in `chars` (`StripIsSlice`). It is empty exactly when every
   * character of `s` is in `chars`.
   */
  function StripChars(s: string, chars: char -> bool): (r: string)
    ensures r == [] <==> AllIn(s, chars)
    ensures r != [] ==> !chars(r[0]) && !chars(r[|r| - 1])
  {
    StripEmptyWhenAllIn(s, chars);
    var r := StripRight(StripLeft(s, chars), chars);
    assert r != [] ==> r[0] == StripLeft(s, chars)[0];
    r
  }

  lemma StripEmptyWhenAllIn(s: string, chars: char -> bool)
    ensures StripRight(StripLeft(s, chars), chars) == [] <==> AllIn(s, chars)
  {
    var l := StripLeft(s, chars);
    var r := StripRight(l, chars);
    var i := |s| - |l|;
    assert l == s[i..];
    if r == [] {
      assert l[|r|..] == l;
      forall j | 0 <= j < |s|
        ensures chars(s[j])
      {
        if j < i {
          assert s[..i][j] == s[j];
        } else {
          assert l[j - i] == s[j];
        }
      }
    } else {
      assert r[0] == l[0] == s[i];
    }
  }

  /** What `strip` removes is a run of `chars` at each end; what it keeps is one piece of `s`. */
  lemma StripIsSlice(s: string, chars: char -> bool)
    ensures Trimmed(s, StripChars(s, chars), Leading(s, chars), chars)
  {
    var l := StripLeft(s, chars);
    var r := StripRight(l, chars);
    assert StripChars(s, chars) == r && Leading(s, chars) == |s| - |l|;
    PrefixOfSuffix(s, l, r, chars);
  }

  /** `r` is the piece of `s` from `i` on, with only characters of `chars` before and after it. */
  predicate Trimmed(s: string, r: string, i: int, chars: char -> bool) {
    0 <= i && i + |r| <= |s| && r == s[i..i + |r|] && AllIn(s[..i], chars) && AllIn(s[i + |r|..], chars)
  }

  /** A prefix `r` of a suffix `l` of `s`, each cut where a run of `chars` starts, is a trimmed piece of `s`. */
  lemma PrefixOfSuffix(s: string, l: string, r: string, chars: char -> bool)
    requires |l| <= |s| && l == s[|s| - |l|..] && AllIn(s[..|s| - |l|], chars)
    requires |r| <= |l| && r == l[..|r|] && AllIn(l[|r|..], chars)
    ensures Trimmed(s, r, |s| - |l|, chars)
  {
    var i := |s| - |l|;
    assert s[i + |r|..] == l[|r|..];
  }

  /** `s.strip()`: `StripChars` with Python's whitespace. */
  function Strip(s: string): string {
    StripChars(s, IsSpace)
  }

  /** A string that neither starts nor ends with a character of `chars` is its own `strip`. */
  lemma StripOfTrimmed(s: string, chars: char -> bool)
    requires s != [] && !chars(s[0]) && !chars(s[|s| - 1])
    ensures StripChars(s, chars) == s
  {
    assert StripLeft(s, chars) == s;
    assert StripRight(s, chars) == s;
  }

  /** Stripping twice removes nothing more. */
  lemma StripIdempotent(s: string, chars: char -> bool)
    ensures StripChars(StripChars(s, chars), chars) == StripChars(s, chars)
  {
    var t := StripChars(s, chars);
    if t != [] {
      StripOfTrimmed(t, chars);
    } else {
      assert AllIn(t, chars);
    }
  }

  // ---------------------------------------------------------------------------
  // Ordering of str: code point by code point, a proper prefix first
  // ---------------------------------------------------------------------------

  /** Python's `a < b` on `str`. */
  predicate Less(a: string, b: string) {
    if a == [] then b != []
    else if b == [] then false
    else if a[0] != b[0] then a[0] < b[0]
    else Less(a[1..], b[1..])
  }

  /** Python's `a <= b` on `str`. */
  predicate LessEq(a: string, b: string) {
    !Less(b, a)
  }

  lemma {:induction false} LessIrreflexive(a: string)
    ensures !Less(a, a)
  {
    if a != [] {
      LessIrreflexive(a[1..]);
    }
  }

  lemma {:induction false} LessTransitive(a: string, b: string, c: string)
    requires Less(a, b) && Less(b, c)
    ensures Less(a, c)
  {
    if a != [] && a[0] == b[0] && b[0] == c[0] {
      LessTransitive(a[1..], b[1..], c[1..]);
    }
  }

  lemma {:induction false} LessTrichotomy(a: string, b: string)
    ensures a == b || Less(a, b) || Less(b, a)
  {
    if a != [] && b != [] && a[0] == b[0] {
      LessTrichotomy(a[1..], b[1..]);
      if a[1..] == b[1..] {
        assert a == [a[0]] + a[1..] && b == [b[0]] + b[1..];
      }
    }
  }

  lemma LessAsymmetric(a: string, b: string)
    requires Less(a, b)
    ensures !Less(b, a)
  {
    if Less(b, a) {
      LessTransitive(a, b, a);
      LessIrreflexive(a);
    }
  }

  lemma LessEqTransitive(a: string, b: string, c: string)
    requires LessEq(a, b) && LessEq(b, c)
    ensures LessEq(a, c)
  {
    if Less(c, a) {
      LessTrichotomy(c, b);
      if Less(b, c) {
        LessTransitive(b, c, a);
      }
    }
  }

  // ---------------------------------------------------------------------------
  // sorted() of a set of distinct strings
  // ---------------------------------------------------------------------------

  predicate IsLeast(m: string, keys: set<string>) {
    m in keys && forall k :: k in keys ==> !Less(k, m)
  }

  lemma {:induction false} LeastExists(keys: set<string>)
    requires keys != {}
    ensures exists m :: IsLeast(m, keys)
    decreases |keys|
  {
    var x :| x in keys;
    if keys - {x} == {} {
      assert keys == {x};
      LessIrreflexive(x);
      assert IsLeast(x, keys);
    } else {
      LeastExists(keys - {x});
      var m :| IsLeast(m, keys - {x});
      if Less(x, m) {
        forall k | k in keys
          ensures !Less(k, x)
        {
          if k == x {
            LessIrreflexive(x);
          } else if Less(k, x) {
            LessTransitive(k, x, m);
          }
        }
        assert IsLeast(x, keys);
      } else {
        assert IsLeast(m, keys);
      }
    }
  }

  lemma LeastBelowOthers(m: string, keys: set<string>)
    requires IsLeast(m, keys)
    ensures forall k :: k in keys && k != m ==> Less(m, k)
    ensures forall m' :: IsLeast(m', keys) ==> m' == m
  {
    forall k | k in keys && k != m
      ensures Less(m, k)
    {
      LessTrichotomy(m, k);
    }
  }

  /** `sorted(keys)`: every name exactly once, in strictly ascending order. */
  function SortedKeys(keys: set<string>): (r: seq<string>)
    ensures |r| == |keys|
    ensures forall k :: k in r <==> k in keys
    ensures forall i, j :: 0 <= i < j < |r| ==> Less(r[i], r[j])
    decreases |keys|
  {
    if keys == {} then []
    else
      LeastExists(keys);
      var m :| IsLeast(m, keys);
      var rest := SortedKeys(keys - {m});
      LeastFirst(m, keys, rest);
      [m] + rest
  }

  /** The step of `SortedKeys`: the least key in front of the others in order. */
  lemma LeastFirst(m: string, keys: set<string>, rest: seq<string>)
    requires IsLeast(m, keys)
    requires |rest| == |keys - {m}| && forall k :: k in rest <==> k in keys - {m}
    requires forall i, j :: 0 <= i < j < |rest| ==> Less(rest[i], rest[j])
    ensures |[m] + rest| == |keys| && forall k :: k in [m] + rest <==> k in keys
    ensures forall i, j :: 0 <= i < j < |[m] + rest| ==> Less(([m] + rest)[i], ([m] + rest)[j])
  {
    LeastBelowOthers(m, keys);
    var r := [m] + rest;
    forall i, j | 0 <= i < j < |r|
      ensures Less(r[i], r[j])
    {
      if i == 0 {
        assert r[j] == rest[j - 1] && r[j] in keys - {m};
      } else {
        assert r[i] == rest[i - 1] && r[j] == rest[j - 1];
      }
    }
  }

  // ---------------------------------------------------------------------------
  // pathlib: the name and the stem of a POSIX path
  // ---------------------------------------------------------------------------

  /** `s.rfind(c)`: the index of the last occurrence of `c`, or -1. */
  function RFind(s: string, c: char): (r: int)
    ensures -1 <= r < |s|
    ensures r >= 0 ==> s[r] == c
    ensures forall j :: r < j < |s| ==> s[j] != c
  {
    if s == [] then -1
    else if s[|s| - 1] == c then |s| - 1
    else RFind(s[..|s| - 1], c)
  }

  /** A piece between separators that pathlib keeps: not empty and not ".". */
  function Kept(piece: string): seq<string> {
    if piece == "" || piece == "." then [] else [piece]
  }

  /** The components pathlib keeps for a POSIX path (the slashes and "." pieces dropped). */
  function Parts(p: string): (r: seq<string>)
    ensures forall k :: 0 <= k < |r| ==> r[k] != "" && r[k] != "." && '/' !in r[k]
  {
    var i := RFind(p, '/');
    if i < 0 then Kept(p) else Parts(p[..i]) + Kept(p[i + 1..])
  }

  /** `Path(p).name`: the last component, or "" when there is none. */
  function Name(p: string): (r: string)
    ensures '/' !in r
  {
    var parts := Parts(p);
    if parts == [] then "" else parts[|parts| - 1]
  }

  /**
   * The stem of a name: the name without its last suffix, where a suffix
   * starts at the last dot, provided that dot is neither the first nor the
   * last character of the name.
   */
  function StemOfName(name: string): (r: string)
    ensures |r| <= |name| && r == name[..|r|]
    ensures r == [] <==> name == []
    ensures r != name ==> name[|r|] == '.' && 0 < |r| < |name| - 1
    ensures r != name ==> '.' !in name[|r| + 1..]
    ensures r == name ==> forall i :: 0 < i < |name| - 1 && name[i] == '.' ==> '.' in name[i + 1..]
  {
    var i := RFind(name, '.');
    if 0 < i < |name| - 1 then
      NoDotAfter(name, i);
      name[..i]
    else
      assert forall k :: 0 < k < |name| - 1 && name[k] == '.' ==> '.' in name[k + 1..] by {
        forall k | 0 < k < |name| - 1 && name[k] == '.'
          ensures '.' in name[k + 1..]
        {
          DotAtEnd(name, k);
        }
      }
      name
  }

  /** No dot after the last one. */
  lemma NoDotAfter(name: string, i: int)
    requires 0 <= i < |name| && forall j :: i < j < |name| ==> name[j] != '.'
    ensures '.' !in name[i + 1..]
  {
    var rest := name[i + 1..];
    forall j | 0 <= j < |rest|
      ensures rest[j] != '.'
    {
      assert rest[j] == name[i + 1 + j];
    }
  }

  /** A name ending in a dot has a dot after any of its inner positions. */
  lemma DotAtEnd(name: string, k: int)
    requires 0 < k < |name| - 1 && name[|name| - 1] == '.'
    ensures '.' in name[k + 1..]
  {
    assert name[k + 1..][|name| - k - 2] == '.';
  }

  /** `Path(p).stem`: the stem of the path's last component. */
  function Stem(p: string): (r: string)
    ensures '/' !in r
    ensures |r| <= |Name(p)| && r == Name(p)[..|r|]
    ensures r == [] <==> Name(p) == []
    ensures r != Name(p) ==> Name(p)[|r|] == '.' && 0 < |r| < |Name(p)| - 1
    ensures r != Name(p) ==> '.' !in Name(p)[|r| + 1..]
    ensures r == Name(p) ==>
      forall i :: 0 < i < |Name(p)| - 1 && Name(p)[i] == '.' ==> '.' in Name(p)[i + 1..]
  {
    StemOfName(Name(p))
  }
}
