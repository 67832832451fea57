/** The few Python string built-ins the mailer relies on, on `seq<char>`:
    `str.strip()`, `str.split(sep)`, `str.find`, `str.rfind`,
    `str.replace(" ", "")`, `str(int)` and `os.path.basename`. It also defines
    `sep.join(parts)`, which the mailer does not call, as the inverse that
    states what `str.split(sep)` computes. */
module PyStr {

  /** The characters Python's `str.isspace()` accepts, i.e. the ones `str.strip()` removes. */
  predicate IsSpace(c: char) {
    || c == ' '
    || ('\t' <= c <= '\r')
    || ('\U{1c}' <= c <= '\U{1f}')
    || c == '\U{85}' || c == '\U{a0}' || c == '\U{1680}'
    || ('\U{2000}' <= c <= '\U{200a}')
    || c == '\U{2028}' || c == '\U{2029}' || c == '\U{202f}' || c == '\U{205f}' || c == '\U{3000}'
  }

  predicate AllSpace(s: string) {
    forall k | 0 <= k < |s| :: IsSpace(s[k])
  }

  /** Neither end of `s` is whitespace. */
  predicate Trimmed(s: string) {
    s == [] || (!IsSpace(s[0]) && !IsSpace(s[|s| - 1]))
  }

  /** `s.lstrip()`: drops the leading whitespace. */
  function StripLeft(s: string): (r: string)
    ensures |r| <= |s|
    ensures r == [] || !IsSpace(r[0])
  {
    if s != [] && IsSpace(s[0]) then StripLeft(s[1..]) else s
  }

  /** `s.rstrip()`: drops the trailing whitespace. */
  function StripRight(s: string): (r: string)
    ensures |r| <= |s|
    ensures r == [] || (r[0] == s[0] && !IsSpace(r[|r| - 1]))
  {
    if s != [] && IsSpace(s[|s| - 1]) then StripRight(s[..|s| - 1]) else s
  }

  /** `s.strip()`: what is left of `s` once whitespace is removed from both ends. */
  function Strip(s: string): (r: string)
    ensures Trimmed(r) && |r| <= |s|
  {
    StripRight(StripLeft(s))
  }

  /** A line strips to nothing exactly when it is blank. */
  lemma StripEmptyIffBlank(s: string)
    ensures Strip(s) == [] <==> AllSpace(s)
  {
    var l := StripLeft(s);
    StripLeftBlank(s);
    StripRightBlank(l);
    assert l != [] ==> !AllSpace(l);
  }

  lemma {:induction false} StripLeftBlank(s: string)
    ensures StripLeft(s) == [] <==> AllSpace(s)
  {
    if s != [] && IsSpace(s[0]) {
      StripLeftBlank(s[1..]);
      assert AllSpace(s) <==> AllSpace(s[1..]) by {
        assert forall k | 1 <= k < |s| :: s[k] == s[1..][k - 1];
      }
    }
  }

  lemma {:induction false} StripRightBlank(s: string)
    ensures StripRight(s) == [] <==> AllSpace(s)
  {
    if s != [] && IsSpace(s[|s| - 1]) {
      StripRightBlank(s[..|s| - 1]);
      assert AllSpace(s) <==> AllSpace(s[..|s| - 1]) by {
        assert forall k | 0 <= k < |s| - 1 :: s[k] == s[..|s| - 1][k];
      }
    }
  }

  /** Stripping is exact: whatever whitespace pads a trimmed string, `strip()` gives that string back. */
  lemma {:induction false} StripPadded(a: string, m: string, b: string)
    requires AllSpace(a) && AllSpace(b) && Trimmed(m)
    ensures Strip(a + m + b) == m
  {
    if m != [] {
      assert a + m + b == a + (m + b);
      StripLeftPadded(a, m + b);
      StripRightPadded(m, b);
    } else {
      assert forall k | 0 <= k < |a + m + b| :: (a + m + b)[k] == if k < |a| then a[k] else b[k - |a|];
      StripEmptyIffBlank(a + m + b);
    }
  }

  lemma {:induction false} StripLeftPadded(a: string, t: string)
    requires AllSpace(a) && (t == [] || !IsSpace(t[0]))
    ensures StripLeft(a + t) == t
  {
    if a != [] {
      assert (a + t)[1..] == a[1..] + t;
      StripLeftPadded(a[1..], t);
    } else {
      assert a + t == t;
    }
  }

  lemma {:induction false} StripRightPadded(m: string, b: string)
    requires AllSpace(b) && (m == [] || !IsSpace(m[|m| - 1]))
    ensures StripRight(m + b) == m
    decreases |b|
  {
    if b != [] {
      assert (m + b)[..|m + b| - 1] == m + b[..|b| - 1];
      StripRightPadded(m, b[..|b| - 1]);
    } else {
      assert m + b == m;
    }
  }

  /** Stripping only removes characters, so it never introduces one. */
  lemma StripAvoids(s: string, c: char)
    requires c !in s
    ensures c !in Strip(s)
  {
    StripLeftAvoids(s, c);
    StripRightAvoids(StripLeft(s), c);
  }

  lemma {:induction false} StripLeftAvoids(s: string, c: char)
    requires c !in s
    ensures c !in StripLeft(s)
  {
    if s != [] && IsSpace(s[0]) {
      assert forall k | 0 <= k < |s| - 1 :: s[1..][k] == s[k + 1];
      StripLeftAvoids(s[1..], c);
    }
  }

  lemma {:induction false} StripRightAvoids(s: string, c: char)
    requires c !in s
    ensures c !in StripRight(s)
  {
    if s != [] && IsSpace(s[|s| - 1]) {
      assert forall k | 0 <= k < |s| - 1 :: s[..|s| - 1][k] == s[k];
      StripRightAvoids(s[..|s| - 1], c);
    }
  }

  /** `s.replace(" ", "")`: every plain space removed. */
  function RemoveSpaces(s: string): (r: string)
    ensures ' ' !in r && |r| <= |s|
  {
    if s == [] then []
    else if s[0] == ' ' then RemoveSpaces(s[1..])
    else [s[0]] + RemoveSpaces(s[1..])
  }

  /** Removing spaces keeps every other character: the result holds each character
      of `s` but ' ' as often as `s` does, and is `s` itself when `s` has no space
      (the order is kept by `RemoveSpacesAppend`). */
  lemma {:induction false} RemoveSpacesKeepsOthers(s: string)
    ensures multiset(RemoveSpaces(s)) == multiset(s)[' ' := 0]
    ensures ' ' !in s ==> RemoveSpaces(s) == s
  {
    if s != [] {
      RemoveSpacesKeepsOthers(s[1..]);
      assert s == [s[0]] + s[1..];
    }
  }

  /** Removing spaces works piece by piece, so the characters it keeps stay in
      their order: a single space goes, any other single character stays. */
  lemma {:induction false} RemoveSpacesAppend(a: string, b: string)
    ensures RemoveSpaces(a + b) == RemoveSpaces(a) + RemoveSpaces(b)
    ensures |a| == 1 ==> RemoveSpaces(a) == (if a[0] == ' ' then [] else a)
  {
    if a == [] {
      assert a + b == b;
    } else {
      assert (a + b)[0] == a[0] && (a + b)[1..] == a[1..] + b;
      RemoveSpacesAppend(a[1..], b);
    }
  }

  /** `sep.join(parts)`: not called by the mailer, the inverse that pins `Split`. */
  function Join(parts: seq<string>, sep: char): string
  {
    if parts == [] then []
    else if |parts| == 1 then parts[0]
    else parts[0] + [sep] + Join(parts[1..], sep)
  }

  /** `s.split(sep)` for a one-character separator: never empty, and no part
      holds the separator. */
  function Split(s: string, sep: char): (parts: seq<string>)
    ensures |parts| >= 1
    ensures forall k | 0 <= k < |parts| :: sep !in parts[k]
  {
    if s == [] then [[]]
    else
      var rest := Split(s[1..], sep);
      if s[0] == sep then [[]] + rest
      else [[s[0]] + rest[0]] + rest[1..]
  }

  /** Joining the parts with the separator gives the split string back. */
  lemma {:induction false} JoinSplit(s: string, sep: char)
    ensures Join(Split(s, sep), sep) == s
  {
    if s != [] {
      var rest := Split(s[1..], sep);
      JoinSplit(s[1..], sep);
      assert Join(Split(s, sep), sep) == [s[0]] + Join(rest, sep) by {
        if s[0] == sep {
          assert ([[]] + rest)[1..] == rest;
        } else {
          var parts := [[s[0]] + rest[0]] + rest[1..];
          assert parts[1..] == rest[1..];
          if |rest| > 1 {
            assert Join(rest, sep) == rest[0] + [sep] + Join(rest[1..], sep);
          }
        }
      }
      assert s == [s[0]] + s[1..];
    }
  }

  /** A character missing from a joined string is missing from every part. */
  lemma {:induction false} JoinAvoids(parts: seq<string>, sep: char, c: char)
    requires c !in Join(parts, sep)
    ensures forall k | 0 <= k < |parts| :: c !in parts[k]
  {
    if |parts| > 1 {
      assert Join(parts, sep) == parts[0] + [sep] + Join(parts[1..], sep);
      JoinAvoids(parts[1..], sep, c);
      assert forall k | 1 <= k < |parts| :: parts[k] == parts[1..][k - 1];
    }
  }

  /** The other direction of the round trip: splitting a join gives the parts back. */
  lemma {:induction false} SplitJoin(parts: seq<string>, sep: char)
    requires |parts| >= 1
    requires forall k | 0 <= k < |parts| :: sep !in parts[k]
    ensures Split(Join(parts, sep), sep) == parts
  {
    if |parts| == 1 {
      SplitNoSeparator(parts[0], sep);
    } else {
      SplitJoin(parts[1..], sep);
      SplitPrefix(parts[0], Join(parts[1..], sep), sep);
      assert [parts[0]] + parts[1..] == parts;
    }
  }

  lemma {:induction false} SplitNoSeparator(s: string, sep: char)
    requires sep !in s
    ensures Split(s, sep) == [s]
  {
    if s != [] {
      SplitNoSeparator(s[1..], sep);
      assert [s[0]] + s[1..] == s;
    }
  }

  lemma {:induction false} SplitPrefix(a: string, t: string, sep: char)
    requires sep !in a
    ensures Split(a + [sep] + t, sep) == [a] + Split(t, sep)
  {
    if a == [] {
      assert (a + [sep] + t)[1..] == t;
    } else {
      assert (a + [sep] + t)[1..] == a[1..] + [sep] + t;
      SplitPrefix(a[1..], t, sep);
      assert [a[0]] + a[1..] == a;
    }
  }

  /** How many times `c` occurs in `s`. */
  function Count(s: string, c: char): nat
  {
    if s == [] then 0 else (if s[0] == c then 1 else 0) + Count(s[1..], c)
  }

  /** A string splits into one part more than it has separators. */
  lemma {:induction false} SplitCount(s: string, sep: char)
    ensures |Split(s, sep)| == Count(s, sep) + 1
  {
    if s != [] {
      SplitCount(s[1..], sep);
    }
  }

  /** `s.find(c, start)` for `start >= 0`: the first index at or after `start`
      holding `c`, or -1 when there is none. */
  function Find(s: string, c: char, start: nat): (r: int)
    ensures r == -1 || (start <= r < |s| && s[r] == c)
    ensures r == -1 <==> forall k | start <= k < |s| :: s[k] != c
    ensures r != -1 ==> forall k | start <= k < r :: s[k] != c
    decreases |s| - start
  {
    if start >= |s| then -1
    else if s[start] == c then start
    else Find(s, c, start + 1)
  }

  /** `s.rfind(c)`: the last index holding `c`, or -1 when there is none. */
  function RFind(s: string, c: char): (r: int)
    ensures -1 <= r < |s|
    ensures r == -1 <==> c !in s
    ensures r != -1 ==> s[r] == c
    ensures forall k | r < k < |s| :: s[k] != c
  {
    if s == [] then -1
    else if s[|s| - 1] == c then |s| - 1
    else
      var r := RFind(s[..|s| - 1], c);
      r
  }

  /** The text after the last `c` of `p`, or all of `p` when it holds no `c`,
      gathered from the end. */
  function AfterLast(p: string, c: char): (r: string)
    ensures c !in r && |r| <= |p|
  {
    if p == [] || p[|p| - 1] == c then []
    else
      var r := AfterLast(p[..|p| - 1], c) + [p[|p| - 1]];
      assert forall k | 0 <= k < |r| - 1 :: r[k] == AfterLast(p[..|p| - 1], c)[k];
      r
  }

  /** The text after the last `c` is a suffix of `p` holding no `c`, preceded by
      a `c` or by nothing. */
  lemma {:induction false} AfterLastIsSuffix(p: string, c: char)
    ensures var r := AfterLast(p, c);
      && p[|p| - |r|..] == r
      && (|r| == |p| || p[|p| - |r| - 1] == c)
  {
    if p != [] && p[|p| - 1] != c {
      var q := p[..|p| - 1];
      AfterLastIsSuffix(q, c);
      var r := AfterLast(q, c);
      assert p[|p| - |r| - 1..] == q[|q| - |r|..] + [p[|p| - 1]];
      assert |r| < |q| ==> p[|p| - |r| - 2] == q[|q| - |r| - 1];
    }
  }

  /** A string holding `c` is what precedes its last `c`, where `rfind` points,
      that `c`, and the text after it. */
  lemma {:induction false} SplitAtLast(p: string, c: char)
    requires c in p
    ensures p == p[..RFind(p, c)] + [c] + AfterLast(p, c)
  {
    var q := p[..|p| - 1];
    var last := p[|p| - 1];
    assert p == q + [last];
    if last != c {
      assert c in q;
      SplitAtLast(q, c);
      var j := RFind(q, c);
      assert p[..j] == q[..j];
      calc {
        p;
        q + [last];
        (q[..j] + [c] + AfterLast(q, c)) + [last];
        p[..j] + [c] + (AfterLast(q, c) + [last]);
      }
    }
  }

  /** The text after the last `c` of `left + [c] + right`, with no `c` in `right`,
      is `right`. */
  lemma {:induction false} AfterLastOf(left: string, c: char, right: string)
    requires c !in right
    ensures AfterLast(left + [c] + right, c) == right
  {
    var p := left + [c] + right;
    if right != [] {
      var shorter := right[..|right| - 1];
      assert c !in shorter by {
        assert forall k | 0 <= k < |shorter| :: shorter[k] == right[k];
      }
      assert p[..|p| - 1] == left + [c] + shorter;
      assert p[|p| - 1] == right[|right| - 1];
      AfterLastOf(left, c, shorter);
      assert right == shorter + [right[|right| - 1]];
    }
  }

  /** `os.path.basename(p)` on POSIX: the part after the last '/'. */
  function Basename(p: string): (r: string)
    ensures '/' !in r && |r| <= |p|
  {
    AfterLast(p, '/')
  }

  /** The base name is the last component of the path: a suffix holding no '/',
      preceded by a '/' or by nothing. */
  lemma BasenameIsLastComponent(p: string)
    ensures var r := Basename(p);
      && p[|p| - |r|..] == r
      && (|r| == |p| || p[|p| - |r| - 1] == '/')
  {
    AfterLastIsSuffix(p, '/');
  }

  /** The base name of `dir/name` is `name`, whatever the directory holds. */
  lemma BasenameOfPath(dir: string, name: string)
    requires '/' !in name
    ensures Basename(dir + "/" + name) == name
  {
    AfterLastOf(dir, '/', name);
    assert dir + "/" + name == dir + ['/'] + name;
  }

  /** The character of one decimal digit. */
  function DigitChar(d: nat): (c: char)
    requires d < 10
    ensures '0' <= c <= '9' && c as int - '0' as int == d
  {
    ('0' as int + d) as char
  }

  /** The number a string of decimal digits denotes. */
  function DecimalValue(s: string): nat
    requires forall k | 0 <= k < |s| :: '0' <= s[k] <= '9'
  {
    if s == [] then 0
    else DecimalValue(s[..|s| - 1]) * 10 + (s[|s| - 1] as int - '0' as int)
  }

  function NatToString(n: nat): (r: string)
    ensures |r| >= 1
    ensures forall k | 0 <= k < |r| :: '0' <= r[k] <= '9'
  {
    if n < 10 then [DigitChar(n)] else NatToString(n / 10) + [DigitChar(n % 10)]
  }

  /** The decimal text of `n` denotes `n`, with no leading zero. */
  lemma {:induction false} NatToStringValue(n: nat)
    ensures DecimalValue(NatToString(n)) == n
    ensures NatToString(n)[0] == '0' ==> n == 0
  {
    if n >= 10 {
      NatToStringValue(n / 10);
      var r := NatToString(n);
      assert r[..|r| - 1] == NatToString(n / 10);
      assert r[0] == NatToString(n / 10)[0];
    }
  }

  /** `str(n)`: the decimal text of an integer, with a leading '-' when it is negative. */
  function IntToString(n: int): (r: string)
    ensures |r| >= 1
    ensures (r[0] == '-') <==> n < 0
    ensures forall k | 0 <= k < |r| :: '0' <= r[k] <= '9' || (k == 0 && r[k] == '-')
  {
    if n < 0 then "-" + NatToString(-n) else NatToString(n)
  }

  /** `str(n)` denotes `n`: its digits, after the '-' of a negative number, have
      the value of `n`'s magnitude, and there is no leading zero. */
  lemma IntToStringValue(n: int)
    ensures var r := IntToString(n);
      var digits := if n < 0 then r[1..] else r;
      && digits != [] && (forall k | 0 <= k < |digits| :: '0' <= digits[k] <= '9')
      && DecimalValue(digits) == (if n < 0 then -n else n)
      && (digits[0] == '0' ==> n == 0)
  {
    if n < 0 {
      NatToStringValue(-n);
      var r := IntToString(n);
      assert r == "-" + NatToString(-n);
      assert r[1..] == NatToString(-n);
    } else {
      NatToStringValue(n);
    }
  }
}
