/** The few Python string operations the core relies on: `startswith`, `split`,
    `join`, `isdigit`, `int`, `str` of a whole number, `strip`, a case-insensitive
    prefix test and the code-point ordering of strings. Each is given as a
    function, with the property a caller relies on proved beside it. */
module Text {
  import opened Wrappers

  /** `s.startswith(p)` */
  predicate StartsWith(s: string, p: string) {
    |p| <= |s| && s[..|p|] == p
  }

  /** `sep` occurs in `s` starting at index `j`. */
  predicate OccursAt(s: string, sep: string, j: nat) {
    j + |sep| <= |s| && s[j..j + |sep|] == sep
  }

  /** Index of the leftmost occurrence of `sep` in `s`, as `str.find` gives it
      (FindSpec states that it is the leftmost occurrence). */
  function Find(s: string, sep: string): (r: Option<nat>)
    requires |sep| > 0
    ensures r.Some? ==> r.value + |sep| <= |s|
    decreases |s|
  {
    if |s| < |sep| then None
    else if StartsWith(s, sep) then Some(0)
    else
      match Find(s[1..], sep)
      case None => None
      case Some(k) => Some(k + 1)
  }

  /** Find gives an occurrence with none before it, and none only when there
      is no occurrence at all. */
  lemma {:induction false} FindSpec(s: string, sep: string)
    requires |sep| > 0
    ensures var r := Find(s, sep);
      && (r.Some? ==> OccursAt(s, sep, r.value))
      && (r.Some? ==> forall j :: 0 <= j < r.value ==> !OccursAt(s, sep, j))
      && (r.None? ==> forall j: nat :: !OccursAt(s, sep, j))
    decreases |s|
  {
    if |s| < |sep| {
    } else {
      OccursShifted(s, sep);
      if !StartsWith(s, sep) {
        FindSpec(s[1..], sep);
      }
    }
  }

  /** An occurrence in `s` at a positive index is an occurrence in `s[1..]` one
      position earlier; an occurrence at index 0 is a prefix. */
  lemma OccursShifted(s: string, sep: string)
    requires |s| > 0
    ensures OccursAt(s, sep, 0) <==> StartsWith(s, sep)
    ensures forall j: nat :: 1 <= j ==> (OccursAt(s, sep, j) <==> OccursAt(s[1..], sep, j - 1))
  {
    forall j: nat | 1 <= j
      ensures OccursAt(s, sep, j) <==> OccursAt(s[1..], sep, j - 1)
    {
      if j + |sep| <= |s| {
        assert s[1..][j - 1..j - 1 + |sep|] == s[j..j + |sep|];
      }
    }
    if |sep| <= |s| {
      assert s[0..|sep|] == s[..|sep|];
    }
  }

  /** `s.split(sep)`: the pieces between the non-overlapping occurrences of `sep`,
      found from left to right. */
  function Split(s: string, sep: string): (parts: seq<string>)
    requires |sep| > 0
    ensures |parts| >= 1
    decreases |s|
  {
    match Find(s, sep)
    case None => [s]
    case Some(i) => [s[..i]] + Split(s[i + |sep|..], sep)
  }

  /** `sep.join(parts)` */
  function Join(parts: seq<string>, sep: string): string {
    if |parts| == 0 then ""
    else if |parts| == 1 then parts[0]
    else parts[0] + sep + Join(parts[1..], sep)
  }

  lemma JoinCons(head: string, tail: seq<string>, sep: string)
    requires |tail| >= 1
    ensures Join([head] + tail, sep) == head + sep + Join(tail, sep)
  {
    assert ([head] + tail)[1..] == tail;
  }

  /** Joining two non-empty runs of pieces puts one separator between their joins. */
  lemma {:induction false} JoinAppend(a: seq<string>, b: seq<string>, sep: string)
    requires |a| >= 1 && |b| >= 1
    ensures Join(a + b, sep) == Join(a, sep) + sep + Join(b, sep)
    decreases |a|
  {
    if |a| == 1 {
      JoinCons(a[0], b, sep);
      assert a + b == [a[0]] + b;
    } else {
      JoinAppend(a[1..], b, sep);
      assert a + b == [a[0]] + (a[1..] + b);
      JoinCons(a[0], a[1..] + b, sep);
    }
  }

  /** Joining the pieces of a split with the same separator gives back the string. */
  lemma {:induction false} JoinSplit(s: string, sep: string)
    requires |sep| > 0
    ensures Join(Split(s, sep), sep) == s
    decreases |s|
  {
    if Find(s, sep).Some? {
      var i := Find(s, sep).value;
      var rest := s[i + |sep|..];
      SplitAtFirst(s, sep, i);
      CutAtFirst(s, sep, i);
      JoinSplit(rest, sep);
      JoinCons(s[..i], Split(rest, sep), sep);
    }
  }

  /** At the first occurrence of the separator the split continues on the rest. */
  lemma {:induction false} SplitAtFirst(s: string, sep: string, i: nat)
    requires |sep| > 0 && Find(s, sep) == Some(i)
    ensures Split(s, sep) == [s[..i]] + Split(s[i + |sep|..], sep)
  {
    var tail := Split(s[i + |sep|..], sep);
    calc {
      Split(s, sep);
      [s[..i]] + tail;
    }
  }

  /** The split has one piece, the whole string, exactly when the separator
      does not occur. */
  lemma SplitPieces(s: string, sep: string)
    requires |sep| > 0
    ensures Find(s, sep).None? ==> Split(s, sep) == [s]
    ensures |Split(s, sep)| == 1 <==> Find(s, sep).None?
  {
    if Find(s, sep).Some? {
      SplitAtFirst(s, sep, Find(s, sep).value);
    }
  }

  /** At the first occurrence of the separator the string falls into the text
      before it, the separator and the rest. */
  lemma CutAtFirst(s: string, sep: string, i: nat)
    requires |sep| > 0 && Find(s, sep) == Some(i)
    ensures s == s[..i] + sep + s[i + |sep|..]
  {
    FindSpec(s, sep);
    assert s[i..i + |sep|] == sep;
    SliceThree(s, i, i + |sep|);
  }

  /** A split into exactly two pieces is the first piece, the separator and the
      second piece. */
  lemma SplitInTwo(s: string, sep: string)
    requires |sep| > 0 && |Split(s, sep)| == 2
    ensures s == Split(s, sep)[0] + sep + Split(s, sep)[1]
  {
    SplitPieces(s, sep);
    var i := Find(s, sep).value;
    var rest := s[i + |sep|..];
    SplitAtFirst(s, sep, i);
    CutAtFirst(s, sep, i);
    SplitPieces(rest, sep);
  }

  /** A string is its three slices around two cut points. */
  lemma SliceThree(s: string, i: nat, j: nat)
    requires i <= j <= |s|
    ensures s == s[..i] + s[i..j] + s[j..]
  {
    assert s[..j] == s[..i] + s[i..j];
    assert s == s[..j] + s[j..];
  }

  /** Splitting a join on a one-character separator that no piece contains gives
      back the pieces. */
  lemma {:induction false} SplitJoin(parts: seq<string>, c: char)
    requires |parts| >= 1
    requires forall k :: 0 <= k < |parts| ==> c !in parts[k]
    ensures Split(Join(parts, [c]), [c]) == parts
    decreases |parts|
  {
    var s := Join(parts, [c]);
    FindSpec(s, [c]);
    if |parts| == 1 {
      forall j: nat ensures !OccursAt(s, [c], j) {
        if j < |s| {
          assert s[j..j + 1] == [s[j]];
        }
      }
    } else {
      var p := parts[0];
      var rest := Join(parts[1..], [c]);
      assert s == p + [c] + rest;
      assert s[|p|..|p| + 1] == [c];
      assert OccursAt(s, [c], |p|);
      forall j | 0 <= j < |p| ensures !OccursAt(s, [c], j) {
        assert s[j] == p[j];
        assert s[j..j + 1] == [s[j]];
      }
      assert Find(s, [c]) == Some(|p|);
      assert s[..|p|] == p;
      assert s[|p| + 1..] == rest;
      SplitJoin(parts[1..], c);
    }
  }

  /** `s.split(c)[-1]` for a one-character separator: the text after the last
      `c`, or the whole string when there is none. While `c` still occurs, the
      first character belongs to an earlier piece or is a separator. */
  function LastPart(s: string, c: char): string
    decreases |s|
  {
    if c in s then LastPart(s[1..], c) else s
  }

  /** The last piece of a split on a one-character separator is a suffix of the
      string that does not contain the separator; it is the whole string exactly
      when the separator does not occur, and otherwise a separator precedes it. */
  lemma {:induction false} LastPartIsSuffix(s: string, c: char)
    ensures var r := LastPart(s, c);
      && |r| <= |s| && s[|s| - |r|..] == r && c !in r
      && (r == s <==> c !in s)
      && (r == s || s[|s| - |r| - 1] == c)
    decreases |s|
  {
    if c in s {
      var rest := s[1..];
      LastPartIsSuffix(rest, c);
      var r := LastPart(rest, c);
      assert s[|s| - |r|..] == rest[|rest| - |r|..];
      if r == rest {
        assert c !in rest;
        assert s[0] == c;
      } else {
        assert s[|s| - |r| - 1] == rest[|rest| - |r| - 1];
      }
    }
  }

  /** What follows the last separator is the text after it when that text holds
      no separator. */
  lemma {:induction false} LastPartAfter(front: string, c: char, tail: string)
    requires c !in tail
    ensures LastPart(front + [c] + tail, c) == tail
    decreases |front|
  {
    var s := front + [c] + tail;
    assert s[|front|] == c;
    if front == [] {
      assert s[1..] == tail;
    } else {
      assert s[1..] == front[1..] + [c] + tail;
      LastPartAfter(front[1..], c, tail);
    }
  }

  /** The first piece of a split is the text before the first separator. */
  lemma SplitFirst(front: string, c: char, tail: string)
    requires c !in front
    ensures Split(front + [c] + tail, [c])[0] == front
  {
    var s := front + [c] + tail;
    FindSpec(s, [c]);
    assert s[|front|..|front| + 1] == [c];
    assert OccursAt(s, [c], |front|);
    forall j | 0 <= j < |front| ensures !OccursAt(s, [c], j) {
      assert s[j] == front[j];
      assert s[j..j + 1] == [s[j]];
    }
    assert Find(s, [c]) == Some(|front|);
    assert s[..|front|] == front;
  }

  // ----- digits -----

  predicate IsDigit(c: char) {
    '0' <= c <= '9'
  }

  /** `s.isdigit()`, for the ASCII digits: true only of a non-empty string of digits. */
  predicate IsDigits(s: string) {
    |s| > 0 && forall i :: 0 <= i < |s| ==> IsDigit(s[i])
  }

  function DigitValue(c: char): (d: nat)
    requires IsDigit(c)
    ensures d < 10
  {
    c as int - '0' as int
  }

  function DigitChar(d: nat): (c: char)
    requires d < 10
    ensures IsDigit(c) && DigitValue(c) == d
  {
    ('0' as int + d) as char
  }

  /** `int(s)` of a string of ASCII digits (leading zeros allowed). */
  function ParseNat(s: string): nat
    requires forall i :: 0 <= i < |s| ==> IsDigit(s[i])
  {
    if s == [] then 0 else ParseNat(s[..|s| - 1]) * 10 + DigitValue(s[|s| - 1])
  }

  /** `str(n)` of a natural number: its decimal digits, no leading zero. */
  function NatToString(n: nat): (s: string)
    ensures IsDigits(s)
    ensures s[0] == '0' ==> n == 0
    decreases n
  {
    if n < 10 then [DigitChar(n)] else NatToString(n / 10) + [DigitChar(n % 10)]
  }

  /** Reading back the decimal form of a number gives the number. */
  lemma {:induction false} ParseNatToString(n: nat)
    ensures ParseNat(NatToString(n)) == n
    decreases n
  {
    var s := NatToString(n);
    if n >= 10 {
      ParseNatToString(n / 10);
      assert s[..|s| - 1] == NatToString(n / 10);
    }
  }

  // ----- whitespace -----

  /** `c.isspace()` in Python: the characters `str.strip()` removes. */
  predicate IsSpace(c: char) {
    || c in {'\t', '\n', '\U{B}', '\U{C}', '\r', '\U{1C}', '\U{1D}', '\U{1E}', '\U{1F}', ' '}
    || c in {'\U{85}', '\U{A0}', '\U{1680}', '\U{2028}', '\U{2029}', '\U{202F}', '\U{205F}', '\U{3000}'}
    || '\U{2000}' <= c <= '\U{200A}'
  }

  /** The number of whitespace characters `s` starts with. */
  function LeadingSpaces(s: string): (n: nat)
    ensures n <= |s|
    ensures forall i :: 0 <= i < n ==> IsSpace(s[i])
    ensures n == |s| || !IsSpace(s[n])
  {
    if s != [] && IsSpace(s[0]) then 1 + LeadingSpaces(s[1..]) else 0
  }

  /** The number of whitespace characters `s` ends with. */
  function TrailingSpaces(s: string): (n: nat)
    ensures n <= |s|
    ensures forall i :: |s| - n <= i < |s| ==> IsSpace(s[i])
    ensures n == |s| || !IsSpace(s[|s| - n - 1])
  {
    if s != [] && IsSpace(s[|s| - 1]) then 1 + TrailingSpaces(s[..|s| - 1]) else 0
  }

  /** `s.strip()`: `s` without its leading and trailing whitespace. */
  function Strip(s: string): (r: string)
    ensures exists i: nat :: && OccursAt(s, r, i)
                             && (forall k :: 0 <= k < i ==> IsSpace(s[k]))
                             && (forall k :: i + |r| <= k < |s| ==> IsSpace(s[k]))
    ensures r == [] || (!IsSpace(r[0]) && !IsSpace(r[|r| - 1]))
  {
    var a := LeadingSpaces(s);
    var b := TrailingSpaces(s[a..]);
    StripWitness(s, a, b);
    var r := s[a..|s| - b];
    assert r == [] || (r[0] == s[a] && r[|r| - 1] == s[|s| - b - 1]);
    assert OccursAt(s, r, a);
    r
  }

  /** The cut `Strip` makes: whitespace before `a`, whitespace from `|s| - b`
      on, and no whitespace at either end of what is kept. */
  lemma {:induction false} StripWitness(s: string, a: nat, b: nat)
    requires a == LeadingSpaces(s) && b == TrailingSpaces(s[a..])
    ensures a + b <= |s|
    ensures forall k :: 0 <= k < a ==> IsSpace(s[k])
    ensures forall k :: |s| - b <= k < |s| ==> IsSpace(s[k])
    ensures a < |s| - b ==> !IsSpace(s[a]) && !IsSpace(s[|s| - b - 1])
  {
    var t := s[a..];
    assert forall k :: |s| - b <= k < |s| ==> s[k] == t[k - a];
    if a < |s| - b {
      assert s[|s| - b - 1] == t[|t| - b - 1];
    }
  }

  /** Trimming removes only whitespace: every other character stays. */
  lemma StripKeepsInner(s: string, k: nat)
    requires k < |s| && !IsSpace(s[k])
    ensures s[k] in Strip(s)
  {
    var r := Strip(s);
    var i: nat :| && OccursAt(s, r, i)
                  && (forall j :: 0 <= j < i ==> IsSpace(s[j]))
                  && (forall j :: i + |r| <= j < |s| ==> IsSpace(s[j]));
    assert i <= k < i + |r|;
    assert r[k - i] == s[i..i + |r|][k - i];
  }

  // ----- case-insensitive prefix -----

  /** Lower case of a Latin or Cyrillic capital letter; every other character is
      its own lower case. */
  function Lower(c: char): char {
    if 'A' <= c <= 'Z' then (c as int + 32) as char
    else if 'А' <= c <= 'Я' then (c as int + 32) as char
    else if '\U{400}' <= c <= '\U{40F}' then (c as int + 80) as char
    else c
  }

  lemma LowerIdempotent(c: char)
    ensures Lower(Lower(c)) == Lower(c)
  {
  }

  function LowerStr(s: string): (r: string)
    ensures |r| == |s|
  {
    seq(|s|, i requires 0 <= i < |s| => Lower(s[i]))
  }

  /** `name__istartswith=prefix`: prefix test after folding both sides to lower case. */
  predicate IStartsWith(s: string, prefix: string) {
    StartsWith(LowerStr(s), LowerStr(prefix))
  }

  /** A case-exact prefix is also a case-insensitive one, and the test does not
      depend on the case of either side. */
  lemma PrefixIsIPrefix(s: string, prefix: string)
    ensures StartsWith(s, prefix) ==> IStartsWith(s, prefix)
    ensures IStartsWith(s, prefix) == IStartsWith(LowerStr(s), LowerStr(prefix))
  {
    if StartsWith(s, prefix) {
      assert LowerStr(s)[..|prefix|] == LowerStr(prefix);
    }
    forall c: char ensures Lower(Lower(c)) == Lower(c) {
      LowerIdempotent(c);
    }
    assert LowerStr(LowerStr(s)) == LowerStr(s);
    assert LowerStr(LowerStr(prefix)) == LowerStr(prefix);
  }

  // ----- ordering -----

  /** Code-point lexicographic order on strings: `a <= b` in Python. */
  predicate LexLe(a: string, b: string) {
    a == [] || (b != [] && (a[0] < b[0] || (a[0] == b[0] && LexLe(a[1..], b[1..]))))
  }

  lemma {:induction false} LexLeReflexive(a: string)
    ensures LexLe(a, a)
    decreases |a|
  {
    if a != [] {
      LexLeReflexive(a[1..]);
    }
  }

  lemma {:induction false} LexLeTotal(a: string, b: string)
    ensures LexLe(a, b) || LexLe(b, a)
    decreases |a|
  {
    if a != [] && b != [] && a[0] == b[0] {
      LexLeTotal(a[1..], b[1..]);
    }
  }

  lemma {:induction false} LexLeTransitive(a: string, b: string, c: string)
    requires LexLe(a, b) && LexLe(b, c)
    ensures LexLe(a, c)
    decreases |a|
  {
    if a != [] && a[0] == b[0] && b[0] == c[0] {
      LexLeTransitive(a[1..], b[1..], c[1..]);
    }
  }

  lemma {:induction false} LexLeAntisymmetric(a: string, b: string)
    requires LexLe(a, b) && LexLe(b, a)
    ensures a == b
    decreases |a|
  {
    if a != [] {
      LexLeAntisymmetric(a[1..], b[1..]);
      assert a == [a[0]] + a[1..];
      assert b == [b[0]] + b[1..];
    }
  }

  lemma LexLeAntisymmetricImp(a: string, b: string)
    ensures LexLe(a, b) && LexLe(b, a) ==> a == b
  {
    if LexLe(a, b) && LexLe(b, a) {
      LexLeAntisymmetric(a, b);
    }
  }
}
