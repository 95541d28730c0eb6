/** The JavaScript string built-ins that the report text logic relies on, over
    Dafny strings. Indices count characters. */
module JsText {

  // ---------------------------------------------------------------- search

  /** `pat` occurs in `s` starting at index `i`. */
  predicate OccursAt(s: string, pat: string, i: int) {
    0 <= i && i + |pat| <= |s| && s[i..i + |pat|] == pat
  }

  lemma OccursAtChar(s: string, c: char, i: int)
    ensures OccursAt(s, [c], i) <==> 0 <= i < |s| && s[i] == c
  {
    if 0 <= i < |s| {
      assert s[i..i + 1] == [s[i]];
    }
  }

  /** `s.indexOf(pat, from)`: the first occurrence at or after `from`, or -1. */
  function IndexOfFrom(s: string, pat: string, from: nat): (r: int)
    ensures r == -1 || (from <= r && OccursAt(s, pat, r))
    ensures r == -1 ==> forall i :: from <= i ==> !OccursAt(s, pat, i)
    ensures r != -1 ==> forall i :: from <= i < r ==> !OccursAt(s, pat, i)
    decreases |s| - from
  {
    if from + |pat| > |s| then -1
    else if s[from..from + |pat|] == pat then from
    else IndexOfFrom(s, pat, from + 1)
  }

  /** `s.indexOf(pat)`: the first index at which `pat` occurs, or -1. */
  function IndexOf(s: string, pat: string): (r: int)
    ensures -1 <= r
    ensures r == -1 <==> forall i :: !OccursAt(s, pat, i)
    ensures r >= 0 ==> OccursAt(s, pat, r) && forall i :: i < r ==> !OccursAt(s, pat, i)
  {
    IndexOfFrom(s, pat, 0)
  }

  /** The last occurrence of `pat` at an index at most `k`, or -1. */
  function LastIndexOfAtMost(s: string, pat: string, k: int): (r: int)
    ensures r == -1 || (r <= k && OccursAt(s, pat, r))
    ensures forall i :: r < i <= k ==> !OccursAt(s, pat, i)
    decreases if k < 0 then 0 else k + 1
  {
    if k < 0 then -1
    else if OccursAt(s, pat, k) then k
    else LastIndexOfAtMost(s, pat, k - 1)
  }

  /** `s.lastIndexOf(pat)`: the last index at which `pat` occurs, or -1. */
  function LastIndexOf(s: string, pat: string): (r: int)
    ensures -1 <= r
    ensures r == -1 <==> forall i :: !OccursAt(s, pat, i)
    ensures r >= 0 ==> OccursAt(s, pat, r) && forall i :: r < i ==> !OccursAt(s, pat, i)
  {
    LastIndexOfAtMost(s, pat, |s| - |pat|)
  }

  /** The first occurrence of a one-character pattern, in terms of characters. */
  lemma IndexOfChar(s: string, c: char)
    ensures IndexOf(s, [c]) == -1 <==> c !in s
    ensures IndexOf(s, [c]) >= 0 ==>
      && IndexOf(s, [c]) < |s| && s[IndexOf(s, [c])] == c
      && c !in s[..IndexOf(s, [c])]
  {
    var r := IndexOf(s, [c]);
    forall i | 0 <= i < |s| ensures OccursAt(s, [c], i) <==> s[i] == c {
      OccursAtChar(s, c, i);
    }
    if r >= 0 {
      OccursAtChar(s, c, r);
      forall i | 0 <= i < r ensures s[..r][i] != c {
        OccursAtChar(s, c, i);
      }
    } else {
      forall i | 0 <= i < |s| ensures s[i] != c {
        OccursAtChar(s, c, i);
      }
    }
  }

  /** The last occurrence of a one-character pattern, in terms of characters. */
  lemma LastIndexOfChar(s: string, c: char)
    ensures LastIndexOf(s, [c]) == -1 <==> c !in s
    ensures LastIndexOf(s, [c]) >= 0 ==>
      && LastIndexOf(s, [c]) < |s| && s[LastIndexOf(s, [c])] == c
      && c !in s[LastIndexOf(s, [c]) + 1..]
  {
    var r := LastIndexOf(s, [c]);
    if r >= 0 {
      OccursAtChar(s, c, r);
      var tail := s[r + 1..];
      forall j | 0 <= j < |tail| ensures tail[j] != c {
        OccursAtChar(s, c, r + 1 + j);
      }
    } else {
      forall i | 0 <= i < |s| ensures s[i] != c {
        OccursAtChar(s, c, i);
      }
    }
  }

  // ---------------------------------------------------------------- substring

  /** An index clamped to 0..n, as `substring` treats its arguments. */
  function Clamp(x: int, n: nat): (r: nat)
    ensures r <= n
    ensures 0 <= x <= n ==> r == x
    ensures x < 0 ==> r == 0
  {
    if x < 0 then 0 else if x > n then n else x
  }

  /** `s.substring(start, end)`: both arguments are clamped to 0..|s| and
      swapped when the start is past the end. */
  function Substring(s: string, start: int, end: int): (r: string)
    ensures |r| <= |s|
    ensures 0 <= start <= end <= |s| ==> r == s[start..end]
    ensures 0 <= end <= start <= |s| ==> r == s[end..start]
    ensures start < 0 && 0 <= end <= |s| ==> r == s[..end]
    ensures end < 0 && 0 <= start <= |s| ==> r == s[..start]
  {
    var a, b := Clamp(start, |s|), Clamp(end, |s|);
    if a <= b then s[a..b] else s[b..a]
  }

  /** `s.startsWith(p)`. */
  predicate StartsWith(s: string, p: string) {
    |p| <= |s| && s[..|p|] == p
  }

  // ---------------------------------------------------------------- split and join

  /** `s.split(sep)` for a one-character separator: the pieces between
      separators, at least one, none containing the separator. */
  function Split(s: string, sep: char): (r: seq<string>)
    ensures |r| >= 1
    ensures forall k :: 0 <= k < |r| ==> sep !in r[k]
    decreases |s|
  {
    if s == [] then [""]
    else
      var rest := Split(s[1..], sep);
      if s[0] == sep then [""] + rest else [[s[0]] + rest[0]] + rest[1..]
  }

  /** `parts.join(sep)`. */
  function Join(parts: seq<string>, sep: string): string
    decreases |parts|
  {
    if |parts| == 0 then ""
    else if |parts| == 1 then parts[0]
    else parts[0] + sep + Join(parts[1..], sep)
  }

  lemma JoinCons(x: string, parts: seq<string>, sep: string)
    requires |parts| >= 1
    ensures Join([x + parts[0]] + parts[1..], sep) == x + Join(parts, sep)
  {
    var ps := [x + parts[0]] + parts[1..];
    if |parts| > 1 {
      assert ps[1..] == parts[1..];
    }
  }

  /** Joining the pieces of a split with the separator gives back the text. */
  lemma {:induction false} JoinSplit(s: string, sep: char)
    ensures Join(Split(s, sep), [sep]) == s
    decreases |s|
  {
    if s != [] {
      var rest := Split(s[1..], sep);
      JoinSplit(s[1..], sep);
      if s[0] == sep {
        assert ([""] + rest)[1..] == rest;
      } else {
        JoinCons([s[0]], rest, [sep]);
      }
    }
  }

  lemma {:induction false} SplitNoSeparator(x: string, sep: char)
    requires sep !in x
    ensures Split(x, sep) == [x]
    decreases |x|
  {
    if x != [] {
      SplitNoSeparator(x[1..], sep);
      assert [x[0]] + x[1..] == x;
    }
  }

  /** A separator-free prefix followed by the separator is exactly one piece. */
  lemma {:induction false} SplitPiece(x: string, sep: char, y: string)
    requires sep !in x
    ensures Split(x + [sep] + y, sep) == [x] + Split(y, sep)
    decreases |x|
  {
    var s := x + [sep] + y;
    if x == [] {
      assert s[1..] == y;
    } else {
      assert s[1..] == x[1..] + [sep] + y;
      SplitPiece(x[1..], sep, y);
      assert [x[0]] + x[1..] == x;
    }
  }

  /** Splitting a join of separator-free pieces gives back the pieces. */
  lemma {:induction false} SplitJoin(parts: seq<string>, sep: char)
    requires |parts| >= 1
    requires forall k :: 0 <= k < |parts| ==> sep !in parts[k]
    ensures Split(Join(parts, [sep]), sep) == parts
    decreases |parts|
  {
    if |parts| == 1 {
      SplitNoSeparator(parts[0], sep);
    } else {
      SplitJoin(parts[1..], sep);
      SplitPiece(parts[0], sep, Join(parts[1..], [sep]));
    }
  }

  /** Lines each followed by a newline, concatenated: the text a renderer that
      appends `line + "\n"` per item produces. */
  function Terminated(lines: seq<string>): string
    decreases |lines|
  {
    if lines == [] then "" else lines[0] + "\n" + Terminated(lines[1..])
  }

  lemma {:induction false} TerminatedAppend(a: seq<string>, b: seq<string>)
    ensures Terminated(a + b) == Terminated(a) + Terminated(b)
    decreases |a|
  {
    if a == [] {
      assert a + b == b;
    } else {
      assert (a + b)[1..] == a[1..] + b;
      TerminatedAppend(a[1..], b);
    }
  }

  lemma TerminatedTwo(a: string, b: string)
    ensures Terminated([a, b]) == a + "\n" + b + "\n"
  {
    assert [a, b][1..] == [b] && [b][1..] == [];
    assert Terminated([b]) == b + "\n";
    Assoc(a + "\n", b, "\n");
  }

  lemma TerminatedFour(a: string, b: string, c: string, d: string)
    ensures Terminated([a, b, c, d]) == a + "\n" + b + "\n" + c + "\n" + d + "\n"
  {
    assert [a, b, c, d][1..] == [b, c, d];
    TerminatedTwo(c, d);
    assert [b, c, d][1..] == [c, d];
  }

  /** The lines of `Terminated(lines) + rest` are `lines` followed by the lines of `rest`. */
  lemma {:induction false} SplitTerminated(lines: seq<string>, rest: string)
    requires forall k :: 0 <= k < |lines| ==> '\n' !in lines[k]
    ensures Split(Terminated(lines) + rest, '\n') == lines + Split(rest, '\n')
    decreases |lines|
  {
    if lines == [] {
      assert Terminated(lines) + rest == rest;
    } else {
      SplitTerminated(lines[1..], rest);
      assert Terminated(lines) + rest == lines[0] + "\n" + (Terminated(lines[1..]) + rest);
      SplitPiece(lines[0], '\n', Terminated(lines[1..]) + rest);
      assert [lines[0]] + lines[1..] == lines;
    }
  }

  /** Regrouping a concatenation: stated once so that proofs about long literal
      texts can regroup without comparing them character by character. */
  lemma Assoc(a: string, b: string, c: string)
    ensures a + (b + c) == (a + b) + c
  {}

  /** The parts one after another: what a loop doing `content += part` builds. */
  function Concat(parts: seq<string>): string
    decreases |parts|
  {
    if parts == [] then "" else Concat(parts[..|parts| - 1]) + parts[|parts| - 1]
  }

  lemma {:induction false} ConcatAppend(a: seq<string>, b: seq<string>)
    ensures Concat(a + b) == Concat(a) + Concat(b)
    decreases |b|
  {
    if b == [] {
      assert a + b == a;
    } else {
      assert (a + b)[..|a + b| - 1] == a + b[..|b| - 1];
      ConcatAppend(a, b[..|b| - 1]);
    }
  }

  lemma OccursAtShift(x: string, p: string, k: int, a: string, b: string)
    requires OccursAt(x, p, k)
    ensures OccursAt(a + x + b, p, |a| + k)
  {
    assert (a + x + b)[|a| + k..|a| + k + |p|] == x[k..k + |p|];
  }

  /** The texts `f` gives the elements, one after another. */
  function ConcatMap<T>(xs: seq<T>, f: T -> string): string
    decreases |xs|
  {
    if xs == [] then "" else ConcatMap(xs[..|xs| - 1], f) + f(xs[|xs| - 1])
  }

  lemma ConcatMapSnoc<T>(xs: seq<T>, x: T, f: T -> string)
    ensures ConcatMap(xs + [x], f) == ConcatMap(xs, f) + f(x)
  {
    assert (xs + [x])[..|xs|] == xs;
  }

  /** Part `i` stands in the concatenation right after the parts before it,
      so the parts appear whole and in order. */
  lemma ConcatPart(parts: seq<string>, i: int)
    requires 0 <= i < |parts|
    ensures OccursAt(Concat(parts), parts[i], |Concat(parts[..i])|)
    ensures forall j :: i < j <= |parts| ==> |Concat(parts[..j])| >= |Concat(parts[..i])| + |parts[i]|
  {
    assert parts == parts[..i] + [parts[i]] + parts[i + 1..];
    ConcatAppend(parts[..i] + [parts[i]], parts[i + 1..]);
    ConcatAppend(parts[..i], [parts[i]]);
    assert Concat([parts[i]]) == parts[i] by {
      assert [parts[i]][..0] == [];
    }
    var c := Concat(parts);
    var off := |Concat(parts[..i])|;
    assert c[off..off + |parts[i]|] == parts[i];
    forall j | i < j <= |parts| ensures |Concat(parts[..j])| >= off + |parts[i]| {
      assert parts[..j] == parts[..i] + [parts[i]] + parts[i + 1..j];
      ConcatAppend(parts[..i] + [parts[i]], parts[i + 1..j]);
      ConcatAppend(parts[..i], [parts[i]]);
    }
  }

  // ---------------------------------------------------------------- trim

  /** The characters `String.prototype.trim` removes: WhiteSpace and LineTerminator
      of the ECMAScript grammar. */
  predicate IsJsWhitespace(c: char) {
    || c == '\t' || c == '\n' || c == '\U{B}' || c == '\U{C}' || c == '\r' || c == ' '
    || c == '\U{A0}' || c == '\U{1680}' || ('\U{2000}' <= c <= '\U{200A}')
    || c == '\U{2028}' || c == '\U{2029}' || c == '\U{202F}' || c == '\U{205F}'
    || c == '\U{3000}' || c == '\U{FEFF}'
  }

  predicate AllWhitespace(s: string) {
    forall k :: 0 <= k < |s| ==> IsJsWhitespace(s[k])
  }

  /** `s.trim()`: `s` without leading and trailing whitespace. */
  function Trim(s: string): (r: string)
    ensures |r| <= |s|
    ensures r == "" <==> AllWhitespace(s)
    ensures r != "" ==> !IsJsWhitespace(r[0]) && !IsJsWhitespace(r[|r| - 1])
    ensures s != "" && !IsJsWhitespace(s[0]) && !IsJsWhitespace(s[|s| - 1]) ==> r == s
    decreases |s|
  {
    if s != "" && IsJsWhitespace(s[0]) then Trim(s[1..])
    else if s != "" && IsJsWhitespace(s[|s| - 1]) then Trim(s[..|s| - 1])
    else s
  }

  /** The trimmed text is the slice `s[p..q]` between a whitespace prefix and a
      whitespace suffix; with the ends of a non-empty result not being
      whitespace, this pins it down. */
  lemma {:induction false} TrimSlice(s: string) returns (p: nat, q: nat)
    ensures p <= q <= |s| && Trim(s) == s[p..q]
    ensures AllWhitespace(s[..p]) && AllWhitespace(s[q..])
    decreases |s|
  {
    if s != "" && IsJsWhitespace(s[0]) {
      var p', q' := TrimSlice(s[1..]);
      SliceAfterFront(s, p', q');
      p, q := p' + 1, q' + 1;
    } else if s != "" && IsJsWhitespace(s[|s| - 1]) {
      p, q := TrimSlice(s[..|s| - 1]);
      SliceBeforeBack(s, p, q);
    } else {
      p, q := 0, |s|;
      assert s == s[0..|s|];
    }
  }

  /** `TrimSlice` as a statement about every line. */
  lemma TrimIsSlice(s: string)
    ensures exists p, q :: 0 <= p <= q <= |s| && Trim(s) == s[p..q] && AllWhitespace(s[..p]) && AllWhitespace(s[q..])
  {
    var p, q := TrimSlice(s);
    assert Trim(s) == s[p..q];
  }

  /** A slice of `s[1..]` between whitespace is one of `s` when `s[0]` is whitespace. */
  lemma SliceAfterFront(s: string, p: nat, q: nat)
    requires s != "" && IsJsWhitespace(s[0]) && p <= q <= |s| - 1
    requires AllWhitespace(s[1..][..p]) && AllWhitespace(s[1..][q..])
    ensures s[1..][p..q] == s[p + 1..q + 1]
    ensures AllWhitespace(s[..p + 1]) && AllWhitespace(s[q + 1..])
  {
    var t, pre := s[1..], s[..p + 1];
    forall k | 0 <= k < |pre| ensures IsJsWhitespace(pre[k]) {
      if k > 0 { assert pre[k] == t[..p][k - 1]; }
    }
    assert s[q + 1..] == t[q..];
  }

  /** A slice of `s` without its last character, between whitespace, is one of
      `s` when that character is whitespace. */
  lemma SliceBeforeBack(s: string, p: nat, q: nat)
    requires s != "" && IsJsWhitespace(s[|s| - 1]) && p <= q <= |s| - 1
    requires AllWhitespace(s[..|s| - 1][..p]) && AllWhitespace(s[..|s| - 1][q..])
    ensures s[..|s| - 1][p..q] == s[p..q]
    ensures AllWhitespace(s[..p]) && AllWhitespace(s[q..])
  {
    var t, post := s[..|s| - 1], s[q..];
    assert s[..p] == t[..p];
    forall k | 0 <= k < |post| ensures IsJsWhitespace(post[k]) {
      if k < |t| - q { assert post[k] == t[q..][k]; }
    }
  }

  // ---------------------------------------------------------------- replace

  /** `s.replaceAll(c, "")`, and `s.replace(/c/g, "")`: `s` with every `c` removed. */
  function RemoveChar(s: string, c: char): (r: string)
    ensures c !in r
    ensures forall d :: d != c ==> (d in r <==> d in s)
    ensures multiset(r) == multiset(s)[c := 0]
    ensures c !in s ==> r == s
    ensures |r| <= |s|
    decreases |s|
  {
    if s == [] then ""
    else
      assert s == [s[0]] + s[1..];
      (if s[0] == c then "" else [s[0]]) + RemoveChar(s[1..], c)
  }

  /** Removing a character works piece by piece, so the kept characters stay in
      their order. */
  lemma {:induction false} RemoveCharAppend(a: string, b: string, c: char)
    ensures RemoveChar(a + b, c) == RemoveChar(a, c) + RemoveChar(b, c)
    decreases |a|
  {
    if a != [] {
      var head := if a[0] == c then "" else [a[0]];
      assert (a + b)[0] == a[0] && (a + b)[1..] == a[1..] + b;
      RemoveCharAppend(a[1..], b, c);
      assert RemoveChar(a + b, c) == head + RemoveChar(a[1..] + b, c);
      assert RemoveChar(a, c) == head + RemoveChar(a[1..], c);
    } else {
      assert a + b == b;
    }
  }
}
