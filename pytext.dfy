/** The Python built-ins the extraction code leans on: `None`, raised
    exceptions, and the `str` methods `find`, `lower`, `split`, `split(sep)`,
    `isalnum` and slicing with a negative end. `Join` (`sep.join`) is used
    only to state that `split(sep)` can be undone. Characters are
    restricted to ASCII: `lower` and `isalnum` only know about ASCII letters
    and digits, and `split()` only about ASCII whitespace. */
module PyText {

  /** A Python value that may be `None`. */
  datatype Option<T> = None | Some(value: T)

  /** The exceptions the modelled code lets escape. */
  datatype Exception =
    | StopIteration      // `next()` on an exhausted iterator
    | ZeroDivisionError  // a division by zero

  /** The outcome of a Python call: a value, or an exception that escaped. */
  datatype Result<T> = Ok(value: T) | Raised(exception: Exception)

  predicate IsUpper(c: char) { 'A' <= c <= 'Z' }
  predicate IsLower(c: char) { 'a' <= c <= 'z' }
  predicate IsLetter(c: char) { IsUpper(c) || IsLower(c) }
  predicate IsDigit(c: char) { '0' <= c <= '9' }
  /** `[a-zA-Z0-9]`, and `str.isalnum` on ASCII. */
  predicate IsAlnum(c: char) { IsLetter(c) || IsDigit(c) }

  /** The characters `str.split()` treats as whitespace, within ASCII. */
  predicate IsSpace(c: char) {
    c == ' ' || c == '\t' || c == '\n' || c == '\r' || c == '\U{0B}' || c == '\U{0C}'
    || ('\U{1C}' <= c <= '\U{1F}')
  }

  function LowerChar(c: char): (r: char)
    ensures IsUpper(c) ==> IsLower(r) && r as int == c as int + 32
    ensures !IsUpper(c) ==> r == c
  {
    if IsUpper(c) then (c as int + 32) as char else c
  }

  /** `s.lower()`. */
  function Lower(s: string): (r: string)
    ensures |r| == |s|
    ensures forall i :: 0 <= i < |s| ==> r[i] == LowerChar(s[i])
  {
    seq(|s|, i requires 0 <= i < |s| => LowerChar(s[i]))
  }

  predicate AllLower(s: string) { forall i :: 0 <= i < |s| ==> IsLower(s[i]) }
  predicate AllUpper(s: string) { forall i :: 0 <= i < |s| ==> IsUpper(s[i]) }

  /** `s.find(c)`: the index of the first occurrence of `c`, or -1. */
  function Find(s: string, c: char): (r: int)
    ensures -1 <= r < |s|
    ensures r == -1 <==> c !in s
    ensures 0 <= r ==> s[r] == c && c !in s[..r]
  {
    if s == [] then -1
    else if s[0] == c then 0
    else
      var k := Find(s[1..], c);
      assert s[1..][..k + 1] == s[1..k + 2] by {
        if 0 <= k { assert s[1..][..k + 1] == s[1..][..k] + [s[1..][k]]; }
      }
      if k < 0 then -1 else k + 1
  }

  /** `s[:end]`, where a negative `end` counts from the end of `s`. */
  function SliceTo(s: string, end: int): (r: string)
    ensures 0 <= end ==> r == s[..if end <= |s| then end else |s|]
    ensures end < 0 ==> r == s[..if |s| + end >= 0 then |s| + end else 0]
  {
    if end < 0 then s[..if |s| + end >= 0 then |s| + end else 0]
    else s[..if end <= |s| then end else |s|]
  }

  function Min(a: int, b: int): int { if a <= b then a else b }

  /** `s[start:end]` for non-negative bounds: the elements from `start` up
      to `end`, clipped to the length of `s`; empty once `start` reaches
      the clipped end. */
  function Slice<T>(s: seq<T>, start: nat, end: nat): (r: seq<T>)
    ensures |r| == if start < Min(end, |s|) then Min(end, |s|) - start else 0
    ensures forall k :: 0 <= k < |r| ==> r[k] == s[start + k]
  {
    var stop := Min(end, |s|);
    if start < stop then s[start..stop] else []
  }

  /** `s.split(sep)` for a one-character separator: the pieces between
      consecutive separators, including empty ones. */
  function SplitOn(s: string, sep: char): (r: seq<string>)
    ensures |r| >= 1
    ensures forall i :: 0 <= i < |r| ==> sep !in r[i]
    decreases |s|
  {
    var k := Find(s, sep);
    if k < 0 then [s] else [s[..k]] + SplitOn(s[k + 1..], sep)
  }

  /** `sep.join(parts)`. */
  function Join(parts: seq<string>, sep: string): string {
    if parts == [] then []
    else if |parts| == 1 then parts[0]
    else parts[0] + sep + Join(parts[1..], sep)
  }

  /** The concatenation of all `parts`, with nothing between them
      (`''.join(parts)` for strings). */
  function Concat<T>(parts: seq<seq<T>>): seq<T> {
    if parts == [] then [] else parts[0] + Concat(parts[1..])
  }

  /** The non-whitespace characters of `s`, in order. */
  function NonSpace(s: string): string {
    if s == [] then []
    else (if IsSpace(s[0]) then [] else [s[0]]) + NonSpace(s[1..])
  }

  /** Length of the leading run of non-whitespace characters. */
  function WordLength(s: string): (k: nat)
    ensures k <= |s|
    ensures forall i :: 0 <= i < k ==> !IsSpace(s[i])
    ensures k < |s| ==> IsSpace(s[k])
  {
    if s == [] || IsSpace(s[0]) then 0 else 1 + WordLength(s[1..])
  }

  /** `s.split()`: the maximal runs of non-whitespace characters. */
  function Words(s: string): (r: seq<string>)
    decreases |s|
  {
    if s == [] then []
    else if IsSpace(s[0]) then Words(s[1..])
    else
      var k := WordLength(s);
      [s[..k]] + Words(s[k..])
  }

  lemma {:induction false} ConcatAppend<T>(a: seq<seq<T>>, b: seq<seq<T>>)
    ensures Concat(a + b) == Concat(a) + Concat(b)
  {
    if a != [] {
      assert (a + b)[0] == a[0] && (a + b)[1..] == a[1..] + b;
      ConcatAppend(a[1..], b);
      assert Concat(a + b) == a[0] + Concat(a[1..] + b);
    } else {
      assert a + b == b;
    }
  }

  lemma {:induction false} NonSpaceAppend(a: string, b: string)
    ensures NonSpace(a + b) == NonSpace(a) + NonSpace(b)
  {
    if a != [] {
      assert (a + b)[0] == a[0] && (a + b)[1..] == a[1..] + b;
      NonSpaceAppend(a[1..], b);
    } else {
      assert a + b == b;
    }
  }

  lemma {:induction false} NonSpaceOfWord(s: string)
    requires forall i :: 0 <= i < |s| ==> !IsSpace(s[i])
    ensures NonSpace(s) == s
  {
    if s != [] { NonSpaceOfWord(s[1..]); }
  }

  /** `s[a..b]` is a maximal run of characters outside `sep`: it is
      non-empty, holds no character in `sep`, and is bounded on each side by
      an end of `s` or by a character in `sep`. */
  ghost predicate IsRun(s: string, sep: char -> bool, a: int, b: int) {
    0 <= a < b <= |s|
    && (a == 0 || sep(s[a - 1]))
    && (b == |s| || sep(s[b]))
    && forall i :: a <= i < b ==> !sep(s[i])
  }

  /** `runs` bounds, from left to right, maximal runs of `s[off..]` outside
      `sep`: each pair is such a run, and the runs are disjoint and in
      order. */
  ghost predicate RunsFrom(s: string, sep: char -> bool, off: nat, runs: seq<(int, int)>) {
    (forall k :: 0 <= k < |runs| ==> off <= runs[k].0 && IsRun(s, sep, runs[k].0, runs[k].1))
    && (forall k :: 0 < k < |runs| ==> runs[k - 1].1 < runs[k].0)
  }

  /** `runs` bounds maximal runs of `s` outside `sep`, in order. */
  ghost predicate AllRuns(s: string, sep: char -> bool, runs: seq<(int, int)>) {
    RunsFrom(s, sep, 0, runs)
  }

  /** `parts` are the slices of `s` that `runs` bounds, in order. */
  ghost predicate SlicesAt(s: string, runs: seq<(int, int)>, parts: seq<string>) {
    |runs| == |parts|
    && forall k :: 0 <= k < |runs| ==> 0 <= runs[k].0 <= runs[k].1 <= |s| && parts[k] == s[runs[k].0..runs[k].1]
  }

  /** `str.split()` loses only whitespace: every word is non-empty and free
      of whitespace, and the words, concatenated in order, give back the
      non-whitespace characters of the input in their original order. More
      precisely, the words are slices of `s` at maximal runs of
      non-whitespace characters, in order, so words break exactly at
      whitespace; since they also spell out every non-whitespace character,
      these runs are all the runs of `s`. */
  lemma WordsSpec(s: string)
    ensures forall w :: w in Words(s) ==> w != [] && forall i :: 0 <= i < |w| ==> !IsSpace(w[i])
    ensures Concat(Words(s)) == NonSpace(s)
    ensures exists runs :: AllRuns(s, IsSpace, runs) && SlicesAt(s, runs, Words(s))
  {
    WordsShape(s);
    WordsConcat(s);
    var runs := WordRuns(s, 0);
    assert s[0..] == s;
  }

  /** The words of `s[off..]` are its maximal non-whitespace runs, when
      `off` does not cut a word in two. */
  lemma {:induction false} WordRuns(s: string, off: nat) returns (runs: seq<(int, int)>)
    requires off <= |s|
    requires off == 0 || off == |s| || IsSpace(s[off - 1]) || IsSpace(s[off])
    ensures RunsFrom(s, IsSpace, off, runs)
    ensures SlicesAt(s, runs, Words(s[off..]))
    decreases |s| - off
  {
    if off == |s| {
      runs := [];
    } else if IsSpace(s[off]) {
      runs := WordRuns(s, off + 1);
      RunsLater(s, off, runs);
      WordsSkip(s, off);
    } else {
      var w := WordAt(s, off);
      var rest := WordRuns(s, off + w);
      runs := [(off, off + w)] + rest;
      RunsStep(s, off, off + w, rest, Words(s[off + w..]), Words(s[off..]));
    }
  }

  /** The leading word of `s[off..]` is a maximal run, and it is the first
      word of `s[off..].split()`. */
  lemma WordAt(s: string, off: nat) returns (w: nat)
    requires off < |s| && !IsSpace(s[off])
    requires off == 0 || IsSpace(s[off - 1])
    ensures off + w <= |s|
    ensures IsRun(s, IsSpace, off, off + w)
    ensures Words(s[off..]) == [s[off..off + w]] + Words(s[off + w..])
  {
    var t := s[off..];
    w := WordLength(t);
    WordsStep(t);
    assert t[w..] == s[off + w..];
    assert t[..w] == s[off..off + w];
    forall i | off <= i < off + w ensures !IsSpace(s[i]) {
      assert s[i] == t[i - off];
    }
    if off + w < |s| {
      assert s[off + w] == t[w];
    }
  }

  /** Runs depend only on which positions hold a separator. */
  lemma RunsTransfer(x: string, p: char -> bool, y: string, q: char -> bool, runs: seq<(int, int)>)
    requires |x| == |y|
    requires forall i :: 0 <= i < |x| ==> p(x[i]) == q(y[i])
    requires AllRuns(x, p, runs)
    ensures AllRuns(y, q, runs)
  {
    forall k | 0 <= k < |runs| ensures IsRun(y, q, runs[k].0, runs[k].1) {
      assert IsRun(x, p, runs[k].0, runs[k].1);
    }
  }

  /** `s[off..].split()` skips a leading whitespace character. */
  lemma WordsSkip(s: string, off: nat)
    requires off < |s| && IsSpace(s[off])
    ensures Words(s[off..]) == Words(s[off + 1..])
  {
    assert s[off..][1..] == s[off + 1..];
  }

  /** Runs from `off + 1` are runs from `off` when `s[off]` is whitespace. */
  lemma RunsLater(s: string, off: nat, runs: seq<(int, int)>)
    requires off < |s| && IsSpace(s[off])
    requires RunsFrom(s, IsSpace, off + 1, runs)
    ensures RunsFrom(s, IsSpace, off, runs)
  {
  }

  /** A run in front of the runs of the rest. */
  lemma RunsCons(s: string, a: int, b: int, runs: seq<(int, int)>)
    requires IsRun(s, IsSpace, a, b)
    requires RunsFrom(s, IsSpace, b, runs)
    ensures RunsFrom(s, IsSpace, a, [(a, b)] + runs)
  {
    var r := [(a, b)] + runs;
    if runs != [] {
      assert IsRun(s, IsSpace, runs[0].0, runs[0].1);
      assert b == |s| || IsSpace(s[b]);
      assert b < runs[0].0;
    }
    forall k | 0 < k < |r| ensures r[k - 1].1 < r[k].0 {
      if 1 < k { assert r[k - 1] == runs[k - 2] && r[k] == runs[k - 1]; }
    }
  }

  /** A word in front of the words of the rest. */
  lemma RunsStep(s: string, a: int, b: int, runs: seq<(int, int)>, parts: seq<string>, words: seq<string>)
    requires IsRun(s, IsSpace, a, b)
    requires RunsFrom(s, IsSpace, b, runs)
    requires SlicesAt(s, runs, parts)
    requires words == [s[a..b]] + parts
    ensures RunsFrom(s, IsSpace, a, [(a, b)] + runs)
    ensures SlicesAt(s, [(a, b)] + runs, words)
  {
    RunsCons(s, a, b, runs);
    SlicesCons(s, a, b, runs, parts);
  }

  lemma SlicesCons(s: string, a: int, b: int, runs: seq<(int, int)>, parts: seq<string>)
    requires 0 <= a <= b <= |s|
    requires SlicesAt(s, runs, parts)
    ensures SlicesAt(s, [(a, b)] + runs, [s[a..b]] + parts)
  {
    var r, p := [(a, b)] + runs, [s[a..b]] + parts;
    forall k | 0 < k < |r| ensures 0 <= r[k].0 <= r[k].1 <= |s| && p[k] == s[r[k].0..r[k].1] {
      assert r[k] == runs[k - 1] && p[k] == parts[k - 1];
    }
  }

  /** One word of `s.split()` when `s` starts with a non-space. */
  lemma WordsStep(s: string)
    requires s != [] && !IsSpace(s[0])
    ensures Words(s) == [s[..WordLength(s)]] + Words(s[WordLength(s)..])
  {
  }

  lemma {:induction false} WordsShape(s: string)
    ensures forall w :: w in Words(s) ==> w != [] && forall i :: 0 <= i < |w| ==> !IsSpace(w[i])
    decreases |s|
  {
    if s == [] {
    } else if IsSpace(s[0]) {
      WordsShape(s[1..]);
    } else {
      var k := WordLength(s);
      WordsShape(s[k..]);
      WordsStep(s);
    }
  }

  lemma {:induction false} WordsConcat(s: string)
    ensures Concat(Words(s)) == NonSpace(s)
    decreases |s|
  {
    if s == [] {
    } else if IsSpace(s[0]) {
      WordsConcat(s[1..]);
    } else {
      var k := WordLength(s);
      WordsConcat(s[k..]);
      WordsStep(s);
      SplitTake(s, k);
      NonSpaceAppend(s[..k], s[k..]);
      NonSpaceOfWord(s[..k]);
      ConcatAppend([s[..k]], Words(s[k..]));
    }
  }

  lemma SplitTake(s: string, k: nat)
    requires k <= |s|
    ensures s == s[..k] + s[k..]
  {
  }

  /** Joining the pieces of `s.split(sep)` with `sep` gives back `s`. */
  lemma {:induction false} JoinSplitOn(s: string, sep: char)
    ensures Join(SplitOn(s, sep), [sep]) == s
    decreases |s|
  {
    var k := Find(s, sep);
    if 0 <= k {
      JoinSplitOn(s[k + 1..], sep);
      JoinCons(s[..k], SplitOn(s[k + 1..], sep), [sep]);
      SplitAround(s, k);
    }
  }

  lemma JoinCons(a: string, rest: seq<string>, sep: string)
    requires rest != []
    ensures Join([a] + rest, sep) == a + sep + Join(rest, sep)
  {
    assert ([a] + rest)[1..] == rest;
  }

  lemma SplitAround(s: string, k: nat)
    requires k < |s|
    ensures s == s[..k] + [s[k]] + s[k + 1..]
  {
  }

  /** `s.split(sep)` has one more piece than `s` has separators. */
  lemma {:induction false} SplitOnCount(s: string, sep: char)
    ensures |SplitOn(s, sep)| == multiset(s)[sep] + 1
    decreases |s|
  {
    var k := Find(s, sep);
    if 0 <= k {
      SplitOnCount(s[k + 1..], sep);
      SplitAround(s, k);
      CountAround(s[..k], s[k + 1..], sep);
    } else {
      assert multiset(s)[sep] == 0;
    }
  }

  lemma CountAround(a: string, b: string, sep: char)
    requires sep !in a
    ensures multiset(a + [sep] + b)[sep] == multiset(b)[sep] + 1
  {
    assert multiset(a + [sep] + b) == multiset(a) + multiset{sep} + multiset(b);
  }
}
