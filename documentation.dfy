/** `get_documentation`: the summary sentence of a raw Javadoc comment as
    lowercase alphanumeric tokens. The summary starts at the first
    alphanumeric character and ends before the first `.` after it, else
    before the first newline, else one character before the end. */
module Documentation {
  import opened PyText

  /** The index of the first alphanumeric character of `s`, or -1. */
  function FirstAlnum(s: string): (r: int)
    ensures -1 <= r < |s|
    ensures r == -1 <==> forall i :: 0 <= i < |s| ==> !IsAlnum(s[i])
    ensures 0 <= r ==> IsAlnum(s[r]) && forall i :: 0 <= i < r ==> !IsAlnum(s[i])
  {
    if s == [] then -1
    else if IsAlnum(s[0]) then 0
    else
      var k := FirstAlnum(s[1..]);
      if k < 0 then -1 else k + 1
  }

  /** `re.sub(r'[^a-zA-Z0-9]', ' ', s)`. */
  function ReplaceNonAlnum(s: string): (r: string)
    ensures |r| == |s|
    ensures forall i :: 0 <= i < |s| ==> r[i] == if IsAlnum(s[i]) then s[i] else ' '
  {
    seq(|s|, i requires 0 <= i < |s| => if IsAlnum(s[i]) then s[i] else ' ')
  }

  /** Everything after truncation: substitute, lowercase, split. */
  function Normalize(summary: string): seq<string> {
    Words(Lower(ReplaceNonAlnum(summary)))
  }

  /** `get_documentation` on the node's `documentation` attribute. An absent
      or empty comment gives `None`; a non-empty one without any
      alphanumeric character makes `next()` raise `StopIteration`. */
  function GetDocumentation(documentation: Option<string>): (r: Result<Option<seq<string>>>)
    ensures documentation == None || documentation == Some("") ==> r == Ok(None)
    ensures r.Raised? <==> documentation.Some? && documentation.value != ""
                           && forall i :: 0 <= i < |documentation.value| ==> !IsAlnum(documentation.value[i])
    ensures r.Raised? ==> r.exception == StopIteration
    ensures r.Ok? && documentation.Some? && documentation.value != "" ==> r.value.Some?
  {
    if documentation.None? || documentation.value == "" then Ok(None)
    else
      var doc := documentation.value;
      if FirstAlnum(doc) < 0 then Raised(StopIteration)
      else Ok(Some(Normalize(Summary(doc))))
  }

  /** The slice of the comment that is kept: from the first occurrence of
      the first alphanumeric character on, truncated. */
  function Summary(doc: string): string
    requires 0 <= FirstAlnum(doc)
  {
    var first := FirstAlnum(doc);
    var start := Find(doc, doc[first]);
    assert start == first by { FindFirstAlnum(doc, first); }
    Truncate(doc[start..])
  }

  /** `rest[:end]` where `end` is the first `.`, else the first newline;
      when there is neither, `find` gives -1 and the slice drops the last
      character. */
  function Truncate(rest: string): string {
    var dot := Find(rest, '.');
    var end := if dot < 0 then Find(rest, '\n') else dot;
    SliceTo(rest, end)
  }

  /** `doc.find(c)` for the first alphanumeric character `c` is the index of
      that character: nothing before it is alphanumeric, so nothing before
      it equals `c`. */
  lemma FindFirstAlnum(doc: string, first: int)
    requires first == FirstAlnum(doc) && 0 <= first
    ensures Find(doc, doc[first]) == first
  {
    var c := doc[first];
    assert c !in doc[..first] by {
      forall i | 0 <= i < first ensures doc[..first][i] != c { }
    }
    assert doc[..first + 1][..first] == doc[..first];
  }

  /** `e` is where the summary stops in the text `rest` that starts at the
      first alphanumeric character: the first `.`, else the first newline,
      else the last character. */
  ghost predicate IsCut(rest: string, e: nat) {
    && e < |rest|
    && ( || (rest[e] == '.' && '.' !in rest[..e])
         || ('.' !in rest && rest[e] == '\n' && '\n' !in rest[..e])
         || ('.' !in rest && '\n' !in rest && e == |rest| - 1) )
  }

  /** `start` and `end` delimit the summary of `doc`: `start` is its first
      alphanumeric character, and the summary stops at `end`. */
  ghost predicate IsSummary(doc: string, start: nat, end: nat) {
    && start <= end < |doc|
    && IsAlnum(doc[start])
    && (forall i :: 0 <= i < start ==> !IsAlnum(doc[i]))
    && IsCut(doc[start..], end - start)
  }

  /** The truncation rule: a comment with an alphanumeric character keeps
      exactly the text between the bounds of `IsSummary`, normalized; every
      token is non-empty, lowercase ASCII alphanumeric, the tokens in order
      spell out the alphanumeric characters of that text, and each token is
      one maximal alphanumeric run of it, lowercased. */
  lemma Truncation(doc: string) returns (start: nat, end: nat)
    requires exists i :: 0 <= i < |doc| && IsAlnum(doc[i])
    ensures IsSummary(doc, start, end)
    ensures GetDocumentation(Some(doc)) == Ok(Some(Normalize(doc[start..end])))
    ensures forall w :: w in Normalize(doc[start..end]) ==> w != []
    ensures forall w, c :: w in Normalize(doc[start..end]) && c in w ==> IsLowerAlnum(c)
    ensures Concat(Normalize(doc[start..end])) == LowerAlnums(doc[start..end])
    ensures exists runs :: AllRuns(doc[start..end], NotAlnum, runs)
              && SlicesAt(Lower(doc[start..end]), runs, Normalize(doc[start..end]))
  {
    start, end := SummaryBounds(doc);
    NormalizedTokens(doc[start..end]);
  }

  /** The bounds of the slice that `Summary` keeps. */
  lemma SummaryBounds(doc: string) returns (start: nat, end: nat)
    requires exists i :: 0 <= i < |doc| && IsAlnum(doc[i])
    ensures IsSummary(doc, start, end)
    ensures Summary(doc) == doc[start..end]
  {
    var w :| 0 <= w < |doc| && IsAlnum(doc[w]);
    assert FirstAlnum(doc) != -1;
    start := FirstAlnum(doc);
    var e := TruncateCut(doc[start..]);
    end := start + e;
    calc {
      Summary(doc);
    == { SummaryIsTruncate(doc); }
      Truncate(doc[start..]);
    ==
      doc[start..][..e];
    == { SliceOfSuffix(doc, start, e); }
      doc[start..end];
    }
  }

  lemma SliceOfSuffix(s: string, a: nat, e: nat)
    requires a + e <= |s|
    ensures s[a..][..e] == s[a..a + e]
  {
  }

  lemma SummaryIsTruncate(doc: string)
    requires 0 <= FirstAlnum(doc)
    ensures Summary(doc) == Truncate(doc[FirstAlnum(doc)..])
  {
    FindFirstAlnum(doc, FirstAlnum(doc));
  }

  /** `Truncate` stops where `IsCut` says. */
  lemma TruncateCut(rest: string) returns (e: nat)
    requires rest != []
    ensures IsCut(rest, e)
    ensures Truncate(rest) == rest[..e]
  {
    var dot := Find(rest, '.');
    var nl := Find(rest, '\n');
    if 0 <= dot {
      e := dot;
    } else if 0 <= nl {
      e := nl;
    } else {
      e := |rest| - 1;
      assert Truncate(rest) == SliceTo(rest, -1);
    }
  }

  predicate IsLowerAlnum(c: char) { IsLower(c) || IsDigit(c) }

  /** The alphanumeric characters of `s`, lowercased, in order. */
  function LowerAlnums(s: string): string {
    if s == [] then []
    else (if IsAlnum(s[0]) then [LowerChar(s[0])] else []) + LowerAlnums(s[1..])
  }

  lemma {:induction false} NonSpaceOfNormalized(s: string)
    ensures NonSpace(Lower(ReplaceNonAlnum(s))) == LowerAlnums(s)
  {
    if s != [] {
      NonSpaceOfNormalized(s[1..]);
      assert Lower(ReplaceNonAlnum(s))[1..] == Lower(ReplaceNonAlnum(s[1..]));
    }
  }

  predicate NotAlnum(c: char) { !IsAlnum(c) }

  /** Every token is non-empty and made of lowercase ASCII letters and
      digits, and the tokens, concatenated in order, are exactly the
      alphanumeric characters of the summary, lowercased, in text order.
      Token `k` is the lowercased `k`-th maximal run of alphanumeric
      characters of the summary, so tokens break exactly at the other
      characters. */
  lemma NormalizedTokens(summary: string)
    ensures forall w :: w in Normalize(summary) ==> w != []
    ensures forall w, c :: w in Normalize(summary) && c in w ==> IsLowerAlnum(c)
    ensures Concat(Normalize(summary)) == LowerAlnums(summary)
    ensures exists runs :: AllRuns(summary, NotAlnum, runs) && SlicesAt(Lower(summary), runs, Normalize(summary))
  {
    var x := Lower(ReplaceNonAlnum(summary));
    WordsSpec(x);
    var runs :| AllRuns(x, IsSpace, runs) && SlicesAt(x, runs, Words(x));
    NormalizedRuns(summary, runs);
    NonSpaceOfNormalized(summary);
    forall w, c | w in Words(x) && c in w ensures IsLowerAlnum(c) {
      WordCharsFrom(x, w, c);
      var i :| 0 <= i < |x| && x[i] == c;
      assert !IsSpace(w[IndexOf(w, c)]);
    }
  }

  /** The whitespace runs of the normalized text are the alphanumeric runs
      of the summary, and slicing them out of the normalized text is
      lowercasing them. */
  lemma NormalizedRuns(summary: string, runs: seq<(int, int)>)
    requires AllRuns(Lower(ReplaceNonAlnum(summary)), IsSpace, runs)
    requires SlicesAt(Lower(ReplaceNonAlnum(summary)), runs, Words(Lower(ReplaceNonAlnum(summary))))
    ensures AllRuns(summary, NotAlnum, runs)
    ensures SlicesAt(Lower(summary), runs, Words(Lower(ReplaceNonAlnum(summary))))
  {
    var x := Lower(ReplaceNonAlnum(summary));
    RunsTransfer(x, IsSpace, summary, NotAlnum, runs);
    forall k | 0 <= k < |runs| ensures x[runs[k].0..runs[k].1] == Lower(summary)[runs[k].0..runs[k].1] {
      assert IsRun(summary, NotAlnum, runs[k].0, runs[k].1);
      AlnumSlice(summary, runs[k].0, runs[k].1);
    }
  }

  /** On an alphanumeric stretch, normalizing is lowercasing. */
  lemma AlnumSlice(s: string, a: int, b: int)
    requires 0 <= a <= b <= |s|
    requires forall i :: a <= i < b ==> !NotAlnum(s[i])
    ensures Lower(ReplaceNonAlnum(s))[a..b] == Lower(s)[a..b]
  {
  }

  function IndexOf(w: string, c: char): (i: nat)
    requires c in w
    ensures i < |w| && w[i] == c
  {
    if w[0] == c then 0 else 1 + IndexOf(w[1..], c)
  }

  /** A character of a word of `s` is a character of `s`. */
  lemma {:induction false} WordCharsFrom(s: string, w: string, c: char)
    requires w in Words(s) && c in w
    ensures c in s
    decreases |s|
  {
    if IsSpace(s[0]) {
      WordCharsFrom(s[1..], w, c);
    } else {
      var k := WordLength(s);
      if w == s[..k] {
        assert c in s[..k];
      } else {
        WordCharsFrom(s[k..], w, c);
      }
    }
  }
}
