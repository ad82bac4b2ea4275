/** `convert_name_to_tokens`: an identifier split into lowercase sub-word
    tokens, on `_` when the first underscore is not the first character, and
    otherwise by the camelCase pattern `[a-zA-Z](?:[a-z]+|[A-Z]*(?=[A-Z]|$))`,
    which is scanned here by hand. */
module Tokenizer {
  import opened PyText

  /** Where Python's `$` (without MULTILINE) matches: at the end of the
      input, or just before a newline that ends it. */
  predicate AtEnd(s: string, q: nat) {
    q == |s| || (q == |s| - 1 && s[q] == '\n')
  }

  /** `s[p..e]` is a match of the camelCase pattern, lookahead included:
      a letter followed either by a non-empty lowercase run, or by an
      uppercase run that is followed by another uppercase letter or by `$`. */
  ghost predicate PatternMatches(s: string, p: nat, e: nat) {
    && p < e <= |s|
    && IsLetter(s[p])
    && ( || (e > p + 1 && AllLower(s[p + 1..e]))
         || (AllUpper(s[p + 1..e]) && ((e < |s| && IsUpper(s[e])) || AtEnd(s, e))) )
  }

  /** The end of the run of lowercase letters that starts at `i`. */
  function LowerRun(s: string, i: nat): (j: nat)
    requires i <= |s|
    ensures i <= j <= |s|
    ensures forall k :: i <= k < j ==> IsLower(s[k])
    ensures j < |s| ==> !IsLower(s[j])
    decreases |s| - i
  {
    if i < |s| && IsLower(s[i]) then LowerRun(s, i + 1) else i
  }

  /** The end of the run of uppercase letters that starts at `i`. */
  function UpperRun(s: string, i: nat): (j: nat)
    requires i <= |s|
    ensures i <= j <= |s|
    ensures forall k :: i <= k < j ==> IsUpper(s[k])
    ensures j < |s| ==> !IsUpper(s[j])
    decreases |s| - i
  {
    if i < |s| && IsUpper(s[i]) then UpperRun(s, i + 1) else i
  }

  /** What `re` finds when it tries the pattern at position `p`: the first
      alternative with its greedy `[a-z]+` when a lowercase letter follows,
      else the greedy `[A-Z]*` backing off one letter when the lookahead
      fails. This is exactly the longest match of the pattern at `p`, and
      there is none when `MatchAt` says so. */
  function MatchAt(s: string, p: nat): (r: Option<nat>)
    requires p < |s|
    ensures r.Some? ==> PatternMatches(s, p, r.value)
    ensures r.Some? ==> forall e: nat :: PatternMatches(s, p, e) ==> e <= r.value
    ensures r.None? ==> forall e: nat :: !PatternMatches(s, p, e)
  {
    if !IsLetter(s[p]) then None
    else if p + 1 < |s| && IsLower(s[p + 1]) then
      var j := LowerRun(s, p + 1);
      LowerAlternative(s, p, j);
      Some(j)
    else
      var q := UpperRun(s, p + 1);
      if AtEnd(s, q) then
        UpperAlternative(s, p, q);
        Some(q)
      else if q > p + 1 then
        UpperBacksOff(s, p, q);
        Some(q - 1)
      else
        NoAlternative(s, p, q);
        None
  }

  /** A lowercase letter after the first: the greedy `[a-z]+` wins. */
  lemma LowerAlternative(s: string, p: nat, j: nat)
    requires p + 1 < |s| && IsLetter(s[p]) && IsLower(s[p + 1])
    requires j == LowerRun(s, p + 1)
    ensures PatternMatches(s, p, j)
    ensures forall e: nat :: PatternMatches(s, p, e) ==> e <= j
  {
    LowerSlice(s, p + 1, j);
    forall e: nat | PatternMatches(s, p, e) ensures e <= j {
      if e > j {
        SliceAt(s, p + 1, e, p + 1);
        SliceAt(s, p + 1, e, j);
      }
    }
  }

  /** The uppercase run reaches `$`: it is taken whole. */
  lemma UpperAlternative(s: string, p: nat, q: nat)
    requires p < |s| && IsLetter(s[p]) && !(p + 1 < |s| && IsLower(s[p + 1]))
    requires q == UpperRun(s, p + 1) && AtEnd(s, q)
    ensures PatternMatches(s, p, q)
    ensures forall e: nat :: PatternMatches(s, p, e) ==> e <= q
  {
    UpperSlice(s, p + 1, q);
    forall e: nat | PatternMatches(s, p, e) ensures e <= q {
      if e > q {
        SliceAt(s, p + 1, e, p + 1);
        SliceAt(s, p + 1, e, q);
      }
    }
  }

  /** The uppercase run stops before a non-letter or a lowercase letter:
      `[A-Z]*` gives back its last letter, which the lookahead then sees. */
  lemma UpperBacksOff(s: string, p: nat, q: nat)
    requires p < |s| && IsLetter(s[p]) && !(p + 1 < |s| && IsLower(s[p + 1]))
    requires q == UpperRun(s, p + 1) && !AtEnd(s, q) && q > p + 1
    ensures PatternMatches(s, p, q - 1)
    ensures forall e: nat :: PatternMatches(s, p, e) ==> e <= q - 1
  {
    UpperSlice(s, p + 1, q - 1);
    forall e: nat | PatternMatches(s, p, e) ensures e <= q - 1 {
      if e >= q {
        SliceAt(s, p + 1, e, p + 1);
        if e > q {
          SliceAt(s, p + 1, e, q);
        }
      }
    }
  }

  /** No letter, or a single letter followed by neither a letter nor `$`. */
  lemma NoAlternative(s: string, p: nat, q: nat)
    requires p < |s| && !(p + 1 < |s| && IsLower(s[p + 1]))
    requires IsLetter(s[p]) ==> q == UpperRun(s, p + 1) && !AtEnd(s, q) && q <= p + 1
    ensures forall e: nat :: !PatternMatches(s, p, e)
  {
    forall e: nat | PatternMatches(s, p, e) ensures false {
      if e > p + 1 {
        SliceAt(s, p + 1, e, p + 1);
      }
    }
  }

  lemma SliceAt(s: string, a: nat, b: nat, k: nat)
    requires a <= k < b <= |s|
    ensures s[a..b][k - a] == s[k]
  {
  }

  lemma LowerSlice(s: string, a: nat, b: nat)
    requires a <= b <= |s| && forall k :: a <= k < b ==> IsLower(s[k])
    ensures AllLower(s[a..b])
  {
  }

  lemma UpperSlice(s: string, a: nat, b: nat)
    requires a <= b <= |s| && forall k :: a <= k < b ==> IsUpper(s[k])
    ensures AllUpper(s[a..b])
  {
  }

  /** A match of the pattern consists of letters only. */
  lemma MatchIsLetters(s: string, p: nat, e: nat)
    requires PatternMatches(s, p, e)
    ensures forall k :: p <= k < e ==> IsLetter(s[k])
  {
    forall k | p < k < e ensures IsLetter(s[k]) {
      assert s[p + 1..e][k - p - 1] == s[k];
    }
  }

  /** `re.findall` from position `p` on, each match lowercased: try the
      pattern at `p`; on a match continue after it, else one further on. */
  function Scan(s: string, p: nat): (tokens: seq<string>)
    requires p <= |s|
    ensures forall t :: t in tokens ==> t != [] && AllLower(t)
    decreases |s| - p
  {
    if p == |s| then []
    else
      match MatchAt(s, p)
      case None => Scan(s, p + 1)
      case Some(e) =>
        MatchIsLetters(s, p, e);
        [Lower(s[p..e])] + Scan(s, e)
  }

  /** `convert_name_to_tokens(name)`. In the underscore branch the tokens,
      joined with `_`, give back `name.lower()` and contain no `_`
      themselves; in the camelCase branch every token is a non-empty run of
      lowercase ASCII letters, and the tokens are exactly `re.findall`'s
      matches, lowercased. */
  function ConvertNameToTokens(name: string): (tokens: seq<string>)
    ensures Find(name, '_') > 0 ==> Join(tokens, "_") == Lower(name)
    ensures Find(name, '_') > 0 ==> forall t :: t in tokens ==> '_' !in t
    ensures Find(name, '_') <= 0 ==> forall t :: t in tokens ==> t != [] && AllLower(t)
    ensures Find(name, '_') <= 0 ==> exists spans :: FindsAll(name, 0, spans, tokens)
    ensures name == [] ==> tokens == []
  {
    if Find(name, '_') > 0 then
      JoinSplitOn(Lower(name), '_');
      SplitOn(Lower(name), '_')
    else
      ScanFindsAll(name, 0);
      Scan(name, 0)
  }

  /** In the camelCase branch every token is a match of the pattern in
      `name`, lowercased: a letter and a lowercase run, or a letter and an
      uppercase run that is followed by another capital or by the end. The
      tokens are all of `re.findall`'s matches, left to right, without
      overlap. */
  lemma CamelCaseTokens(name: string)
    requires Find(name, '_') <= 0
    ensures forall t :: t in ConvertNameToTokens(name) ==>
      exists a: nat, e: nat :: PatternMatches(name, a, e) && t == Lower(name[a..e])
    ensures exists spans :: FindsAll(name, 0, spans, ConvertNameToTokens(name))
  {
    ScanTokensMatch(name, 0);
    ScanFindsAll(name, 0);
    CamelCaseBranch(name);
  }

  /** Where the `k`-th stretch between matches begins: at `p` before the
      first match, else where match `k - 1` ends. */
  function GapStart(spans: seq<(nat, nat)>, p: nat, k: nat): nat
    requires k <= |spans|
  {
    if k == 0 then p else spans[k - 1].1
  }

  /** Where the `k`-th stretch between matches ends: where match `k`
      begins, or at `n` after the last match. */
  function GapEnd(spans: seq<(nat, nat)>, n: nat, k: nat): nat
    requires k <= |spans|
  {
    if k == |spans| then n else spans[k].0
  }

  /** `tokens` is what `re.findall` returns on `s` from position `p` on,
      lowercased: match `k` spans `s[spans[k].0..spans[k].1]` and is the
      longest match at its start, the matches lie left to right without
      overlap, and no match starts at any position between them. */
  ghost predicate FindsAll(s: string, p: nat, spans: seq<(nat, nat)>, tokens: seq<string>) {
    SpansMatch(s, p, spans, tokens) && SpansOrdered(spans) && GapsEmpty(s, p, spans)
  }

  /** Each span starts at or after `p` and is the match there, and its
      token is that stretch of `s`, lowercased. */
  ghost predicate SpansMatch(s: string, p: nat, spans: seq<(nat, nat)>, tokens: seq<string>) {
    && |spans| == |tokens|
    && forall k :: 0 <= k < |spans| ==>
         p <= spans[k].0 < |s| && MatchAt(s, spans[k].0) == Some(spans[k].1)
         && tokens[k] == Lower(s[spans[k].0..spans[k].1])
  }

  /** The spans lie left to right without overlap. */
  ghost predicate SpansOrdered(spans: seq<(nat, nat)>) {
    forall k :: 0 < k < |spans| ==> spans[k - 1].1 <= spans[k].0
  }

  /** No match starts between `p` and the first span, between two spans, or
      after the last one. */
  ghost predicate GapsEmpty(s: string, p: nat, spans: seq<(nat, nat)>) {
    forall k: nat, q: nat :: k <= |spans| && GapStart(spans, p, k) <= q < GapEnd(spans, |s|, k) && q < |s| ==>
      MatchAt(s, q) == None
  }

  /** `Scan` is `re.findall`: it returns every leftmost non-overlapping
      match, in order, and nothing else. */
  lemma {:induction false} ScanFindsAll(s: string, p: nat)
    requires p <= |s|
    ensures exists spans :: FindsAll(s, p, spans, Scan(s, p))
    decreases |s| - p
  {
    if p == |s| {
      assert Scan(s, p) == [];
      assert FindsAll(s, p, [], []);
    } else {
      match MatchAt(s, p)
      case None =>
        ScanFindsAll(s, p + 1);
        var spans :| FindsAll(s, p + 1, spans, Scan(s, p + 1));
        ScanSkip(s, p);
        FindsAllSkip(s, p, spans, Scan(s, p + 1));
      case Some(e) =>
        assert PatternMatches(s, p, e);
        ScanFindsAll(s, e);
        var spans :| FindsAll(s, e, spans, Scan(s, e));
        ScanMatch(s, p, e);
        FindsAllCons(s, p, e, spans, Scan(s, e));
    }
  }

  /** A position where no match starts joins the first stretch. */
  lemma FindsAllSkip(s: string, p: nat, spans: seq<(nat, nat)>, tokens: seq<string>)
    requires p < |s| && MatchAt(s, p) == None
    requires FindsAll(s, p + 1, spans, tokens)
    ensures FindsAll(s, p, spans, tokens)
  {
    forall k: nat, q: nat | k <= |spans| && GapStart(spans, p, k) <= q < GapEnd(spans, |s|, k) && q < |s|
      ensures MatchAt(s, q) == None
    {
      if q > p || k > 0 {
        assert GapStart(spans, p + 1, k) <= q;
      }
    }
  }

  /** A match at `p` goes in front of the matches after it. */
  lemma FindsAllCons(s: string, p: nat, e: nat, spans: seq<(nat, nat)>, tokens: seq<string>)
    requires p < e <= |s| && MatchAt(s, p) == Some(e)
    requires FindsAll(s, e, spans, tokens)
    ensures FindsAll(s, p, [(p, e)] + spans, [Lower(s[p..e])] + tokens)
  {
    SpansMatchCons(s, p, e, spans, tokens);
    SpansOrderedCons(e, p, spans);
    GapsEmptyCons(s, p, e, spans);
  }

  lemma SpansMatchCons(s: string, p: nat, e: nat, spans: seq<(nat, nat)>, tokens: seq<string>)
    requires p < e <= |s| && MatchAt(s, p) == Some(e)
    requires SpansMatch(s, e, spans, tokens)
    ensures SpansMatch(s, p, [(p, e)] + spans, [Lower(s[p..e])] + tokens)
  {
    var sp, tk := [(p, e)] + spans, [Lower(s[p..e])] + tokens;
    forall k | 0 < k < |sp|
      ensures p <= sp[k].0 < |s| && MatchAt(s, sp[k].0) == Some(sp[k].1) && tk[k] == Lower(s[sp[k].0..sp[k].1])
    {
      assert sp[k] == spans[k - 1] && tk[k] == tokens[k - 1];
    }
  }

  lemma SpansOrderedCons(e: nat, p: nat, spans: seq<(nat, nat)>)
    requires SpansOrdered(spans)
    requires spans != [] ==> e <= spans[0].0
    ensures SpansOrdered([(p, e)] + spans)
  {
    var sp := [(p, e)] + spans;
    forall k | 0 < k < |sp| ensures sp[k - 1].1 <= sp[k].0 {
      if k > 1 { assert sp[k - 1] == spans[k - 2]; }
      assert sp[k] == spans[k - 1];
    }
  }

  lemma GapsEmptyCons(s: string, p: nat, e: nat, spans: seq<(nat, nat)>)
    requires GapsEmpty(s, e, spans)
    ensures GapsEmpty(s, p, [(p, e)] + spans)
  {
    var sp := [(p, e)] + spans;
    forall k: nat, q: nat | k <= |sp| && GapStart(sp, p, k) <= q < GapEnd(sp, |s|, k) && q < |s|
      ensures MatchAt(s, q) == None
    {
      assert 0 < k;
      assert GapStart(spans, e, k - 1) == GapStart(sp, p, k);
      assert GapEnd(spans, |s|, k - 1) == GapEnd(sp, |s|, k);
    }
  }

  /** Every token is a lowercased match of the pattern somewhere in `s`. */
  ghost predicate AllMatches(s: string, tokens: seq<string>) {
    forall t :: t in tokens ==> exists a: nat, e: nat :: PatternMatches(s, a, e) && t == Lower(s[a..e])
  }

  lemma {:induction false} ScanTokensMatch(s: string, p: nat)
    requires p <= |s|
    ensures AllMatches(s, Scan(s, p))
    decreases |s| - p
  {
    if p < |s| {
      match MatchAt(s, p)
      case None =>
        ScanTokensMatch(s, p + 1);
        ScanSkip(s, p);
      case Some(e) =>
        ScanTokensMatch(s, e);
        ScanMatch(s, p, e);
        assert PatternMatches(s, p, e);
        AllMatchesCons(s, Lower(s[p..e]), Scan(s, e));
    }
  }

  lemma AllMatchesCons(s: string, x: string, rest: seq<string>)
    requires AllMatches(s, rest)
    requires exists a: nat, e: nat :: PatternMatches(s, a, e) && x == Lower(s[a..e])
    ensures AllMatches(s, [x] + rest)
  {
  }

  /** In the underscore branch there is one token more than `name` has
      underscores: consecutive underscores yield empty tokens instead of
      disappearing. */
  lemma SnakeCaseTokenCount(name: string)
    requires Find(name, '_') > 0
    ensures |ConvertNameToTokens(name)| == multiset(name)['_'] + 1
  {
    SplitOnCount(Lower(name), '_');
    LowerKeepsUnderscores(name);
  }

  /** Lowercasing leaves the underscores where they are. */
  lemma {:induction false} LowerKeepsUnderscores(s: string)
    ensures multiset(Lower(s))['_'] == multiset(s)['_']
  {
    if s != [] {
      LowerKeepsUnderscores(s[1..]);
      LowerCons(s);
      CountCons(LowerChar(s[0]), Lower(s[1..]), '_');
      CountCons(s[0], s[1..], '_');
    }
  }

  lemma LowerCons(s: string)
    requires s != []
    ensures Lower(s) == [LowerChar(s[0])] + Lower(s[1..]) && s == [s[0]] + s[1..]
  {
  }

  lemma CountCons(c: char, rest: string, x: char)
    ensures multiset([c] + rest)[x] == (if c == x then 1 else 0) + multiset(rest)[x]
  {
    assert multiset([c] + rest) == multiset{c} + multiset(rest);
  }

  lemma LowerOfLowercase(s: string)
    requires forall i :: 0 <= i < |s| ==> !IsUpper(s[i])
    ensures Lower(s) == s
  {
  }

  // One step of the scan each, so that the worked examples below stay small.

  lemma ScanMatch(s: string, p: nat, e: nat)
    requires p < |s| && MatchAt(s, p) == Some(e)
    ensures Scan(s, p) == [Lower(s[p..e])] + Scan(s, e)
  {
  }

  lemma ScanSkip(s: string, p: nat)
    requires p < |s| && MatchAt(s, p) == None
    ensures Scan(s, p) == Scan(s, p + 1)
  {
  }

  lemma CamelCaseBranch(name: string)
    requires Find(name, '_') <= 0
    ensures ConvertNameToTokens(name) == Scan(name, 0)
  {
  }

  lemma SnakeCaseBranch(name: string)
    requires Find(name, '_') > 0
    ensures ConvertNameToTokens(name) == SplitOn(Lower(name), '_')
  {
  }

  lemma SplitStep(s: string, k: nat)
    requires Find(s, '_') == k
    ensures SplitOn(s, '_') == [s[..k]] + SplitOn(s[k + 1..], '_')
  {
  }

  lemma SplitLast(s: string)
    requires Find(s, '_') == -1
    ensures SplitOn(s, '_') == [s]
  {
  }

  lemma GetUserIdNoUnderscore()
    ensures Find("getUserID", '_') == -1
  {
    var s := "getUserID";
    assert s[0] == 'g' && s[1] == 'e' && s[2] == 't' && s[3] == 'U' && s[4] == 's';
    assert s[5] == 'e' && s[6] == 'r' && s[7] == 'I' && s[8] == 'D';
    FindAbsent(s, '_');
  }

  lemma FindAbsent(s: string, c: char)
    requires forall i :: 0 <= i < |s| ==> s[i] != c
    ensures Find(s, c) == -1
  {
  }

  lemma GetUserIdFirst()
    ensures MatchAt("getUserID", 0) == Some(3)
  {
    var s := "getUserID";
    assert s[0] == 'g' && s[1] == 'e' && s[2] == 't' && s[3] == 'U';
    assert LowerRun(s, 1) == 3;
  }

  lemma GetUserIdSecond()
    ensures MatchAt("getUserID", 3) == Some(7)
  {
    var s := "getUserID";
    assert s[3] == 'U' && s[4] == 's' && s[5] == 'e' && s[6] == 'r' && s[7] == 'I';
    assert LowerRun(s, 4) == 7;
  }

  lemma GetUserIdThird()
    ensures MatchAt("getUserID", 7) == Some(9)
  {
    var s := "getUserID";
    assert s[7] == 'I' && s[8] == 'D';
    assert UpperRun(s, 8) == 9;
  }

  lemma GetUserIdTokens()
    ensures Lower("getUserID"[0..3]) == "get"
    ensures Lower("getUserID"[3..7]) == "user"
    ensures Lower("getUserID"[7..9]) == "id"
  {
    var s := "getUserID";
    assert s[7..9] == "ID";
    assert s[3..7] == "User";
    assert s[0..3] == "get";
  }

  /** camelCase ending in an acronym: the acronym is one token. */
  lemma ExampleGetUserId()
    ensures ConvertNameToTokens("getUserID") == ["get", "user", "id"]
  {
    var s := "getUserID";
    GetUserIdNoUnderscore();
    GetUserIdFirst();
    GetUserIdSecond();
    GetUserIdThird();
    GetUserIdTokens();
    CamelCaseBranch(s);
    ScanMatch(s, 0, 3);
    ScanMatch(s, 3, 7);
    ScanMatch(s, 7, 9);
  }

  lemma LoneCapitalScan()
    ensures Find("getX2", '_') == -1
    ensures MatchAt("getX2", 0) == Some(3)
    ensures MatchAt("getX2", 3) == None
    ensures MatchAt("getX2", 4) == None
    ensures Lower("getX2"[0..3]) == "get"
  {
    var s := "getX2";
    assert s[0] == 'g' && s[1] == 'e' && s[2] == 't' && s[3] == 'X' && s[4] == '2';
    assert Find(s, '_') == -1;
    assert LowerRun(s, 1) == 3;
    assert UpperRun(s, 4) == 4;
    assert s[0..3] == "get";
  }

  /** A lone capital before a digit is dropped. */
  lemma ExampleLoneCapital()
    ensures ConvertNameToTokens("getX2") == ["get"]
  {
    var s := "getX2";
    LoneCapitalScan();
    CamelCaseBranch(s);
    ScanMatch(s, 0, 3);
    ScanSkip(s, 3);
    ScanSkip(s, 4);
  }

  lemma DoubleUnderscoreSplit()
    ensures Find("a__b", '_') == 1
    ensures Lower("a__b") == "a__b"
    ensures Find("_b", '_') == 0
    ensures Find("b", '_') == -1
    ensures "a__b"[..1] == "a" && "a__b"[2..] == "_b" && "_b"[..0] == "" && "_b"[1..] == "b"
  {
    var s := "a__b";
    assert s[0] == 'a' && s[1] == '_' && s[2] == '_' && s[3] == 'b';
    LowerOfLowercase(s);
  }

  /** Consecutive underscores produce an empty token. */
  lemma ExampleDoubleUnderscore()
    ensures ConvertNameToTokens("a__b") == ["a", "", "b"]
  {
    DoubleUnderscoreSplit();
    calc {
      ConvertNameToTokens("a__b");
    == { SnakeCaseBranch("a__b"); }
      SplitOn(Lower("a__b"), '_');
    ==
      SplitOn("a__b", '_');
    == { SplitStep("a__b", 1); }
      ["a"] + SplitOn("_b", '_');
    == { SplitStep("_b", 0); }
      ["a"] + ([""] + SplitOn("b", '_'));
    == { SplitLast("b"); }
      ["a", "", "b"];
    }
  }

  lemma FindAt(s: string, c: char, k: nat)
    requires k < |s| && s[k] == c && forall i :: 0 <= i < k ==> s[i] != c
    ensures Find(s, c) == k
  {
  }

  /** Splitting `a + sep + b` where `a` has no separator. */
  lemma SplitJoined(a: string, b: string, sep: char)
    requires sep !in a
    ensures SplitOn(a + [sep] + b, sep) == [a] + SplitOn(b, sep)
  {
    var s := a + [sep] + b;
    FindAt(s, sep, |a|);
    assert s[..|a|] == a;
    assert s[|a| + 1..] == b;
  }

  lemma SplitNone(s: string, sep: char)
    requires sep !in s
    ensures SplitOn(s, sep) == [s]
  {
  }

  lemma MaxRetryCountParts()
    ensures "max_retry_count" == "max" + ['_'] + ("retry" + ['_'] + "count")
  {
  }

  lemma ThreeTokens(a: string, b: string, c: string)
    ensures [a] + ([b] + [c]) == [a, b, c]
  {
  }

  lemma LowerAppend(a: string, b: string)
    ensures Lower(a + b) == Lower(a) + Lower(b)
  {
  }

  lemma MaxRetryCountLower()
    ensures Lower("max" + ['_'] + ("retry" + ['_'] + "count")) == "max" + ['_'] + ("retry" + ['_'] + "count")
  {
    var m, r, c := "max", "retry", "count";
    assert m[0] == 'm' && m[1] == 'a' && m[2] == 'x';
    assert r[0] == 'r' && r[1] == 'e' && r[2] == 't' && r[3] == 'r' && r[4] == 'y';
    assert c[0] == 'c' && c[1] == 'o' && c[2] == 'u' && c[3] == 'n' && c[4] == 't';
    LowerOfLowercase(m);
    LowerOfLowercase(r);
    LowerOfLowercase(c);
    LowerOfLowercase(['_']);
    LowerAppend(m, ['_']);
    LowerAppend(r, ['_']);
    LowerAppend(r + ['_'], c);
    LowerAppend(m + ['_'], r + ['_'] + c);
  }

  /** snake_case: split on the underscores and lowercased. */
  lemma ExampleMaxRetryCount()
    ensures ConvertNameToTokens("max_retry_count") == ["max", "retry", "count"]
  {
    var s := "max" + ['_'] + ("retry" + ['_'] + "count");
    MaxRetryCountParts();
    assert '_' !in "max" && '_' !in "retry" && '_' !in "count";
    FindAt(s, '_', 3);
    MaxRetryCountLower();
    calc {
      ConvertNameToTokens(s);
    == { SnakeCaseBranch(s); }
      SplitOn(s, '_');
    == { SplitJoined("max", "retry" + ['_'] + "count", '_'); }
      ["max"] + SplitOn("retry" + ['_'] + "count", '_');
    == { SplitJoined("retry", "count", '_'); }
      ["max"] + (["retry"] + SplitOn("count", '_'));
    == { SplitNone("count", '_'); }
      ["max"] + (["retry"] + ["count"]);
    == { ThreeTokens("max", "retry", "count"); }
      ["max", "retry", "count"];
    }
  }
}
