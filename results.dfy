/** The metric kernels of the evaluation script: token precision and
    recall of a predicted method name against the target name, as exact
    ratios, and the bucket of a method's context size. */
module Results {
  import opened PyText

  /** How many positions of `tokens` hold a token that occurs in `others`;
      repeated tokens count once per position. */
  function Hits(tokens: seq<string>, others: seq<string>): (n: nat)
    ensures n <= |tokens|
  {
    if tokens == [] then 0
    else Hits(tokens[..|tokens| - 1], others) + (if tokens[|tokens| - 1] in others then 1 else 0)
  }

  /** Every position is a hit exactly when every token occurs in `others`. */
  lemma {:induction false} AllHits(tokens: seq<string>, others: seq<string>)
    ensures Hits(tokens, others) == |tokens| <==> forall t :: t in tokens ==> t in others
  {
    if tokens != [] {
      var init := tokens[..|tokens| - 1];
      AllHits(init, others);
      assert tokens == init + [tokens[|tokens| - 1]];
      assert forall t :: t in tokens <==> t in init || t == tokens[|tokens| - 1];
    }
  }

  /** Token precision of `predTokens` against `targetTokens`: the share of
      predicted positions whose token occurs in the target, and 1 for an
      empty prediction. It lies between 0 and 1 and is 1 exactly when every
      predicted token occurs in the target. */
  function Precision(targetTokens: seq<string>, predTokens: seq<string>): (p: real)
    ensures 0.0 <= p <= 1.0
    ensures p == 1.0 <==> forall t :: t in predTokens ==> t in targetTokens
    ensures predTokens == [] ==> p == 1.0
  {
    if predTokens == [] then 1.0
    else
      AllHits(predTokens, targetTokens);
      Ratio(Hits(predTokens, targetTokens), |predTokens|)
  }

  /** `count / n` as an exact ratio, with the facts about it that the
      metrics use. */
  function Ratio(count: nat, n: nat): (r: real)
    requires 0 < n && count <= n
    ensures 0.0 <= r <= 1.0
    ensures r == 1.0 <==> count == n
  {
    count as real / n as real
  }

  /** `compute_precision`: the counting loop over the predicted tokens. */
  method ComputePrecision(targetTokens: seq<string>, predTokens: seq<string>) returns (precision: real)
    ensures precision == Precision(targetTokens, predTokens)
  {
    if predTokens == [] {
      return 1.0;
    }
    var count := 0;
    for i := 0 to |predTokens|
      invariant count == Hits(predTokens[..i], targetTokens)
    {
      assert predTokens[..i + 1][..i] == predTokens[..i];
      if predTokens[i] in targetTokens {
        count := count + 1;
      }
    }
    assert predTokens[..|predTokens|] == predTokens;
    return count as real / |predTokens| as real;
  }

  /** `compute_recall`: the same loop over the target tokens, looking them
      up in the prediction. Recall is precision with the roles of the two
      lists swapped, so it is 1 for an empty target, lies between 0 and 1,
      and is 1 exactly when every target token was predicted. */
  method ComputeRecall(targetTokens: seq<string>, predTokens: seq<string>) returns (recall: real)
    ensures recall == Precision(predTokens, targetTokens)
  {
    if targetTokens == [] {
      return 1.0;
    }
    var count := 0;
    for i := 0 to |targetTokens|
      invariant count == Hits(targetTokens[..i], predTokens)
    {
      assert targetTokens[..i + 1][..i] == targetTokens[..i];
      if targetTokens[i] in predTokens {
        count := count + 1;
      }
    }
    assert targetTokens[..|targetTokens|] == targetTokens;
    return count as real / |targetTokens| as real;
  }

  /** The bucket labels, smallest contexts first. */
  const ContextSizes: seq<string> := ["1 - 10", "11 - 20", "21 - 30", "30+"]

  /** `get_context_size`: the bucket of the number of whitespace-separated
      words of the source, less three punctuation tokens. The label is
      always one of the four buckets; `"1 - 10"` also takes sources of
      fewer than four words. */
  function GetContextSize(source: string): (bucket: string)
    ensures bucket in ContextSizes
    ensures bucket == "1 - 10" <==> |Words(source)| <= 13
    ensures bucket == "11 - 20" <==> 14 <= |Words(source)| <= 23
    ensures bucket == "21 - 30" <==> 24 <= |Words(source)| <= 33
    ensures bucket == "30+" <==> 34 <= |Words(source)|
  {
    var size := |Words(source)| - 3;
    if size <= 10 then "1 - 10"
    else if size <= 20 then "11 - 20"
    else if size <= 30 then "21 - 30"
    else "30+"
  }

  /** The position of a bucket label among the buckets. */
  function Rank(bucket: string): nat {
    if bucket == ContextSizes[0] then 0
    else if bucket == ContextSizes[1] then 1
    else if bucket == ContextSizes[2] then 2
    else 3
  }

  /** More words never give a smaller bucket. */
  lemma ContextSizeMonotone(source1: string, source2: string)
    requires |Words(source1)| <= |Words(source2)|
    ensures Rank(GetContextSize(source1)) <= Rank(GetContextSize(source2))
  {
  }
}
