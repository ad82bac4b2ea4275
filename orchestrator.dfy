/** The driver `parse_main`: the list of source files is cut into one block
    per worker process, every worker writes what it extracts from its
    block to its own temporary file, and the temporary files are then
    copied, in index order, into the single output file and deleted.
    The workers are a function from a block and the worker's index to the
    text they write, and they run one after another; the file system is a map from path to contents. */
module Orchestrator {
  import opened PyText

  type FileSystem = map<string, string>

  /** `math.ceil(n / nProcesses)`: the least block size with which
      `nProcesses` blocks hold all `n` files. */
  function BlockSize(n: nat, nProcesses: nat): (blockSize: nat)
    requires nProcesses > 0
    ensures blockSize * nProcesses >= n
    ensures (blockSize - 1) * nProcesses < n || blockSize == 0
    ensures n == 0 <==> blockSize == 0
  {
    var q := (n + nProcesses - 1) / nProcesses;
    assert n + nProcesses - 1 == q * nProcesses + (n + nProcesses - 1) % nProcesses;
    assert (q - 1) * nProcesses == q * nProcesses - nProcesses;
    q
  }

  /** The block of worker `i`: `paths[i * blockSize : min((i + 1) * blockSize, n)]`. */
  function Block(paths: seq<string>, blockSize: nat, i: nat): seq<string> {
    Slice(paths, i * blockSize, Min((i + 1) * blockSize, |paths|))
  }

  /** A block never holds more than `blockSize` paths, and it is empty once
      its start lies at or beyond the end of the list. */
  lemma BlockBounds(paths: seq<string>, blockSize: nat, i: nat)
    ensures |Block(paths, blockSize, i)| <= blockSize
    ensures i * blockSize >= |paths| ==> Block(paths, blockSize, i) == []
  {
    assert (i + 1) * blockSize == i * blockSize + blockSize;
  }

  /** With no source files every block is empty. */
  lemma NoFilesNoWork(paths: seq<string>, nProcesses: nat, i: nat)
    requires nProcesses > 0 && paths == []
    ensures Block(paths, BlockSize(|paths|, nProcesses), i) == []
  {
  }

  /** The blocks of all `nProcesses` workers, in index order. */
  function Blocks(paths: seq<string>, nProcesses: nat): (blocks: seq<seq<string>>)
    requires nProcesses > 0
  {
    seq(nProcesses, i requires 0 <= i < nProcesses => Block(paths, BlockSize(|paths|, nProcesses), i))
  }

  /** The first `m` blocks, concatenated, are the paths before position
      `min(m * blockSize, n)`. */
  lemma {:induction false} BlocksPrefix(paths: seq<string>, blockSize: nat, m: nat)
    ensures Concat(seq(m, i requires 0 <= i < m => Block(paths, blockSize, i)))
      == paths[..Min(m * blockSize, |paths|)]
  {
    var blocks := seq(m, i requires 0 <= i < m => Block(paths, blockSize, i));
    if m == 0 {
      assert blocks == [];
    } else {
      var init := seq(m - 1, i requires 0 <= i < m - 1 => Block(paths, blockSize, i));
      BlocksPrefix(paths, blockSize, m - 1);
      assert blocks == init + [blocks[m - 1]];
      ConcatAppend(init, [blocks[m - 1]]);
      assert Concat([blocks[m - 1]]) == blocks[m - 1];
      var lo, hi := BlockIsSlice(paths, blockSize, m - 1);
      PrefixSplit(paths, lo, hi);
    }
  }

  /** Block `i` is the slice between the clipped bounds `i * blockSize` and
      `(i + 1) * blockSize`. */
  lemma BlockIsSlice(paths: seq<string>, blockSize: nat, i: nat) returns (lo: nat, hi: nat)
    ensures lo == Min(i * blockSize, |paths|) && hi == Min((i + 1) * blockSize, |paths|)
    ensures lo <= hi <= |paths| && Block(paths, blockSize, i) == paths[lo..hi]
  {
    assert (i + 1) * blockSize == i * blockSize + blockSize;
    lo, hi := Min(i * blockSize, |paths|), Min((i + 1) * blockSize, |paths|);
  }

  lemma PrefixSplit(s: seq<string>, lo: nat, hi: nat)
    requires lo <= hi <= |s|
    ensures s[..hi] == s[..lo] + s[lo..hi]
  {
  }

  /** The blocks, concatenated in index order, give back the list of
      source files exactly: no file is lost, repeated or moved. */
  lemma BlocksCover(paths: seq<string>, nProcesses: nat)
    requires nProcesses > 0
    ensures Concat(Blocks(paths, nProcesses)) == paths
  {
    var blockSize := BlockSize(|paths|, nProcesses);
    BlocksPrefix(paths, blockSize, nProcesses);
    assert Blocks(paths, nProcesses) == seq(nProcesses, i requires 0 <= i < nProcesses => Block(paths, blockSize, i));
    assert nProcesses * blockSize == blockSize * nProcesses;
  }

  /** Every position of the list falls into exactly one block, the one of
      index `p / blockSize`, where it sits at offset `p % blockSize`. */
  lemma BlockOfPosition(paths: seq<string>, nProcesses: nat, p: nat)
    requires nProcesses > 0 && p < |paths|
    ensures var blockSize := BlockSize(|paths|, nProcesses);
      && 0 < blockSize
      && p / blockSize < nProcesses
      && p % blockSize < |Block(paths, blockSize, p / blockSize)|
      && Block(paths, blockSize, p / blockSize)[p % blockSize] == paths[p]
    ensures var blockSize := BlockSize(|paths|, nProcesses);
      forall j: nat :: j * blockSize <= p < (j + 1) * blockSize ==> j == p / blockSize
  {
    var blockSize := BlockSize(|paths|, nProcesses);
    var i, r := p / blockSize, p % blockSize;
    assert p == i * blockSize + r;
    if i >= nProcesses {
      MulMonotone(nProcesses, i, blockSize);
    }
    assert (i + 1) * blockSize == i * blockSize + blockSize;
    forall j: nat | j * blockSize <= p < (j + 1) * blockSize ensures j == i {
      BlockIndexUnique(p, blockSize, j);
    }
  }

  lemma MulMonotone(a: nat, b: nat, c: nat)
    requires a <= b
    ensures a * c <= b * c
  {
  }

  /** The only block whose range holds `p` is the one of index `p / blockSize`. */
  lemma BlockIndexUnique(p: nat, blockSize: nat, j: nat)
    requires j * blockSize <= p < (j + 1) * blockSize
    ensures j == p / blockSize
  {
    var i, r := p / blockSize, p % blockSize;
    assert p == i * blockSize + r;
    if j < i {
      MulMonotone(j + 1, i, blockSize);
    } else if j > i {
      assert (i + 1) * blockSize == i * blockSize + blockSize;
      MulMonotone(i + 1, j, blockSize);
    }
  }

  // ---------------------------------------------------------------------
  // Temporary file names

  function DigitChar(d: nat): char
    requires d < 10
  {
    ('0' as int + d) as char
  }

  /** `str(n)`: the decimal digits of `n`, most significant first. */
  function NatToString(n: nat): (s: string)
    ensures |s| >= 1
    ensures forall k :: 0 <= k < |s| ==> IsDigit(s[k])
  {
    if n < 10 then [DigitChar(n)] else NatToString(n / 10) + [DigitChar(n % 10)]
  }

  /** `int(s)` for a string of decimal digits. */
  function DecimalValue(s: string): nat
    requires forall k :: 0 <= k < |s| ==> IsDigit(s[k])
  {
    if s == [] then 0
    else
      assert IsDigit(s[|s| - 1]);
      DecimalValue(s[..|s| - 1]) * 10 + (s[|s| - 1] as int - '0' as int)
  }

  /** Reading back the decimal digits gives the number. */
  lemma {:induction false} DecimalRoundTrip(n: nat)
    ensures DecimalValue(NatToString(n)) == n
  {
    if n >= 10 {
      DecimalRoundTrip(n / 10);
      var s := NatToString(n);
      assert s[..|s| - 1] == NatToString(n / 10);
    }
  }

  /** `f'./temp_{i}.txt'`. */
  function TempPath(i: nat): string {
    "./temp_" + NatToString(i) + ".txt"
  }

  /** Distinct workers get distinct temporary files. */
  lemma TempPathInjective(i: nat, j: nat)
    ensures TempPath(i) == TempPath(j) <==> i == j
  {
    if TempPath(i) == TempPath(j) {
      var a, b := TempPath(i), TempPath(j);
      assert a[7..|a| - 4] == NatToString(i);
      assert b[7..|b| - 4] == NatToString(j);
      DecimalRoundTrip(i);
      DecimalRoundTrip(j);
    }
  }

  // ---------------------------------------------------------------------
  // The partition loop

  /** What one process is started with: its block and its temporary file. */
  datatype Job = Job(block: seq<string>, outputPath: string)

  /** The spawning loop of `parse_main`: the `processes` dictionary maps
      every index below `nProcesses`, empty blocks included, to its job. */
  method Partition(paths: seq<string>, nProcesses: nat) returns (processes: map<nat, Job>)
    requires nProcesses > 0
    ensures forall i: nat :: i in processes <==> i < nProcesses
    ensures forall i :: i in processes ==>
      processes[i] == Job(Blocks(paths, nProcesses)[i], TempPath(i))
  {
    var blockSize := BlockSize(|paths|, nProcesses);
    processes := map[];
    for i := 0 to nProcesses
      invariant forall j: nat :: j in processes <==> j < i
      invariant forall j :: j in processes ==>
        processes[j] == Job(Blocks(paths, nProcesses)[j], TempPath(j))
    {
      var blockStart := i * blockSize;
      var blockEnd := Min((i + 1) * blockSize, |paths|);
      var blockSourceFilePaths := Slice(paths, blockStart, blockEnd);
      var blockOutputFilePath := TempPath(i);
      processes := processes[i := Job(blockSourceFilePaths, blockOutputFilePath)];
    }
  }

  // ---------------------------------------------------------------------
  // The workers

  /** The file system after the jobs of `order` have run, in that order:
      job `i` leaves `worker(block, i)` in its temporary file. */
  function RunInOrder(files: FileSystem, processes: map<nat, Job>, order: seq<nat>,
                      worker: (seq<string>, nat) -> string): FileSystem
    requires forall k :: 0 <= k < |order| ==> order[k] in processes
  {
    if order == [] then files
    else
      var job := processes[order[|order| - 1]];
      RunInOrder(files, processes, order[..|order| - 1], worker)[job.outputPath := worker(job.block, order[|order| - 1])]
  }

  /** Whatever order the workers finish in, each temporary file holds what
      its own worker wrote. */
  lemma {:induction false} RunInOrderTemps(files: FileSystem, processes: map<nat, Job>, order: seq<nat>,
                                           worker: (seq<string>, nat) -> string)
    requires forall k :: 0 <= k < |order| ==> order[k] in processes
    requires forall i :: i in processes ==> processes[i].outputPath == TempPath(i)
    ensures forall k :: 0 <= k < |order| ==>
      TempPath(order[k]) in RunInOrder(files, processes, order, worker)
      && RunInOrder(files, processes, order, worker)[TempPath(order[k])] == worker(processes[order[k]].block, order[k])
  {
    if order != [] {
      var n := |order| - 1;
      var init := order[..n];
      RunInOrderTemps(files, processes, init, worker);
      forall k | 0 <= k < n
        ensures TempPath(order[k]) in RunInOrder(files, processes, order, worker)
        && RunInOrder(files, processes, order, worker)[TempPath(order[k])] == worker(processes[order[k]].block, order[k])
      {
        assert init[k] == order[k];
        TempPathInjective(order[k], order[n]);
      }
    }
  }

  /** A file that is no worker's temporary file is left as it was. */
  lemma {:induction false} RunInOrderOthers(files: FileSystem, processes: map<nat, Job>, order: seq<nat>,
                                            worker: (seq<string>, nat) -> string, p: string)
    requires forall k :: 0 <= k < |order| ==> order[k] in processes
    requires forall i :: i in processes ==> processes[i].outputPath == TempPath(i)
    requires forall k :: 0 <= k < |order| ==> p != TempPath(order[k])
    ensures p in RunInOrder(files, processes, order, worker) <==> p in files
    ensures p in files ==> RunInOrder(files, processes, order, worker)[p] == files[p]
  {
    if order != [] {
      var n := |order| - 1;
      var init := order[..n];
      assert forall k :: 0 <= k < n ==> init[k] == order[k];
      RunInOrderOthers(files, processes, init, worker, p);
    }
  }

  /** Two completion orders that run the same jobs leave the same file
      system. */
  lemma CompletionOrderIrrelevant(files: FileSystem, processes: map<nat, Job>, order1: seq<nat>, order2: seq<nat>,
                                  worker: (seq<string>, nat) -> string)
    requires forall k :: 0 <= k < |order1| ==> order1[k] in processes
    requires forall k :: 0 <= k < |order2| ==> order2[k] in processes
    requires forall i :: i in processes ==> processes[i].outputPath == TempPath(i)
    requires forall i :: i in order1 <==> i in order2
    ensures RunInOrder(files, processes, order1, worker) == RunInOrder(files, processes, order2, worker)
  {
    var a := RunInOrder(files, processes, order1, worker);
    var b := RunInOrder(files, processes, order2, worker);
    forall p ensures (p in a <==> p in b) && (p in a ==> a[p] == b[p]) {
      SameFile(files, processes, order1, order2, worker, p);
    }
  }

  lemma SameFile(files: FileSystem, processes: map<nat, Job>, order1: seq<nat>, order2: seq<nat>,
                 worker: (seq<string>, nat) -> string, p: string)
    requires forall k :: 0 <= k < |order1| ==> order1[k] in processes
    requires forall k :: 0 <= k < |order2| ==> order2[k] in processes
    requires forall i :: i in processes ==> processes[i].outputPath == TempPath(i)
    requires forall i :: i in order1 <==> i in order2
    ensures var a, b := RunInOrder(files, processes, order1, worker), RunInOrder(files, processes, order2, worker);
      (p in a <==> p in b) && (p in a ==> a[p] == b[p])
  {
    if k1 :| 0 <= k1 < |order1| && p == TempPath(order1[k1]) {
      RunInOrderTemps(files, processes, order1, worker);
      RunInOrderTemps(files, processes, order2, worker);
      assert order1[k1] in order1;
      var k2 :| 0 <= k2 < |order2| && order2[k2] == order1[k1];
    } else {
      forall k2 | 0 <= k2 < |order2| ensures p != TempPath(order2[k2]) {
        assert order2[k2] in order2;
      }
      RunInOrderOthers(files, processes, order1, worker, p);
      RunInOrderOthers(files, processes, order2, worker, p);
    }
  }

  /** The workers run one after another in index order, each leaving the
      text it extracts from its block in its temporary file. */
  method RunWorkers(files: FileSystem, processes: map<nat, Job>, nProcesses: nat,
                    worker: (seq<string>, nat) -> string)
    returns (written: FileSystem)
    requires forall i: nat :: i < nProcesses ==> i in processes
    ensures written == RunInOrder(files, processes, Range(nProcesses), worker)
  {
    written := files;
    for i := 0 to nProcesses
      invariant written == RunInOrder(files, processes, Range(i), worker)
    {
      var job := processes[i];
      assert Range(i + 1)[..i] == Range(i);
      written := written[job.outputPath := worker(job.block, i)];
    }
  }

  /** `range(n)` as a sequence. */
  function Range(n: nat): (r: seq<nat>)
    ensures |r| == n && forall k :: 0 <= k < n ==> r[k] == k
  {
    seq(n, k requires 0 <= k < n => k)
  }

  // ---------------------------------------------------------------------
  // The merge loop

  /** The contents of the first `n` temporary files, in index order. */
  function TempContents(files: FileSystem, n: nat): seq<string>
    requires forall i: nat :: i < n ==> TempPath(i) in files
  {
    seq(n, i requires 0 <= i < n => files[TempPath(i)])
  }

  /** `p` is the temporary file of one of the first `n` workers. */
  predicate IsTempBelow(p: string, n: nat) {
    exists i: nat :: i < n && p == TempPath(i)
  }

  /** The merge loop of `parse_main`: the output file is truncated, then
      for every index in ascending order the temporary file is appended to
      it and removed. Afterwards the output holds the temporary files'
      contents in index order, none of those files is left, and every
      other file is untouched. */
  method Merge(files: FileSystem, outputFilePath: string, nProcesses: nat) returns (merged: FileSystem)
    requires forall i: nat :: i < nProcesses ==> TempPath(i) in files
    requires !IsTempBelow(outputFilePath, nProcesses)
    ensures outputFilePath in merged
    ensures merged[outputFilePath] == Concat(TempContents(files, nProcesses))
    ensures forall i: nat :: i < nProcesses ==> TempPath(i) !in merged
    ensures forall p :: p != outputFilePath && !IsTempBelow(p, nProcesses) ==>
      (p in merged <==> p in files) && (p in merged ==> merged[p] == files[p])
  {
    var contents := TempContents(files, nProcesses);
    merged := files[outputFilePath := ""];
    assert contents[..0] == [];
    for i := 0 to nProcesses
      invariant outputFilePath in merged
      invariant merged[outputFilePath] == Concat(contents[..i])
      invariant forall j: nat :: j < i ==> TempPath(j) !in merged
      invariant forall j: nat :: i <= j < nProcesses ==>
        TempPath(j) in merged && merged[TempPath(j)] == files[TempPath(j)]
      invariant forall p :: p != outputFilePath && !IsTempBelow(p, nProcesses) ==>
        (p in merged <==> p in files) && (p in merged ==> merged[p] == files[p])
    {
      var blockOutputFilePath := TempPath(i);
      var blockOutput := merged[blockOutputFilePath];
      ConcatSnoc(contents, i);
      merged := merged[outputFilePath := merged[outputFilePath] + blockOutput];
      merged := merged - {blockOutputFilePath};
      forall j: nat | i < j < nProcesses ensures TempPath(j) != blockOutputFilePath {
        TempPathInjective(i, j);
      }
    }
    assert contents[..nProcesses] == contents;
  }

  lemma ConcatSnoc(parts: seq<string>, i: nat)
    requires i < |parts|
    ensures Concat(parts[..i + 1]) == Concat(parts[..i]) + parts[i]
  {
    assert parts[..i + 1] == parts[..i] + [parts[i]];
    ConcatAppend(parts[..i], [parts[i]]);
  }

  // ---------------------------------------------------------------------
  // parse_main

  /** What the workers write, one text per block, in index order. */
  function Outputs(paths: seq<string>, nProcesses: nat, worker: (seq<string>, nat) -> string): seq<string>
    requires nProcesses > 0
  {
    seq(nProcesses, i requires 0 <= i < nProcesses => worker(Blocks(paths, nProcesses)[i], i))
  }

  /** `parse_main` given the gathered source paths: `n_processes == 0`
      makes the block size computation divide by zero; a negative count
      starts no worker and leaves an empty output file; otherwise partition,
      run every worker, merge. The output file then holds the workers'
      texts in index order, no temporary file is left, and no other file
      changes. */
  method ParseMain(sourceFilePaths: seq<string>, outputFilePath: string, nProcesses: int,
                   worker: (seq<string>, nat) -> string, files: FileSystem)
    returns (result: Result<FileSystem>)
    requires nProcesses > 0 ==> !IsTempBelow(outputFilePath, nProcesses)
    ensures result.Raised? <==> nProcesses == 0
    ensures result.Raised? ==> result.exception == ZeroDivisionError
    ensures nProcesses < 0 ==> result == Ok(files[outputFilePath := ""])
    ensures nProcesses > 0 ==> result.Ok? && outputFilePath in result.value
    ensures nProcesses > 0 ==>
      result.value[outputFilePath] == Concat(Outputs(sourceFilePaths, nProcesses, worker))
    ensures nProcesses > 0 ==> forall i: nat :: i < nProcesses ==> TempPath(i) !in result.value
    ensures nProcesses > 0 ==> forall p :: p != outputFilePath && !IsTempBelow(p, nProcesses) ==>
      (p in result.value <==> p in files) && (p in result.value ==> result.value[p] == files[p])
  {
    if nProcesses == 0 {
      return Raised(ZeroDivisionError);
    }
    if nProcesses < 0 {
      return Ok(files[outputFilePath := ""]);
    }
    var processes := Partition(sourceFilePaths, nProcesses);
    var written := RunWorkers(files, processes, nProcesses, worker);
    WorkersWrite(files, processes, sourceFilePaths, nProcesses, worker);
    var merged := Merge(written, outputFilePath, nProcesses);
    return Ok(merged);
  }

  /** After the workers of a partition have run, temporary file `i` holds
      the text of worker `i`, and every file that is no temporary file is
      as before. */
  lemma WorkersWrite(files: FileSystem, processes: map<nat, Job>, paths: seq<string>, nProcesses: nat,
                     worker: (seq<string>, nat) -> string)
    requires nProcesses > 0
    requires forall i: nat :: i in processes <==> i < nProcesses
    requires forall i :: i in processes ==> processes[i] == Job(Blocks(paths, nProcesses)[i], TempPath(i))
    ensures var written := RunInOrder(files, processes, Range(nProcesses), worker);
      && (forall i: nat :: i < nProcesses ==> TempPath(i) in written)
      && TempContents(written, nProcesses) == Outputs(paths, nProcesses, worker)
      && forall p :: !IsTempBelow(p, nProcesses) ==>
           (p in written <==> p in files) && (p in written ==> written[p] == files[p])
  {
    var order := Range(nProcesses);
    var written := RunInOrder(files, processes, order, worker);
    RunInOrderTemps(files, processes, order, worker);
    forall i: nat | i < nProcesses
      ensures TempPath(i) in written && written[TempPath(i)] == Outputs(paths, nProcesses, worker)[i]
    {
      assert order[i] == i;
    }
    assert TempContents(written, nProcesses) == Outputs(paths, nProcesses, worker);
    forall p | !IsTempBelow(p, nProcesses)
      ensures (p in written <==> p in files) && (p in written ==> written[p] == files[p])
    {
      RunInOrderOthers(files, processes, order, worker, p);
    }
  }

  /** When a worker's text for a block is the concatenation of its texts for
      the parts of the block, as when each source file contributes its own
      records, and does not depend on the worker's index, the merged output
      is what a single process would have written, whatever the number of
      processes. */
  lemma OutputIndependentOfProcessCount(paths: seq<string>, nProcesses: nat, worker: (seq<string>, nat) -> string)
    requires nProcesses > 0
    requires forall a, b, i :: worker(a + b, i) == worker(a, i) + worker(b, i)
    requires forall a, i, j :: worker(a, i) == worker(a, j)
    ensures Concat(Outputs(paths, nProcesses, worker)) == worker(paths, 0)
  {
    var blocks := Blocks(paths, nProcesses);
    var w := (a: seq<string>) => worker(a, 0);
    var none: seq<string> := [];
    assert none + none == none;
    assert |w(none + none)| == |w(none)| + |w(none)|;
    ConcatMap(blocks, w);
    assert Outputs(paths, nProcesses, worker) == seq(|blocks|, i requires 0 <= i < |blocks| => w(blocks[i]));
    BlocksCover(paths, nProcesses);
  }

  lemma {:induction false} ConcatMap(blocks: seq<seq<string>>, worker: seq<string> -> string)
    requires forall a, b :: worker(a + b) == worker(a) + worker(b)
    requires worker([]) == ""
    ensures Concat(seq(|blocks|, i requires 0 <= i < |blocks| => worker(blocks[i]))) == worker(Concat(blocks))
  {
    if blocks != [] {
      ConcatMap(blocks[1..], worker);
      var mapped := seq(|blocks|, i requires 0 <= i < |blocks| => worker(blocks[i]));
      assert mapped[1..] == seq(|blocks| - 1, i requires 0 <= i < |blocks| - 1 => worker(blocks[1..][i]));
      assert worker(Concat(blocks)) == worker(blocks[0]) + worker(Concat(blocks[1..]));
    }
  }
}
