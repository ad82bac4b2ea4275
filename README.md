# MethodNameGeneration extraction core in Dafny

This project models the data-extraction core of MethodNameGeneration. That
repository builds training examples for method-name prediction from Java
sources. For every documented method it records:

- the method name;
- the summary sentence of its Javadoc comment, as tokens;
- the enclosing classes;
- the input parameters;
- the return type;
- the names its body refers to, split into sub-word tokens.

The model has three parts.

- **`parse.py`, the extractor:**
  - `convert_name_to_tokens` (module `Tokenizer`). It splits on `_` when the
    first underscore is not the first character, and otherwise applies the
    camelCase regular expression. The regular expression is scanned by hand
    and proved to take the longest match of the pattern.
  - `get_documentation` (module `Documentation`).
  - `get_body_names`, `get_return_type`, `get_input_parameters`,
    `get_enclosing_classes` and the loop of `parse_source_file` (module
    `Extraction`). They work over a syntax tree given as the pre-order
    sequence of `(path, node)` pairs that the parser's `filter` yields.
  - The Python string built-ins they use, restricted to ASCII: `find`,
    `lower`, `split`, `split(sep)`, slicing and `isalnum` (module
    `PyText`). `Join` (`sep.join`) is used only to state that `split(sep)`
    can be undone.
- **`parse_main.py`, the driver (module `Orchestrator`):**
  - it computes the block size and partitions the list of source files into
    one block per worker;
  - it creates one temporary file `./temp_{i}.txt` per worker;
  - it merges the temporary files into the output file in index order and
    deletes each one.

  The workers are a function from a block and the worker's index to the
  text they write, and they run one after another. The file system is a map from path to contents.
- **`results.py`, the metric kernels (module `Results`):**
  - token precision and recall, as exact ratios;
  - the context-size bucket.

The model follows `parse.py` as written; in particular:

- the record's `name` is the raw identifier, not tokenized, and so are the
  return type and the parameter names and types;
- the body names are a list grouped by node kind, with duplicates kept;
- a documented method with no body names still gets a record;
- the summary is cut at the first `.`, else at the first newline, else one
  character before the end. There is no cut at `@` and no tag stripping;
- summary words are lowercased but not passed through the tokenizer;
- a non-empty comment without any alphanumeric character makes `next()`
  raise `StopIteration`, which escapes `parse_source_file`. It does not give
  an empty summary.

## Model

| member | source | states |
|---|---|---|
| PyText.Find | parse.py:68 | `s.find(c)` is -1 exactly when `c` does not occur; otherwise it is an index holding `c` with no `c` before it |
| PyText.JoinSplitOn | parse.py:69 | joining the pieces of `s.split(sep)` with `sep` gives back `s` exactly |
| PyText.SplitOnCount | parse.py:69 | `s.split(sep)` has exactly one more piece than `s` has separators, empty pieces included |
| PyText.WordsSpec | parse.py:236 | `str.split()` yields non-empty words without whitespace that, concatenated in order, are the non-whitespace characters of the input; word `k` is the slice at the `k`-th of a left-to-right list of disjoint maximal non-whitespace runs, each bounded by an end of the string or by whitespace, so words break exactly at whitespace |
| PyText.Slice | parse_main.py:21 | `s[start:end]` has `min(end, len(s)) - start` elements, or none when `start` is at or past that bound, and element `k` is `s[start + k]` |
| Tokenizer.ConvertNameToTokens | parse.py:59-73 | in the underscore branch the tokens joined with `_` are `name.lower()` and no token holds `_`; in the camelCase branch every token is a non-empty run of lowercase ASCII letters, and the tokens are exactly the matches `re.findall` returns, lowercased: each the longest match at its start, left to right without overlap, with no match starting at any position between them; the empty name gives no tokens |
| Tokenizer.MatchAt | parse.py:71 | the match the regular expression finds at a position satisfies the pattern, its lookahead included, and is the longest such match; there is no match exactly when no end position satisfies the pattern |
| Tokenizer.CamelCaseTokens | parse.py:71-72 | in the camelCase branch every token is a match of the pattern in the name, lowercased, and the tokens are all of `re.findall`'s matches in order: token `k` is the lowercased longest match at the start of span `k`, the spans do not overlap, and no match starts before the first span, between two spans or after the last |
| Tokenizer.SnakeCaseTokenCount | parse.py:68-69 | in the underscore branch there is one token more than the name has underscores, so consecutive underscores give empty tokens |
| Tokenizer.ExampleGetUserId | parse.py:71-72 | `"getUserID"` becomes `["get", "user", "id"]`: a trailing acronym is one token |
| Tokenizer.ExampleLoneCapital | parse.py:71-72 | `"getX2"` becomes `["get"]`: a lone capital before a digit is dropped |
| Tokenizer.ExampleDoubleUnderscore | parse.py:68-69 | `"a__b"` becomes `["a", "", "b"]` |
| Tokenizer.ExampleMaxRetryCount | parse.py:68-69 | `"max_retry_count"` becomes `["max", "retry", "count"]` |
| Documentation.FirstAlnum | parse.py:225 | the index of the first alphanumeric character, or -1 exactly when there is none |
| Documentation.FindFirstAlnum | parse.py:225 | `doc.find` of the first alphanumeric character is that character's own index |
| Documentation.GetDocumentation | parse.py:220-238 | an absent or empty comment gives `None`; `StopIteration` is raised exactly when the comment is non-empty and has no alphanumeric character; otherwise there is a token list |
| Documentation.TruncateCut | parse.py:228-231 | the text is cut before the first `.`, else before the first newline, else before its last character |
| Documentation.SummaryBounds | parse.py:225-231 | the summary kept is the slice from the first alphanumeric character up to that cut |
| Documentation.Truncation | parse.py:225-238 | a comment with an alphanumeric character gives the tokens of exactly that slice; every token is non-empty, lowercase ASCII alphanumeric, and the tokens in order spell out the slice's alphanumeric characters; each token is one maximal alphanumeric run of the slice, lowercased, in order |
| Documentation.NormalizedTokens | parse.py:233-236 | substitution, lowercasing and `split()` give non-empty lowercase alphanumeric tokens that concatenate to the text's alphanumeric characters in order; token `k` is the lowercased `k`-th maximal run of alphanumeric characters, bounded by an end of the text or by a non-alphanumeric character, so tokens break exactly at the other characters |
| Extraction.ExtendWithGroup | parse.py:100-133 | one loop of `get_body_names` appends, in pre-order, the qualifier tokens and then the member tokens of every node of its kind |
| Extraction.GetBodyNames | parse.py:98-136 | the body names are the five groups in the order member references, method invocations, class references, super member references, super method invocations |
| Extraction.BodyNamesArePermutation | parse.py:98-136 | grouping only reorders: as a multiset the body names are the names of all reference nodes, duplicates counted |
| Extraction.GetReturnType | parse.py:150-153 | the declared return type's name, or `void` when there is none |
| Extraction.GetInputParameters | parse.py:166-171 | one `(name, type name)` pair per parameter, in declaration order |
| Extraction.EvenEntries | parse.py:194 | entry `k` is `path[2 + 2k]`, every such index is below `len(path)`, and the next one, `2 + 2 * count`, is not: the indices of `range(2, len(path), 2)` in increasing order |
| Extraction.GetEnclosingClasses | parse.py:192-200 | the loop collects the names of the named entries at even indices from 2 on, in order |
| Extraction.NamesMembership | parse.py:195-198 | a name is collected exactly when some entry carries it; entries without a name are skipped |
| Extraction.EnclosingClassesMembership | parse.py:194-200 | a class name is enclosing exactly when it names a path entry at an even index of at least 2 |
| Extraction.ParseMethod | parse.py:37-54 | the body of the loop raises exactly when `get_documentation` raises, yields the record when the tokens are truthy, and yields nothing otherwise |
| Extraction.ParseSourceFile | parse.py:34-56 | the loop returns one record per documented method, or propagates `StopIteration` when any method's comment raises |
| Extraction.RecordsInTraversalOrder | parse.py:36-56 | there are as many records as methods with truthy documentation tokens, and record `k` belongs to the `k`-th of them in traversal order |
| Extraction.RecordFields | parse.py:46-53 | a record keeps the raw method name, non-empty documentation tokens, and the return type or `void` |
| Orchestrator.BlockSize | parse_main.py:12 | `ceil(n / k)`: the least block size with which `k` blocks hold `n` files; zero exactly when there are no files |
| Orchestrator.BlockBounds | parse_main.py:19-21 | a block holds at most `block_size` paths and is empty once its start reaches the end of the list |
| Orchestrator.BlockIsSlice | parse_main.py:19-21 | block `i` is the slice between `i * block_size` and `(i + 1) * block_size`, both clipped to the list |
| Orchestrator.NoFilesNoWork | parse_main.py:12-21 | with no source files every block is empty |
| Orchestrator.BlocksPrefix | parse_main.py:17-21 | the first `m` blocks concatenated are the paths before `min(m * block_size, n)` |
| Orchestrator.BlocksCover | parse_main.py:17-21 | the blocks concatenated in index order are the source file list exactly |
| Orchestrator.BlockOfPosition | parse_main.py:17-21 | every position of the list lies in exactly one block, at index `p / block_size` and offset `p % block_size` |
| Orchestrator.DecimalRoundTrip | parse_main.py:24 | reading back the decimal digits of `i` gives `i` |
| Orchestrator.TempPathInjective | parse_main.py:24 | two workers share a temporary path exactly when they are the same worker |
| Orchestrator.Partition | parse_main.py:15-33 | `processes` maps exactly the indices below `n_processes` to their block and temporary path, empty blocks included |
| Orchestrator.RunInOrderTemps | parse_main.py:27-30 | whatever order the workers finish in, each temporary file holds what its own worker wrote |
| Orchestrator.RunInOrderOthers | parse_main.py:27-30 | a file that is no worker's temporary file is left as it was |
| Orchestrator.CompletionOrderIrrelevant | parse_main.py:37-40 | two completion orders of the same workers leave the same file system |
| Orchestrator.RunWorkers | parse_main.py:17-30 | running the workers in index order gives the file system of that completion order |
| Orchestrator.WorkersWrite | parse_main.py:27-46 | after the workers, temporary file `i` holds worker `i`'s text and every other file is as before |
| Orchestrator.Merge | parse_main.py:36-49 | the output file holds the temporary files' contents in ascending index order, every temporary file is removed, and no other file changes |
| Orchestrator.ParseMain | parse_main.py:7-49 | zero processes raise `ZeroDivisionError`; a negative count leaves an empty output file; otherwise the output holds the workers' texts in index order, no temporary file is left and no other file changes |
| Orchestrator.OutputIndependentOfProcessCount | parse_main.py:7-49 | for a worker whose output for a block is the concatenation of its outputs for the block's parts and does not depend on its index, the merged output is the same for every process count |
| Results.AllHits | results.py:113-117 | every predicted position is a hit exactly when every predicted token occurs in the target |
| Results.Precision | results.py:110-117 | precision is 1 for an empty prediction, lies in [0, 1], and is 1 exactly when every predicted token occurs in the target |
| Results.ComputePrecision | results.py:110-117 | the counting loop returns hits over the prediction's length, or 1 for an empty prediction |
| Results.ComputeRecall | results.py:120-127 | recall is precision with target and prediction swapped, so it is 1 for an empty target and lies in [0, 1] |
| Results.GetContextSize | results.py:138-149 | the label is always one of the four labels of results.py line 14, chosen by the word count less three: at most 10, at most 20, at most 30, or more |
| Results.ContextSizeMonotone | results.py:138-149 | more words never give a smaller bucket |

## Left out

- Reading the source file and `javalang.parse.parse` (parse.py:29-32) are foreign I/O and parser calls. The tree is an input: the `(path, node)` pairs that `filter` yields, in pre-order.
- The `print` calls in the `except` blocks (parse.py:104-133, parse.py:198) are diagnostics. Only their outcome is modelled: the failed node adds nothing more.
- Extraction.GetInputParameters: assumes every parameter has a type with a name; the `AttributeError` a nameless type would raise is not modelled.
- `lower`, `isalnum` and `split()` are modelled on ASCII only; other Unicode letters, digits and spaces are not. The regular expression's classes `[a-zA-Z]`, `[a-z]` and `[A-Z]` are ASCII ranges in Python as well, so the scanner is exact on every string.
- The `multiprocessing.Process` start and join mechanics (parse_main.py:27-40) are concurrency. The workers run one after another, and CompletionOrderIrrelevant shows that the order in which they finish does not matter.
- `gather_source_file_paths` and `parse_and_write_source_files` are not part of this model. The gathered paths are a parameter of ParseMain, and the worker is a function from its block and its index `i` to the text it writes. The third argument passed at parse_main.py:29, the constant `True`, is the same for every worker and is not modelled separately: it is part of the worker function.
- Orchestrator.BlockSize: `math.ceil` of a float division, which matches the exact integer ceiling only while the number of files is below 2^53.
- Orchestrator.Merge: requires every temporary file to exist. A worker that dies without writing its file, which would make `open` raise, is not modelled.
- Orchestrator.Merge: paths are compared as strings. Two spellings of one file, such as `temp_0.txt` and `./temp_0.txt` or an absolute path, are different keys in the model, so an output path that names a temporary file under another spelling is not modelled: there the source truncates and then removes that file, and "no other file changes" does not hold for such an alias.
- Orchestrator.ParseMain: requires the output path not to be one of the temporary paths. If it were, the output truncation would race with a worker writing that same file.
- Orchestrator.ParseMain: paths are compared as strings, so the requirement above excludes only the spellings `./temp_{i}.txt`. An output path such as `temp_0.txt` names worker 0's file too; the source then truncates it and removes it, leaving no output file, which the model does not capture.
- Intermediate file states and write buffering are not modelled; the file system is observed only after each step.
- Results.ComputePrecision: returns the exact ratio; Python's float division rounds it.
- Results.ComputeRecall: returns the exact ratio; Python's float division rounds it.
- From results.py, `main` (file I/O and grouping of records), `compute_f_score` (floating point), `compute_edit_distance` and BLEU (nltk), and the two plotting functions are left out, as is `main.py`, which is printing glue.
