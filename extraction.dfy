/** The context extractor: the record built for every documented method
    declaration of one parsed source file, from its name, documentation,
    enclosing classes, input parameters, return type and the names its body
    refers to. The syntax tree is given as what the parser's `filter`
    yields: its nodes in pre-order, each with its ancestor path. */
module Extraction {
  import opened PyText
  import Tokenizer
  import Documentation

  /** The five kinds of reference node whose names go into the body names,
      in the order in which they are collected. */
  datatype ReferenceKind =
    | MemberReference
    | MethodInvocation
    | ClassReference
    | SuperMemberReference
    | SuperMethodInvocation

  /** A reference node. `qualifier` is its qualifier attribute (`None` for
      Python `None`). `member` is `None` when the node has no `member`
      attribute or it is `None`: converting it then raises, and the
      exception is caught. */
  datatype Reference = Reference(kind: ReferenceKind, qualifier: Option<string>, member: Option<string>)

  datatype FormalParameter = FormalParameter(name: string, typeName: string)

  /** A method declaration node: the attributes the extractor reads, with
      `returnType` the name of the declared return type (`None` for a void
      method), and `references` the reference nodes of its subtree in
      pre-order, which is the order in which `filter` yields them. */
  datatype MethodDeclaration = MethodDeclaration(
    name: string,
    documentation: Option<string>,
    parameters: seq<FormalParameter>,
    returnType: Option<string>,
    references: seq<Reference>)

  /** An entry of an ancestor path: a node with a `name` attribute, or an
      entry without one (the lists between nodes, or a nameless node). */
  datatype PathEntry = Named(name: string) | Unnamed

  /** The dictionary built for one method. */
  datatype MethodRecord = MethodRecord(
    name: string,
    documentation: seq<string>,
    enclosingClasses: seq<string>,
    inputParameters: seq<(string, string)>,
    returnType: string,
    bodyNames: seq<string>)

  // ---------------------------------------------------------------------
  // get_body_names

  /** A qualifier counts when it is truthy: present and non-empty. */
  predicate Truthy(qualifier: Option<string>) {
    qualifier.Some? && qualifier.value != ""
  }

  predicate IsInvocation(kind: ReferenceKind) {
    kind == MethodInvocation || kind == SuperMethodInvocation
  }

  /** What one reference node leaves in `body_names`, each name split by
      `tokenize`: for an invocation the tokens of a truthy qualifier first,
      then the tokens of the member. When the member cannot be read, what
      was appended before the failure stays and nothing else is added. */
  function ReferenceNames(r: Reference, tokenize: string -> seq<string>): seq<string> {
    (if IsInvocation(r.kind) && Truthy(r.qualifier) then tokenize(r.qualifier.value) else [])
    + (if r.member.Some? then tokenize(r.member.value) else [])
  }

  /** The names the loop over the nodes of one kind collects, in pre-order. */
  function Group(refs: seq<Reference>, kind: ReferenceKind, tokenize: string -> seq<string>): seq<string> {
    if refs == [] then []
    else
      var last := refs[|refs| - 1];
      Group(refs[..|refs| - 1], kind, tokenize) + (if last.kind == kind then ReferenceNames(last, tokenize) else [])
  }

  /** The five groups in the order of the five loops. */
  function BodyNames(refs: seq<Reference>, tokenize: string -> seq<string>): seq<string> {
    Group(refs, MemberReference, tokenize) + Group(refs, MethodInvocation, tokenize)
    + Group(refs, ClassReference, tokenize) + Group(refs, SuperMemberReference, tokenize)
    + Group(refs, SuperMethodInvocation, tokenize)
  }

  /** Every reference's names in plain pre-order, without grouping. */
  function AllReferenceNames(refs: seq<Reference>, tokenize: string -> seq<string>): seq<string> {
    if refs == [] then []
    else AllReferenceNames(refs[..|refs| - 1], tokenize) + ReferenceNames(refs[|refs| - 1], tokenize)
  }

  /** Extending with one more node of the loop. */
  lemma GroupStep(prefix: seq<string>, refs: seq<Reference>, i: nat, kind: ReferenceKind,
                  tokenize: string -> seq<string>)
    requires i < |refs|
    ensures prefix + Group(refs[..i + 1], kind, tokenize)
      == (prefix + Group(refs[..i], kind, tokenize))
         + (if refs[i].kind == kind then ReferenceNames(refs[i], tokenize) else [])
  {
    assert refs[..i + 1][..i] == refs[..i];
  }

  /** One loop of `get_body_names`: extend `bodyNames` with the names of
      every node of `kind`, in the order the filter yields them. */
  method ExtendWithGroup(bodyNames: seq<string>, refs: seq<Reference>, kind: ReferenceKind,
                         tokenize: string -> seq<string>)
    returns (extended: seq<string>)
    ensures extended == bodyNames + Group(refs, kind, tokenize)
  {
    extended := bodyNames;
    for i := 0 to |refs|
      invariant extended == bodyNames + Group(refs[..i], kind, tokenize)
    {
      var node := refs[i];
      GroupStep(bodyNames, refs, i, kind, tokenize);
      if node.kind == kind {
        ghost var before := extended;
        if IsInvocation(kind) && Truthy(node.qualifier) {
          extended := extended + tokenize(node.qualifier.value);
        }
        if node.member.Some? {
          extended := extended + tokenize(node.member.value);
        }
        assert extended == before + ReferenceNames(node, tokenize);
      }
    }
    assert refs[..|refs|] == refs;
  }

  /** `get_body_names`: the five groups, member references first and super
      method invocations last, duplicates kept, every name split by
      `convert_name_to_tokens`. */
  method GetBodyNames(methodDeclaration: MethodDeclaration) returns (bodyNames: seq<string>)
    ensures bodyNames == BodyNames(methodDeclaration.references, Tokenizer.ConvertNameToTokens)
  {
    var refs := methodDeclaration.references;
    var tokenize := Tokenizer.ConvertNameToTokens;
    bodyNames := [];
    bodyNames := ExtendWithGroup(bodyNames, refs, MemberReference, tokenize);
    assert bodyNames == Group(refs, MemberReference, tokenize);
    bodyNames := ExtendWithGroup(bodyNames, refs, MethodInvocation, tokenize);
    bodyNames := ExtendWithGroup(bodyNames, refs, ClassReference, tokenize);
    bodyNames := ExtendWithGroup(bodyNames, refs, SuperMemberReference, tokenize);
    bodyNames := ExtendWithGroup(bodyNames, refs, SuperMethodInvocation, tokenize);
  }

  /** Grouping only reorders: as a multiset, the body names are exactly the
      names of every reference of the method, each occurrence counted. */
  lemma {:induction false} BodyNamesArePermutation(refs: seq<Reference>, tokenize: string -> seq<string>)
    ensures multiset(BodyNames(refs, tokenize)) == multiset(AllReferenceNames(refs, tokenize))
  {
    if refs != [] {
      var init, last := refs[..|refs| - 1], refs[|refs| - 1];
      BodyNamesArePermutation(init, tokenize);
      PermutationStep(refs, tokenize);
    }
  }

  /** Adding one reference at the end adds its names to the body names. */
  lemma PermutationStep(refs: seq<Reference>, tokenize: string -> seq<string>)
    requires refs != []
    ensures multiset(BodyNames(refs, tokenize))
      == multiset(BodyNames(refs[..|refs| - 1], tokenize)) + multiset(ReferenceNames(refs[|refs| - 1], tokenize))
  {
    var init, last := refs[..|refs| - 1], refs[|refs| - 1];
    GroupMultiset(refs, MemberReference, tokenize);
    GroupMultiset(refs, MethodInvocation, tokenize);
    GroupMultiset(refs, ClassReference, tokenize);
    GroupMultiset(refs, SuperMemberReference, tokenize);
    GroupMultiset(refs, SuperMethodInvocation, tokenize);
    BodyNamesMultiset(refs, tokenize);
    BodyNamesMultiset(init, tokenize);
    AddedSum(last, tokenize);
    ShiftAdded(
      multiset(Group(init, MemberReference, tokenize)), multiset(Group(init, MethodInvocation, tokenize)),
      multiset(Group(init, ClassReference, tokenize)), multiset(Group(init, SuperMemberReference, tokenize)),
      multiset(Group(init, SuperMethodInvocation, tokenize)),
      Added(last, MemberReference, tokenize), Added(last, MethodInvocation, tokenize),
      Added(last, ClassReference, tokenize), Added(last, SuperMemberReference, tokenize),
      Added(last, SuperMethodInvocation, tokenize),
      multiset(ReferenceNames(last, tokenize)));
  }

  /** The names one reference adds to the group of `kind`. */
  function Added(r: Reference, kind: ReferenceKind, tokenize: string -> seq<string>): multiset<string> {
    if r.kind == kind then multiset(ReferenceNames(r, tokenize)) else multiset{}
  }

  /** A reference adds its names to exactly one of the five groups. */
  lemma AddedSum(r: Reference, tokenize: string -> seq<string>)
    ensures Added(r, MemberReference, tokenize) + Added(r, MethodInvocation, tokenize)
      + Added(r, ClassReference, tokenize) + Added(r, SuperMemberReference, tokenize)
      + Added(r, SuperMethodInvocation, tokenize) == multiset(ReferenceNames(r, tokenize))
  {
  }

  lemma ShiftAdded<T>(a1: multiset<T>, a2: multiset<T>, a3: multiset<T>, a4: multiset<T>, a5: multiset<T>,
                      e1: multiset<T>, e2: multiset<T>, e3: multiset<T>, e4: multiset<T>, e5: multiset<T>,
                      m: multiset<T>)
    requires e1 + e2 + e3 + e4 + e5 == m
    ensures (a1 + e1) + (a2 + e2) + (a3 + e3) + (a4 + e4) + (a5 + e5) == a1 + a2 + a3 + a4 + a5 + m
  {
  }

  /** The names of the body as a multiset: the sum of the five groups. */
  lemma BodyNamesMultiset(refs: seq<Reference>, tokenize: string -> seq<string>)
    ensures multiset(BodyNames(refs, tokenize))
      == multiset(Group(refs, MemberReference, tokenize)) + multiset(Group(refs, MethodInvocation, tokenize))
         + multiset(Group(refs, ClassReference, tokenize)) + multiset(Group(refs, SuperMemberReference, tokenize))
         + multiset(Group(refs, SuperMethodInvocation, tokenize))
  {
  }

  /** Adding one reference at the end adds its names to its own group. */
  lemma GroupMultiset(refs: seq<Reference>, kind: ReferenceKind, tokenize: string -> seq<string>)
    requires refs != []
    ensures multiset(Group(refs, kind, tokenize))
      == multiset(Group(refs[..|refs| - 1], kind, tokenize)) + Added(refs[|refs| - 1], kind, tokenize)
  {
  }

  // ---------------------------------------------------------------------
  // get_return_type and get_input_parameters

  /** `get_return_type`: the name of the declared return type, else `void`. */
  function GetReturnType(methodDeclaration: MethodDeclaration): (r: string)
    ensures methodDeclaration.returnType.Some? ==> r == methodDeclaration.returnType.value
    ensures methodDeclaration.returnType.None? ==> r == "void"
  {
    if methodDeclaration.returnType.Some? then methodDeclaration.returnType.value else "void"
  }

  /** The `(name, type name)` pair of every parameter, in declaration order. */
  function InputParameters(parameters: seq<FormalParameter>): seq<(string, string)> {
    seq(|parameters|, i requires 0 <= i < |parameters| => (parameters[i].name, parameters[i].typeName))
  }

  /** `get_input_parameters`: one `(name, type name)` pair per parameter, in
      declaration order, the raw strings untokenized. */
  method GetInputParameters(methodDeclaration: MethodDeclaration) returns (inputParameters: seq<(string, string)>)
    ensures |inputParameters| == |methodDeclaration.parameters|
    ensures forall i :: 0 <= i < |inputParameters| ==>
      inputParameters[i] == (methodDeclaration.parameters[i].name, methodDeclaration.parameters[i].typeName)
  {
    inputParameters := [];
    for i := 0 to |methodDeclaration.parameters|
      invariant |inputParameters| == i
      invariant forall j :: 0 <= j < i ==>
        inputParameters[j] == (methodDeclaration.parameters[j].name, methodDeclaration.parameters[j].typeName)
    {
      var parameter := methodDeclaration.parameters[i];
      inputParameters := inputParameters + [(parameter.name, parameter.typeName)];
    }
  }

  // ---------------------------------------------------------------------
  // get_enclosing_classes

  /** How many indices `range(2, len(path), 2)` yields. */
  function EvenCount(n: nat): nat {
    if n <= 2 then 0 else (n - 1) / 2
  }

  /** The path entries at indices 2, 4, 6, ... in increasing order: entry
      `k` is `path[2 + 2 * k]`, and the entries stop exactly where
      `range(2, len(path), 2)` does. */
  function EvenEntries(path: seq<PathEntry>): (e: seq<PathEntry>)
    ensures forall k :: 0 <= k < |e| ==> 2 + 2 * k < |path| && e[k] == path[2 + 2 * k]
    ensures 2 + 2 * |e| >= |path|
  {
    seq(EvenCount(|path|), k requires 0 <= k < EvenCount(|path|) => path[2 + 2 * k])
  }

  /** The names of the named entries, in order; nameless ones are skipped. */
  function Names(entries: seq<PathEntry>): seq<string> {
    if entries == [] then []
    else
      var last := entries[|entries| - 1];
      Names(entries[..|entries| - 1]) + (if last.Named? then [last.name] else [])
  }

  /** `get_enclosing_classes`: the names found at path indices 2, 4, 6, ...,
      outermost first; an entry without a name is skipped. */
  method GetEnclosingClasses(path: seq<PathEntry>) returns (enclosingClasses: seq<string>)
    ensures enclosingClasses == Names(EvenEntries(path))
  {
    enclosingClasses := [];
    var i := 2;
    while i < |path|
      invariant 2 <= i && i % 2 == 0
      invariant i == 2 || i - 2 < |path|
      invariant enclosingClasses == Names(EvenEntries(path)[..(i - 2) / 2])
    {
      var k := (i - 2) / 2;
      assert EvenEntries(path)[..k + 1][..k] == EvenEntries(path)[..k];
      if path[i].Named? {
        enclosingClasses := enclosingClasses + [path[i].name];
      }
      i := i + 2;
    }
    assert EvenEntries(path)[..(i - 2) / 2] == EvenEntries(path);
  }

  /** A name is an enclosing class exactly when a named entry with that name
      sits at an even path index from 2 on. */
  lemma {:induction false} NamesMembership(entries: seq<PathEntry>, x: string)
    ensures x in Names(entries) <==> exists k :: 0 <= k < |entries| && entries[k] == Named(x)
  {
    if entries != [] {
      var n := |entries| - 1;
      var init := entries[..n];
      NamesMembership(init, x);
      NamesStep(entries);
      if x in Names(entries) {
        if x in Names(init) {
          var k :| 0 <= k < |init| && init[k] == Named(x);
          assert entries[k] == Named(x);
        } else {
          assert entries[n] == Named(x);
        }
      }
      if exists k :: 0 <= k < |entries| && entries[k] == Named(x) {
        var k :| 0 <= k < |entries| && entries[k] == Named(x);
        if k < n {
          assert init[k] == Named(x);
        }
      }
    }
  }

  lemma NamesStep(entries: seq<PathEntry>)
    requires entries != []
    ensures var n := |entries| - 1;
      Names(entries) == Names(entries[..n]) + (if entries[n].Named? then [entries[n].name] else [])
  {
  }

  lemma EnclosingClassesMembership(path: seq<PathEntry>, x: string)
    ensures x in Names(EvenEntries(path)) <==>
      exists i :: 2 <= i < |path| && i % 2 == 0 && path[i] == Named(x)
  {
    var e := EvenEntries(path);
    NamesMembership(e, x);
    if x in Names(e) {
      var k :| 0 <= k < |e| && e[k] == Named(x);
      assert path[2 + 2 * k] == Named(x);
    }
    if exists i :: 2 <= i < |path| && i % 2 == 0 && path[i] == Named(x) {
      var i :| 2 <= i < |path| && i % 2 == 0 && path[i] == Named(x);
      assert e[(i - 2) / 2] == Named(x);
    }
  }

  // ---------------------------------------------------------------------
  // parse_source_file

  /** The documentation tokens when they are truthy: present and non-empty. */
  predicate Documented(methodDeclaration: MethodDeclaration) {
    var d := Documentation.GetDocumentation(methodDeclaration.documentation);
    d.Ok? && d.value.Some? && d.value.value != []
  }

  predicate DocumentationRaises(methodDeclaration: MethodDeclaration) {
    Documentation.GetDocumentation(methodDeclaration.documentation).Raised?
  }

  /** The record of a documented method. */
  function RecordOf(path: seq<PathEntry>, node: MethodDeclaration): MethodRecord
    requires Documented(node)
  {
    MethodRecord(
      node.name,
      Documentation.GetDocumentation(node.documentation).value.value,
      Names(EvenEntries(path)),
      InputParameters(node.parameters),
      GetReturnType(node),
      BodyNames(node.references, Tokenizer.ConvertNameToTokens))
  }

  /** One record per documented method, in traversal order. */
  function Records(tree: seq<(seq<PathEntry>, MethodDeclaration)>): seq<MethodRecord> {
    Filtered(tree, DocumentedEntry, EntryRecord)
  }

  predicate DocumentedEntry(entry: (seq<PathEntry>, MethodDeclaration)) {
    Documented(entry.1)
  }

  function EntryRecord(entry: (seq<PathEntry>, MethodDeclaration)): MethodRecord
    requires DocumentedEntry(entry)
  {
    RecordOf(entry.0, entry.1)
  }

  /** `f` of each element of `s` that `keep` accepts, in order. */
  function Filtered<T(!new), U>(s: seq<T>, keep: T -> bool, f: T --> U): seq<U>
    requires forall x :: keep(x) ==> f.requires(x)
  {
    if s == [] then []
    else
      var n := |s| - 1;
      Filtered(s[..n], keep, f) + (if keep(s[n]) then [f(s[n])] else [])
  }

  lemma FilteredStep<T(!new), U>(s: seq<T>, keep: T -> bool, f: T --> U, i: nat)
    requires forall x :: keep(x) ==> f.requires(x)
    requires i < |s|
    ensures Filtered(s[..i + 1], keep, f) == Filtered(s[..i], keep, f) + (if keep(s[i]) then [f(s[i])] else [])
  {
    assert s[..i + 1][..i] == s[..i];
  }

  lemma RecordsStep(tree: seq<(seq<PathEntry>, MethodDeclaration)>, i: nat)
    requires i < |tree|
    ensures Records(tree[..i + 1])
      == Records(tree[..i]) + (if Documented(tree[i].1) then [RecordOf(tree[i].0, tree[i].1)] else [])
  {
    FilteredStep(tree, DocumentedEntry, EntryRecord, i);
  }

  /** What `parse_source_file` returns: the records, unless the
      documentation of some method raises, which propagates. */
  function Extract(tree: seq<(seq<PathEntry>, MethodDeclaration)>): Result<seq<MethodRecord>> {
    if exists i :: 0 <= i < |tree| && DocumentationRaises(tree[i].1) then Raised(StopIteration)
    else Ok(Records(tree))
  }

  /** The body of the loop of `parse_source_file` for one `(path, node)`
      pair: `None` when the documentation tokens are `None` or empty, the
      record otherwise; the exception of `get_documentation` escapes. */
  method ParseMethod(path: seq<PathEntry>, node: MethodDeclaration)
    returns (outcome: Result<Option<MethodRecord>>)
    ensures outcome.Raised? <==> DocumentationRaises(node)
    ensures outcome.Raised? ==> outcome.exception == StopIteration
    ensures outcome.Ok? ==> outcome.value == if Documented(node) then Some(RecordOf(path, node)) else None
  {
    var name := node.name;
    var documentation := Documentation.GetDocumentation(node.documentation);
    if documentation.Raised? {
      return Raised(documentation.exception);
    }
    if documentation.value.Some? && documentation.value.value != [] {
      var enclosingClasses := GetEnclosingClasses(path);
      var inputParameters := GetInputParameters(node);
      var returnType := GetReturnType(node);
      var bodyNames := GetBodyNames(node);
      assert inputParameters == InputParameters(node.parameters);
      return Ok(Some(MethodRecord(name, documentation.value.value, enclosingClasses,
                                  inputParameters, returnType, bodyNames)));
    }
    return Ok(None);
  }

  /** The loop of `parse_source_file` over the `(path, node)` pairs that the
      filter for method declarations yields. */
  method ParseSourceFile(tree: seq<(seq<PathEntry>, MethodDeclaration)>)
    returns (result: Result<seq<MethodRecord>>)
    ensures result == Extract(tree)
  {
    var methods: seq<MethodRecord> := [];
    assert tree[..0] == [];
    for i := 0 to |tree|
      invariant forall j :: 0 <= j < i ==> !DocumentationRaises(tree[j].1)
      invariant methods == Records(tree[..i])
    {
      var outcome := ParseMethod(tree[i].0, tree[i].1);
      if outcome.Raised? {
        return Raised(outcome.exception);
      }
      RecordsStep(tree, i);
      if outcome.value.Some? {
        methods := methods + [outcome.value.value];
      }
    }
    assert tree[..|tree|] == tree;
    return Ok(methods);
  }

  /** The indices of the elements of `s` that `keep` accepts, in increasing
      order: every such index, and nothing else. */
  function Indices<T>(s: seq<T>, keep: T -> bool): (d: seq<nat>)
    ensures forall k :: 0 <= k < |d| ==> d[k] < |s| && keep(s[d[k]])
    ensures forall k, l :: 0 <= k < l < |d| ==> d[k] < d[l]
    ensures forall i :: 0 <= i < |s| && keep(s[i]) ==> i in d
  {
    if s == [] then []
    else
      var n := |s| - 1;
      assert forall i :: 0 <= i < n ==> s[..n][i] == s[i];
      Indices(s[..n], keep) + (if keep(s[n]) then [n] else [])
  }

  /** Exactly one record per method whose documentation tokens are truthy,
      in traversal order: the k-th record is the record of the k-th
      documented method. Methods whose documentation is `None` or `[]`
      produce nothing. */
  lemma RecordsInTraversalOrder(tree: seq<(seq<PathEntry>, MethodDeclaration)>)
    ensures |Records(tree)| == |Indices(tree, DocumentedEntry)|
    ensures forall k :: 0 <= k < |Records(tree)| ==>
      Records(tree)[k] == RecordOf(tree[Indices(tree, DocumentedEntry)[k]].0, tree[Indices(tree, DocumentedEntry)[k]].1)
  {
    FilteredInOrder(tree, DocumentedEntry, EntryRecord);
  }

  /** The k-th element of `Filtered` is `f` of the k-th accepted element. */
  lemma {:induction false} FilteredInOrder<T(!new), U>(s: seq<T>, keep: T -> bool, f: T --> U)
    requires forall x :: keep(x) ==> f.requires(x)
    ensures |Filtered(s, keep, f)| == |Indices(s, keep)|
    ensures forall k :: 0 <= k < |Filtered(s, keep, f)| ==> Filtered(s, keep, f)[k] == f(s[Indices(s, keep)[k]])
  {
    if s != [] {
      var n := |s| - 1;
      FilteredInOrder(s[..n], keep, f);
      forall i | 0 <= i < n ensures s[..n][i] == s[i] { }
    }
  }

  /** Each record keeps the method's raw name, untokenized, and its return
      type is the declared type's name or `void`. */
  lemma RecordFields(path: seq<PathEntry>, node: MethodDeclaration)
    requires Documented(node)
    ensures RecordOf(path, node).name == node.name
    ensures RecordOf(path, node).documentation != []
    ensures RecordOf(path, node).returnType == if node.returnType.Some? then node.returnType.value else "void"
  {
  }
}
