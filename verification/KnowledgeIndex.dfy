/** The incremental code index: only changed files are reparsed, calls are bound by name. */
module KnowledgeIndex {
  import opened Wrappers
  import opened Ordering
  import opened Tables

  datatype Content = Content(text: nat) // stands for its own SHA-256 digest

  datatype Symbol = Symbol(name: Id, detail: nat)

  datatype Import = Import(detail: nat)

  datatype RawCall = RawCall(caller: nat, callee: Id, line: nat)

  datatype Call = Call(caller: nat, calleeFile: Id, callee: Id, line: nat)

  datatype Parsed = Parsed(symbols: seq<Symbol>, imports: seq<Import>, calls: seq<RawCall>)

  const UNBOUND := Id(0)

  /** What the index does not compute itself: language by suffix, parsing, encoded size. */
  datatype Engine = Engine(isPython: Id -> bool, parse: (Id, Content) -> Option<Parsed>, size: Content -> nat)

  datatype Index = Index(files: map<Id, Content>, symbols: seq<Row<Symbol>>, imports: seq<Row<Import>>, calls: seq<Row<Call>>)

  const EMPTY_INDEX := Index(map[], [], [], [])

  /** One call of `index_files`: a mapping in iteration order, and its options. */
  datatype Input = Input(order: seq<Id>, contents: map<Id, Content>, prune: bool, maxBytes: int)

  ghost predicate IsMapping(input: Input) {
    Distinct(input.order) && Elements(input.order) == input.contents.Keys
  }

  /** Other languages and unparsable files contribute no rows. */
  function ParsedOf(eng: Engine, path: Id, content: Content): Parsed {
    if eng.isPython(path) && eng.parse(path, content).Some? then eng.parse(path, content).value
    else Parsed([], [], [])
  }

  function Pend(calls: seq<RawCall>): (pending: seq<Call>)
    ensures |pending| == |calls|
    ensures forall i | 0 <= i < |calls| :: pending[i] == Call(calls[i].caller, UNBOUND, calls[i].callee, calls[i].line)
  {
    seq(|calls|, i requires 0 <= i < |calls| => Call(calls[i].caller, UNBOUND, calls[i].callee, calls[i].line))
  }

  // ---------------------------------------------------------------- writing files

  /** Deleting file rows; the other tables cascade. */
  function DropFiles(ix: Index, gone: set<Id>): Index {
    Index(ix.files - gone, Without(ix.symbols, gone), Without(ix.imports, gone), Without(ix.calls, gone))
  }

  function WriteFile(eng: Engine, ix: Index, path: Id, content: Content): Index {
    var cleared := DropFiles(ix, {path});
    var parsed := ParsedOf(eng, path, content);
    Index(cleared.files[path := content],
          cleared.symbols + Stamp(path, parsed.symbols),
          cleared.imports + Stamp(path, parsed.imports),
          cleared.calls + Stamp(path, Pend(parsed.calls)))
  }

  predicate Oversize(eng: Engine, input: Input, path: Id) {
    path in input.contents && eng.size(input.contents[path]) > input.maxBytes
  }

  /** The path is listed, small enough, and not already indexed with this content. */
  predicate Rewritten(eng: Engine, existing: map<Id, Content>, input: Input, path: Id) {
    && path in input.contents
    && !Oversize(eng, input, path)
    && !(path in existing && existing[path] == input.contents[path])
  }

  /** The index after the first `n` listed paths; `ix` is the index before the call. */
  function Pass(eng: Engine, ix: Index, input: Input, n: nat): Index
    requires n <= |input.order|
  {
    if n == 0 then ix
    else
      var before, path := Pass(eng, ix, input, n - 1), input.order[n - 1];
      if Rewritten(eng, ix.files, input, path) then WriteFile(eng, before, path, input.contents[path]) else before
  }

  function Gone(ix: Index, input: Input): set<Id> {
    if input.prune then ix.files.Keys - input.contents.Keys else {}
  }

  // ---------------------------------------------------------------- binding calls

  function Definers(symbols: seq<Row<Symbol>>, name: Id): set<Id> {
    set r | r in symbols && r.data.name == name :: r.file
  }

  /** Names defined in exactly one file, with that file. */
  function UniqueDefiners(symbols: seq<Row<Symbol>>): map<Id, Id> {
    map name | name in (set r | r in symbols :: r.data.name) && |Definers(symbols, name)| == 1 :: Least(Definers(symbols, name))
  }

  function Bind(unique: map<Id, Id>, call: Call): Call {
    if call.calleeFile == UNBOUND && call.callee in unique then call.(calleeFile := unique[call.callee]) else call
  }

  /** Binds what can be bound and deletes what is still unbound. */
  function Resolve(unique: map<Id, Id>, calls: seq<Row<Call>>): seq<Row<Call>> {
    if calls == [] then []
    else
      var last := calls[|calls| - 1];
      var bound := last.(data := Bind(unique, last.data));
      var rest := Resolve(unique, calls[..|calls| - 1]);
      if bound.data.calleeFile == UNBOUND then rest else rest + [bound]
  }

  /** The same on the rows of one file. */
  function ResolveOwn(unique: map<Id, Id>, calls: seq<Call>): seq<Call> {
    if calls == [] then []
    else
      var bound := Bind(unique, calls[|calls| - 1]);
      var rest := ResolveOwn(unique, calls[..|calls| - 1]);
      if bound.calleeFile == UNBOUND then rest else rest + [bound]
  }

  /** The effect of `index_files`. */
  function IndexFiles(eng: Engine, ix: Index, input: Input): Index {
    var written := Pass(eng, ix, input, |input.order|);
    var kept := DropFiles(written, Gone(ix, input));
    kept.(calls := Resolve(UniqueDefiners(kept.symbols), kept.calls))
  }

  // ---------------------------------------------------------------- rows of one file

  lemma ResolveOwnAppend(unique: map<Id, Id>, calls: seq<Call>, call: Call)
    ensures ResolveOwn(unique, calls + [call]) == ResolveOwn(unique, calls) +
      if Bind(unique, call).calleeFile == UNBOUND then [] else [Bind(unique, call)]
  {
    assert (calls + [call])[..|calls|] == calls;
  }

  lemma {:induction false} RowsOfResolve(unique: map<Id, Id>, calls: seq<Row<Call>>, path: Id)
    ensures RowsOf(Resolve(unique, calls), path) == ResolveOwn(unique, RowsOf(calls, path))
  {
    if calls != [] {
      var front, last := calls[..|calls| - 1], calls[|calls| - 1];
      RowsOfResolve(unique, front, path);
      RowsOfAppend(Resolve(unique, front), last.(data := Bind(unique, last.data)), path);
      if last.file == path { ResolveOwnAppend(unique, RowsOf(front, path), last.data); }
    }
  }

  /** Bound edges are left as they are. */
  lemma {:induction false} ResolveBound(unique: map<Id, Id>, calls: seq<Call>)
    requires forall c | c in calls :: c.calleeFile != UNBOUND
    ensures ResolveOwn(unique, calls) == calls
  {
    if calls != [] {
      var front, last := calls[..|calls| - 1], calls[|calls| - 1];
      assert calls == front + [last] && last in calls;
      ResolveBound(unique, front);
    }
  }

  lemma {:induction false} ResolveLeavesBound(unique: map<Id, Id>, calls: seq<Call>)
    ensures forall c | c in ResolveOwn(unique, calls) :: c.calleeFile != UNBOUND
  {
    if calls != [] {
      ResolveLeavesBound(unique, calls[..|calls| - 1]);
    }
  }

  /** The rows of `path` in each table. */
  ghost predicate RowsAre(ix: Index, path: Id, symbols: seq<Symbol>, imports: seq<Import>, calls: seq<Call>) {
    && RowsOf(ix.symbols, path) == symbols
    && RowsOf(ix.imports, path) == imports
    && RowsOf(ix.calls, path) == calls
  }

  lemma RowsAfterWrite(eng: Engine, ix: Index, path: Id, content: Content, q: Id)
    ensures q != path ==>
      RowsAre(WriteFile(eng, ix, path, content), q, RowsOf(ix.symbols, q), RowsOf(ix.imports, q), RowsOf(ix.calls, q))
    ensures q == path ==> var parsed := ParsedOf(eng, path, content);
      RowsAre(WriteFile(eng, ix, path, content), q, parsed.symbols, parsed.imports, Pend(parsed.calls))
  {
    var cleared, parsed := DropFiles(ix, {path}), ParsedOf(eng, path, content);
    RowsOfWithout(ix.symbols, {path}, q);
    RowsOfWithout(ix.imports, {path}, q);
    RowsOfWithout(ix.calls, {path}, q);
    RowsOfStamp(cleared.symbols, path, parsed.symbols, q);
    RowsOfStamp(cleared.imports, path, parsed.imports, q);
    RowsOfStamp(cleared.calls, path, Pend(parsed.calls), q);
  }

  /** The file was rewritten among the first `n` paths. */
  ghost predicate RewrittenBy(eng: Engine, ix: Index, input: Input, n: nat, q: Id)
    requires n <= |input.order|
  {
    q in input.order[..n] && Rewritten(eng, ix.files, input, q)
  }

  /** The file holds this content, with its rows. */
  ghost predicate StandsWritten(eng: Engine, t: Index, q: Id, content: Content) {
    var parsed := ParsedOf(eng, q, content);
    RowsAre(t, q, parsed.symbols, parsed.imports, Pend(parsed.calls)) && q in t.files && t.files[q] == content
  }

  /** The file and its rows are as in `s`. */
  ghost predicate StandsAsIn(s: Index, t: Index, q: Id) {
    && RowsAre(t, q, RowsOf(s.symbols, q), RowsOf(s.imports, q), RowsOf(s.calls, q))
    && (q in t.files <==> q in s.files)
    && (q in s.files ==> t.files[q] == s.files[q])
  }

  lemma WriteStands(eng: Engine, ix: Index, path: Id, content: Content, q: Id)
    ensures if q == path then StandsWritten(eng, WriteFile(eng, ix, path, content), q, content)
            else StandsAsIn(ix, WriteFile(eng, ix, path, content), q)
  {
    RowsAfterWrite(eng, ix, path, content, q);
  }

  /** What one listed path does to any file's standing. */
  lemma PassStep(eng: Engine, ix: Index, input: Input, n: nat, q: Id)
    requires 0 < n <= |input.order| && IsMapping(input)
    ensures input.order[n - 1] in input.contents
    ensures var before, t := Pass(eng, ix, input, n - 1), Pass(eng, ix, input, n);
      if q == input.order[n - 1] && Rewritten(eng, ix.files, input, q) then StandsWritten(eng, t, q, input.contents[q])
      else StandsAsIn(before, t, q)
  {
    var path := input.order[n - 1];
    assert path in Elements(input.order);
    if Rewritten(eng, ix.files, input, path) {
      WriteStands(eng, Pass(eng, ix, input, n - 1), path, input.contents[path], q);
    }
  }

  lemma {:induction false} RowsAfterPass(eng: Engine, ix: Index, input: Input, n: nat, q: Id)
    requires n <= |input.order| && IsMapping(input)
    ensures if RewrittenBy(eng, ix, input, n, q) then StandsWritten(eng, Pass(eng, ix, input, n), q, input.contents[q])
            else StandsAsIn(ix, Pass(eng, ix, input, n), q)
  {
    if n > 0 {
      RowsAfterPass(eng, ix, input, n - 1, q);
      PassStep(eng, ix, input, n, q);
      PrefixStep(input.order, n - 1);
    }
  }

  /** Where each file stands after the call: rewritten, dropped, or as before. */
  lemma RowsAfterIndex(eng: Engine, ix: Index, input: Input, q: Id)
    requires IsMapping(input)
    ensures var ix' := IndexFiles(eng, ix, input);
      var unique := UniqueDefiners(ix'.symbols);
      var parsed := if q in input.contents then ParsedOf(eng, q, input.contents[q]) else Parsed([], [], []);
      if Rewritten(eng, ix.files, input, q) then
        && q in ix'.files && ix'.files[q] == input.contents[q]
        && RowsAre(ix', q, parsed.symbols, parsed.imports, ResolveOwn(unique, Pend(parsed.calls)))
      else if q in Gone(ix, input) then
        q !in ix'.files && RowsAre(ix', q, [], [], [])
      else
        && (q in ix'.files <==> q in ix.files) && (q in ix.files ==> ix'.files[q] == ix.files[q])
        && RowsAre(ix', q, RowsOf(ix.symbols, q), RowsOf(ix.imports, q), ResolveOwn(unique, RowsOf(ix.calls, q)))
  {
    var n := |input.order|;
    assert input.order[..n] == input.order;
    assert q in input.contents <==> q in Elements(input.order);
    RowsAfterPass(eng, ix, input, n, q);
    var written, gone := Pass(eng, ix, input, n), Gone(ix, input);
    RowsOfWithout(written.symbols, gone, q);
    RowsOfWithout(written.imports, gone, q);
    RowsOfWithout(written.calls, gone, q);
    var kept := DropFiles(written, gone);
    RowsOfResolve(UniqueDefiners(kept.symbols), kept.calls, q);
  }

  // ---------------------------------------------------------------- agreement with the parser

  /** The call edges of a file are its current calls, each bound under some view of the project. */
  ghost predicate EdgesFrom(edges: seq<Call>, calls: seq<RawCall>) {
    exists unique :: edges == ResolveOwn(unique, Pend(calls))
  }

  ghost predicate AgreesAt(eng: Engine, ix: Index, path: Id) {
    match Lookup(ix.files, path)
    case Some(content) =>
      var parsed := ParsedOf(eng, path, content);
      && RowsOf(ix.symbols, path) == parsed.symbols
      && RowsOf(ix.imports, path) == parsed.imports
      && EdgesFrom(RowsOf(ix.calls, path), parsed.calls)
    case None =>
      RowsAre(ix, path, [], [], [])
  }

  function Lookup(files: map<Id, Content>, path: Id): Option<Content> {
    if path in files then Some(files[path]) else None
  }

  /** Every table holds exactly what parsing the indexed contents gives. */
  ghost predicate Agrees(eng: Engine, ix: Index) {
    forall path :: AgreesAt(eng, ix, path)
  }

  lemma EmptyAgrees(eng: Engine)
    ensures Agrees(eng, EMPTY_INDEX)
  {
  }

  lemma EdgesAreBound(edges: seq<Call>, calls: seq<RawCall>)
    requires EdgesFrom(edges, calls)
    ensures forall c | c in edges :: c.calleeFile != UNBOUND
  {
    var unique :| edges == ResolveOwn(unique, Pend(calls));
    ResolveLeavesBound(unique, Pend(calls));
  }

  lemma IndexKeepsAgreement(eng: Engine, ix: Index, input: Input)
    requires Agrees(eng, ix) && IsMapping(input)
    ensures Agrees(eng, IndexFiles(eng, ix, input))
  {
    var ix' := IndexFiles(eng, ix, input);
    forall path ensures AgreesAt(eng, ix', path) {
      RowsAfterIndex(eng, ix, input, path);
      assert AgreesAt(eng, ix, path);
      if !Rewritten(eng, ix.files, input, path) && path !in Gone(ix, input) && path in ix.files {
        EdgesAreBound(RowsOf(ix.calls, path), ParsedOf(eng, path, ix.files[path]).calls);
        ResolveBound(UniqueDefiners(ix'.symbols), RowsOf(ix.calls, path));
      }
    }
  }

  // ---------------------------------------------------------------- what a name is bound to

  /** The files define `name`, by the parser. */
  ghost predicate Defines(eng: Engine, files: map<Id, Content>, path: Id, name: Id) {
    path in files && exists s :: s in ParsedOf(eng, path, files[path]).symbols && s.name == name
  }

  /** `path` is the only one of the files that defines `name`. */
  ghost predicate OnlyDefiner(eng: Engine, files: map<Id, Content>, name: Id, path: Id) {
    forall q :: Defines(eng, files, q, name) <==> q == path
  }

  lemma DefinersAreDefining(eng: Engine, ix: Index, name: Id, path: Id)
    requires Agrees(eng, ix)
    ensures path in Definers(ix.symbols, name) <==> Defines(eng, ix.files, path, name)
  {
    assert AgreesAt(eng, ix, path);
    if path in Definers(ix.symbols, name) {
      var r :| r in ix.symbols && r.data.name == name && r.file == path;
      assert r == Row(path, r.data);
      RowInTable(ix.symbols, path, r.data);
    }
    if Defines(eng, ix.files, path, name) {
      var s :| s in ParsedOf(eng, path, ix.files[path]).symbols && s.name == name;
      RowInTable(ix.symbols, path, s);
      assert Row(path, s) in ix.symbols && Row(path, s).data.name == name;
    }
  }

  /** The binding table is right: a name maps to a file exactly if only that file defines it. */
  lemma UniqueMeansOnlyDefiner(eng: Engine, ix: Index, name: Id, path: Id)
    requires Agrees(eng, ix)
    ensures name in UniqueDefiners(ix.symbols) && UniqueDefiners(ix.symbols)[name] == path
      <==> OnlyDefiner(eng, ix.files, name, path)
  {
    var definers := Definers(ix.symbols, name);
    forall q ensures q in definers <==> Defines(eng, ix.files, q, name) { DefinersAreDefining(eng, ix, name, q); }
    if OnlyDefiner(eng, ix.files, name, path) {
      assert definers == {path};
      var r :| r in ix.symbols && r.data.name == name && r.file == path;
    }
    if name in UniqueDefiners(ix.symbols) && UniqueDefiners(ix.symbols)[name] == path {
      Singleton(definers, path);
    }
  }

  lemma Singleton(s: set<Id>, x: Id)
    requires |s| == 1 && x in s
    ensures s == {x}
  {
    assert |s - {x}| == 0;
  }

  /** The only one of the files that defines `name`, `UNBOUND` if none or several do. */
  ghost function Target(eng: Engine, files: map<Id, Content>, name: Id): Id {
    if path :| OnlyDefiner(eng, files, name, path) then path else UNBOUND
  }

  lemma TargetIsBinding(eng: Engine, ix: Index, name: Id)
    requires Agrees(eng, ix)
    ensures Target(eng, ix.files, name) ==
      if name in UniqueDefiners(ix.symbols) then UniqueDefiners(ix.symbols)[name] else UNBOUND
  {
    var unique := UniqueDefiners(ix.symbols);
    if name in unique { UniqueMeansOnlyDefiner(eng, ix, name, unique[name]); }
    forall path | OnlyDefiner(eng, ix.files, name, path) ensures name in unique && unique[name] == path {
      UniqueMeansOnlyDefiner(eng, ix, name, path);
    }
  }

  /** The edges that some calls have in a project: those whose callee has a target, in order. */
  ghost function BoundCalls(eng: Engine, files: map<Id, Content>, calls: seq<RawCall>): seq<Call> {
    if calls == [] then []
    else
      var rest, last := BoundCalls(eng, files, calls[..|calls| - 1]), calls[|calls| - 1];
      var target := Target(eng, files, last.callee);
      if target == UNBOUND then rest else rest + [Call(last.caller, target, last.callee, last.line)]
  }

  /** Binding through the symbol table gives exactly those edges. */
  lemma {:induction false} ResolvesToTargets(eng: Engine, ix: Index, calls: seq<RawCall>)
    requires Agrees(eng, ix)
    ensures ResolveOwn(UniqueDefiners(ix.symbols), Pend(calls)) == BoundCalls(eng, ix.files, calls)
  {
    if calls != [] {
      ResolvesToTargets(eng, ix, calls[..|calls| - 1]);
      assert Pend(calls)[..|calls| - 1] == Pend(calls[..|calls| - 1]);
      TargetIsBinding(eng, ix, calls[|calls| - 1].callee);
    }
  }

  // ---------------------------------------------------------------- over any sequence of calls

  /** The contents that count after a call: accepted new ones replace old ones, pruned ones go. */
  ghost function Accepted(eng: Engine, files: map<Id, Content>, input: Input): map<Id, Content> {
    map path | path in files.Keys + input.contents.Keys
      && if path in input.contents && !Oversize(eng, input, path) then true
         else path in files && (path in input.contents || !input.prune) ::
      if path in input.contents && !Oversize(eng, input, path) then input.contents[path] else files[path]
  }

  lemma FilesAreAccepted(eng: Engine, ix: Index, input: Input)
    requires IsMapping(input)
    ensures IndexFiles(eng, ix, input).files == Accepted(eng, ix.files, input)
  {
    var files, accepted := IndexFiles(eng, ix, input).files, Accepted(eng, ix.files, input);
    forall path ensures (path in files <==> path in accepted) && (path in files ==> files[path] == accepted[path]) {
      RowsAfterIndex(eng, ix, input, path);
    }
  }

  /** `contents[i]` is the last accepted content of each file after the first `i` calls. */
  ghost predicate IsHistory(eng: Engine, inputs: seq<Input>, contents: seq<map<Id, Content>>) {
    && |contents| == |inputs| + 1
    && contents[0] == map[]
    && forall i | 0 <= i < |inputs| :: IsHistoryStep(eng, contents[i], inputs[i], contents[i + 1])
  }

  ghost predicate IsHistoryStep(eng: Engine, files: map<Id, Content>, input: Input, files': map<Id, Content>) {
    files' == Accepted(eng, files, input)
  }

  ghost predicate IsIndexRun(eng: Engine, inputs: seq<Input>, states: seq<Index>) {
    && |states| == |inputs| + 1
    && states[0] == EMPTY_INDEX
    && forall i | 0 <= i < |inputs| :: IsIndexStep(eng, states[i], inputs[i], states[i + 1])
  }

  ghost predicate IsIndexStep(eng: Engine, ix: Index, input: Input, ix': Index) {
    IsMapping(input) && ix' == IndexFiles(eng, ix, input)
  }

  lemma IndexStep(eng: Engine, ix: Index, input: Input, files: map<Id, Content>)
    requires IsMapping(input) && Agrees(eng, ix) && ix.files == files
    ensures IndexFiles(eng, ix, input).files == Accepted(eng, files, input)
    ensures Agrees(eng, IndexFiles(eng, ix, input))
  {
    FilesAreAccepted(eng, ix, input);
    IndexKeepsAgreement(eng, ix, input);
  }

  lemma {:induction false} RowsTrackContents(eng: Engine, inputs: seq<Input>, states: seq<Index>,
                                             contents: seq<map<Id, Content>>, i: nat)
    requires IsIndexRun(eng, inputs, states) && IsHistory(eng, inputs, contents) && i < |states|
    ensures states[i].files == contents[i] && Agrees(eng, states[i])
  {
    if i == 0 {
      EmptyAgrees(eng);
    } else {
      RowsTrackContents(eng, inputs, states, contents, i - 1);
      assert IsIndexStep(eng, states[i - 1], inputs[i - 1], states[i]);
      assert IsHistoryStep(eng, contents[i - 1], inputs[i - 1], contents[i]);
      IndexStep(eng, states[i - 1], inputs[i - 1], contents[i - 1]);
    }
  }

  /** The contents that the states of a run record. */
  function Recorded(states: seq<Index>): (contents: seq<map<Id, Content>>)
    ensures |contents| == |states| && forall k | 0 <= k < |states| :: contents[k] == states[k].files
  {
    seq(|states|, k requires 0 <= k < |states| => states[k].files)
  }

  /** Every run has its history: the contents that its states record. */
  lemma RunHasHistory(eng: Engine, inputs: seq<Input>, states: seq<Index>)
    requires IsIndexRun(eng, inputs, states)
    ensures IsHistory(eng, inputs, Recorded(states))
  {
    var contents := Recorded(states);
    forall i | 0 <= i < |inputs| ensures IsHistoryStep(eng, contents[i], inputs[i], contents[i + 1]) {
      assert IsIndexStep(eng, states[i], inputs[i], states[i + 1]);
      FilesAreAccepted(eng, states[i], inputs[i]);
    }
  }

  /** How many of the first `i` calls there were when `path` was last written, 0 if it never was. */
  ghost function LastWrite(eng: Engine, inputs: seq<Input>, contents: seq<map<Id, Content>>, i: nat, path: Id): (w: nat)
    requires i <= |inputs| < |contents|
    ensures w <= i
  {
    if i == 0 then 0
    else if Rewritten(eng, contents[i - 1], inputs[i - 1], path) then i
    else LastWrite(eng, inputs, contents, i - 1, path)
  }

  /** The edges of a file: its calls as bound among the files `origin`. */
  ghost function EdgesIn(eng: Engine, files: map<Id, Content>, path: Id, origin: map<Id, Content>): seq<Call> {
    if path in files then BoundCalls(eng, origin, ParsedOf(eng, path, files[path]).calls) else []
  }

  /** What one call makes of the edges of a file: bound anew if written, kept or dropped otherwise. */
  ghost predicate EdgesAfter(eng: Engine, files: map<Id, Content>, input: Input, files': map<Id, Content>, path: Id,
                             edges: seq<Call>, edges': seq<Call>) {
    edges' == if Rewritten(eng, files, input, path) then EdgesIn(eng, files', path, files')
              else if path in files' then edges
              else []
  }

  lemma EdgesStep(eng: Engine, ix: Index, input: Input, ix': Index, path: Id)
    requires Agrees(eng, ix) && IsIndexStep(eng, ix, input, ix')
    ensures EdgesAfter(eng, ix.files, input, ix'.files, path, RowsOf(ix.calls, path), RowsOf(ix'.calls, path))
  {
    IndexStep(eng, ix, input, ix.files);
    RowsAfterIndex(eng, ix, input, path);
    if Rewritten(eng, ix.files, input, path) {
      ResolvesToTargets(eng, ix', ParsedOf(eng, path, input.contents[path]).calls);
    } else {
      assert AgreesAt(eng, ix, path);
      if path in ix.files {
        EdgesAreBound(RowsOf(ix.calls, path), ParsedOf(eng, path, ix.files[path]).calls);
        ResolveBound(UniqueDefiners(ix'.symbols), RowsOf(ix.calls, path));
      }
    }
  }

  /** `edges[i]` are the edges of `path` after `i` calls. */
  ghost predicate AreEdges(states: seq<Index>, path: Id, edges: seq<seq<Call>>) {
    |edges| == |states| && forall k | 0 <= k < |states| :: edges[k] == RowsOf(states[k].calls, path)
  }

  /** The edges of `path` change, call by call, as one call changes them. */
  ghost predicate EdgesFollow(eng: Engine, inputs: seq<Input>, contents: seq<map<Id, Content>>, path: Id, edges: seq<seq<Call>>)
    requires |contents| == |edges| == |inputs| + 1
  {
    edges[0] == [] && forall k | 0 <= k < |inputs| ::
      EdgesAfter(eng, contents[k], inputs[k], contents[k + 1], path, edges[k], edges[k + 1])
  }

  lemma EdgesDoFollow(eng: Engine, inputs: seq<Input>, states: seq<Index>, contents: seq<map<Id, Content>>,
                      path: Id, edges: seq<seq<Call>>)
    requires IsIndexRun(eng, inputs, states) && IsHistory(eng, inputs, contents) && AreEdges(states, path, edges)
    ensures EdgesFollow(eng, inputs, contents, path, edges)
  {
    forall k | 0 <= k < |inputs|
      ensures EdgesAfter(eng, contents[k], inputs[k], contents[k + 1], path, edges[k], edges[k + 1])
    {
      RowsTrackContents(eng, inputs, states, contents, k);
      RowsTrackContents(eng, inputs, states, contents, k + 1);
      assert IsIndexStep(eng, states[k], inputs[k], states[k + 1]);
      EdgesStep(eng, states[k], inputs[k], states[k + 1], path);
    }
  }

  lemma {:induction false} EdgesComeFromLastWrite(eng: Engine, inputs: seq<Input>, contents: seq<map<Id, Content>>,
                                                  path: Id, edges: seq<seq<Call>>, i: nat)
    requires IsHistory(eng, inputs, contents) && |edges| == |contents| && i <= |inputs|
    requires EdgesFollow(eng, inputs, contents, path, edges)
    ensures edges[i] == EdgesIn(eng, contents[i], path, contents[LastWrite(eng, inputs, contents, i, path)])
  {
    if i > 0 {
      EdgesComeFromLastWrite(eng, inputs, contents, path, edges, i - 1);
      assert IsHistoryStep(eng, contents[i - 1], inputs[i - 1], contents[i]);
      assert EdgesAfter(eng, contents[i - 1], inputs[i - 1], contents[i], path, edges[i - 1], edges[i]);
    }
  }

  /**
   After any sequence of calls the symbol and import rows of each file are the parse
   of its last accepted content, and its edges are the calls of that content as
   bound in the project at the time the file was last written.
   */
  lemma IndexTracksContents(eng: Engine, inputs: seq<Input>, states: seq<Index>, contents: seq<map<Id, Content>>, i: nat)
    requires IsIndexRun(eng, inputs, states) && IsHistory(eng, inputs, contents) && i < |states|
    ensures states[i].files == contents[i]
    ensures Agrees(eng, states[i])
    ensures forall path ::
      RowsOf(states[i].calls, path) == EdgesIn(eng, contents[i], path, contents[LastWrite(eng, inputs, contents, i, path)])
  {
    RowsTrackContents(eng, inputs, states, contents, i);
    forall path
      ensures RowsOf(states[i].calls, path) == EdgesIn(eng, contents[i], path, contents[LastWrite(eng, inputs, contents, i, path)])
    {
      var edges := seq(|states|, k requires 0 <= k < |states| => RowsOf(states[k].calls, path));
      EdgesDoFollow(eng, inputs, states, contents, path, edges);
      EdgesComeFromLastWrite(eng, inputs, contents, path, edges, i);
    }
  }

  // ---------------------------------------------------------------- in terms of the parser

  /** A recorded file has symbols, imports and calls only if it is Python and parses, and then those of its parse. */
  ghost predicate HasRowsOf(ix: Index, path: Id, parse: Option<Parsed>, origin: map<Id, Content>, eng: Engine) {
    match parse
    case Some(p) => RowsAre(ix, path, p.symbols, p.imports, BoundCalls(eng, origin, p.calls))
    case None => RowsAre(ix, path, [], [], [])
  }

  lemma RowsAreTheParse(eng: Engine, inputs: seq<Input>, states: seq<Index>, i: nat, path: Id)
    requires IsIndexRun(eng, inputs, states) && i < |states|
    ensures var (ix, contents) := (states[i], Recorded(states));
      HasRowsOf(ix, path, if path in ix.files && eng.isPython(path) then eng.parse(path, ix.files[path]) else None,
                contents[LastWrite(eng, inputs, contents, i, path)], eng)
  {
    RunHasHistory(eng, inputs, states);
    IndexTracksContents(eng, inputs, states, Recorded(states), i);
    assert AgreesAt(eng, states[i], path);
  }

  /** In a fresh index the edges of a file are the calls of its parse, bound among the indexed files. */
  lemma FreshRowsAreTheParse(eng: Engine, build: Input, files: map<Id, Content>, path: Id)
    requires IsRebuild(eng, build, files)
    ensures var rebuilt := IndexFiles(eng, EMPTY_INDEX, build);
      HasRowsOf(rebuilt, path, if path in files && eng.isPython(path) then eng.parse(path, files[path]) else None, files, eng)
  {
    FreshIndexIsFaithful(eng, build, files, path);
    assert AgreesAt(eng, IndexFiles(eng, EMPTY_INDEX, build), path);
  }

  /** A file defines the names of the symbols that its parse lists, and no others. */
  lemma DefinesIffParseLists(eng: Engine, files: map<Id, Content>, path: Id, name: Id)
    ensures Defines(eng, files, path, name) <==>
      && path in files && eng.isPython(path) && eng.parse(path, files[path]).Some?
      && exists s :: s in eng.parse(path, files[path]).value.symbols && s.name == name
  {
  }

  /**
   Which content a call leaves recorded: the given one unless it is too large; of
   a file that is not given or too large the old one, unless it is pruned.
   */
  lemma ContentAfterCall(eng: Engine, ix: Index, input: Input, path: Id, content: Content)
    requires IsMapping(input)
    ensures var files := IndexFiles(eng, ix, input).files;
      path in files && files[path] == content <==>
        if path in input.contents && eng.size(input.contents[path]) <= input.maxBytes then content == input.contents[path]
        else path in ix.files && content == ix.files[path] && (path in input.contents || !input.prune)
  {
    FilesAreAccepted(eng, ix, input);
  }

  // ---------------------------------------------------------------- repeating a call

  lemma {:induction false} PassUnchanged(eng: Engine, ix: Index, input: Input, n: nat)
    requires n <= |input.order| && forall path :: !Rewritten(eng, ix.files, input, path)
    ensures Pass(eng, ix, input, n) == ix
  {
    if n > 0 {
      PassUnchanged(eng, ix, input, n - 1);
    }
  }

  lemma {:induction false} ResolveTableBound(unique: map<Id, Id>, calls: seq<Row<Call>>)
    requires forall r | r in calls :: r.data.calleeFile != UNBOUND
    ensures Resolve(unique, calls) == calls
  {
    if calls != [] {
      var front, last := calls[..|calls| - 1], calls[|calls| - 1];
      assert last in calls;
      ResolveTableBound(unique, front);
    }
  }

  lemma {:induction false} ResolveTableIsBound(unique: map<Id, Id>, calls: seq<Row<Call>>)
    ensures forall r | r in Resolve(unique, calls) :: r.data.calleeFile != UNBOUND
  {
    if calls != [] {
      ResolveTableIsBound(unique, calls[..|calls| - 1]);
    }
  }

  /** Indexing the same files again changes no table at all. */
  lemma RepeatedCallChangesNothing(eng: Engine, ix: Index, input: Input)
    requires IsMapping(input)
    ensures var once := IndexFiles(eng, ix, input); IndexFiles(eng, once, input) == once
  {
    var once := IndexFiles(eng, ix, input);
    FilesAreAccepted(eng, ix, input);
    forall path ensures !Rewritten(eng, once.files, input, path) { }
    PassUnchanged(eng, once, input, |input.order|);
    assert Gone(once, input) == {};
    assert once.files - {} == once.files;
    WithoutNothing(once.symbols, {});
    WithoutNothing(once.imports, {});
    WithoutNothing(once.calls, {});
    var kept := DropFiles(Pass(eng, ix, input, |input.order|), Gone(ix, input));
    ResolveTableIsBound(UniqueDefiners(kept.symbols), kept.calls);
    ResolveTableBound(UniqueDefiners(once.symbols), once.calls);
  }

  // ---------------------------------------------------------------- comparison with a rebuild

  lemma AgreeingRowsAreEqual(eng: Engine, here: Index, rebuilt: Index, path: Id)
    requires AgreesAt(eng, here, path) && AgreesAt(eng, rebuilt, path) && here.files == rebuilt.files
    ensures RowsOf(here.symbols, path) == RowsOf(rebuilt.symbols, path)
    ensures RowsOf(here.imports, path) == RowsOf(rebuilt.imports, path)
  {
  }

  lemma PruningAcceptsExactly(eng: Engine, files: map<Id, Content>, input: Input)
    requires input.prune && forall p :: !Oversize(eng, input, p)
    ensures Accepted(eng, files, input) == input.contents
  {
  }

  /** With pruning and no oversize file, the files, symbols and imports equal those of a fresh build. */
  lemma PrunedIndexEqualsRebuild(eng: Engine, ix: Index, input: Input, path: Id)
    requires Agrees(eng, ix) && IsMapping(input)
    requires input.prune && forall p :: !Oversize(eng, input, p)
    ensures var (here, rebuilt) := (IndexFiles(eng, ix, input), IndexFiles(eng, EMPTY_INDEX, input));
      && here.files == rebuilt.files == input.contents
      && RowsOf(here.symbols, path) == RowsOf(rebuilt.symbols, path)
      && RowsOf(here.imports, path) == RowsOf(rebuilt.imports, path)
  {
    var here, rebuilt := IndexFiles(eng, ix, input), IndexFiles(eng, EMPTY_INDEX, input);
    EmptyAgrees(eng);
    IndexStep(eng, ix, input, ix.files);
    IndexStep(eng, EMPTY_INDEX, input, map[]);
    PruningAcceptsExactly(eng, ix.files, input);
    PruningAcceptsExactly(eng, map[], input);
    AgreeingRowsAreEqual(eng, here, rebuilt, path);
  }

  /** A fresh build of exactly these files. */
  ghost predicate IsRebuild(eng: Engine, build: Input, files: map<Id, Content>) {
    IsMapping(build) && build.contents == files && forall p :: !Oversize(eng, build, p)
  }

  /** The call rows are, file by file, those of a fresh build. */
  ghost predicate CallsEqual(here: Index, rebuilt: Index) {
    forall path :: RowsOf(here.calls, path) == RowsOf(rebuilt.calls, path)
  }

  /** From an empty index the edges are exactly the calls whose callee one file defines. */
  lemma FreshIndexIsFaithful(eng: Engine, build: Input, files: map<Id, Content>, path: Id)
    requires IsRebuild(eng, build, files)
    ensures var rebuilt := IndexFiles(eng, EMPTY_INDEX, build);
      && rebuilt.files == files && Agrees(eng, rebuilt)
      && RowsOf(rebuilt.calls, path) == EdgesIn(eng, files, path, files)
  {
    var rebuilt := IndexFiles(eng, EMPTY_INDEX, build);
    EmptyAgrees(eng);
    IndexStep(eng, EMPTY_INDEX, build, map[]);
    assert rebuilt.files == files;
    RowsAfterIndex(eng, EMPTY_INDEX, build, path);
    if path in files { ResolvesToTargets(eng, rebuilt, ParsedOf(eng, path, files[path]).calls); }
  }

  /** After any sequence of calls the files and their symbol and import rows are those of a rebuild. */
  lemma RowsEqualRebuild(eng: Engine, inputs: seq<Input>, states: seq<Index>, contents: seq<map<Id, Content>>,
                         i: nat, build: Input, path: Id)
    requires IsIndexRun(eng, inputs, states) && IsHistory(eng, inputs, contents) && i < |states|
    requires IsRebuild(eng, build, contents[i])
    ensures var rebuilt := IndexFiles(eng, EMPTY_INDEX, build);
      && states[i].files == rebuilt.files
      && RowsOf(states[i].symbols, path) == RowsOf(rebuilt.symbols, path)
      && RowsOf(states[i].imports, path) == RowsOf(rebuilt.imports, path)
  {
    RowsTrackContents(eng, inputs, states, contents, i);
    FreshIndexIsFaithful(eng, build, contents[i], path);
    AgreeingRowsAreEqual(eng, states[i], IndexFiles(eng, EMPTY_INDEX, build), path);
  }

  /** Two states of the project bind everything a file calls to the same files. */
  ghost predicate SameTargets(eng: Engine, former: map<Id, Content>, now: map<Id, Content>, calls: seq<RawCall>) {
    forall c | c in calls :: Target(eng, former, c.callee) == Target(eng, now, c.callee)
  }

  lemma {:induction false} SameTargetsSameEdges(eng: Engine, f: map<Id, Content>, h: map<Id, Content>, calls: seq<RawCall>)
    requires SameTargets(eng, f, h, calls)
    ensures BoundCalls(eng, f, calls) == BoundCalls(eng, h, calls)
  {
    if calls != [] {
      assert calls[|calls| - 1] in calls;
      SameTargetsSameEdges(eng, f, h, calls[..|calls| - 1]);
    }
  }

  /** A called name shows in the edges exactly if it has a target, and always with that target. */
  lemma {:induction false} EdgesShowTargets(eng: Engine, files: map<Id, Content>, calls: seq<RawCall>, name: Id)
    ensures forall e | e in BoundCalls(eng, files, calls) && e.callee == name ::
      e.calleeFile == Target(eng, files, name) != UNBOUND
    ensures (exists c :: c in calls && c.callee == name) && Target(eng, files, name) != UNBOUND ==>
      exists e :: e in BoundCalls(eng, files, calls) && e.callee == name
  {
    if calls != [] {
      var front, last := calls[..|calls| - 1], calls[|calls| - 1];
      EdgesShowTargets(eng, files, front, name);
      assert calls == front + [last];
      var edge := Call(last.caller, Target(eng, files, last.callee), last.callee, last.line);
      if Target(eng, files, name) != UNBOUND {
        if last.callee == name {
          assert edge in BoundCalls(eng, files, calls);
        } else if c :| c in calls && c.callee == name {
          assert c in front;
          var e :| e in BoundCalls(eng, files, front) && e.callee == name;
          assert e in BoundCalls(eng, files, calls);
        }
      }
    }
  }

  lemma SameEdgesIffSameTargets(eng: Engine, f: map<Id, Content>, h: map<Id, Content>, calls: seq<RawCall>)
    ensures BoundCalls(eng, f, calls) == BoundCalls(eng, h, calls) <==> SameTargets(eng, f, h, calls)
  {
    if SameTargets(eng, f, h, calls) { SameTargetsSameEdges(eng, f, h, calls); }
    if BoundCalls(eng, f, calls) == BoundCalls(eng, h, calls) {
      forall c | c in calls ensures Target(eng, f, c.callee) == Target(eng, h, c.callee) {
        EdgesShowTargets(eng, f, calls, c.callee);
        EdgesShowTargets(eng, h, calls, c.callee);
      }
    }
  }

  /** `path` calls only names that had the same target when it was last written as they have now. */
  ghost predicate BindingsStand(eng: Engine, inputs: seq<Input>, contents: seq<map<Id, Content>>, i: nat, path: Id)
    requires i <= |inputs| < |contents|
  {
    path in contents[i] ==>
      SameTargets(eng, contents[LastWrite(eng, inputs, contents, i, path)], contents[i],
                  ParsedOf(eng, path, contents[i][path]).calls)
  }

  /**
   After any sequence of calls, with or without pruning and oversize files, the
   edges of a file are those of a rebuild from the same contents exactly if every
   name it calls has the target it had when the file was last written.
   */
  lemma FileCallsEqualRebuildIff(eng: Engine, inputs: seq<Input>, states: seq<Index>, contents: seq<map<Id, Content>>,
                                 i: nat, build: Input, path: Id)
    requires IsIndexRun(eng, inputs, states) && IsHistory(eng, inputs, contents) && i < |states|
    requires IsRebuild(eng, build, contents[i])
    ensures RowsOf(states[i].calls, path) == RowsOf(IndexFiles(eng, EMPTY_INDEX, build).calls, path)
      <==> BindingsStand(eng, inputs, contents, i, path)
  {
    IndexTracksContents(eng, inputs, states, contents, i);
    FreshIndexIsFaithful(eng, build, contents[i], path);
    if path in contents[i] {
      SameEdgesIffSameTargets(eng, contents[LastWrite(eng, inputs, contents, i, path)], contents[i],
                              ParsedOf(eng, path, contents[i][path]).calls);
    }
  }

  /** The whole table of edges is that of a rebuild exactly if this holds of every file. */
  lemma CallsEqualRebuildIff(eng: Engine, inputs: seq<Input>, states: seq<Index>, contents: seq<map<Id, Content>>,
                             i: nat, build: Input)
    requires IsIndexRun(eng, inputs, states) && IsHistory(eng, inputs, contents) && i < |states|
    requires IsRebuild(eng, build, contents[i])
    ensures CallsEqual(states[i], IndexFiles(eng, EMPTY_INDEX, build))
      <==> forall path :: BindingsStand(eng, inputs, contents, i, path)
  {
    forall path
      ensures RowsOf(states[i].calls, path) == RowsOf(IndexFiles(eng, EMPTY_INDEX, build).calls, path)
        <==> BindingsStand(eng, inputs, contents, i, path)
    {
      FileCallsEqualRebuildIff(eng, inputs, states, contents, i, build, path);
    }
  }

  /** In any run at all, with what the index itself records as the contents. */
  lemma RunEqualsRebuildIff(eng: Engine, inputs: seq<Input>, states: seq<Index>, i: nat, build: Input)
    requires IsIndexRun(eng, inputs, states) && i < |states| && IsRebuild(eng, build, states[i].files)
    ensures CallsEqual(states[i], IndexFiles(eng, EMPTY_INDEX, build))
      <==> forall path :: BindingsStand(eng, inputs, Recorded(states), i, path)
  {
    RunHasHistory(eng, inputs, states);
    CallsEqualRebuildIff(eng, inputs, states, Recorded(states), i, build);
  }

  /**
   One more call, on an index that is still equal to a rebuild, leaves it equal to a
   rebuild exactly if every file that the call keeps as it is calls only names whose
   target is the same in the contents before and after.
   */
  lemma UpdateEqualsRebuildIff(eng: Engine, ix: Index, before: Input, input: Input, build: Input)
    requires Agrees(eng, ix) && IsMapping(input)
    requires IsRebuild(eng, before, ix.files) && CallsEqual(ix, IndexFiles(eng, EMPTY_INDEX, before))
    requires IsRebuild(eng, build, Accepted(eng, ix.files, input))
    ensures CallsEqual(IndexFiles(eng, ix, input), IndexFiles(eng, EMPTY_INDEX, build)) <==>
      forall path :: KeepsTargets(eng, ix.files, input, path)
  {
    forall path
      ensures RowsOf(IndexFiles(eng, ix, input).calls, path) == RowsOf(IndexFiles(eng, EMPTY_INDEX, build).calls, path)
        <==> KeepsTargets(eng, ix.files, input, path)
    {
      FileUpdateEqualsRebuildIff(eng, ix, before, input, build, path);
    }
  }

  /** If the call keeps `path` as it is, everything `path` calls keeps its target. */
  ghost predicate KeepsTargets(eng: Engine, files: map<Id, Content>, input: Input, path: Id) {
    var after := Accepted(eng, files, input);
    path in after && !Rewritten(eng, files, input, path) ==>
      SameTargets(eng, files, after, ParsedOf(eng, path, after[path]).calls)
  }

  lemma FileUpdateEqualsRebuildIff(eng: Engine, ix: Index, before: Input, input: Input, build: Input, path: Id)
    requires Agrees(eng, ix) && IsMapping(input)
    requires IsRebuild(eng, before, ix.files) && CallsEqual(ix, IndexFiles(eng, EMPTY_INDEX, before))
    requires IsRebuild(eng, build, Accepted(eng, ix.files, input))
    ensures RowsOf(IndexFiles(eng, ix, input).calls, path) == RowsOf(IndexFiles(eng, EMPTY_INDEX, build).calls, path)
      <==> KeepsTargets(eng, ix.files, input, path)
  {
    var ix', after := IndexFiles(eng, ix, input), Accepted(eng, ix.files, input);
    IndexStep(eng, ix, input, ix.files);
    FreshIndexIsFaithful(eng, before, ix.files, path);
    FreshIndexIsFaithful(eng, build, after, path);
    RowsAfterIndex(eng, ix, input, path);
    if path in after {
      var calls := ParsedOf(eng, path, after[path]).calls;
      if Rewritten(eng, ix.files, input, path) {
        ResolvesToTargets(eng, ix', calls);
      } else {
        assert AgreesAt(eng, ix, path);
        EdgesAreBound(RowsOf(ix.calls, path), calls);
        ResolveBound(UniqueDefiners(ix'.symbols), RowsOf(ix.calls, path));
        SameEdgesIffSameTargets(eng, ix.files, after, calls);
      }
    }
  }

  // ---------------------------------------------------------------- a project where they differ

  /** File 1 calls the name 9; files 2 and 3 define it. */
  function SampleEngine(): Engine {
    Engine(path => true,
           (path: Id, content) => Some(if path == Id(1) then Parsed([], [], [RawCall(0, Id(9), 1)])
                                       else Parsed([Symbol(Id(9), 0)], [], [])),
           content => 0)
  }

  function SampleInput(paths: seq<Id>): Input {
    Input(paths, map p | p in paths :: Content(0), true, 1)
  }

  lemma SampleTarget(files: map<Id, Content>, twice: bool)
    requires files.Keys == if twice then {Id(1), Id(2), Id(3)} else {Id(1), Id(2)}
    ensures Target(SampleEngine(), files, Id(9)) == if twice then UNBOUND else Id(2)
  {
    var eng, name := SampleEngine(), Id(9);
    forall q ensures Defines(eng, files, q, name) <==> q in files && q != Id(1) {
      if q in files && q != Id(1) {
        assert Symbol(name, 0) in ParsedOf(eng, q, files[q]).symbols;
      }
    }
    assert Defines(eng, files, Id(2), name);
    assert twice ==> Defines(eng, files, Id(3), name);
    assert !twice ==> OnlyDefiner(eng, files, name, Id(2));
  }

  function SampleBefore(): Input {
    SampleInput([Id(1), Id(2)])
  }

  function SampleAfter(): Input {
    SampleInput([Id(1), Id(2), Id(3)])
  }

  lemma SampleIsRebuild()
    ensures IsRebuild(SampleEngine(), SampleBefore(), SampleBefore().contents)
    ensures IsRebuild(SampleEngine(), SampleAfter(), Accepted(SampleEngine(), SampleBefore().contents, SampleAfter()))
  {
    var one, two := SampleBefore(), SampleAfter();
    assert Accepted(SampleEngine(), one.contents, two) == two.contents;
  }

  lemma SampleLosesTarget()
    ensures !KeepsTargets(SampleEngine(), SampleBefore().contents, SampleAfter(), Id(1))
  {
    var eng, one, two := SampleEngine(), SampleBefore(), SampleAfter();
    SampleIsRebuild();
    SampleTarget(one.contents, false);
    SampleTarget(two.contents, true);
    assert RawCall(0, Id(9), 1) in ParsedOf(eng, Id(1), two.contents[Id(1)]).calls;
  }

  /** Adding a second definer keeps the edge of the caller, which a rebuild does not have. */
  lemma IncrementalCallsCanDiffer() returns (eng: Engine, one: Input, two: Input)
    ensures IsMapping(one) && IsMapping(two) && one.prune && two.prune
    ensures forall p :: !Oversize(eng, one, p) && !Oversize(eng, two, p)
    ensures var here := IndexFiles(eng, IndexFiles(eng, EMPTY_INDEX, one), two);
      && here.files == IndexFiles(eng, EMPTY_INDEX, two).files
      && !CallsEqual(here, IndexFiles(eng, EMPTY_INDEX, two))
  {
    eng, one, two := SampleEngine(), SampleBefore(), SampleAfter();
    var first := IndexFiles(eng, EMPTY_INDEX, one);
    SampleIsRebuild();
    SampleLosesTarget();
    FreshIndexIsFaithful(eng, one, one.contents, Id(1));
    FreshIndexIsFaithful(eng, two, Accepted(eng, one.contents, two), Id(1));
    IndexStep(eng, first, two, one.contents);
    UpdateEqualsRebuildIff(eng, first, one, two, two);
  }
}
