/** The index as a database whose tables are updated in place. */
module KnowledgeDatabase {
  import opened Ordering
  import opened Tables
  import opened KnowledgeIndex
  import Spec = KnowledgeIndex

  // ---------------------------------------------------------------- the database

  datatype IndexStats = IndexStats(indexed: nat, kept: nat, removed: nat, skipped: nat, symbols: nat)

  /** What one listed path adds to the counters. */
  ghost function Tally(eng: Engine, existing: map<Id, Content>, input: Input, n: nat): IndexStats
    requires n <= |input.order| && forall p | p in input.order :: p in input.contents
  {
    if n == 0 then IndexStats(0, 0, 0, 0, 0)
    else
      var t, path := Tally(eng, existing, input, n - 1), input.order[n - 1];
      if Oversize(eng, input, path) then t.(skipped := t.skipped + 1)
      else if !Rewritten(eng, existing, input, path) then t.(kept := t.kept + 1)
      else t.(indexed := t.indexed + 1, symbols := t.symbols + |ParsedOf(eng, path, input.contents[path]).symbols|)
  }

  /** How a given file is treated. */
  datatype Treatment = Skipped | Kept | Reparsed

  ghost function TreatmentOf(eng: Engine, existing: map<Id, Content>, input: Input, p: Id): Treatment
    requires p in input.contents
  {
    if eng.size(input.contents[p]) > input.maxBytes then Skipped
    else if p in existing && existing[p] == input.contents[p] then Kept
    else Reparsed
  }

  ghost function Treated(eng: Engine, existing: map<Id, Content>, input: Input, n: nat, how: Treatment): set<Id>
    requires n <= |input.order|
  {
    set p | p in input.order[..n] && p in input.contents && TreatmentOf(eng, existing, input, p) == how
  }

  lemma TreatedStep(eng: Engine, existing: map<Id, Content>, input: Input, n: nat, how: Treatment)
    requires 0 < n <= |input.order| && Distinct(input.order) && input.order[n - 1] in input.contents
    ensures |Treated(eng, existing, input, n, how)| == |Treated(eng, existing, input, n - 1, how)| +
      if TreatmentOf(eng, existing, input, input.order[n - 1]) == how then 1 else 0
  {
    var path := input.order[n - 1];
    PrefixStep(input.order, n - 1);
    assert path !in Elements(input.order[..n - 1]);
    var added := if TreatmentOf(eng, existing, input, path) == how then {path} else {};
    TreatedPlus(eng, existing, input, input.order[..n - 1], input.order[..n], path, how);
    assert Treated(eng, existing, input, n - 1, how) !! added;
  }

  lemma TreatedPlus(eng: Engine, existing: map<Id, Content>, input: Input, front: seq<Id>, paths: seq<Id>, path: Id, how: Treatment)
    requires paths == front + [path] && path in input.contents
    ensures (set p | p in paths && p in input.contents && TreatmentOf(eng, existing, input, p) == how) ==
      (set p | p in front && p in input.contents && TreatmentOf(eng, existing, input, p) == how) +
      if TreatmentOf(eng, existing, input, path) == how then {path} else {}
  {
  }

  function CountOf(t: IndexStats, how: Treatment): nat {
    match how
    case Skipped => t.skipped
    case Kept => t.kept
    case Reparsed => t.indexed
  }

  lemma TallyStep(eng: Engine, existing: map<Id, Content>, input: Input, n: nat, how: Treatment)
    requires 0 < n <= |input.order| && forall p | p in input.order :: p in input.contents
    ensures CountOf(Tally(eng, existing, input, n), how) == CountOf(Tally(eng, existing, input, n - 1), how) +
      if TreatmentOf(eng, existing, input, input.order[n - 1]) == how then 1 else 0
  {
  }

  /** The counters say how many files were treated in each way. */
  lemma {:induction false} CountersCount(eng: Engine, existing: map<Id, Content>, input: Input, n: nat, how: Treatment)
    requires IsMapping(input) && n <= |input.order| && forall p | p in input.order :: p in input.contents
    ensures CountOf(Tally(eng, existing, input, n), how) == |Treated(eng, existing, input, n, how)|
  {
    if n == 0 {
      assert Treated(eng, existing, input, 0, how) == {};
    } else {
      CountersCount(eng, existing, input, n - 1, how);
      TallyStep(eng, existing, input, n, how);
      TreatedStep(eng, existing, input, n, how);
    }
  }

  /** Every given file is counted once. */
  lemma {:induction false} CountersAddUp(eng: Engine, existing: map<Id, Content>, input: Input, n: nat)
    requires n <= |input.order| && forall p | p in input.order :: p in input.contents
    ensures var t := Tally(eng, existing, input, n); t.skipped + t.kept + t.indexed == n
  {
    if n > 0 {
      CountersAddUp(eng, existing, input, n - 1);
    }
  }

  class Database {
    var files: map<Id, Content>
    var symbols: seq<Row<Symbol>>
    var imports: seq<Row<Import>>
    var calls: seq<Row<Call>>

    ghost function View(): Index
      reads this
    {
      Index(files, symbols, imports, calls)
    }

    constructor ()
      ensures View() == EMPTY_INDEX
    {
      files, symbols, imports, calls := map[], [], [], [];
    }

    /** `DELETE FROM files` for one path, with its cascade. */
    method DeleteFile(path: Id)
      modifies this
      ensures View() == DropFiles(old(View()), {path})
    {
      files := files - {path};
      symbols := Without(symbols, {path});
      imports := Without(imports, {path});
      calls := Without(calls, {path});
    }

    method WriteFile(eng: Engine, path: Id, content: Content) returns (count: nat)
      modifies this
      ensures View() == Spec.WriteFile(eng, old(View()), path, content)
      ensures count == |ParsedOf(eng, path, content).symbols|
    {
      RowsAfterWrite(eng, View(), path, content, path);
      DeleteFile(path);
      files := files[path := content];
      var parsed := ParsedOf(eng, path, content);
      symbols := symbols + Stamp(path, parsed.symbols);
      imports := imports + Stamp(path, parsed.imports);
      calls := calls + Stamp(path, Pend(parsed.calls));
      count := |RowsOf(symbols, path)|;
    }

    /** Binds the pending edges and deletes those left unbound. */
    method ResolveCalls()
      modifies this`calls
      ensures calls == Resolve(UniqueDefiners(symbols), old(calls))
    {
      var unique := UniqueDefiners(symbols);
      var bound: seq<Row<Call>> := [];
      for i := 0 to |calls|
        invariant calls == old(calls)
        invariant bound == Resolve(unique, calls[..i])
      {
        var row := calls[i].(data := Bind(unique, calls[i].data));
        assert calls[..i + 1][..i] == calls[..i];
        if row.data.calleeFile != UNBOUND {
          bound := bound + [row];
        }
      }
      assert calls[..|calls|] == calls;
      calls := bound;
    }

    /** Reparses what changed, drops what is gone, and rebinds. */
    method IndexFiles(eng: Engine, input: Input) returns (stats: IndexStats)
      requires IsMapping(input)
      modifies this
      ensures View() == Spec.IndexFiles(eng, old(View()), input)
      ensures forall p | p in input.order :: p in input.contents
      ensures stats == Tally(eng, old(files), input, |input.order|).(removed := |Gone(old(View()), input)|)
    {
      assert forall p | p in input.order :: p in Elements(input.order);
      var existing := files;
      ghost var before := View();
      stats := IndexStats(0, 0, 0, 0, 0);
      for n := 0 to |input.order|
        invariant View() == Pass(eng, before, input, n)
        invariant stats == Tally(eng, existing, input, n)
      {
        var path := input.order[n];
        var content := input.contents[path];
        if eng.size(content) > input.maxBytes {
          stats := stats.(skipped := stats.skipped + 1);
        } else if path in existing && existing[path] == content {
          stats := stats.(kept := stats.kept + 1);
        } else {
          var count := WriteFile(eng, path, content);
          stats := stats.(indexed := stats.indexed + 1, symbols := stats.symbols + count);
        }
      }
      var removed := Prune(if input.prune then existing.Keys - input.contents.Keys else {});
      stats := stats.(removed := removed);
      ResolveCalls();
    }

    /** Deletes files one by one, in any order. */
    method Prune(gone: set<Id>) returns (removed: nat)
      modifies this
      ensures View() == DropFiles(old(View()), gone)
      ensures removed == |gone|
    {
      ghost var before, done := View(), {};
      var rest := gone;
      removed := 0;
      DropNothing(before);
      while rest != {}
        invariant done + rest == gone && done !! rest && removed == |done|
        invariant View() == DropFiles(before, done)
        decreases |rest|
      {
        var path :| path in rest;
        DropTwice(before, done, {path});
        DeleteFile(path);
        rest, done := rest - {path}, done + {path};
        removed := removed + 1;
      }
    }
  }

  lemma DropNothing(ix: Index)
    ensures DropFiles(ix, {}) == ix
  {
    WithoutNothing(ix.symbols, {});
    WithoutNothing(ix.imports, {});
    WithoutNothing(ix.calls, {});
    assert ix.files - {} == ix.files;
  }

  lemma DropTwice(ix: Index, a: set<Id>, b: set<Id>)
    ensures DropFiles(DropFiles(ix, a), b) == DropFiles(ix, a + b)
  {
    WithoutTwice(ix.symbols, a, b);
    WithoutTwice(ix.imports, a, b);
    WithoutTwice(ix.calls, a, b);
    assert ix.files - a - b == ix.files - (a + b);
  }
}
